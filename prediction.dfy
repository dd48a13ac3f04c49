/** Classification of a record by a learned tree (`predict` and
    `DecisionTree.Predict` in tree/tree.go, lines 210-227). */
module Prediction {
  import opened Values
  import opened Statistics
  import opened Splitting
  import opened Induction
  import opened TreeProperties

  /** The category the tree gives the record: at a node the record's value
      of the node's attribute (nil when missing) is tested against the
      pivot, and the walk goes on into the matching or the other child; at
      a leaf its category is the answer. A `>=` test between an int and a
      float64 panics. */
  function Descend(t: Tree, item: Record): (r: Result<string>)
    ensures r.Ok? ==> r.value in LeafLabels(t)
    ensures r.Err? ==> r.error == NumericTypeMismatch
    ensures t.Leaf? ==> r == Ok(t.category)
  {
    match t
    case Leaf(category) => Ok(category)
    case Node(attr, kind, pivot, _, _, matchChild, noMatchChild) =>
      var goesLeft :- Apply(kind, Get(item, attr), pivot);
      if goesLeft then Descend(matchChild, item) else Descend(noMatchChild, item)
  }

  /** `predict` as written: a leaf is recognised by a non-empty category.
      A leaf whose category is "" is taken for a node, and reading its nil
      predicate panics. */
  function DescendAsWritten(t: Tree, item: Record): (r: Result<string>)
    ensures r.Ok? ==> r.value != "" && r.value in LeafLabels(t)
    ensures r.Err? ==> r.error in {NumericTypeMismatch, NilPointer}
  {
    match t
    case Leaf(category) => if category != "" then Ok(category) else Err(NilPointer)
    case Node(attr, kind, pivot, _, _, matchChild, noMatchChild) =>
      var goesLeft :- Apply(kind, Get(item, attr), pivot);
      if goesLeft then DescendAsWritten(matchChild, item) else DescendAsWritten(noMatchChild, item)
  }

  /** The two walks part only where the walk reaches a leaf labelled "":
      there the written code panics instead of answering "". */
  lemma {:induction false} AsWrittenDiffers(t: Tree, item: Record)
    ensures DescendAsWritten(t, item) == (if Descend(t, item) == Ok("") then Err(NilPointer) else Descend(t, item))
  {
    match t
    case Leaf(_) =>
    case Node(attr, kind, pivot, _, _, matchChild, noMatchChild) =>
      AsWrittenDiffers(matchChild, item);
      AsWrittenDiffers(noMatchChild, item);
  }

  /** So on a tree without a leaf labelled "" the written code is correct. */
  lemma AsWrittenAgrees(t: Tree, item: Record)
    requires "" !in LeafLabels(t)
    ensures DescendAsWritten(t, item) == Descend(t, item)
  {
    AsWrittenDiffers(t, item);
  }

  /** The smallest input that shows it: training on the empty set gives the
      leaf "", and `predict` then panics on every record. */
  lemma EmptyTrainingSetPanics(t: Tree, categoryAttr: string, ignoreAttributes: seq<string>, ln: real -> real,
                               item: Record)
    requires Induced(t, [], categoryAttr, ignoreAttributes, ln)
    ensures Descend(t, item) == Ok("")
    ensures DescendAsWritten(t, item) == Err(NilPointer)
  {
    EmptySetIsEmptyLeaf(t, categoryAttr, ignoreAttributes, ln);
  }

  /** `predict`: walks down from the root until it reaches a leaf. */
  method Predict(t: Tree, item: Record) returns (r: Result<string>)
    ensures r == Descend(t, item)
  {
    var tree := t;
    while tree.Node?
      invariant Descend(tree, item) == Descend(t, item)
      decreases tree
    {
      var value := Get(item, tree.attribute);
      var goesLeft := Apply(tree.kind, value, tree.pivot);
      if goesLeft.Err? {
        return Err(goesLeft.error);
      }
      if goesLeft.value {
        tree := tree.matchChild;
      } else {
        tree := tree.noMatchChild;
      }
    }
    return Ok(tree.category);
  }

  /** `predict` as written: the loop runs until it meets a non-empty
      category. An internal node carries the category "", and so does a
      leaf labelled "", whose nil predicate is then read. */
  method PredictAsWritten(t: Tree, item: Record) returns (r: Result<string>)
    ensures r == DescendAsWritten(t, item)
  {
    var tree := t;
    while !(tree.Leaf? && tree.category != "")
      invariant DescendAsWritten(tree, item) == DescendAsWritten(t, item)
      decreases tree
    {
      if tree.Leaf? {
        return Err(NilPointer);
      }
      var value := Get(item, tree.attribute);
      var goesLeft := Apply(tree.kind, value, tree.pivot);
      if goesLeft.Err? {
        return Err(goesLeft.error);
      }
      if goesLeft.value {
        tree := tree.matchChild;
      } else {
        tree := tree.noMatchChild;
      }
    }
    return Ok(tree.category);
  }

  /** The other remedy: a learner that never sees the label "" (it rejects
      the empty set and records labelled "") never builds a leaf "", and
      then the written walk gives the intended answer. */
  lemma TrainedWithoutEmptyLabelAgrees(t: Tree, trainingSet: TrainingSet, categoryAttr: string,
                                       ignoreAttributes: seq<string>, ln: real -> real, item: Record)
    requires Trainable(trainingSet, categoryAttr, ignoreAttributes, ln) && trainingSet != []
    requires "" !in Labels(trainingSet, categoryAttr)
    requires Induced(t, trainingSet, categoryAttr, ignoreAttributes, ln)
    ensures DescendAsWritten(t, item) == Descend(t, item)
  {
    InducedLeafLabels(t, trainingSet, categoryAttr, ignoreAttributes, ln);
    AsWrittenAgrees(t, item);
  }

  /** A category predicted by a tree grown from a non-empty set is a label
      some training record carries. */
  lemma PredictionIsTrainingLabel(t: Tree, trainingSet: TrainingSet, categoryAttr: string,
                                  ignoreAttributes: seq<string>, ln: real -> real, item: Record)
    requires Trainable(trainingSet, categoryAttr, ignoreAttributes, ln) && trainingSet != []
    requires Induced(t, trainingSet, categoryAttr, ignoreAttributes, ln)
    ensures Descend(t, item).Ok? ==> Descend(t, item).value in Labels(trainingSet, categoryAttr)
  {
    InducedLeafLabels(t, trainingSet, categoryAttr, ignoreAttributes, ln);
  }

  /** A training record never makes the tree built from its own set panic:
      every test on its path was applied to it during training without a
      panic. */
  lemma {:induction false} TrainingRecordsClassify(t: Tree, trainingSet: TrainingSet, categoryAttr: string,
                                                   ignoreAttributes: seq<string>, ln: real -> real, item: Record)
    requires Trainable(trainingSet, categoryAttr, ignoreAttributes, ln)
    requires Induced(t, trainingSet, categoryAttr, ignoreAttributes, ln)
    requires item in trainingSet
    ensures Descend(t, item).Ok?
    decreases t
  {
    if t.Node? {
      InducedNode(t, trainingSet, categoryAttr, ignoreAttributes, ln);
      var p := Apply(t.kind, Get(item, t.attribute), t.pivot);
      assert p.Ok?;
      SelectContains(trainingSet, t.attribute, t.kind, t.pivot, p.value, item);
      var side := Select(trainingSet, t.attribute, t.kind, t.pivot, p.value);
      if p.value {
        TrainingRecordsClassify(t.matchChild, side, categoryAttr, ignoreAttributes, ln, item);
      } else {
        TrainingRecordsClassify(t.noMatchChild, side, categoryAttr, ignoreAttributes, ln, item);
      }
    }
  }

  /** A record that lacks a node's attribute always takes the no-match
      branch, whichever predicate the node holds. */
  lemma MissingAttributeGoesNoMatch(t: Tree, item: Record)
    requires t.Node? && t.attribute !in item
    ensures Descend(t, item) == Descend(t.noMatchChild, item)
  {
  }
}
