/** Properties of every tree `makeTrainingTree` can build (tree/tree.go,
    lines 142-208): its shape, its counts, its labels and its size. */
module TreeProperties {
  import opened Values
  import opened Statistics
  import opened Splitting
  import opened Induction

  /** What an internal node of an induced tree guarantees: the rule is a
      candidate of the set that does not panic, both sides are non-empty,
      together they are the set, and the children are induced from them. */
  lemma InducedNode(t: Tree, trainingSet: TrainingSet, categoryAttr: string, ignoreAttributes: seq<string>, ln: real -> real)
    requires Trainable(trainingSet, categoryAttr, ignoreAttributes, ln)
    requires Induced(t, trainingSet, categoryAttr, ignoreAttributes, ln) && t.Node?
    ensures EntropyOf(trainingSet, categoryAttr, ln) > EntropyThreshold
    ensures IsCandidate(trainingSet, categoryAttr, ignoreAttributes, t.attribute, t.pivot)
    ensures !CandidateFails(trainingSet, t.attribute, t.pivot)
    ensures var m := Select(trainingSet, t.attribute, t.kind, t.pivot, true);
            var n := Select(trainingSet, t.attribute, t.kind, t.pivot, false);
            && 0 < |m| < |trainingSet| && 0 < |n| < |trainingSet|
            && multiset(m) + multiset(n) == multiset(trainingSet)
            && t.matchedCount == |m| && t.noMatchedCount == |n|
            && Trainable(m, categoryAttr, ignoreAttributes, ln) && Trainable(n, categoryAttr, ignoreAttributes, ln)
            && Induced(t.matchChild, m, categoryAttr, ignoreAttributes, ln)
            && Induced(t.noMatchChild, n, categoryAttr, ignoreAttributes, ln)
  {
    var k :| FirstRowOf(trainingSet, categoryAttr, ignoreAttributes, ln, t.attribute, t.pivot, k);
    assert trainingSet[k] in trainingSet;
    PositiveGainShrinks(trainingSet, categoryAttr, ln, t.attribute, t.pivot);
    SplitPartition(trainingSet, t.attribute, t.kind, t.pivot);
    SidesTrainable(trainingSet, categoryAttr, ignoreAttributes, ln, t.attribute, t.pivot, true);
    SidesTrainable(trainingSet, categoryAttr, ignoreAttributes, ln, t.attribute, t.pivot, false);
  }

  /** The records of a part of a set carry only labels of the set. */
  lemma LabelsOfPart(part: TrainingSet, trainingSet: TrainingSet, categoryAttr: string)
    requires forall item :: item in part ==> item in trainingSet
    ensures Labels(part, categoryAttr) <= Labels(trainingSet, categoryAttr)
  {
  }

  /** Every label at a leaf of a tree built from a non-empty set is a label
      of some record of the set. */
  lemma {:induction false} InducedLeafLabels(t: Tree, trainingSet: TrainingSet, categoryAttr: string,
                                             ignoreAttributes: seq<string>, ln: real -> real)
    requires Trainable(trainingSet, categoryAttr, ignoreAttributes, ln) && trainingSet != []
    requires Induced(t, trainingSet, categoryAttr, ignoreAttributes, ln)
    ensures LeafLabels(t) <= Labels(trainingSet, categoryAttr)
    decreases t
  {
    if t.Leaf? {
      assert EntropyOf(trainingSet, categoryAttr, ln) <= EntropyThreshold
             || !HasUsefulSplit(trainingSet, categoryAttr, ignoreAttributes, ln);
      MostFrequentOccurs(t.category, trainingSet, categoryAttr);
    } else {
      InducedNode(t, trainingSet, categoryAttr, ignoreAttributes, ln);
      var m := Select(trainingSet, t.attribute, t.kind, t.pivot, true);
      var n := Select(trainingSet, t.attribute, t.kind, t.pivot, false);
      InducedLeafLabels(t.matchChild, m, categoryAttr, ignoreAttributes, ln);
      InducedLeafLabels(t.noMatchChild, n, categoryAttr, ignoreAttributes, ln);
      SelectMembers(trainingSet, t.attribute, t.kind, t.pivot, true);
      SelectMembers(trainingSet, t.attribute, t.kind, t.pivot, false);
      LabelsOfPart(m, trainingSet, categoryAttr);
      LabelsOfPart(n, trainingSet, categoryAttr);
    }
  }

  /** The number of records a subtree was grown from, as the counts of its
      root record it; nothing is recorded for a leaf. */
  function Size(t: Tree, atLeaf: nat): nat
  {
    if t.Leaf? then atLeaf else t.matchedCount + t.noMatchedCount
  }

  /** The shape every induced tree has: each node tests an attribute the
      search may use, with `>=` exactly for a numeric pivot; both of its
      counts are positive; and each child node's counts add up to the count
      of the branch it hangs from. */
  predicate WellFormed(t: Tree, categoryAttr: string, ignoreAttributes: seq<string>)
  {
    t.Node? ==>
      && Allowed(t.attribute, categoryAttr, ignoreAttributes)
      && t.kind == KindOf(t.pivot)
      && t.matchedCount > 0 && t.noMatchedCount > 0
      && Size(t.matchChild, t.matchedCount) == t.matchedCount
      && Size(t.noMatchChild, t.noMatchedCount) == t.noMatchedCount
      && WellFormed(t.matchChild, categoryAttr, ignoreAttributes)
      && WellFormed(t.noMatchChild, categoryAttr, ignoreAttributes)
  }

  /** The counts at the root of an induced tree add up to the size of the
      training set. */
  lemma InducedSize(t: Tree, trainingSet: TrainingSet, categoryAttr: string,
                    ignoreAttributes: seq<string>, ln: real -> real)
    requires Trainable(trainingSet, categoryAttr, ignoreAttributes, ln)
    requires Induced(t, trainingSet, categoryAttr, ignoreAttributes, ln)
    ensures Size(t, |trainingSet|) == |trainingSet|
  {
    if t.Node? {
      InducedNode(t, trainingSet, categoryAttr, ignoreAttributes, ln);
      assert |multiset(trainingSet)| == |trainingSet|;
    }
  }

  /** An induced tree is well formed. */
  lemma {:induction false} InducedWellFormed(t: Tree, trainingSet: TrainingSet, categoryAttr: string,
                                             ignoreAttributes: seq<string>, ln: real -> real)
    requires Trainable(trainingSet, categoryAttr, ignoreAttributes, ln)
    requires Induced(t, trainingSet, categoryAttr, ignoreAttributes, ln)
    ensures WellFormed(t, categoryAttr, ignoreAttributes)
    decreases t
  {
    if t.Node? {
      InducedNode(t, trainingSet, categoryAttr, ignoreAttributes, ln);
      var m := Select(trainingSet, t.attribute, t.kind, t.pivot, true);
      var n := Select(trainingSet, t.attribute, t.kind, t.pivot, false);
      InducedSize(t.matchChild, m, categoryAttr, ignoreAttributes, ln);
      InducedSize(t.noMatchChild, n, categoryAttr, ignoreAttributes, ln);
      InducedWellFormed(t.matchChild, m, categoryAttr, ignoreAttributes, ln);
      InducedWellFormed(t.noMatchChild, n, categoryAttr, ignoreAttributes, ln);
    }
  }

  function LeafCount(t: Tree): nat
  {
    if t.Leaf? then 1 else LeafCount(t.matchChild) + LeafCount(t.noMatchChild)
  }

  /** A tree grown from a non-empty set has no more leaves than the set has
      records: every leaf is grown from at least one record. */
  lemma {:induction false} InducedLeafCount(t: Tree, trainingSet: TrainingSet, categoryAttr: string,
                                            ignoreAttributes: seq<string>, ln: real -> real)
    requires Trainable(trainingSet, categoryAttr, ignoreAttributes, ln) && trainingSet != []
    requires Induced(t, trainingSet, categoryAttr, ignoreAttributes, ln)
    ensures LeafCount(t) <= |trainingSet|
    decreases t
  {
    if t.Node? {
      InducedNode(t, trainingSet, categoryAttr, ignoreAttributes, ln);
      var m := Select(trainingSet, t.attribute, t.kind, t.pivot, true);
      var n := Select(trainingSet, t.attribute, t.kind, t.pivot, false);
      InducedLeafCount(t.matchChild, m, categoryAttr, ignoreAttributes, ln);
      InducedLeafCount(t.noMatchChild, n, categoryAttr, ignoreAttributes, ln);
      assert |multiset(trainingSet)| == |trainingSet|;
    }
  }

  /** A set whose records all carry the same label becomes a single leaf
      with that label. */
  lemma PureSetIsLeaf(t: Tree, trainingSet: TrainingSet, categoryAttr: string, ignoreAttributes: seq<string>,
                      ln: real -> real, category: string)
    requires ln(1.0) == 0.0 && trainingSet != []
    requires Pure(trainingSet, categoryAttr, category)
    ensures Trainable(trainingSet, categoryAttr, ignoreAttributes, ln)
    ensures Induced(t, trainingSet, categoryAttr, ignoreAttributes, ln) <==> t == Leaf(category)
  {
    EntropyPure(trainingSet, categoryAttr, category, ln);
    assert LabelsOk(trainingSet, categoryAttr);
    if Induced(t, trainingSet, categoryAttr, ignoreAttributes, ln) {
      assert t.Leaf? && IsMostFrequent(t.category, trainingSet, categoryAttr);
      var tally := Tally(trainingSet, categoryAttr);
      assert tally == map[category := |trainingSet|];
      assert category in tally;
      assert t.category in tally;
    }
  }

  /** The empty set becomes a single leaf labelled "": its counter is empty,
      so `mostFrequentValue` returns the zero string. */
  lemma EmptySetIsEmptyLeaf(t: Tree, categoryAttr: string, ignoreAttributes: seq<string>, ln: real -> real)
    ensures Trainable([], categoryAttr, ignoreAttributes, ln)
    ensures Induced(t, [], categoryAttr, ignoreAttributes, ln) <==> t == Leaf("")
  {
    EntropyEmpty(categoryAttr, ln);
    assert Labels([], categoryAttr) == {};
  }
}
