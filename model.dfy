/** The `DecisionTree` object (tree/tree.go, lines 11-15): the root of the
    learned tree, the attribute holding the category, and the attributes
    the learner must not split on. `TrainingTree` replaces the root;
    `Predict` reads it. */
module Model {
  import opened Values
  import opened Statistics
  import opened Induction
  import Prediction

  class DecisionTree {
    /** `Root`; None is Go's nil before any training. */
    var root: Option<Tree>
    var categoryAttr: string
    var ignoredAttribute: seq<string>

    /** The struct literal `DecisionTree{CategoryAttr: …, IgnoredAttribute: …}`. */
    constructor (categoryAttr: string, ignoredAttribute: seq<string>)
      ensures this.root == None
      ensures this.categoryAttr == categoryAttr && this.ignoredAttribute == ignoredAttribute
    {
      this.root := None;
      this.categoryAttr := categoryAttr;
      this.ignoredAttribute := ignoredAttribute;
    }

    /** The root was induced from `trainingSet` with this object's
        settings. */
    ghost predicate TrainedOn(trainingSet: TrainingSet, ln: real -> real)
      reads this
    {
      root.Some? && Induced(root.value, trainingSet, categoryAttr, ignoredAttribute, ln)
    }

    /** `Predict`: classifies a record with the root by the walk as
        written; an object that was never trained has a nil root, and
        reading it panics. */
    method Predict(item: Record) returns (r: Result<string>)
      ensures root.None? ==> r == Err(NilPointer)
      ensures root.Some? ==> r == Prediction.DescendAsWritten(root.value, item)
      ensures r.Ok? ==> root.Some? && r.value != "" && r.value in LeafLabels(root.value)
    {
      if root.None? {
        return Err(NilPointer);
      }
      r := Prediction.PredictAsWritten(root.value, item);
    }
  }

  /** `TrainingTree`: grows a tree from the set with the object's settings
      and stores it as the root. When `makeTrainingTree` panics the root is
      not assigned, and the panic is returned. */
  method TrainingTree(tree: DecisionTree, trainingSet: TrainingSet, ln: real -> real) returns (failure: Option<Error>)
    modifies tree`root
    ensures failure.None? <==> Trainable(trainingSet, tree.categoryAttr, tree.ignoredAttribute, ln)
    ensures failure.None? ==> tree.TrainedOn(trainingSet, ln)
    ensures failure.Some? ==> tree.root == old(tree.root)
    ensures failure == Some(LabelNotString) <==> !LabelsOk(trainingSet, tree.categoryAttr)
    ensures failure.Some? && LabelsOk(trainingSet, tree.categoryAttr) ==> failure == Some(NumericTypeMismatch)
  {
    var r := MakeTrainingTree(trainingSet, tree.categoryAttr, tree.ignoredAttribute, ln);
    if r.Err? {
      return Some(r.error);
    }
    tree.root := Some(r.value);
    return None;
  }

  /** Training on a non-empty set and then predicting answers with a
      non-empty label of the set, or panics: on a mixed int/float64
      comparison, or on a nil predicate, which needs a record of the set
      labelled "". A record of the set is classified without a panic unless
      some record is labelled "". */
  method TrainAndPredict(tree: DecisionTree, trainingSet: TrainingSet, ln: real -> real, item: Record)
    returns (r: Result<string>)
    requires trainingSet != []
    requires Trainable(trainingSet, tree.categoryAttr, tree.ignoredAttribute, ln)
    modifies tree`root
    ensures r.Ok? ==> r.value != "" && r.value in Labels(trainingSet, tree.categoryAttr)
    ensures r.Err? ==> r.error in {NumericTypeMismatch, NilPointer}
    ensures r == Err(NilPointer) ==> "" in Labels(trainingSet, tree.categoryAttr)
    ensures item in trainingSet && "" !in Labels(trainingSet, tree.categoryAttr) ==> r.Ok?
  {
    var failure := TrainingTree(tree, trainingSet, ln);
    assert failure.None?;
    r := tree.Predict(item);
    var root := tree.root.value;
    Prediction.AsWrittenDiffers(root, item);
    Prediction.PredictionIsTrainingLabel(root, trainingSet, tree.categoryAttr, tree.ignoredAttribute, ln, item);
    if item in trainingSet {
      Prediction.TrainingRecordsClassify(root, trainingSet, tree.categoryAttr, tree.ignoredAttribute, ln, item);
    }
  }
}
