/** Greedy recursive induction of the tree (`makeTrainingTree` in
    tree/tree.go): every attribute value observed in the set is tried as a
    pivot, the split with the largest information gain is kept, and the two
    halves are grown the same way until the entropy is at most 0.01 or no
    split gains anything. */
module Induction {
  import opened Values
  import opened Statistics
  import opened Splitting

  const EntropyThreshold: real := 0.01

  /** The search skips the category attribute and the ignored attributes. */
  predicate Allowed(attr: string, categoryAttr: string, ignoreAttributes: seq<string>)
  {
    attr != categoryAttr && attr !in ignoreAttributes
  }

  /** (attr, pivot) is a pair the search visits: a value some record holds
      under an attribute that is not skipped. */
  ghost predicate IsCandidate(trainingSet: TrainingSet, categoryAttr: string, ignoreAttributes: seq<string>,
                              attr: string, pivot: Value)
  {
    Allowed(attr, categoryAttr, ignoreAttributes)
    && exists item :: item in trainingSet && attr in item && item[attr] == pivot
  }

  /** Some record makes the candidate's predicate panic. */
  ghost predicate CandidateFails(trainingSet: TrainingSet, attr: string, pivot: Value)
  {
    SplitFails(trainingSet, attr, KindOf(pivot), pivot)
  }

  /** The information gain, computed as `makeTrainingTree` does: the
      parent's entropy less the size-weighted mean of the two sides'
      entropies. */
  function WeightedGain(parent: real, matchEntropy: real, matchSize: nat,
                        noMatchEntropy: real, noMatchSize: nat, size: nat): real
    requires size > 0
  {
    parent - ((0.0 + matchEntropy * matchSize as real) + noMatchEntropy * noMatchSize as real) / size as real
  }

  /** The information gain of splitting on (attr, pivot). */
  ghost function Gain(trainingSet: TrainingSet, categoryAttr: string, ln: real -> real, attr: string, pivot: Value): real
    requires |trainingSet| > 0
  {
    var kind := KindOf(pivot);
    var m := Select(trainingSet, attr, kind, pivot, true);
    var n := Select(trainingSet, attr, kind, pivot, false);
    WeightedGain(EntropyOf(trainingSet, categoryAttr, ln), EntropyOf(m, categoryAttr, ln), |m|,
                 EntropyOf(n, categoryAttr, ln), |n|, |trainingSet|)
  }

  /** Some candidate panics, so a search that gets to run panics. */
  ghost predicate Mixed(trainingSet: TrainingSet, categoryAttr: string, ignoreAttributes: seq<string>)
  {
    exists attr, pivot :: IsCandidate(trainingSet, categoryAttr, ignoreAttributes, attr, pivot)
                         && CandidateFails(trainingSet, attr, pivot)
  }

  /** Some candidate has a strictly positive gain. */
  ghost predicate HasUsefulSplit(trainingSet: TrainingSet, categoryAttr: string, ignoreAttributes: seq<string>, ln: real -> real)
  {
    exists attr, pivot :: IsCandidate(trainingSet, categoryAttr, ignoreAttributes, attr, pivot)
                         && Gain(trainingSet, categoryAttr, ln, attr, pivot) > 0.0
  }

  /** The candidate the search keeps: its gain is positive and no candidate's
      is larger, and it comes from the earliest record holding such a
      candidate (every candidate of an earlier record has a strictly smaller
      gain). Among the attributes of that record the map order decides. */
  ghost predicate IsFirstBest(trainingSet: TrainingSet, categoryAttr: string, ignoreAttributes: seq<string>,
                              ln: real -> real, attr: string, pivot: Value)
  {
    && |trainingSet| > 0
    && Allowed(attr, categoryAttr, ignoreAttributes)
    && Gain(trainingSet, categoryAttr, ln, attr, pivot) > 0.0
    && (forall a, p :: IsCandidate(trainingSet, categoryAttr, ignoreAttributes, a, p) ==>
          Gain(trainingSet, categoryAttr, ln, a, p) <= Gain(trainingSet, categoryAttr, ln, attr, pivot))
    && exists k :: FirstRowOf(trainingSet, categoryAttr, ignoreAttributes, ln, attr, pivot, k)
  }

  ghost predicate FirstRowOf(trainingSet: TrainingSet, categoryAttr: string, ignoreAttributes: seq<string>,
                             ln: real -> real, attr: string, pivot: Value, k: int)
    requires |trainingSet| > 0
  {
    && 0 <= k < |trainingSet| && attr in trainingSet[k] && trainingSet[k][attr] == pivot
    && forall j, a :: 0 <= j < k && a in trainingSet[j] && Allowed(a, categoryAttr, ignoreAttributes) ==>
         Gain(trainingSet, categoryAttr, ln, a, trainingSet[j][a]) < Gain(trainingSet, categoryAttr, ln, attr, pivot)
  }

  /** The split the search records for a candidate. */
  ghost function Scored(trainingSet: TrainingSet, categoryAttr: string, ln: real -> real, attr: string, pivot: Value): Split
    requires |trainingSet| > 0
  {
    var kind := KindOf(pivot);
    Split(Select(trainingSet, attr, kind, pivot, true), Select(trainingSet, attr, kind, pivot, false),
          Gain(trainingSet, categoryAttr, ln, attr, pivot), attr, Some(kind), Some(pivot))
  }

  /** What the search ends with: Go's zero `Split` when no candidate gains
      anything, otherwise the first best candidate with its two sides. */
  ghost predicate IsSearchResult(trainingSet: TrainingSet, categoryAttr: string, ignoreAttributes: seq<string>,
                                 ln: real -> real, best: Split)
  {
    if best.gain == 0.0 then
      best == Split([], [], 0.0, "", None, None) && !HasUsefulSplit(trainingSet, categoryAttr, ignoreAttributes, ln)
    else
      best.pivot.Some? && IsFirstBest(trainingSet, categoryAttr, ignoreAttributes, ln, best.attribute, best.pivot.value)
      && best == Scored(trainingSet, categoryAttr, ln, best.attribute, best.pivot.value)
  }

  /** The inputs on which `makeTrainingTree` does not panic: every label is
      a string, and unless the set is already pure enough no candidate's
      predicate panics. */
  ghost predicate Trainable(trainingSet: TrainingSet, categoryAttr: string, ignoreAttributes: seq<string>, ln: real -> real)
  {
    LabelsOk(trainingSet, categoryAttr)
    && (EntropyOf(trainingSet, categoryAttr, ln) <= EntropyThreshold || !Mixed(trainingSet, categoryAttr, ignoreAttributes))
  }

  /** `t` is a tree `makeTrainingTree` can return for the set, whatever
      order the maps are iterated in. */
  ghost predicate Induced(t: Tree, trainingSet: TrainingSet, categoryAttr: string, ignoreAttributes: seq<string>, ln: real -> real)
    decreases t
  {
    if EntropyOf(trainingSet, categoryAttr, ln) <= EntropyThreshold
       || !HasUsefulSplit(trainingSet, categoryAttr, ignoreAttributes, ln) then
      t.Leaf? && IsMostFrequent(t.category, trainingSet, categoryAttr)
    else
      && t.Node?
      && t.kind == KindOf(t.pivot)
      && IsFirstBest(trainingSet, categoryAttr, ignoreAttributes, ln, t.attribute, t.pivot)
      && var m := Select(trainingSet, t.attribute, t.kind, t.pivot, true);
         var n := Select(trainingSet, t.attribute, t.kind, t.pivot, false);
         && t.matchedCount == |m| && t.noMatchedCount == |n|
         && Induced(t.matchChild, m, categoryAttr, ignoreAttributes, ln)
         && Induced(t.noMatchChild, n, categoryAttr, ignoreAttributes, ln)
  }

  /** A split that sends every record one way gains nothing: e - e·n/n = 0. */
  lemma OneSidedGainIsZero(trainingSet: TrainingSet, categoryAttr: string, ln: real -> real, attr: string, pivot: Value)
    requires |trainingSet| > 0
    requires !CandidateFails(trainingSet, attr, pivot)
    ensures |Select(trainingSet, attr, KindOf(pivot), pivot, true)| == 0
            || |Select(trainingSet, attr, KindOf(pivot), pivot, false)| == 0
            ==> Gain(trainingSet, categoryAttr, ln, attr, pivot) == 0.0
  {
    var kind := KindOf(pivot);
    var m := Select(trainingSet, attr, kind, pivot, true);
    var n := Select(trainingSet, attr, kind, pivot, false);
    var e := EntropyOf(trainingSet, categoryAttr, ln);
    var em, en := EntropyOf(m, categoryAttr, ln), EntropyOf(n, categoryAttr, ln);
    if |n| == 0 {
      SelectAll(trainingSet, attr, kind, pivot, true);
      WholeSideGainsNothing(e, en, |trainingSet|);
    }
    if |m| == 0 {
      SelectAll(trainingSet, attr, kind, pivot, false);
      WholeSideGainsNothing(e, em, |trainingSet|);
    }
  }

  lemma WholeSideGainsNothing(e: real, other: real, size: nat)
    requires size > 0
    ensures WeightedGain(e, e, size, other, 0, size) == 0.0
    ensures WeightedGain(e, other, 0, e, size, size) == 0.0
  {
  }

  /** A positive gain leaves both sides non-empty and strictly smaller than
      the set. This is why the recursion of `makeTrainingTree` terminates. */
  lemma PositiveGainShrinks(trainingSet: TrainingSet, categoryAttr: string, ln: real -> real, attr: string, pivot: Value)
    requires |trainingSet| > 0
    requires !CandidateFails(trainingSet, attr, pivot)
    requires Gain(trainingSet, categoryAttr, ln, attr, pivot) > 0.0
    ensures 0 < |Select(trainingSet, attr, KindOf(pivot), pivot, true)| < |trainingSet|
    ensures 0 < |Select(trainingSet, attr, KindOf(pivot), pivot, false)| < |trainingSet|
  {
    OneSidedGainIsZero(trainingSet, categoryAttr, ln, attr, pivot);
    SplitPartition(trainingSet, attr, KindOf(pivot), pivot);
  }

  /** Records drawn from a set whose search would not panic cannot make a
      search panic either. */
  lemma MixedFromSubset(sub: TrainingSet, trainingSet: TrainingSet, categoryAttr: string, ignoreAttributes: seq<string>)
    requires forall item :: item in sub ==> item in trainingSet
    requires Mixed(sub, categoryAttr, ignoreAttributes)
    ensures Mixed(trainingSet, categoryAttr, ignoreAttributes)
  {
    var attr, pivot :| IsCandidate(sub, categoryAttr, ignoreAttributes, attr, pivot) && CandidateFails(sub, attr, pivot);
    var item :| item in sub && attr in item && item[attr] == pivot;
    assert item in trainingSet;
    assert IsCandidate(trainingSet, categoryAttr, ignoreAttributes, attr, pivot);
    var bad :| bad in sub && Apply(KindOf(pivot), Get(bad, attr), pivot).Err?;
    assert bad in trainingSet;
    assert CandidateFails(trainingSet, attr, pivot);
  }

  /** Both sides of the chosen split can be trained without a panic. */
  lemma SidesTrainable(trainingSet: TrainingSet, categoryAttr: string, ignoreAttributes: seq<string>, ln: real -> real,
                       attr: string, pivot: Value, want: bool)
    requires LabelsOk(trainingSet, categoryAttr) && !Mixed(trainingSet, categoryAttr, ignoreAttributes)
    ensures Trainable(Select(trainingSet, attr, KindOf(pivot), pivot, want), categoryAttr, ignoreAttributes, ln)
    ensures !Mixed(Select(trainingSet, attr, KindOf(pivot), pivot, want), categoryAttr, ignoreAttributes)
  {
    var side := Select(trainingSet, attr, KindOf(pivot), pivot, want);
    SelectMembers(trainingSet, attr, KindOf(pivot), pivot, want);
    if Mixed(side, categoryAttr, ignoreAttributes) {
      MixedFromSubset(side, trainingSet, categoryAttr, ignoreAttributes);
    }
  }

  /** Scores one candidate: lines 155-178 of the search loop. */
  method ScoreCandidate(trainingSet: TrainingSet, categoryAttr: string, ln: real -> real, initEntropy: real,
                        attr: string, pivot: Value) returns (r: Result<Split>)
    requires |trainingSet| > 0 && LabelsOk(trainingSet, categoryAttr)
    requires initEntropy == EntropyOf(trainingSet, categoryAttr, ln)
    ensures r.Err? <==> CandidateFails(trainingSet, attr, pivot)
    ensures r.Err? ==> r.error == NumericTypeMismatch
    ensures r.Ok? ==> r.value == Scored(trainingSet, categoryAttr, ln, attr, pivot)
  {
    var kind := KindOf(pivot);
    var currSplit :- SplitSet(trainingSet, attr, kind, pivot);
    SelectMembers(trainingSet, attr, kind, pivot, true);
    SelectMembers(trainingSet, attr, kind, pivot, false);
    var matchEntropy := Entropy(currSplit.matchSet, categoryAttr, ln);
    var noMatchEntropy := Entropy(currSplit.noMatchSet, categoryAttr, ln);
    var currGain := WeightedGain(initEntropy, matchEntropy.value, |currSplit.matchSet|,
                                 noMatchEntropy.value, |currSplit.noMatchSet|, |trainingSet|);
    return Ok(currSplit.(gain := currGain, attribute := attr, pivot := Some(pivot), kind := Some(kind)));
  }

  /** Every allowed candidate of the rows before `i` has been scored without
      a panic and gains no more than `bound`. */
  ghost predicate RowsDone(trainingSet: TrainingSet, categoryAttr: string, ignoreAttributes: seq<string>, ln: real -> real,
                           i: int, bound: real)
    requires 0 <= i <= |trainingSet|
  {
    forall k, a :: 0 <= k < i && a in trainingSet[k] && Allowed(a, categoryAttr, ignoreAttributes) ==>
      !CandidateFails(trainingSet, a, trainingSet[k][a]) && Gain(trainingSet, categoryAttr, ln, a, trainingSet[k][a]) <= bound
  }

  /** The best split so far, found in row `row`, not later than row `i`. */
  ghost predicate BestSoFar(trainingSet: TrainingSet, categoryAttr: string, ignoreAttributes: seq<string>, ln: real -> real,
                            best: Split, row: int, i: int)
  {
    if best.gain == 0.0 then best == Split([], [], 0.0, "", None, None)
    else
      && best.gain > 0.0 && best.pivot.Some?
      && 0 <= row <= i && row < |trainingSet|
      && Allowed(best.attribute, categoryAttr, ignoreAttributes)
      && best == Scored(trainingSet, categoryAttr, ln, best.attribute, best.pivot.value)
      && FirstRowOf(trainingSet, categoryAttr, ignoreAttributes, ln, best.attribute, best.pivot.value, row)
  }

  /** Attribute `a` of record `i`, if the search does not skip it, has been
      scored without a panic and gains no more than `bound`. */
  ghost predicate Considered(trainingSet: TrainingSet, categoryAttr: string, ignoreAttributes: seq<string>,
                             ln: real -> real, i: int, a: string, bound: real)
    requires 0 <= i < |trainingSet|
  {
    a in trainingSet[i] && Allowed(a, categoryAttr, ignoreAttributes) ==>
      !CandidateFails(trainingSet, a, trainingSet[i][a]) && Gain(trainingSet, categoryAttr, ln, a, trainingSet[i][a]) <= bound
  }

  /** One pass of the inner loop (lines 151-186): skip the category and the
      ignored attributes, otherwise score the candidate and keep it when its
      gain is strictly larger. */
  method ConsiderAttribute(trainingSet: TrainingSet, categoryAttr: string, ignoreAttributes: seq<string>,
                           ln: real -> real, initEntropy: real, i: nat, attr: string, best: Split, ghost bestRow: int)
    returns (r: Result<Split>, ghost row: int)
    requires i < |trainingSet| && attr in trainingSet[i] && LabelsOk(trainingSet, categoryAttr)
    requires initEntropy == EntropyOf(trainingSet, categoryAttr, ln)
    requires RowsDone(trainingSet, categoryAttr, ignoreAttributes, ln, i, best.gain)
    requires BestSoFar(trainingSet, categoryAttr, ignoreAttributes, ln, best, bestRow, i)
    ensures r.Err? ==> Mixed(trainingSet, categoryAttr, ignoreAttributes) && r.error == NumericTypeMismatch
    ensures r.Ok? ==> best.gain <= r.value.gain
    ensures r.Ok? ==> Considered(trainingSet, categoryAttr, ignoreAttributes, ln, i, attr, r.value.gain)
    ensures r.Ok? ==> RowsDone(trainingSet, categoryAttr, ignoreAttributes, ln, i, r.value.gain)
    ensures r.Ok? ==> BestSoFar(trainingSet, categoryAttr, ignoreAttributes, ln, r.value, row, i)
    ensures !Allowed(attr, categoryAttr, ignoreAttributes) ==> r == Ok(best) && row == bestRow
    ensures r.Ok? && r.value != best ==>
              r.value.gain > best.gain && row == i &&
              r.value == Scored(trainingSet, categoryAttr, ln, attr, trainingSet[i][attr])
    ensures r.Ok? && Allowed(attr, categoryAttr, ignoreAttributes) &&
            Gain(trainingSet, categoryAttr, ln, attr, trainingSet[i][attr]) > best.gain ==>
              r.value == Scored(trainingSet, categoryAttr, ln, attr, trainingSet[i][attr]) && row == i
  {
    var pivot := trainingSet[i][attr];
    if attr == categoryAttr || StringInSlice(attr, ignoreAttributes) {
      return Ok(best), bestRow;
    }
    var currSplit := ScoreCandidate(trainingSet, categoryAttr, ln, initEntropy, attr, pivot);
    if currSplit.Err? {
      assert trainingSet[i] in trainingSet;
      assert IsCandidate(trainingSet, categoryAttr, ignoreAttributes, attr, pivot);
      return Err(currSplit.error), bestRow;
    }
    if currSplit.value.gain > best.gain {
      RowsDoneWeaker(trainingSet, categoryAttr, ignoreAttributes, ln, i, best.gain, currSplit.value.gain);
      return currSplit, i;
    }
    return Ok(best), bestRow;
  }

  /** The inner loop of the search (lines 150-187): every attribute of
      record `i`, in map order. */
  method SearchRecord(trainingSet: TrainingSet, categoryAttr: string, ignoreAttributes: seq<string>,
                      ln: real -> real, initEntropy: real, i: nat, best: Split, ghost bestRow: int)
    returns (r: Result<Split>, ghost row: int)
    requires i < |trainingSet| && LabelsOk(trainingSet, categoryAttr)
    requires initEntropy == EntropyOf(trainingSet, categoryAttr, ln)
    requires RowsDone(trainingSet, categoryAttr, ignoreAttributes, ln, i, best.gain)
    requires BestSoFar(trainingSet, categoryAttr, ignoreAttributes, ln, best, bestRow, i)
    ensures r.Err? ==> Mixed(trainingSet, categoryAttr, ignoreAttributes) && r.error == NumericTypeMismatch
    ensures r.Ok? ==> RowsDone(trainingSet, categoryAttr, ignoreAttributes, ln, i + 1, r.value.gain)
    ensures r.Ok? ==> BestSoFar(trainingSet, categoryAttr, ignoreAttributes, ln, r.value, row, i + 1)
  {
    var bestSplit := best;
    row := bestRow;
    var attrs := trainingSet[i].Keys;
    while attrs != {}
      invariant attrs <= trainingSet[i].Keys
      invariant RowsDone(trainingSet, categoryAttr, ignoreAttributes, ln, i, bestSplit.gain)
      invariant forall a :: a in trainingSet[i] && a !in attrs ==>
                  Considered(trainingSet, categoryAttr, ignoreAttributes, ln, i, a, bestSplit.gain)
      invariant BestSoFar(trainingSet, categoryAttr, ignoreAttributes, ln, bestSplit, row, i)
      decreases attrs
    {
      var attr :| attr in attrs;
      var next;
      next, row := ConsiderAttribute(trainingSet, categoryAttr, ignoreAttributes, ln, initEntropy, i, attr, bestSplit, row);
      if next.Err? {
        return next, row;
      }
      ConsideredWeaker(trainingSet, categoryAttr, ignoreAttributes, ln, i, attrs, bestSplit.gain, next.value.gain);
      bestSplit := next.value;
      attrs := attrs - {attr};
    }
    RowsExtend(trainingSet, categoryAttr, ignoreAttributes, ln, i, bestSplit.gain);
    return Ok(bestSplit), row;
  }

  lemma ConsideredWeaker(trainingSet: TrainingSet, categoryAttr: string, ignoreAttributes: seq<string>, ln: real -> real,
                         i: int, attrs: set<string>, bound: real, larger: real)
    requires 0 <= i < |trainingSet| && bound <= larger
    requires forall a :: a in trainingSet[i] && a !in attrs ==>
               Considered(trainingSet, categoryAttr, ignoreAttributes, ln, i, a, bound)
    ensures forall a :: a in trainingSet[i] && a !in attrs ==>
              Considered(trainingSet, categoryAttr, ignoreAttributes, ln, i, a, larger)
  {
  }

  lemma RowsDoneWeaker(trainingSet: TrainingSet, categoryAttr: string, ignoreAttributes: seq<string>, ln: real -> real,
                       i: int, bound: real, larger: real)
    requires 0 <= i <= |trainingSet| && bound <= larger
    requires RowsDone(trainingSet, categoryAttr, ignoreAttributes, ln, i, bound)
    ensures RowsDone(trainingSet, categoryAttr, ignoreAttributes, ln, i, larger)
  {
  }

  lemma RowsExtend(trainingSet: TrainingSet, categoryAttr: string, ignoreAttributes: seq<string>, ln: real -> real,
                   i: int, bound: real)
    requires 0 <= i < |trainingSet|
    requires RowsDone(trainingSet, categoryAttr, ignoreAttributes, ln, i, bound)
    requires forall a :: a in trainingSet[i] ==> Considered(trainingSet, categoryAttr, ignoreAttributes, ln, i, a, bound)
    ensures RowsDone(trainingSet, categoryAttr, ignoreAttributes, ln, i + 1, bound)
  {
  }

  /** The nested loops of `makeTrainingTree` (lines 147-188): every record,
      every attribute of it in map order, keeping the first strictly larger
      gain. */
  method FindBestSplit(trainingSet: TrainingSet, categoryAttr: string, ignoreAttributes: seq<string>,
                       ln: real -> real, initEntropy: real) returns (r: Result<Split>)
    requires LabelsOk(trainingSet, categoryAttr)
    requires initEntropy == EntropyOf(trainingSet, categoryAttr, ln)
    ensures r.Err? <==> Mixed(trainingSet, categoryAttr, ignoreAttributes)
    ensures r.Err? ==> r.error == NumericTypeMismatch
    ensures r.Ok? ==> IsSearchResult(trainingSet, categoryAttr, ignoreAttributes, ln, r.value)
  {
    var bestSplit := Split([], [], 0.0, "", None, None);
    ghost var bestRow := 0;
    for i := 0 to |trainingSet|
      invariant RowsDone(trainingSet, categoryAttr, ignoreAttributes, ln, i, bestSplit.gain)
      invariant BestSoFar(trainingSet, categoryAttr, ignoreAttributes, ln, bestSplit, bestRow, i)
    {
      var next;
      next, bestRow := SearchRecord(trainingSet, categoryAttr, ignoreAttributes, ln, initEntropy, i, bestSplit, bestRow);
      if next.Err? {
        return Err(next.error);
      }
      bestSplit := next.value;
    }
    SearchComplete(trainingSet, categoryAttr, ignoreAttributes, ln, bestSplit.gain);
    if bestSplit.gain != 0.0 {
      assert FirstRowOf(trainingSet, categoryAttr, ignoreAttributes, ln, bestSplit.attribute, bestSplit.pivot.value, bestRow);
    }
    return Ok(bestSplit);
  }

  /** Once every row is done, the bound holds for every candidate and none
      of them panics. */
  lemma SearchComplete(trainingSet: TrainingSet, categoryAttr: string, ignoreAttributes: seq<string>, ln: real -> real, bound: real)
    requires RowsDone(trainingSet, categoryAttr, ignoreAttributes, ln, |trainingSet|, bound)
    ensures !Mixed(trainingSet, categoryAttr, ignoreAttributes)
    ensures forall a, p :: IsCandidate(trainingSet, categoryAttr, ignoreAttributes, a, p) ==>
              Gain(trainingSet, categoryAttr, ln, a, p) <= bound
  {
    forall a, p | IsCandidate(trainingSet, categoryAttr, ignoreAttributes, a, p)
      ensures !CandidateFails(trainingSet, a, p) && Gain(trainingSet, categoryAttr, ln, a, p) <= bound
    {
      var item :| item in trainingSet && a in item && item[a] == p;
      var k :| 0 <= k < |trainingSet| && trainingSet[k] == item;
    }
  }

  /** `makeTrainingTree`. A leaf when the entropy is at most 0.01 or no
      candidate gains anything, labelled with the majority label; otherwise
      a node on the first best candidate whose children are grown from its
      two sides. */
  method MakeTrainingTree(trainingSet: TrainingSet, categoryAttr: string, ignoreAttributes: seq<string>,
                          ln: real -> real) returns (r: Result<Tree>)
    ensures r.Ok? <==> Trainable(trainingSet, categoryAttr, ignoreAttributes, ln)
    ensures !LabelsOk(trainingSet, categoryAttr) ==> r == Err(LabelNotString)
    ensures LabelsOk(trainingSet, categoryAttr) && r.Err? ==> r.error == NumericTypeMismatch
    ensures r.Ok? ==> Induced(r.value, trainingSet, categoryAttr, ignoreAttributes, ln)
    ensures r.Ok? && EntropyOf(trainingSet, categoryAttr, ln) <= EntropyThreshold ==> r.value.Leaf?
    decreases |trainingSet|
  {
    var initEntropy :- Entropy(trainingSet, categoryAttr, ln);
    if initEntropy <= EntropyThreshold {
      var category := MostFrequentValue(trainingSet, categoryAttr);
      return Ok(Leaf(category.value));
    }
    var bestSplit :- FindBestSplit(trainingSet, categoryAttr, ignoreAttributes, ln, initEntropy);
    if bestSplit.gain == 0.0 {
      // can't find optimal split
      var category := MostFrequentValue(trainingSet, categoryAttr);
      return Ok(Leaf(category.value));
    }
    var attr, pivot := bestSplit.attribute, bestSplit.pivot.value;
    assert IsCandidate(trainingSet, categoryAttr, ignoreAttributes, attr, pivot) by {
      var k :| FirstRowOf(trainingSet, categoryAttr, ignoreAttributes, ln, attr, pivot, k);
      assert trainingSet[k] in trainingSet;
    }
    PositiveGainShrinks(trainingSet, categoryAttr, ln, attr, pivot);
    SidesTrainable(trainingSet, categoryAttr, ignoreAttributes, ln, attr, pivot, true);
    SidesTrainable(trainingSet, categoryAttr, ignoreAttributes, ln, attr, pivot, false);
    var matchSubTree := MakeTrainingTree(bestSplit.matchSet, categoryAttr, ignoreAttributes, ln);
    var notMatchSubTree := MakeTrainingTree(bestSplit.noMatchSet, categoryAttr, ignoreAttributes, ln);
    return Ok(Node(attr, bestSplit.kind.value, pivot,
                   |bestSplit.matchSet|, |bestSplit.noMatchSet|,
                   matchSubTree.value, notMatchSubTree.value));
  }
}
