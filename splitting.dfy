/** The two predicates, the choice between them, and the partition of a
    training set by one (attribute, predicate, pivot) triple (`predicateEq`,
    `predicateGte`, `stringInSlice`, `split` in tree/tree.go). */
module Splitting {
  import opened Values

  predicate IsNumeric(v: Value) { v.Int? || v.Float? }

  /** The two values have the same dynamic Go type. */
  predicate SameType(x: Value, y: Value)
  {
    (x.Str? && y.Str?) || (x.Int? && y.Int?) || (x.Float? && y.Float?)
  }

  /** The number a numeric value stands for. */
  function Numeric(v: Value): real
    requires IsNumeric(v)
  {
    if v.Int? then v.i as real else v.f
  }

  /** `predicateEq`: Go's `==` on two `interface{}` values, true only when the
      dynamic types agree and so do the values; a missing value (nil) never
      equals a pivot. */
  function PredicateEq(a: Option<Value>, b: Value): (r: bool)
    ensures r <==> a.Some? && SameType(a.value, b) &&
                   (b.Str? ==> a.value.s == b.s) &&
                   (b.Int? ==> a.value.i == b.i) &&
                   (b.Float? ==> a.value.f == b.f)
  {
    a == Some(b)
  }

  /** `predicateGte`: switches on the dynamic type of `a`. An int or float64
      `a` is compared with `b` asserted to the same type, which panics when
      `b` has another type; any other `a`, nil included, gives false. */
  function PredicateGte(a: Option<Value>, b: Value): (r: Result<bool>)
    ensures a.None? || a.value.Str? ==> r == Ok(false)
    ensures r.Err? <==> a.Some? && IsNumeric(a.value) && !SameType(a.value, b)
    ensures r.Err? ==> r.error == NumericTypeMismatch
    ensures r.Ok? && a.Some? && IsNumeric(a.value) ==>
              IsNumeric(b) && (r.value <==> Numeric(a.value) >= Numeric(b))
  {
    match a
    case Some(Float(x)) => if b.Float? then Ok(x >= b.f) else Err(NumericTypeMismatch)
    case Some(Int(x)) => if b.Int? then Ok(x >= b.i) else Err(NumericTypeMismatch)
    case _ => Ok(false)
  }

  /** The predicate `makeTrainingTree` pairs with a pivot: `>=` for an int or
      float64 pivot, `==` for anything else. The pairing is what keeps the
      search from panicking on a value of the pivot's own type, and the
      record the pivot was taken from always matches it. */
  function KindOf(pivot: Value): (k: PredicateKind)
    ensures k == Gte <==> IsNumeric(pivot)
    ensures forall v: Value :: SameType(v, pivot) ==> Apply(k, Some(v), pivot).Ok?
    ensures Apply(k, Some(pivot), pivot) == Ok(true)
  {
    if pivot.Int? || pivot.Float? then Gte else Eq
  }

  /** Calling the predicate a node or split holds. */
  function Apply(kind: PredicateKind, a: Option<Value>, pivot: Value): (r: Result<bool>)
    ensures a.None? ==> r == Ok(false)
    ensures kind == Eq ==> r.Ok?
    ensures r.Ok? && r.value ==> a.Some?
  {
    match kind
    case Eq => Ok(PredicateEq(a, pivot))
    case Gte => PredicateGte(a, pivot)
  }

  /** `stringInSlice`: a linear search of the slice. */
  function StringInSlice(a: string, list: seq<string>): (r: bool)
    ensures r <==> a in list
  {
    if list == [] then false
    else if list[0] == a then true
    else StringInSlice(a, list[1..])
  }

  /** The record gives `want` under the predicate; as in `split`, a missing
      attribute is passed to the predicate as nil. */
  predicate Gives(item: Record, attr: string, kind: PredicateKind, pivot: Value, want: bool)
  {
    Apply(kind, Get(item, attr), pivot) == Ok(want)
  }

  /** The records whose predicate result is `want`, in input order. */
  function Select(trainingSet: TrainingSet, attr: string, kind: PredicateKind, pivot: Value, want: bool): (r: TrainingSet)
    ensures |r| <= |trainingSet|
  {
    if trainingSet == [] then []
    else
      var init, last := trainingSet[..|trainingSet| - 1], trainingSet[|trainingSet| - 1];
      Select(init, attr, kind, pivot, want) + (if Gives(last, attr, kind, pivot, want) then [last] else [])
  }

  /** Each selected record comes from the input and gives `want`. */
  lemma {:induction false} SelectMembers(trainingSet: TrainingSet, attr: string, kind: PredicateKind, pivot: Value, want: bool)
    ensures forall item :: item in Select(trainingSet, attr, kind, pivot, want) ==>
              item in trainingSet && Gives(item, attr, kind, pivot, want)
  {
    if trainingSet != [] {
      var init := trainingSet[..|trainingSet| - 1];
      SelectMembers(init, attr, kind, pivot, want);
      assert forall item :: item in init ==> item in trainingSet;
    }
  }

  /** Conversely, every record of the input that gives `want` is selected. */
  lemma {:induction false} SelectContains(trainingSet: TrainingSet, attr: string, kind: PredicateKind, pivot: Value,
                                          want: bool, item: Record)
    requires item in trainingSet && Gives(item, attr, kind, pivot, want)
    ensures item in Select(trainingSet, attr, kind, pivot, want)
  {
    var init, last := trainingSet[..|trainingSet| - 1], trainingSet[|trainingSet| - 1];
    assert trainingSet == init + [last];
    if item != last {
      SelectContains(init, attr, kind, pivot, want, item);
    }
  }

  /** Some record makes the predicate panic. */
  predicate SplitFails(trainingSet: TrainingSet, attr: string, kind: PredicateKind, pivot: Value)
  {
    exists item :: item in trainingSet && Apply(kind, Get(item, attr), pivot).Err?
  }

  /** Go's `Split`. `split` fills in only the two subsets; the other fields
      keep Go's zero values (a gain of 0, nil predicate and pivot) until
      `makeTrainingTree` records a winning candidate in them. */
  datatype Split = Split(matchSet: TrainingSet, noMatchSet: TrainingSet, gain: real,
                         attribute: string, kind: Option<PredicateKind>, pivot: Option<Value>)

  /** `split`: appends every record to Match or NoMatch by the predicate,
      panicking on the first record the predicate cannot compare. */
  method SplitSet(trainingSet: TrainingSet, attr: string, kind: PredicateKind, pivot: Value) returns (r: Result<Split>)
    ensures r.Err? <==> SplitFails(trainingSet, attr, kind, pivot)
    ensures r.Err? ==> r.error == NumericTypeMismatch
    ensures r.Ok? ==> r.value == Split(Select(trainingSet, attr, kind, pivot, true),
                                       Select(trainingSet, attr, kind, pivot, false),
                                       0.0, "", None, None)
  {
    var matchSet, noMatchSet := [], [];
    for i := 0 to |trainingSet|
      invariant forall k :: 0 <= k < i ==> Apply(kind, Get(trainingSet[k], attr), pivot).Ok?
      invariant matchSet == Select(trainingSet[..i], attr, kind, pivot, true)
      invariant noMatchSet == Select(trainingSet[..i], attr, kind, pivot, false)
    {
      var item := trainingSet[i];
      assert trainingSet[..i + 1][..i] == trainingSet[..i];
      var p := Apply(kind, Get(item, attr), pivot);
      if p.Err? {
        assert item in trainingSet;
        return Err(p.error);
      }
      if p.value {
        matchSet := matchSet + [item];
      } else {
        noMatchSet := noMatchSet + [item];
      }
    }
    assert trainingSet[..|trainingSet|] == trainingSet;
    return Ok(Split(matchSet, noMatchSet, 0.0, "", None, None));
  }

  /** Selecting from a concatenation selects from each part, in order: the
      partition is stable. */
  lemma {:induction false} SelectAppend(a: TrainingSet, b: TrainingSet, attr: string, kind: PredicateKind, pivot: Value, want: bool)
    ensures Select(a + b, attr, kind, pivot, want)
         == Select(a, attr, kind, pivot, want) + Select(b, attr, kind, pivot, want)
  {
    if b == [] {
      assert a + b == a;
    } else {
      var binit := b[..|b| - 1];
      assert (a + b)[..|a + b| - 1] == a + binit;
      SelectAppend(a, binit, attr, kind, pivot, want);
    }
  }

  /** A prefix of a set on which nothing panics does not panic either. */
  lemma NoFailureInPrefix(trainingSet: TrainingSet, attr: string, kind: PredicateKind, pivot: Value)
    requires trainingSet != [] && !SplitFails(trainingSet, attr, kind, pivot)
    ensures !SplitFails(trainingSet[..|trainingSet| - 1], attr, kind, pivot)
    ensures Apply(kind, Get(trainingSet[|trainingSet| - 1], attr), pivot).Ok?
  {
    var init := trainingSet[..|trainingSet| - 1];
    assert trainingSet[|trainingSet| - 1] in trainingSet;
    forall item | item in init ensures !Apply(kind, Get(item, attr), pivot).Err? {
      assert item in trainingSet;
    }
  }

  /** When no record makes the predicate panic, every record goes to exactly
      one side: the two sides together are the input. */
  lemma {:induction false} SplitCovers(trainingSet: TrainingSet, attr: string, kind: PredicateKind, pivot: Value)
    requires !SplitFails(trainingSet, attr, kind, pivot)
    ensures multiset(Select(trainingSet, attr, kind, pivot, true)) + multiset(Select(trainingSet, attr, kind, pivot, false))
         == multiset(trainingSet)
  {
    if trainingSet != [] {
      var init, last := trainingSet[..|trainingSet| - 1], trainingSet[|trainingSet| - 1];
      NoFailureInPrefix(trainingSet, attr, kind, pivot);
      SplitCovers(init, attr, kind, pivot);
      assert trainingSet == init + [last];
      SplitCoversStep(init, last, attr, kind, pivot);
    }
  }

  /** The step of SplitCovers: the last record goes to exactly one side. */
  lemma SplitCoversStep(init: TrainingSet, last: Record, attr: string, kind: PredicateKind, pivot: Value)
    requires Apply(kind, Get(last, attr), pivot).Ok?
    requires multiset(Select(init, attr, kind, pivot, true)) + multiset(Select(init, attr, kind, pivot, false))
          == multiset(init)
    ensures multiset(Select(init + [last], attr, kind, pivot, true)) + multiset(Select(init + [last], attr, kind, pivot, false))
         == multiset(init + [last])
  {
    var m, n := Select(init, attr, kind, pivot, true), Select(init, attr, kind, pivot, false);
    LastGoesOneWay(init, last, attr, kind, pivot);
    AppendToOneSide(m, n, init, last, Select(init + [last], attr, kind, pivot, true),
                    Select(init + [last], attr, kind, pivot, false));
  }

  /** A record the predicate accepts or rejects without a panic is appended
      to exactly one side. */
  lemma LastGoesOneWay(init: TrainingSet, last: Record, attr: string, kind: PredicateKind, pivot: Value)
    requires Apply(kind, Get(last, attr), pivot).Ok?
    ensures var m, n := Select(init, attr, kind, pivot, true), Select(init, attr, kind, pivot, false);
            var m', n' := Select(init + [last], attr, kind, pivot, true), Select(init + [last], attr, kind, pivot, false);
            (m' == m + [last] && n' == n) || (m' == m && n' == n + [last])
  {
    var s := init + [last];
    assert s[..|s| - 1] == init && s[|s| - 1] == last;
  }

  /** Appending an element to one of two parts of a sequence keeps them the
      parts of the longer sequence. */
  lemma AppendToOneSide<T>(m: seq<T>, n: seq<T>, whole: seq<T>, last: T, m': seq<T>, n': seq<T>)
    requires multiset(m) + multiset(n) == multiset(whole)
    requires (m' == m + [last] && n' == n) || (m' == m && n' == n + [last])
    ensures multiset(m') + multiset(n') == multiset(whole + [last])
  {
    assert multiset(whole + [last]) == multiset(whole) + multiset{last};
    if m' == m + [last] {
      assert multiset(m') == multiset(m) + multiset{last};
    } else {
      assert multiset(n') == multiset(n) + multiset{last};
    }
  }

  /** ... and so the sizes of the two sides add up to the size of the input. */
  lemma SplitPartition(trainingSet: TrainingSet, attr: string, kind: PredicateKind, pivot: Value)
    requires !SplitFails(trainingSet, attr, kind, pivot)
    ensures |Select(trainingSet, attr, kind, pivot, true)| + |Select(trainingSet, attr, kind, pivot, false)| == |trainingSet|
    ensures multiset(Select(trainingSet, attr, kind, pivot, true)) + multiset(Select(trainingSet, attr, kind, pivot, false))
         == multiset(trainingSet)
  {
    SplitCovers(trainingSet, attr, kind, pivot);
    assert |multiset(trainingSet)| == |trainingSet|;
  }

  /** When one side is empty and nothing panics, the other side is the whole
      input, in order. */
  lemma {:induction false} SelectAll(trainingSet: TrainingSet, attr: string, kind: PredicateKind, pivot: Value, want: bool)
    requires !SplitFails(trainingSet, attr, kind, pivot)
    requires Select(trainingSet, attr, kind, pivot, !want) == []
    ensures Select(trainingSet, attr, kind, pivot, want) == trainingSet
  {
    if trainingSet != [] {
      var init, last := trainingSet[..|trainingSet| - 1], trainingSet[|trainingSet| - 1];
      assert trainingSet == init + [last];
      NoFailureInPrefix(trainingSet, attr, kind, pivot);
      LastGoesOneWay(init, last, attr, kind, pivot);
      SelectAll(init, attr, kind, pivot, want);
    }
  }

  /** Ages [20, 30, 1] split by `>= 20`: Match holds the first two records,
      NoMatch the third. */
  lemma SplitExample()
    ensures var s := [map["param" := Str("yes"), "age" := Int(20)],
                      map["param" := Str("no"), "age" := Int(30)],
                      map["param" := Str("yes"), "age" := Int(1)]];
            Select(s, "age", Gte, Int(20), true) == [s[0], s[1]]
            && Select(s, "age", Gte, Int(20), false) == [s[2]]
  {
    var s := [map["param" := Str("yes"), "age" := Int(20)],
              map["param" := Str("no"), "age" := Int(30)],
              map["param" := Str("yes"), "age" := Int(1)]];
    assert s[..2] == [s[0], s[1]] && [s[0], s[1]][..1] == [s[0]] && [s[0]][..0] == [];
  }
}
