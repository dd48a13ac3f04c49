/** Frequency counting, the majority label and Shannon entropy over the
    category attribute of a training set (`counterUniqueValues`,
    `mostFrequentValue`, `entropy` in tree/tree.go). */
module Statistics {
  import opened Values

  /** The record holds `category`, as a string, under `attr`. */
  predicate HasLabel(item: Record, attr: string, category: string)
  {
    attr in item && item[attr] == Str(category)
  }

  /** The record holds a string under `attr`, so `item[attr].(string)` succeeds. */
  predicate IsLabelled(item: Record, attr: string)
  {
    attr in item && item[attr].Str?
  }

  /** Every record of the set carries a string under `attr`. */
  predicate LabelsOk(trainingSet: TrainingSet, attr: string)
  {
    forall item :: item in trainingSet ==> IsLabelled(item, attr)
  }

  /** The distinct string values of `attr` occurring in the set. */
  function Labels(trainingSet: TrainingSet, attr: string): set<string>
  {
    set item: Record | item in trainingSet && IsLabelled(item, attr) :: item[attr].s
  }

  /** The number of records of the set that carry `category` under `attr`. */
  function Count(trainingSet: TrainingSet, attr: string, category: string): nat
  {
    if trainingSet == [] then 0
    else
      var last := trainingSet[|trainingSet| - 1];
      Count(trainingSet[..|trainingSet| - 1], attr, category) + (if HasLabel(last, attr, category) then 1 else 0)
  }

  /** The counter `counterUniqueValues` is meant to build: every category that
      occurs, mapped to the number of its occurrences. */
  function Tally(trainingSet: TrainingSet, attr: string): map<string, nat>
  {
    map category | category in Labels(trainingSet, attr) :: Count(trainingSet, attr, category)
  }

  lemma {:induction false} CountPositive(trainingSet: TrainingSet, attr: string, category: string)
    ensures Count(trainingSet, attr, category) > 0 <==> category in Labels(trainingSet, attr)
  {
    if trainingSet != [] {
      var init, last := trainingSet[..|trainingSet| - 1], trainingSet[|trainingSet| - 1];
      assert trainingSet == init + [last];
      CountPositive(init, attr, category);
      if HasLabel(last, attr, category) {
        assert category in Labels(trainingSet, attr);
      } else if category in Labels(trainingSet, attr) {
        var item: Record :| item in trainingSet && IsLabelled(item, attr) && item[attr].s == category;
        assert item != last;
        assert item in init;
      }
    }
  }

  /** Counting one more record: the step of the loop in `counterUniqueValues`. */
  lemma TallySnoc(init: TrainingSet, item: Record, attr: string)
    requires IsLabelled(item, attr)
    ensures Tally(init + [item], attr)
         == Tally(init, attr)[item[attr].s := Count(init, attr, item[attr].s) + 1]
  {
    var s := init + [item];
    assert s[..|s| - 1] == init;
    var category := item[attr].s;
    assert Labels(s, attr) == Labels(init, attr) + {category} by {
      forall l | l in Labels(s, attr) ensures l in Labels(init, attr) + {category} {
        var r: Record :| r in s && IsLabelled(r, attr) && r[attr].s == l;
        if r != item { assert r in init; }
      }
    }
  }

  /** Every category of the tally has a positive count. */
  lemma TallyPositive(trainingSet: TrainingSet, attr: string)
    ensures forall l :: l in Tally(trainingSet, attr) ==> Tally(trainingSet, attr)[l] > 0
  {
    forall l | l in Tally(trainingSet, attr) ensures Tally(trainingSet, attr)[l] > 0 {
      CountPositive(trainingSet, attr, l);
    }
  }

  /** `counterUniqueValues`: tallies the string values of `attr`, failing on
      the first record whose value is missing or not a string. */
  method CounterUniqueValues(trainingSet: TrainingSet, attr: string) returns (r: Result<map<string, nat>>)
    ensures r.Ok? <==> LabelsOk(trainingSet, attr)
    ensures r.Err? ==> r.error == LabelNotString
    ensures r.Ok? ==> r.value == Tally(trainingSet, attr)
  {
    var res: map<string, nat> := map[];
    for i := 0 to |trainingSet|
      invariant forall k :: 0 <= k < i ==> IsLabelled(trainingSet[k], attr)
      invariant res == Tally(trainingSet[..i], attr)
    {
      var item := trainingSet[i];
      if !(attr in item && item[attr].Str?) {
        assert item in trainingSet;
        return Err(LabelNotString);
      }
      var val := item[attr].s;
      CountPositive(trainingSet[..i], attr, val);
      TallySnoc(trainingSet[..i], item, attr);
      assert trainingSet[..i + 1] == trainingSet[..i] + [item];
      res := res[val := (if val in res then res[val] else 0) + 1];
    }
    assert trainingSet[..|trainingSet|] == trainingSet;
    return Ok(res);
  }

  /* Sums over a counter. Go iterates a map in an unspecified order; over the
     reals the order does not matter, which SumPick states. */

  ghost function Pick(m: map<string, nat>): string
    requires m != map[]
  {
    var k :| k in m; k
  }

  ghost function Sum(m: map<string, nat>, f: nat -> real): real
    decreases |m|
  {
    if m == map[] then 0.0
    else
      var k := Pick(m);
      assert |(m - {k}).Keys| < |m.Keys| by { assert (m - {k}).Keys == m.Keys - {k}; }
      f(m[k]) + Sum(m - {k}, f)
  }

  /** A sum over a counter may start with any key. */
  lemma {:induction false} SumPick(m: map<string, nat>, f: nat -> real, k: string)
    requires k in m
    ensures Sum(m, f) == f(m[k]) + Sum(m - {k}, f)
    decreases |m|
  {
    var j := Pick(m);
    if j != k {
      var mj, mk := m - {j}, m - {k};
      assert (m - {j}).Keys == m.Keys - {j};
      assert (m - {k}).Keys == m.Keys - {k};
      SumPick(mj, f, k);
      SumPick(mk, f, j);
      assert mj - {k} == mk - {j};
    }
  }

  function AsReal(c: nat): real { c as real }

  /** The entropy term of a category seen `c` times among `n` records: -p·ln p
      with p = c/n. The counter of an empty set has no entries, so the term
      is never taken with n = 0. */
  function Term(c: nat, n: nat, ln: real -> real): real
  {
    if n == 0 then 0.0 else -(c as real / n as real) * ln(c as real / n as real)
  }

  function TermOf(n: nat, ln: real -> real): nat -> real
  {
    (c: nat) => Term(c, n, ln)
  }

  /** Shannon entropy of the labels under `attr`, with `ln` standing for the
      natural logarithm. */
  ghost function EntropyOf(trainingSet: TrainingSet, attr: string, ln: real -> real): real
  {
    Sum(Tally(trainingSet, attr), TermOf(|trainingSet|, ln))
  }

  /** Counting one more record adds one to the total. */
  lemma TallySnocTotal(init: TrainingSet, item: Record, attr: string)
    requires IsLabelled(item, attr)
    ensures Sum(Tally(init + [item], attr), AsReal) == Sum(Tally(init, attr), AsReal) + 1.0
  {
    var category := item[attr].s;
    var before := Tally(init, attr);
    var after := Tally(init + [item], attr);
    TallySnoc(init, item, attr);
    SumPick(after, AsReal, category);
    assert after - {category} == before - {category};
    if category in before {
      SumPick(before, AsReal, category);
    } else {
      CountPositive(init, attr, category);
      assert before - {category} == before;
    }
  }

  /** The counts of `counterUniqueValues` add up to the size of the set. */
  lemma {:induction false} TallyTotal(trainingSet: TrainingSet, attr: string)
    requires LabelsOk(trainingSet, attr)
    ensures Sum(Tally(trainingSet, attr), AsReal) == |trainingSet| as real
  {
    if trainingSet == [] {
      assert Tally(trainingSet, attr) == map[];
    } else {
      var init, last := trainingSet[..|trainingSet| - 1], trainingSet[|trainingSet| - 1];
      assert trainingSet == init + [last];
      assert LabelsOk(init, attr) by {
        forall item | item in init ensures IsLabelled(item, attr) { assert item in trainingSet; }
      }
      TallyTotal(init, attr);
      assert last in trainingSet;
      TallySnocTotal(init, last, attr);
    }
  }

  /** The entropy of the empty set is 0. */
  lemma EntropyEmpty(attr: string, ln: real -> real)
    ensures EntropyOf([], attr, ln) == 0.0
  {
    assert Tally([], attr) == map[];
  }

  lemma {:induction false} CountAll(trainingSet: TrainingSet, attr: string, category: string)
    requires Pure(trainingSet, attr, category)
    ensures Count(trainingSet, attr, category) == |trainingSet|
  {
    if trainingSet != [] {
      var init := trainingSet[..|trainingSet| - 1];
      assert forall item :: item in init ==> item in trainingSet;
      CountAll(init, attr, category);
    }
  }

  /** The counter of a set whose records all carry the same category has
      that one key, counted once per record. */
  lemma PureTally(trainingSet: TrainingSet, attr: string, category: string)
    requires trainingSet != []
    requires Pure(trainingSet, attr, category)
    ensures Tally(trainingSet, attr) == map[category := |trainingSet|]
  {
    assert trainingSet[0] in trainingSet;
    assert Labels(trainingSet, attr) == {category};
    CountAll(trainingSet, attr, category);
  }

  /** A category held by every record contributes -1·ln 1 = 0. */
  lemma WholeTermIsZero(n: nat, ln: real -> real)
    requires ln(1.0) == 0.0
    ensures TermOf(n, ln)(n) == 0.0
  {
    if n > 0 {
      assert n as real / n as real == 1.0;
    }
  }

  /** A set whose records all carry the same category has entropy 0. */
  lemma EntropyPure(trainingSet: TrainingSet, attr: string, category: string, ln: real -> real)
    requires ln(1.0) == 0.0
    requires trainingSet != []
    requires Pure(trainingSet, attr, category)
    ensures EntropyOf(trainingSet, attr, ln) == 0.0
    ensures Tally(trainingSet, attr) == map[category := |trainingSet|]
  {
    PureTally(trainingSet, attr, category);
    var m, n := Tally(trainingSet, attr), |trainingSet|;
    SumPick(m, TermOf(n, ln), category);
    assert m - {category} == map[];
    WholeTermIsZero(n, ln);
  }

  /** What the entropy bounds need of `ln`: it is 0 at 1 and negative
      below 1, as the natural logarithm is. */
  ghost predicate LogShape(ln: real -> real)
  {
    ln(1.0) == 0.0 && forall x: real :: 0.0 < x < 1.0 ==> ln(x) < 0.0
  }

  lemma {:induction false} CountAtMost(trainingSet: TrainingSet, attr: string, a: string, b: string)
    requires a != b
    ensures Count(trainingSet, attr, a) + Count(trainingSet, attr, b) <= |trainingSet|
  {
    if trainingSet != [] {
      CountAtMost(trainingSet[..|trainingSet| - 1], attr, a, b);
    }
  }

  lemma {:induction false} CountAtMostSize(trainingSet: TrainingSet, attr: string, a: string)
    ensures Count(trainingSet, attr, a) <= |trainingSet|
  {
    if trainingSet != [] {
      CountAtMostSize(trainingSet[..|trainingSet| - 1], attr, a);
    }
  }

  /** A single term -p·ln p is never negative, and positive when 0 < p < 1. */
  lemma TermSign(c: nat, n: nat, ln: real -> real)
    requires LogShape(ln) && c <= n
    ensures Term(c, n, ln) >= 0.0
    ensures 0 < c < n ==> Term(c, n, ln) > 0.0
  {
    if n > 0 {
      var p := c as real / n as real;
      if c == n {
        assert p == 1.0;
      } else if c > 0 {
        assert 0.0 < p < 1.0;
        NegativeTimesPositive(p, ln(p));
      }
    }
  }

  lemma NegativeTimesPositive(p: real, l: real)
    requires p > 0.0 && l < 0.0
    ensures -p * l > 0.0
  {
  }

  /** A sum of terms that are not negative is not negative. */
  lemma {:induction false} SumNonNegative(m: map<string, nat>, f: nat -> real)
    requires forall k :: k in m ==> f(m[k]) >= 0.0
    ensures Sum(m, f) >= 0.0
    decreases |m|
  {
    if m != map[] {
      var k := Pick(m);
      assert (m - {k}).Keys == m.Keys - {k};
      SumNonNegative(m - {k}, f);
    }
  }

  /** Entropy is never negative. */
  lemma EntropyNonNegative(trainingSet: TrainingSet, attr: string, ln: real -> real)
    requires LogShape(ln)
    ensures EntropyOf(trainingSet, attr, ln) >= 0.0
  {
    var m, f := Tally(trainingSet, attr), TermOf(|trainingSet|, ln);
    forall k | k in m ensures f(m[k]) >= 0.0 {
      CountAtMostSize(trainingSet, attr, k);
      TermSign(m[k], |trainingSet|, ln);
    }
    SumNonNegative(m, f);
  }

  /** A set holding two different labels has positive entropy. */
  lemma EntropyPositive(trainingSet: TrainingSet, attr: string, ln: real -> real, a: string, b: string)
    requires LogShape(ln) && a != b
    requires a in Labels(trainingSet, attr) && b in Labels(trainingSet, attr)
    ensures EntropyOf(trainingSet, attr, ln) > 0.0
  {
    var m, f := Tally(trainingSet, attr), TermOf(|trainingSet|, ln);
    CountPositive(trainingSet, attr, a);
    CountPositive(trainingSet, attr, b);
    CountAtMost(trainingSet, attr, a, b);
    TermSign(m[a], |trainingSet|, ln);
    SumPick(m, f, a);
    forall k | k in m - {a} ensures f((m - {a})[k]) >= 0.0 {
      CountAtMostSize(trainingSet, attr, k);
      TermSign(m[k], |trainingSet|, ln);
    }
    SumNonNegative(m - {a}, f);
  }

  /** Every record of the set is labelled `category`. */
  predicate Pure(trainingSet: TrainingSet, attr: string, category: string)
  {
    forall item :: item in trainingSet ==> HasLabel(item, attr, category)
  }

  /** On a non-empty set whose labels are all strings, the entropy is 0
      exactly when the set is pure. */
  lemma EntropyZeroIffPure(trainingSet: TrainingSet, attr: string, ln: real -> real)
    requires LogShape(ln) && trainingSet != [] && LabelsOk(trainingSet, attr)
    ensures EntropyOf(trainingSet, attr, ln) == 0.0 <==> exists category :: Pure(trainingSet, attr, category)
  {
    var first := trainingSet[0];
    assert first in trainingSet;
    var category := first[attr].s;
    if Pure(trainingSet, attr, category) {
      EntropyPure(trainingSet, attr, category, ln);
    } else {
      var other: Record :| other in trainingSet && !HasLabel(other, attr, category);
      assert category in Labels(trainingSet, attr);
      assert other[attr].s in Labels(trainingSet, attr);
      EntropyPositive(trainingSet, attr, ln, category, other[attr].s);
      assert forall c :: Pure(trainingSet, attr, c) ==> HasLabel(first, attr, c) && HasLabel(other, attr, c);
    }
  }

  /** The set of the entropy test: three "yes" and one "no" have positive
      entropy. */
  lemma EntropyExample(ln: real -> real)
    requires LogShape(ln)
    ensures EntropyOf([map["param" := Str("yes")], map["param" := Str("no")],
                       map["param" := Str("yes")], map["param" := Str("yes")]], "param", ln) > 0.0
  {
    var s := [map["param" := Str("yes")], map["param" := Str("no")],
              map["param" := Str("yes")], map["param" := Str("yes")]];
    assert s[0] in s && s[1] in s;
    EntropyPositive(s, "param", ln, "yes", "no");
  }

  /** `entropy`: sums -p·ln p over the counter, in whatever order the map is
      iterated; fails where `counterUniqueValues` does. */
  method Entropy(trainingSet: TrainingSet, attr: string, ln: real -> real) returns (r: Result<real>)
    ensures r.Ok? <==> LabelsOk(trainingSet, attr)
    ensures r.Err? ==> r.error == LabelNotString
    ensures r.Ok? ==> r.value == EntropyOf(trainingSet, attr, ln)
  {
    var counter :- CounterUniqueValues(trainingSet, attr);
    ghost var f := TermOf(|trainingSet|, ln);
    var entropy := 0.0;
    var rest := counter;
    while rest != map[]
      invariant entropy + Sum(rest, f) == Sum(counter, f)
      decreases |rest|
    {
      var val :| val in rest;
      SumPick(rest, f, val);
      entropy := entropy + Term(rest[val], |trainingSet|, ln);
      assert (rest - {val}).Keys == rest.Keys - {val};
      rest := rest - {val};
    }
    return Ok(entropy);
  }

  /** The category `mostFrequentValue` may return: "" for an empty counter,
      otherwise a category whose count no other category exceeds. */
  predicate IsMostFrequent(category: string, trainingSet: TrainingSet, attr: string)
  {
    var t := Tally(trainingSet, attr);
    if t == map[] then category == ""
    else category in t && forall l :: l in t ==> t[l] <= t[category]
  }

  /** `mostFrequentValue`: a running maximum over the counter; the first
      strictly larger count wins, so ties go to whichever category the map
      iteration meets first. */
  method MostFrequentValue(trainingSet: TrainingSet, attr: string) returns (r: Result<string>)
    ensures r.Ok? <==> LabelsOk(trainingSet, attr)
    ensures r.Err? ==> r.error == LabelNotString
    ensures r.Ok? ==> IsMostFrequent(r.value, trainingSet, attr)
  {
    var counter :- CounterUniqueValues(trainingSet, attr);
    TallyPositive(trainingSet, attr);
    var mostFrequentCount := 0;
    var mostFrequentValue := "";
    var rest := counter;
    while rest != map[]
      invariant forall k :: k in rest ==> k in counter && rest[k] == counter[k]
      invariant forall k :: k in counter && k !in rest ==> counter[k] <= mostFrequentCount
      invariant mostFrequentCount == 0 ==> mostFrequentValue == "" && rest == counter
      invariant mostFrequentCount > 0 ==> mostFrequentValue in counter && counter[mostFrequentValue] == mostFrequentCount
      decreases |rest|
    {
      var key :| key in rest;
      var val := rest[key];
      if val > mostFrequentCount {
        mostFrequentCount := val;
        mostFrequentValue := key;
      }
      assert (rest - {key}).Keys == rest.Keys - {key};
      rest := rest - {key};
    }
    return Ok(mostFrequentValue);
  }

  /** On a labelled, non-empty set the majority category occurs in the set. */
  lemma MostFrequentOccurs(category: string, trainingSet: TrainingSet, attr: string)
    requires LabelsOk(trainingSet, attr) && trainingSet != []
    requires IsMostFrequent(category, trainingSet, attr)
    ensures category in Labels(trainingSet, attr)
  {
    assert trainingSet[0] in trainingSet;
    assert trainingSet[0][attr].s in Tally(trainingSet, attr);
  }

  /** The counter of the example set [yes, no, yes, yes] is {yes: 3, no: 1}. */
  lemma CounterExample()
    ensures Tally([map["param" := Str("yes")], map["param" := Str("no")],
                   map["param" := Str("yes")], map["param" := Str("yes")]], "param")
         == map["yes" := 3, "no" := 1]
  {
    var y, n := map["param" := Str("yes")], map["param" := Str("no")];
    var s := [y, n, y, y];
    assert s[..3] == [y, n, y] && [y, n, y][..2] == [y, n] && [y, n][..1] == [y] && [y][..0] == [];
    assert Labels(s, "param") == {"yes", "no"} by {
      assert y in s && n in s;
      forall l | l in Labels(s, "param") ensures l in {"yes", "no"} {
        var r: Record :| r in s && IsLabelled(r, "param") && r["param"].s == l;
      }
    }
    assert Count([y], "param", "yes") == 1 && Count([y], "param", "no") == 0;
    assert Count([y, n], "param", "yes") == 1 && Count([y, n], "param", "no") == 1;
    assert Count([y, n, y], "param", "yes") == 2 && Count([y, n, y], "param", "no") == 1;
    assert Count(s, "param", "yes") == 3 && Count(s, "param", "no") == 1;
  }
}
