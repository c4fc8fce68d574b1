/** The counted baseline of the store-layout lint (`build_report`): a multiset difference, in order. */
module BaselineLint {
  import opened Text
  import opened Paging

  datatype Violation = Violation(path: string, kind: string, detail: string)

  /** `_violation_key`. */
  type Key = (string, string, string)

  function KeyOf(v: Violation): Key {
    (v.path, v.kind, v.detail)
  }

  function Keys(violations: seq<Violation>): seq<Key> {
    seq(|violations|, i requires 0 <= i < |violations| => KeyOf(violations[i]))
  }

  function CountOf(violations: seq<Violation>): multiset<Key> {
    multiset(Keys(violations))
  }

  datatype StoreKind = PerCaptureStore | SharedSnapshotBundle

  datatype Report =
    | WrongGate
    | BaselineWritten(count: nat)
    | Compared(ok: bool, violations: seq<Violation>, knownCount: nat, newViolations: seq<Violation>)

  /** Violation `i` is known: the baseline still covers this many of its key. */
  predicate IsKnown(violations: seq<Violation>, baseline: multiset<Key>, i: nat)
    requires i < |violations|
  {
    CountOf(violations[..i + 1])[KeyOf(violations[i])] <= baseline[KeyOf(violations[i])]
  }

  /** The known violations, or the new ones, in their order. */
  function Selected(violations: seq<Violation>, baseline: multiset<Key>, known: bool): seq<Violation> {
    if violations == [] then []
    else
      var n := |violations| - 1;
      Selected(violations[..n], baseline, known) + if IsKnown(violations, baseline, n) == known then [violations[n]] else []
  }

  // ------------------------------------------------- the program

  /** The loop, with its counter of keys seen. */
  method Partition(violations: seq<Violation>, baselineCounts: multiset<Key>)
    returns (knownViolations: seq<Violation>, newViolations: seq<Violation>)
    ensures knownViolations == Selected(violations, baselineCounts, true)
    ensures newViolations == Selected(violations, baselineCounts, false)
  {
    hide Selected, CountOf;
    NothingYet(violations, baselineCounts);
    var seenCounts: multiset<Key> := multiset{};
    knownViolations, newViolations := [], [];
    assert violations[..0] == [];
    for i := 0 to |violations|
      invariant seenCounts == CountOf(violations[..i])
      invariant knownViolations == Selected(violations[..i], baselineCounts, true)
      invariant newViolations == Selected(violations[..i], baselineCounts, false)
    {
      var key := KeyOf(violations[i]);
      CountStep(violations, i);
      seenCounts := seenCounts[key := seenCounts[key] + 1];
      SelectedStep(violations, baselineCounts, i);
      if seenCounts[key] <= baselineCounts[key] {
        knownViolations := knownViolations + [violations[i]];
      } else {
        newViolations := newViolations + [violations[i]];
      }
    }
    assert violations[..|violations|] == violations;
  }

  /** `build_report`, from the violations found and the baseline on file; the second result is the baseline file afterwards. */
  method BuildReport(kind: StoreKind, violations: seq<Violation>, baseline: seq<Violation>, writeBaseline: bool)
    returns (report: Report, baseline': seq<Violation>)
    ensures kind == SharedSnapshotBundle ==> report == WrongGate && baseline' == baseline
    ensures kind == PerCaptureStore && writeBaseline ==> report == BaselineWritten(|violations|) && baseline' == violations
    ensures kind == PerCaptureStore && !writeBaseline ==>
              && baseline' == baseline
              && report == Compared(Selected(violations, CountOf(baseline), false) == [], violations,
                                    |Selected(violations, CountOf(baseline), true)|, Selected(violations, CountOf(baseline), false))
  {
    hide CountOf, Selected;
    if kind == SharedSnapshotBundle { return WrongGate, baseline; }
    if writeBaseline { return BaselineWritten(|violations|), violations; }
    var known, added := Partition(violations, CountOf(baseline));
    return Compared(added == [], violations, |known|, added), baseline;
  }

  lemma NothingYet(violations: seq<Violation>, baseline: multiset<Key>)
    ensures CountOf(violations[..0]) == multiset{}
    ensures Selected(violations[..0], baseline, true) == [] && Selected(violations[..0], baseline, false) == []
  {
  }

  lemma SelectedStep(violations: seq<Violation>, baseline: multiset<Key>, i: nat)
    requires i < |violations|
    ensures var known, added := Selected(violations[..i], baseline, true), Selected(violations[..i], baseline, false);
            && Selected(violations[..i + 1], baseline, true) == (if IsKnown(violations, baseline, i) then known + [violations[i]] else known)
            && Selected(violations[..i + 1], baseline, false) == if IsKnown(violations, baseline, i) then added else added + [violations[i]]
  {
    hide CountOf;
    assert violations[..i + 1][..i] == violations[..i] && violations[..i + 1][..i + 1] == violations[..i + 1];
    assert Selected(violations[..i], baseline, true) + [] == Selected(violations[..i], baseline, true);
    assert Selected(violations[..i], baseline, false) + [] == Selected(violations[..i], baseline, false);
  }

  lemma CountStep(violations: seq<Violation>, i: nat)
    requires i < |violations|
    ensures CountOf(violations[..i + 1]) == CountOf(violations[..i]) + multiset{KeyOf(violations[i])}
  {
    assert Keys(violations[..i + 1]) == Keys(violations[..i]) + [KeyOf(violations[i])];
  }

  // ------------------------------------------------- what the partition means

  lemma CountAppend(violations: seq<Violation>, v: Violation)
    ensures CountOf(violations + [v]) == CountOf(violations) + multiset{KeyOf(v)}
  {
    assert Keys(violations + [v]) == Keys(violations) + [KeyOf(v)];
  }

  /** The two lists share out the violations, and each key is known as often as the baseline covers it. */
  lemma {:induction false} PartitionCounts(violations: seq<Violation>, baseline: multiset<Key>, key: Key)
    ensures var known, added := Selected(violations, baseline, true), Selected(violations, baseline, false);
            && CountOf(known)[key] == Min(CountOf(violations)[key], baseline[key])
            && CountOf(added)[key] == CountOf(violations)[key] - CountOf(known)[key]
  {
    hide CountOf;
    if violations == [] {
      NothingCounted(key);
    } else {
      var n := |violations| - 1;
      var rest, last := violations[..n], violations[n];
      PartitionCounts(rest, baseline, key);
      assert violations == rest + [last] && violations[..n + 1] == violations;
      CountAppend(rest, last);
      var known, added := Selected(rest, baseline, true), Selected(rest, baseline, false);
      CountAppend(known, last);
      CountAppend(added, last);
      assert known + [] == known && added + [] == added;
    }
  }

  lemma NothingCounted(key: Key)
    ensures CountOf([])[key] == 0
  {
  }

  /** Nothing is lost and nothing invented, duplicates included. */
  lemma {:induction false} PartitionConserves(violations: seq<Violation>, baseline: multiset<Key>)
    ensures multiset(Selected(violations, baseline, true)) + multiset(Selected(violations, baseline, false)) == multiset(violations)
  {
    hide Selected, IsKnown;
    if violations == [] {
      NothingSelected(baseline);
    } else {
      var n := |violations| - 1;
      PartitionConserves(violations[..n], baseline);
      LastSelected(violations, baseline);
      assert violations == violations[..n] + [violations[n]];
    }
  }

  lemma NothingSelected(baseline: multiset<Key>)
    ensures Selected([], baseline, true) == [] && Selected([], baseline, false) == []
  {
  }

  lemma LastSelected(violations: seq<Violation>, baseline: multiset<Key>)
    requires violations != []
    ensures var n := |violations| - 1;
            var known, added := Selected(violations[..n], baseline, true), Selected(violations[..n], baseline, false);
            && Selected(violations, baseline, true) == (if IsKnown(violations, baseline, n) then known + [violations[n]] else known)
            && Selected(violations, baseline, false) == if IsKnown(violations, baseline, n) then added else added + [violations[n]]
  {
    hide IsKnown;
    var n := |violations| - 1;
    SelectedStep(violations, baseline, n);
    assert violations[..n + 1] == violations;
  }

  /** The lint passes exactly when the violations are a sub-multiset of the baseline. */
  lemma PassesIffCovered(violations: seq<Violation>, baseline: multiset<Key>)
    ensures Selected(violations, baseline, false) == [] <==> CountOf(violations) <= baseline
  {
    hide Selected;
    var added := Selected(violations, baseline, false);
    forall key ensures CountOf(added)[key] == CountOf(violations)[key] - Min(CountOf(violations)[key], baseline[key]) {
      PartitionCounts(violations, baseline, key);
    }
    if added != [] {
      assert KeyOf(added[0]) == Keys(added)[0];
      assert CountOf(added)[KeyOf(added[0])] > 0;
    } else {
      assert forall key :: CountOf(added)[key] == 0;
    }
  }

  /** A baseline just written lets the same violations pass, in any order. */
  lemma FreshBaselinePasses(violations: seq<Violation>, again: seq<Violation>)
    requires multiset(violations) == multiset(again)
    ensures Selected(again, CountOf(violations), false) == []
    ensures Selected(again, CountOf(violations), true) == again
  {
    hide Selected;
    SameCounts(violations, again);
    PassesIffCovered(again, CountOf(violations));
    AllKnown(again, CountOf(violations));
  }

  lemma {:induction false} SameCounts(a: seq<Violation>, b: seq<Violation>)
    requires multiset(a) == multiset(b)
    ensures CountOf(a) == CountOf(b)
  {
    hide CountOf;
    if a == [] {
      assert |multiset(b)| == |b| == 0;
    } else {
      var last := a[|a| - 1];
      assert a == a[..|a| - 1] + [last];
      assert last in multiset(b);
      var i :| 0 <= i < |b| && b[i] == last;
      var rest := b[..i] + b[i + 1..];
      WithoutOne(b, i);
      WithoutOne(a, |a| - 1);
      assert a[..|a| - 1] + a[|a|..] == a[..|a| - 1];
      SameCounts(a[..|a| - 1], rest);
      CountAppend(a[..|a| - 1], last);
      CountOut(b, i);
    }
  }

  lemma WithoutOne(b: seq<Violation>, i: nat)
    requires i < |b|
    ensures multiset(b[..i] + b[i + 1..]) == multiset(b) - multiset{b[i]}
  {
    assert b == b[..i] + [b[i]] + b[i + 1..];
  }

  lemma CountOut(b: seq<Violation>, i: nat)
    requires i < |b|
    ensures CountOf(b) == CountOf(b[..i] + b[i + 1..]) + multiset{KeyOf(b[i])}
  {
    assert Keys(b) == Keys(b[..i]) + [KeyOf(b[i])] + Keys(b[i + 1..]);
    assert Keys(b[..i] + b[i + 1..]) == Keys(b[..i]) + Keys(b[i + 1..]);
  }

  lemma {:induction false} AllKnown(violations: seq<Violation>, baseline: multiset<Key>)
    requires Selected(violations, baseline, false) == []
    ensures Selected(violations, baseline, true) == violations
  {
    hide IsKnown;
    if violations != [] {
      AllKnown(violations[..|violations| - 1], baseline);
    }
  }

  // ------------------------------------------------- on the violations themselves

  lemma {:induction false} CountsAre(violations: seq<Violation>, v: Violation)
    ensures CountOf(violations)[(v.path, v.kind, v.detail)] == multiset(violations)[v]
  {
    if violations != [] {
      var n := |violations| - 1;
      CountsAre(violations[..n], v);
      assert violations == violations[..n] + [violations[n]];
      assert Keys(violations) == Keys(violations[..n]) + [KeyOf(violations[n])];
    }
  }

  /** Violation `i` is the occurrence of itself that the baseline still covers. */
  ghost predicate Covered(violations: seq<Violation>, baseline: seq<Violation>, i: nat)
    requires i < |violations|
  {
    multiset(violations[..i + 1])[violations[i]] <= multiset(baseline)[violations[i]]
  }

  lemma CoveredIs(violations: seq<Violation>, baseline: seq<Violation>, i: nat)
    requires i < |violations|
    ensures IsKnown(violations, CountOf(baseline), i) <==> Covered(violations, baseline, i)
  {
    hide CountOf;
    CountsAre(violations[..i + 1], violations[i]);
    CountsAre(baseline, violations[i]);
  }

  /** The known, or the new, are the violations at these places, in their order. */
  lemma {:induction false} SelectedExact(violations: seq<Violation>, baseline: seq<Violation>, known: bool) returns (places: seq<nat>)
    ensures forall j, k :: 0 <= j < k < |places| ==> places[j] < places[k]
    ensures forall i: nat :: i in places <==> i < |violations| && Covered(violations, baseline, i) == known
    ensures |places| == |Selected(violations, CountOf(baseline), known)|
    ensures forall j :: 0 <= j < |places| ==> places[j] < |violations| && Selected(violations, CountOf(baseline), known)[j] == violations[places[j]]
  {
    hide IsKnown, Covered, CountOf;
    if violations == [] { return []; }
    var n := |violations| - 1;
    places := SelectedExact(violations[..n], baseline, known);
    CoveredIs(violations, baseline, n);
    forall i: nat | i < n ensures Covered(violations[..n], baseline, i) == Covered(violations, baseline, i) {
      CoveredBefore(violations, baseline, i);
    }
    if Covered(violations, baseline, n) == known { places := places + [n]; }
  }

  lemma CoveredBefore(violations: seq<Violation>, baseline: seq<Violation>, i: nat)
    requires i < |violations| - 1
    ensures Covered(violations[..|violations| - 1], baseline, i) == Covered(violations, baseline, i)
  {
    assert violations[..|violations| - 1][..i + 1] == violations[..i + 1];
  }
}
