/**
 * A whole call of the legacy ingest: grouping by target, the check before the registry is
 * touched, the registry, and the transaction; what a call leaves behind, and that a second
 * call leaves nothing more.
 */
module LegacyRuns {
  import opened Text
  import opened Receipts
  import opened Ledger
  import opened LedgerBlocks
  import opened Ingest
  import opened LegacyIngest

  // ------------------------------------------------- grouping

  /** `grouped`: target to rows, with the targets in the order they first appeared. */
  method GroupRows(rows: seq<LegacyRow>) returns (order: seq<string>, grouped: map<string, seq<LegacyRow>>)
    ensures order == Targets(rows)
    ensures forall t :: t in grouped <==> t in order
    ensures forall t :: t in grouped ==> grouped[t] == RowsOf(rows, t)
  {
    order, grouped := [], map[];
    assert rows[..0] == [];
    for i := 0 to |rows|
      invariant order == Targets(rows[..i])
      invariant forall t :: t in grouped <==> t in order
      invariant forall t :: t in grouped ==> grouped[t] == RowsOf(rows[..i], t)
    {
      var t := TargetOfRow(rows[i]);
      assert rows[..i + 1][..i] == rows[..i];
      NoRowsOf(rows[..i], t);
      grouped := grouped[t := (if t in grouped then grouped[t] else []) + [rows[i]]];
      if t !in order { order := order + [t]; }
    }
    assert rows[..|rows|] == rows;
  }

  lemma {:induction false} NoRowsOf(rows: seq<LegacyRow>, t: string)
    ensures t !in Targets(rows) ==> RowsOf(rows, t) == []
  {
    if rows != [] { NoRowsOf(rows[..|rows| - 1], t); }
  }

  /** The rows again, target by target. */
  function Regrouped(rows: seq<LegacyRow>, targets: seq<string>): seq<LegacyRow> {
    if targets == [] then [] else Regrouped(rows, targets[..|targets| - 1]) + RowsOf(rows, targets[|targets| - 1])
  }

  lemma RowsOfGrows(rows: seq<LegacyRow>, row: LegacyRow, t: string)
    ensures RowsOf(rows + [row], t) == if TargetOfRow(row) == t then RowsOf(rows, t) + [row] else RowsOf(rows, t)
  {
    assert (rows + [row])[..|rows|] == rows;
    assert RowsOf(rows, t) + [] == RowsOf(rows, t);
  }

  lemma {:induction false} RegroupedGrows(rows: seq<LegacyRow>, row: LegacyRow, targets: seq<string>)
    requires Distinct(targets)
    ensures multiset(Regrouped(rows + [row], targets))
            == multiset(Regrouped(rows, targets)) + if TargetOfRow(row) in targets then multiset{row} else multiset{}
  {
    hide RowsOf, TargetOfRow;
    if targets != [] {
      var n := |targets| - 1;
      var t := targets[n];
      RegroupedGrows(rows, row, targets[..n]);
      RowsOfGrows(rows, row, t);
      assert t !in targets[..n] && targets == targets[..n] + [t];
      var before, now := Regrouped(rows, targets[..n]), Regrouped(rows + [row], targets[..n]);
      assert multiset(Regrouped(rows, targets)) == multiset(before) + multiset(RowsOf(rows, t));
      assert multiset(Regrouped(rows + [row], targets)) == multiset(now) + multiset(RowsOf(rows + [row], t));
      if TargetOfRow(row) == t { assert multiset(RowsOf(rows, t) + [row]) == multiset(RowsOf(rows, t)) + multiset{row}; }
    }
  }

  lemma {:induction false} RegroupedElsewhere(rows: seq<LegacyRow>, targets: seq<string>, t: string)
    requires RowsOf(rows, t) == []
    ensures Regrouped(rows, targets + [t]) == Regrouped(rows, targets)
  {
    assert (targets + [t])[..|targets|] == targets;
    assert Regrouped(rows, targets) + [] == Regrouped(rows, targets);
  }

  /** Grouping loses and invents nothing. */
  lemma {:induction false} GroupingPermutes(rows: seq<LegacyRow>)
    ensures multiset(Regrouped(rows, Targets(rows))) == multiset(rows)
  {
    hide Regrouped, TargetOfRow;
    if rows == [] {
      NoGroups();
    } else {
      var n := |rows| - 1;
      var rest, row := rows[..n], rows[n];
      GroupingPermutes(rest);
      assert rows == rest + [row];
      var before, now := Targets(rest), Targets(rows);
      RegroupedGrows(rest, row, now);
      if TargetOfRow(row) !in before {
        NoRowsOf(rest, TargetOfRow(row));
        RegroupedElsewhere(rest, before, TargetOfRow(row));
      }
    }
  }

  lemma NoGroups()
    ensures Regrouped([], []) == []
  {
  }

  // ------------------------------------------------- all targets

  function GroupEvents(f: Foreign, at: string, records: seq<Row>, rows: seq<LegacyRow>, targets: seq<string>): Result<LegacyBuilt, LedgerError> {
    if targets == [] then Ok(LegacyBuilt([], 0))
    else
      var n := |targets| - 1;
      match GroupEvents(f, at, records, rows, targets[..n])
      case Err(e) => Err(e)
      case Ok(b) =>
        match LegacyEvents(f, at, records, targets[n], RowsOf(rows, targets[n]))
        case Err(e) => Err(e)
        case Ok(c) => Ok(LegacyBuilt(b.events + c.events, b.skipped + c.skipped))
  }

  /** `build_events`: the events of every target, all built on the same records. */
  function LegacyBatch(f: Foreign, at: string, records: seq<Row>, rows: seq<LegacyRow>): Result<LegacyBuilt, LedgerError> {
    match Chain(f.eventHash, records)
    case Err(e) => Err(e)
    case Ok(_) => GroupEvents(f, at, records, rows, Targets(rows))
  }

  function EventsOnly(r: Result<LegacyBuilt, LedgerError>): Result<seq<Row>, LedgerError> {
    match r
    case Err(e) => Err(e)
    case Ok(b) => Ok(b.events)
  }

  function BuildFor(f: Foreign, at: string, rows: seq<LegacyRow>): seq<Row> -> Result<seq<Row>, LedgerError> {
    (records: seq<Row>) => EventsOnly(LegacyBatch(f, at, records, rows))
  }

  method BuildEvents(f: Foreign, at: string, records: seq<Row>, rows: seq<LegacyRow>, order: seq<string>, grouped: map<string, seq<LegacyRow>>)
    returns (r: Result<LegacyBuilt, LedgerError>)
    requires FirstProblem(rows).None? && rows != []
    requires order == Targets(rows) && forall t :: t in order ==> t in grouped && grouped[t] == RowsOf(rows, t)
    ensures r == LegacyBatch(f, at, records, rows)
  {
    hide Chain, LegacyEvents, RowsOf, Targets;
    var events: seq<Row> := [];
    var skippedTotal: nat := 0;
    SomeTarget(rows);
    assert order[..0] == [];
    for i := 0 to |order|
      invariant GroupEvents(f, at, records, rows, order[..i]) == Ok(LegacyBuilt(events, skippedTotal))
      invariant i > 0 ==> Chain(f.eventHash, records).Ok?
    {
      assert order[..i + 1][..i] == order[..i];
      TargetRowsNamed(rows, order[i]);
      var one := BuildLegacyObservationEvents(f, at, records, order[i], grouped[order[i]]);
      if one.Err? {
        if Chain(f.eventHash, records).Ok? { FirstBadGroup(f, at, records, rows, order, i + 1); }
        return Err(one.error);
      }
      events := events + one.value.events;
      skippedTotal := skippedTotal + one.value.skipped;
    }
    assert order[..|order|] == order;
    return Ok(LegacyBuilt(events, skippedTotal));
  }

  lemma SomeTarget(rows: seq<LegacyRow>)
    requires rows != []
    ensures Targets(rows) != []
  {
    assert TargetOfRow(rows[0]) in Targets(rows);
  }

  lemma {:induction false} ValidRows(rows: seq<LegacyRow>)
    requires FirstProblem(rows).None?
    ensures forall r :: r in rows ==> RowProblem(r).None?
  {
    hide RowProblem;
    if rows != [] {
      ValidRows(rows[..|rows| - 1]);
      assert rows == rows[..|rows| - 1] + [rows[|rows| - 1]];
    }
  }

  lemma {:induction false} RowsOfAre(rows: seq<LegacyRow>, t: string)
    ensures forall r :: r in RowsOf(rows, t) <==> r in rows && TargetOfRow(r) == t
    ensures DistinctRows(rows) ==> DistinctRows(RowsOf(rows, t))
  {
    hide IdOfRow, TargetOfRow;
    if rows != [] {
      var n := |rows| - 1;
      RowsOfAre(rows[..n], t);
      assert rows == rows[..n] + [rows[n]];
      if DistinctRows(rows) {
        assert DistinctRows(rows[..n]);
        forall r | r in rows[..n] ensures IdOfRow(r) != IdOfRow(rows[n]) {
          var i :| 0 <= i < n && rows[..n][i] == r;
          assert rows[i] == r;
        }
      }
    }
  }

  lemma TargetRowsNamed(rows: seq<LegacyRow>, t: string)
    requires FirstProblem(rows).None? && t in Targets(rows)
    ensures t != "" && forall i :: 0 <= i < |RowsOf(rows, t)| ==> IdOfRow(RowsOf(rows, t)[i]) != ""
  {
    hide FirstProblem, RowsOf;
    ValidRows(rows);
    RowsOfAre(rows, t);
    var i :| 0 <= i < |rows| && TargetOfRow(rows[i]) == t;
    assert rows[i] in rows;
    forall k | 0 <= k < |RowsOf(rows, t)| ensures IdOfRow(RowsOf(rows, t)[k]) != "" {
      assert RowsOf(rows, t)[k] in RowsOf(rows, t);
    }
  }

  lemma {:induction false} FirstBadGroup(f: Foreign, at: string, records: seq<Row>, rows: seq<LegacyRow>, targets: seq<string>, k: nat)
    requires k <= |targets| && GroupEvents(f, at, records, rows, targets[..k]).Err?
    ensures GroupEvents(f, at, records, rows, targets) == GroupEvents(f, at, records, rows, targets[..k])
  {
    hide LegacyEvents, RowsOf;
    if k == |targets| {
      assert targets[..k] == targets;
    } else {
      assert targets[..|targets| - 1][..k] == targets[..k];
      FirstBadGroup(f, at, records, rows, targets[..|targets| - 1], k);
    }
  }

  // ------------------------------------------------- what the events account for

  /** Every row that was imported before is the same as what was imported. */
  ghost predicate NoConflict(f: Foreign, records: seq<Row>, rows: seq<LegacyRow>) {
    forall r :: r in rows && FirstImported(records, IdOfRow(r)).Some? ==>
      Matches(f, FirstImported(records, IdOfRow(r)).value, TargetOfRow(r), r)
  }

  /** The event carries a row that was not imported before. */
  ghost predicate Carries(f: Foreign, records: seq<Row>, e: Row, r: LegacyRow) {
    e.body.legacyId == IdOfRow(r) && FirstImported(records, IdOfRow(r)).None? && Matches(f, e, TargetOfRow(r), r)
  }

  ghost predicate EventsComeFrom(f: Foreign, records: seq<Row>, rows: seq<LegacyRow>, events: seq<Row>) {
    forall e :: e in events ==> exists r :: r in rows && Carries(f, records, e, r)
  }

  ghost predicate NewRowsCarried(f: Foreign, records: seq<Row>, rows: seq<LegacyRow>, events: seq<Row>) {
    forall r :: r in rows && FirstImported(records, IdOfRow(r)).None? ==> exists e :: e in events && Carries(f, records, e, r)
  }

  predicate DistinctImports(events: seq<Row>) {
    forall i, j :: 0 <= i < j < |events| ==> events[i].body.legacyId != events[j].body.legacyId
  }

  /** The events carry exactly the rows not imported before, once each. */
  ghost predicate Accounts(f: Foreign, records: seq<Row>, rows: seq<LegacyRow>, events: seq<Row>) {
    EventsComeFrom(f, records, rows, events) && NewRowsCarried(f, records, rows, events) && DistinctImports(events)
  }

  lemma {:induction false} ImportedAppend(records: seq<Row>, events: seq<Row>, id: string)
    ensures FirstImported(records + events, id)
            == if FirstImported(records, id).Some? then FirstImported(records, id) else FirstImported(events, id)
  {
    if events == [] {
      assert records + events == records;
    } else {
      var n := |events| - 1;
      ImportedAppend(records, events[..n], id);
      assert (records + events)[..|records + events| - 1] == records + events[..n];
    }
  }

  /** An id that no row has is not among the events that account for the rows. */
  lemma NotAmongEvents(f: Foreign, records: seq<Row>, rows: seq<LegacyRow>, events: seq<Row>, id: string)
    requires Accounts(f, records, rows, events) && forall r :: r in rows ==> IdOfRow(r) != id
    ensures FirstImported(events, id).None?
  {
    hide Matches, IdOfRow, TargetOfRow, NewRowsCarried, DistinctImports;
  }

  lemma ComeFromMore(f: Foreign, records: seq<Row>, rows: seq<LegacyRow>, events: seq<Row>, more: seq<LegacyRow>)
    requires EventsComeFrom(f, records, rows, events) && forall r :: r in rows ==> r in more
    ensures EventsComeFrom(f, records, more, events)
  {
    hide Carries;
    forall e | e in events ensures exists r :: r in more && Carries(f, records, e, r) {
      var r :| r in rows && Carries(f, records, e, r);
      assert r in more;
    }
  }

  lemma CarriedByMore(f: Foreign, records: seq<Row>, rows: seq<LegacyRow>, events: seq<Row>, more: seq<Row>)
    requires NewRowsCarried(f, records, rows, events) && forall e :: e in events ==> e in more
    ensures NewRowsCarried(f, records, rows, more)
  {
    hide Carries, FirstImported;
    forall r | r in rows && FirstImported(records, IdOfRow(r)).None? ensures exists e :: e in more && Carries(f, records, e, r) {
      var e :| e in events && Carries(f, records, e, r);
      assert e in more;
    }
  }

  lemma AccountsConcat(f: Foreign, records: seq<Row>, a: seq<LegacyRow>, b: seq<LegacyRow>, x: seq<Row>, y: seq<Row>)
    requires Accounts(f, records, a, x) && Accounts(f, records, b, y)
    requires forall r, s :: r in a && s in b ==> IdOfRow(r) != IdOfRow(s)
    ensures Accounts(f, records, a + b, x + y)
  {
    hide EventsComeFrom, NewRowsCarried, IdOfRow, Carries;
    ComeFromMore(f, records, a, x, a + b);
    ComeFromMore(f, records, b, y, a + b);
    CarriedByMore(f, records, a, x, x + y);
    CarriedByMore(f, records, b, y, x + y);
    EventsJoin(f, records, a + b, x, y);
    RowsJoin(f, records, a, b, x + y);
    forall i, j | 0 <= i < |x| && 0 <= j < |y| ensures x[i].body.legacyId != y[j].body.legacyId {
      assert x[i] in x && y[j] in y;
      ImportsApart(f, records, a, b, x, y, x[i], y[j]);
    }
  }

  lemma EventsJoin(f: Foreign, records: seq<Row>, rows: seq<LegacyRow>, x: seq<Row>, y: seq<Row>)
    requires EventsComeFrom(f, records, rows, x) && EventsComeFrom(f, records, rows, y)
    ensures EventsComeFrom(f, records, rows, x + y)
  {
    hide Carries;
  }

  lemma RowsJoin(f: Foreign, records: seq<Row>, a: seq<LegacyRow>, b: seq<LegacyRow>, events: seq<Row>)
    requires NewRowsCarried(f, records, a, events) && NewRowsCarried(f, records, b, events)
    ensures NewRowsCarried(f, records, a + b, events)
  {
    hide Carries, FirstImported, IdOfRow;
  }

  lemma ImportsApart(f: Foreign, records: seq<Row>, a: seq<LegacyRow>, b: seq<LegacyRow>, x: seq<Row>, y: seq<Row>, e: Row, g: Row)
    requires EventsComeFrom(f, records, a, x) && EventsComeFrom(f, records, b, y) && e in x && g in y
    requires forall r, s :: r in a && s in b ==> IdOfRow(r) != IdOfRow(s)
    ensures e.body.legacyId != g.body.legacyId
  {
    hide Matches, IdOfRow, TargetOfRow, FirstImported;
    var r :| r in a && Carries(f, records, e, r);
    var s :| s in b && Carries(f, records, g, s);
  }

  /** One more row, carried by one more event or, when imported before, by none. */
  lemma AccountsOne(f: Foreign, records: seq<Row>, row: LegacyRow, events: seq<Row>)
    requires (events == [] && FirstImported(records, IdOfRow(row)).Some?) || (|events| == 1 && Carries(f, records, events[0], row))
    ensures Accounts(f, records, [row], events)
  {
    hide FirstImported, Carries, IdOfRow;
    if events != [] { assert events[0] in events && row in [row]; }
  }

  lemma NothingAccounted(f: Foreign, records: seq<Row>)
    ensures Accounts(f, records, [], [])
  {
  }

  /** The rows of one target: built exactly when none conflicts. */
  lemma {:induction false} TargetEventsMean(f: Foreign, at: string, records: seq<Row>, target: string, rows: seq<LegacyRow>)
    requires DistinctRows(rows) && forall r :: r in rows ==> TargetOfRow(r) == target
    ensures LegacyEvents(f, at, records, target, rows).Ok? <==> NoConflict(f, records, rows)
    ensures LegacyEvents(f, at, records, target, rows).Err? ==> LegacyEvents(f, at, records, target, rows) == Err(ReplayConflict)
    ensures LegacyEvents(f, at, records, target, rows).Ok? ==>
              var b := LegacyEvents(f, at, records, target, rows).value;
              && Accounts(f, records, rows, b.events) && |b.events| + b.skipped == |rows|
              && LinkedBlock(f.eventHash, History(records, target), target, b.events)
  {
    hide Accounts, NoConflict, Matches, LegacyEvent, FirstImported, LinkedBlock, LinkedTo, History, IdOfRow, TargetOfRow;
    if rows == [] {
      NothingAccounted(f, records);
      NothingLinked(f.eventHash, History(records, target), target);
      NothingConflicts(f, records);
    } else {
      var n := |rows| - 1;
      var rest, row := rows[..n], rows[n];
      assert rows == rest + [row] && row in rows;
      DistinctRest(rows);
      TargetEventsMean(f, at, records, target, rest);
      ConflictSplits(f, records, rest, row);
      if LegacyEvents(f, at, records, target, rest).Ok? {
        var b := LegacyEvents(f, at, records, target, rest).value;
        NotAmongEvents(f, records, rest, b.events, IdOfRow(row));
        ImportedAppend(records, b.events, IdOfRow(row));
        if FirstImported(records, IdOfRow(row)).Some? {
          AccountsOne(f, records, row, []);
          AccountsConcat(f, records, rest, [row], b.events, []);
          assert b.events + [] == b.events;
        } else {
          LegacyEventFacts(f, at, History(records, target) + b.events, target, row);
          var event := LegacyEvent(f, at, History(records, target) + b.events, target, row);
          assert Carries(f, records, event, row);
          AccountsOne(f, records, row, [event]);
          AccountsConcat(f, records, rest, [row], b.events, [event]);
          LinkedGrows(f.eventHash, History(records, target), target, b.events, event);
        }
      }
    }
  }

  lemma NothingConflicts(f: Foreign, records: seq<Row>)
    ensures NoConflict(f, records, [])
  {
  }

  lemma ConflictSplits(f: Foreign, records: seq<Row>, rest: seq<LegacyRow>, row: LegacyRow)
    ensures NoConflict(f, records, rest + [row]) <==>
              NoConflict(f, records, rest)
              && (FirstImported(records, IdOfRow(row)).Some? ==> Matches(f, FirstImported(records, IdOfRow(row)).value, TargetOfRow(row), row))
  {
    hide FirstImported, Matches, IdOfRow, TargetOfRow;
    assert row in rest + [row];
  }

  lemma ConflictConcat(f: Foreign, records: seq<Row>, a: seq<LegacyRow>, b: seq<LegacyRow>)
    ensures NoConflict(f, records, a + b) <==> NoConflict(f, records, a) && NoConflict(f, records, b)
  {
    hide FirstImported, Matches, IdOfRow, TargetOfRow;
  }

  lemma DistinctRest(rows: seq<LegacyRow>)
    requires rows != [] && DistinctRows(rows)
    ensures DistinctRows(rows[..|rows| - 1])
    ensures forall r :: r in rows[..|rows| - 1] ==> IdOfRow(r) != IdOfRow(rows[|rows| - 1])
  {
    hide IdOfRow;
    forall r | r in rows[..|rows| - 1] ensures IdOfRow(r) != IdOfRow(rows[|rows| - 1]) {
      var i :| 0 <= i < |rows| - 1 && rows[..|rows| - 1][i] == r;
      assert rows[i] == r;
    }
  }

  lemma {:induction false} RegroupedAre(rows: seq<LegacyRow>, targets: seq<string>)
    ensures forall r :: r in Regrouped(rows, targets) <==> r in rows && TargetOfRow(r) in targets
  {
    hide TargetOfRow, RowsOf;
    if targets != [] {
      var n := |targets| - 1;
      RegroupedAre(rows, targets[..n]);
      RowsOfAre(rows, targets[n]);
      assert targets == targets[..n] + [targets[n]];
    }
  }

  lemma GroupsApart(rows: seq<LegacyRow>, targets: seq<string>)
    requires DistinctRows(rows) && targets != [] && Distinct(targets)
    ensures forall r, s :: r in Regrouped(rows, targets[..|targets| - 1]) && s in RowsOf(rows, targets[|targets| - 1]) ==>
              IdOfRow(r) != IdOfRow(s)
  {
    hide IdOfRow, TargetOfRow, RowsOf, Regrouped;
    var n := |targets| - 1;
    RegroupedAre(rows, targets[..n]);
    RowsOfAre(rows, targets[n]);
    forall r, s | r in Regrouped(rows, targets[..n]) && s in RowsOf(rows, targets[n]) ensures IdOfRow(r) != IdOfRow(s) {
      var i :| 0 <= i < |rows| && rows[i] == r;
      var j :| 0 <= j < |rows| && rows[j] == s;
      assert targets[n] !in targets[..n];
    }
  }

  /** All targets together. */
  lemma {:induction false} GroupsMean(f: Foreign, at: string, records: seq<Row>, rows: seq<LegacyRow>, targets: seq<string>)
    requires DistinctRows(rows) && Distinct(targets)
    ensures GroupEvents(f, at, records, rows, targets).Ok? <==> NoConflict(f, records, Regrouped(rows, targets))
    ensures GroupEvents(f, at, records, rows, targets).Err? ==> GroupEvents(f, at, records, rows, targets) == Err(ReplayConflict)
    ensures GroupEvents(f, at, records, rows, targets).Ok? ==>
              var b := GroupEvents(f, at, records, rows, targets).value;
              Accounts(f, records, Regrouped(rows, targets), b.events) && |b.events| + b.skipped == |Regrouped(rows, targets)|
  {
    hide Accounts, NoConflict, LegacyEvents, RowsOf, DistinctRows, IdOfRow, TargetOfRow, LinkedBlock, History;
    if targets == [] {
      NothingAccounted(f, records);
      NothingConflicts(f, records);
    } else {
      var n := |targets| - 1;
      GroupsMean(f, at, records, rows, targets[..n]);
      RowsOfAre(rows, targets[n]);
      TargetEventsMean(f, at, records, targets[n], RowsOf(rows, targets[n]));
      ConflictConcat(f, records, Regrouped(rows, targets[..n]), RowsOf(rows, targets[n]));
      if GroupEvents(f, at, records, rows, targets).Ok? {
        GroupsApart(rows, targets);
        AccountsConcat(f, records, Regrouped(rows, targets[..n]), RowsOf(rows, targets[n]),
                       GroupEvents(f, at, records, rows, targets[..n]).value.events,
                       LegacyEvents(f, at, records, targets[n], RowsOf(rows, targets[n])).value.events);
      }
    }
  }

  lemma SameRowsSameAccount(f: Foreign, records: seq<Row>, a: seq<LegacyRow>, b: seq<LegacyRow>, events: seq<Row>)
    requires forall r :: r in a <==> r in b
    ensures NoConflict(f, records, a) <==> NoConflict(f, records, b)
    ensures Accounts(f, records, a, events) ==> Accounts(f, records, b, events)
  {
    hide FirstImported, Matches, IdOfRow, TargetOfRow, Carries, EventsComeFrom;
    if Accounts(f, records, a, events) { ComeFromMore(f, records, a, events, b); }
  }

  /** The batch as a whole: built exactly when no row conflicts; its events carry exactly the new rows. */
  lemma BatchMeans(f: Foreign, at: string, records: seq<Row>, rows: seq<LegacyRow>)
    requires Chain(f.eventHash, records).Ok? && DistinctRows(rows)
    ensures LegacyBatch(f, at, records, rows).Ok? <==> NoConflict(f, records, rows)
    ensures LegacyBatch(f, at, records, rows).Err? ==> LegacyBatch(f, at, records, rows) == Err(ReplayConflict)
    ensures LegacyBatch(f, at, records, rows).Ok? ==>
              var b := LegacyBatch(f, at, records, rows).value;
              Accounts(f, records, rows, b.events) && |b.events| + b.skipped == |rows|
  {
    hide Accounts, NoConflict, GroupEvents, DistinctRows, Chain, Regrouped, Targets;
    GroupsMean(f, at, records, rows, Targets(rows));
    GroupingPermutes(rows);
    SamePermuted(Regrouped(rows, Targets(rows)), rows);
    if LegacyBatch(f, at, records, rows).Ok? {
      SameRowsSameAccount(f, records, Regrouped(rows, Targets(rows)), rows, LegacyBatch(f, at, records, rows).value.events);
    }
    SameRowsSameAccount(f, records, Regrouped(rows, Targets(rows)), rows, []);
  }

  lemma SamePermuted(a: seq<LegacyRow>, b: seq<LegacyRow>)
    requires multiset(a) == multiset(b)
    ensures |a| == |b| && forall r :: r in a <==> r in b
  {
    assert |multiset(a)| == |a| && |multiset(b)| == |b|;
    forall r ensures r in a <==> r in b {
      assert r in a <==> r in multiset(a);
      assert r in b <==> r in multiset(b);
    }
  }

  // ------------------------------------------------- the transaction over all targets

  function EventsFor(f: Foreign, at: string, records: seq<Row>, rows: seq<LegacyRow>, target: string): seq<Row> {
    match LegacyEvents(f, at, records, target, RowsOf(rows, target))
    case Ok(b) => b.events
    case Err(_) => []
  }

  /**
   * The transaction takes the events of all targets, whole, exactly when their ids are new;
   * the stream of each target grows by its own events.
   */
  lemma {:induction false} GroupsAreAppended(f: Foreign, at: string, records: seq<Row>, rows: seq<LegacyRow>, targets: seq<string>)
    requires Chain(f.eventHash, records).Ok? && DistinctRows(rows) && Distinct(targets) && "" !in targets
    requires GroupEvents(f, at, records, rows, targets).Ok?
    ensures var events := GroupEvents(f, at, records, rows, targets).value.events;
            var r := AppendAll(f.eventHash, records, events);
            && (r.Ok? <==> FreshIds(records, events))
            && (r.Ok? ==> r.value == records + events && forall s :: s !in targets ==> History(r.value, s) == History(records, s))
            && (r.Ok? ==> forall s :: s in targets ==> History(r.value, s) == History(records, s) + EventsFor(f, at, records, rows, s))
  {
    hide LegacyEvents, RowsOf, DistinctRows, LinkedBlock, History, Chain, FreshIds, AppendAll, LinkedTo;
    if targets == [] {
      NoIds(records);
      assert records + [] == records;
      NothingAppended(f.eventHash, records);
    } else {
      var n := |targets| - 1;
      var t := targets[n];
      GroupsAreAppended(f, at, records, rows, targets[..n]);
      RowsOfAre(rows, t);
      TargetEventsMean(f, at, records, t, RowsOf(rows, t));
      var done := GroupEvents(f, at, records, rows, targets[..n]).value.events;
      var block := LegacyEvents(f, at, records, t, RowsOf(rows, t)).value.events;
      AppendConcat(f.eventHash, records, done, block);
      FreshConcat(records, done, block);
      if AppendAll(f.eventHash, records, done).Ok? {
        TransactionKeepsChain(f.eventHash, records, done);
        assert t !in targets[..n];
        BlockIsAppended(f.eventHash, records + done, t, block);
        assert (records + done) + block == records + (done + block);
        assert forall s :: s !in targets ==> s !in targets[..n] && s != t;
      }
    }
  }

  lemma {:induction false} FreshConcat(records: seq<Row>, a: seq<Row>, b: seq<Row>)
    ensures FreshIds(records, a + b) <==> FreshIds(records, a) && FreshIds(records + a, b)
  {
    hide FirstWith, FreshIds;
    if b == [] {
      assert a + b == a;
      NoIds(records + a);
    } else {
      var n := |b| - 1;
      FreshConcat(records, a, b[..n]);
      assert a + b == (a + b[..n]) + [b[n]] && b == b[..n] + [b[n]];
      FreshIdsStep(records, a + b[..n], b[n]);
      FreshIdsStep(records + a, b[..n], b[n]);
      assert records + (a + b[..n]) == (records + a) + b[..n];
    }
  }
}
