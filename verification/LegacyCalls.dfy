/**
 * One call of the legacy ingest from outside: refused whole, or taken whole; and a second
 * call with the same rows adds nothing.
 */
module LegacyCalls {
  import opened Text
  import opened Receipts
  import opened Ledger
  import opened LedgerBlocks
  import opened Ingest
  import opened LegacyIngest
  import opened LegacyRuns
  import opened Registry

  datatype LegacyReport =
    | Refused(reason: Reason)
    | Raised(error: LedgerError)   // an exception of the store
    | Report(appended: nat, pending: nat, skipped: nat, inputEvents: nat, targetsProcessed: nat)

  /** What a call leaves: the ledger, the registrations it asked for, and its answer. */
  datatype Outcome = Outcome(ledger: seq<Row>, registered: seq<Registration>, report: LegacyReport)

  function RegistrationOf(rows: seq<LegacyRow>, target: string): Registration {
    var group := RowsOf(rows, target);
    if group == [] then Registration(target, UrlHash, "", "") else Registration(target, UrlHash, group[0].url, group[0].title)
  }

  function Registrations(rows: seq<LegacyRow>): seq<Registration> {
    var targets := Targets(rows);
    seq(|targets|, i requires 0 <= i < |targets| => RegistrationOf(rows, targets[i]))
  }

  function Answer(e: LedgerError): LegacyReport {
    if e == ReplayConflict then Refused(LegacyReplayConflict) else Raised(e)
  }

  /**
   * A call that finds the ledger `seen` in its check before the registry is touched and the
   * ledger `locked` inside the transaction; without other writers the two are the same.
   */
  function CallLegacy(f: Foreign, at: string, seen: seq<Row>, locked: seq<Row>, rows: seq<LegacyRow>, apply: bool): Outcome {
    if Validated(rows).Some? then Outcome(locked, [], Refused(Validated(rows).value))
    else
      match LegacyBatch(f, at, seen, rows)
      case Err(e) => Outcome(locked, [], Answer(e))
      case Ok(_) =>
        if !apply then
          (match LegacyBatch(f, at, locked, rows)
           case Err(e) => Outcome(locked, [], Answer(e))
           case Ok(b) => Outcome(locked, [], Report(0, |b.events|, b.skipped, |rows|, |Targets(rows)|)))
        else
          match Transaction(f.eventHash, locked, BuildFor(f, at, rows))
          case Err(e) => Outcome(locked, Registrations(rows), Answer(e))
          case Ok(now) =>
            Outcome(now, Registrations(rows),
                    Report(|now| - |locked|, 0, LegacyBatch(f, at, locked, rows).value.skipped, |rows|, |Targets(rows)|))
  }

  method ValidateRows(rows: seq<LegacyRow>) returns (r: Option<Reason>, order: seq<string>, grouped: map<string, seq<LegacyRow>>)
    ensures r == Validated(rows)
    ensures r.None? ==> order == Targets(rows) && forall t :: t in order ==> t in grouped && grouped[t] == RowsOf(rows, t)
  {
    hide FirstProblem, OneStream, RowsOf, Targets, DistinctRows;
    order, grouped := [], map[];
    if |rows| > MAX_MESSAGES { return Some(MessageLimitExceeded), order, grouped; }
    var problem := FirstProblem(rows);
    if problem.Some? { return problem, order, grouped; }
    if !DistinctRows(rows) { return Some(DuplicateEventId), order, grouped; }
    order, grouped := GroupRows(rows);
    if exists i :: 0 <= i < |order| && !OneStream(grouped[order[i]]) {
      return Some(TargetIdentityMismatch), order, grouped;
    }
    assert forall t :: t in order ==> OneStream(RowsOf(rows, t));
    return None, order, grouped;
  }

  /** `_ingest_legacy_observations`, with no other writer at work. */
  method IngestLegacyObservations(f: Foreign, at: string, store: SnapshotStore, registry: TargetRegistry, rows: seq<LegacyRow>, apply: bool)
    returns (report: LegacyReport)
    requires rows != []
    modifies store, registry
    ensures var o := CallLegacy(f, at, old(store.rows), old(store.rows), rows, apply);
            report == o.report && store.rows == o.ledger && registry.entries == RegisteredAll(old(registry.entries), o.registered)
  {
    hide FirstProblem, OneStream, LegacyBatch, Transaction, RowsOf, Targets, Registrations, RegistrationOf, Registered;
    ghost var before, registered := store.rows, registry.entries;
    var problem, order, grouped := ValidateRows(rows);
    if problem.Some? { return Refused(problem.value); }
    assert FirstProblem(rows).None?;
    var check := BuildEvents(f, at, store.rows, rows, order, grouped);
    if check.Err? { return Answer(check.error); }
    if !apply {
      var pending := BuildEvents(f, at, store.rows, rows, order, grouped);
      return Report(0, |pending.value.events|, pending.value.skipped, |rows|, |order|);
    }
    RegisterAll(registry, rows, order, grouped);
    assert store.rows == before;
    var appended := store.Append(f.eventHash, BuildFor(f, at, rows));
    if appended.Err? { return Answer(appended.error); }
    TransactionBuilds(f, at, before, rows);
    return Report(appended.value.0, 0, check.value.skipped, |rows|, |order|);
  }

  lemma TransactionBuilds(f: Foreign, at: string, rows: seq<Row>, legacy: seq<LegacyRow>)
    requires Transaction(f.eventHash, rows, BuildFor(f, at, legacy)).Ok?
    ensures LegacyBatch(f, at, rows, legacy).Ok?
  {
    hide AppendAll, LegacyBatch;
  }

  method RegisterAll(registry: TargetRegistry, rows: seq<LegacyRow>, order: seq<string>, grouped: map<string, seq<LegacyRow>>)
    requires order == Targets(rows) && forall t :: t in order ==> t in grouped && grouped[t] == RowsOf(rows, t)
    modifies registry
    ensures registry.entries == RegisteredAll(old(registry.entries), Registrations(rows))
  {
    hide RowsOf, Targets, Registered;
    assert Registrations(rows)[..0] == [];
    for i := 0 to |order|
      invariant registry.entries == RegisteredAll(old(registry.entries), Registrations(rows)[..i])
    {
      var group := grouped[order[i]];
      registry.Register(if group == [] then Registration(order[i], UrlHash, "", "") else Registration(order[i], UrlHash, group[0].url, group[0].title));
      assert Registrations(rows)[..i + 1][..i] == Registrations(rows)[..i];
    }
    assert Registrations(rows)[..|order|] == Registrations(rows);
  }

  // ------------------------------------------------- all or nothing

  /** A row that conflicts with what was imported rejects the whole call: ledger and registry stay as they were. */
  lemma ConflictRejectsWhole(f: Foreign, at: string, seen: seq<Row>, locked: seq<Row>, rows: seq<LegacyRow>, apply: bool)
    requires Validated(rows).None? && Chain(f.eventHash, seen).Ok? && !NoConflict(f, seen, rows)
    ensures CallLegacy(f, at, seen, locked, rows, apply) == Outcome(locked, [], Refused(LegacyReplayConflict))
  {
    hide Chain, NoConflict, FirstProblem, OneStream, Accounts, LegacyBatch;
    BatchMeans(f, at, seen, rows);
  }

  /** A conflict that another writer created in between still leaves the ledger as it was; the registrations are made by then. */
  lemma LateConflictKeepsLedger(f: Foreign, at: string, seen: seq<Row>, locked: seq<Row>, rows: seq<LegacyRow>)
    requires Validated(rows).None? && Chain(f.eventHash, seen).Ok? && NoConflict(f, seen, rows)
    requires Chain(f.eventHash, locked).Ok? && !NoConflict(f, locked, rows)
    ensures CallLegacy(f, at, seen, locked, rows, true) == Outcome(locked, Registrations(rows), Refused(LegacyReplayConflict))
  {
    hide Chain, NoConflict, FirstProblem, OneStream, Accounts, LegacyBatch, AppendAll, Registrations;
    BatchMeans(f, at, seen, rows);
    BatchMeans(f, at, locked, rows);
  }

  lemma ValidTargets(rows: seq<LegacyRow>)
    requires Validated(rows).None?
    ensures DistinctRows(rows) && Distinct(Targets(rows)) && "" !in Targets(rows)
  {
    hide FirstProblem, OneStream, DistinctRows, RowsOf;
    forall t | t in Targets(rows) ensures t != "" { TargetRowsNamed(rows, t); }
  }

  /** The transaction of a batch without conflicts. */
  lemma TransactionMeans(f: Foreign, at: string, rows: seq<Row>, legacy: seq<LegacyRow>)
    requires Validated(legacy).None? && Chain(f.eventHash, rows).Ok? && NoConflict(f, rows, legacy)
    ensures LegacyBatch(f, at, rows, legacy).Ok?
    ensures var events := LegacyBatch(f, at, rows, legacy).value.events;
            var r := Transaction(f.eventHash, rows, BuildFor(f, at, legacy));
            (r.Ok? <==> FreshIds(rows, events)) && (r.Ok? ==> r.value == rows + events)
  {
    hide Chain, NoConflict, Validated, Accounts, GroupEvents, AppendAll, FreshIds, Targets;
    ValidTargets(legacy);
    BatchMeans(f, at, rows, legacy);
    GroupsAreAppended(f, at, rows, legacy, Targets(legacy));
  }

  /**
   * A partly new batch: the call succeeds exactly on a valid ledger, without conflicts and
   * with new event ids; it appends exactly the rows not imported before, once each, behind
   * the old ledger, and counts all others as skipped.
   */
  lemma LegacyExact(f: Foreign, at: string, ledger: seq<Row>, rows: seq<LegacyRow>)
    requires Validated(rows).None?
    ensures CallLegacy(f, at, ledger, ledger, rows, true).report.Report? <==>
              && Chain(f.eventHash, ledger).Ok? && NoConflict(f, ledger, rows)
              && LegacyBatch(f, at, ledger, rows).Ok? && FreshIds(ledger, LegacyBatch(f, at, ledger, rows).value.events)
    ensures CallLegacy(f, at, ledger, ledger, rows, true).report.Report? ==>
              var o, events := CallLegacy(f, at, ledger, ledger, rows, true), LegacyBatch(f, at, ledger, rows).value.events;
              && o.ledger == ledger + events && Accounts(f, ledger, rows, events)
              && o.report.appended == |events| && o.report.appended + o.report.skipped == |rows|
              && Chain(f.eventHash, o.ledger).Ok? && o.registered == Registrations(rows)
    ensures !CallLegacy(f, at, ledger, ledger, rows, true).report.Report? ==> CallLegacy(f, at, ledger, ledger, rows, true).ledger == ledger
  {
    hide NoConflict, Accounts, GroupEvents, AppendAll, FreshIds, Targets, Registrations, FirstProblem, OneStream;
    ValidTargets(rows);
    if Chain(f.eventHash, ledger).Ok? {
      BatchMeans(f, at, ledger, rows);
      if NoConflict(f, ledger, rows) { TransactionMeans(f, at, ledger, rows); }
      if CallLegacy(f, at, ledger, ledger, rows, true).report.Report? {
        TransactionKeepsChain(f.eventHash, ledger, LegacyBatch(f, at, ledger, rows).value.events);
      }
    }
  }

  // ------------------------------------------------- idempotence

  /** Every row is in the ledger, unchanged. */
  ghost predicate AllImported(f: Foreign, records: seq<Row>, rows: seq<LegacyRow>) {
    forall r :: r in rows ==>
      FirstImported(records, IdOfRow(r)).Some? && Matches(f, FirstImported(records, IdOfRow(r)).value, TargetOfRow(r), r)
  }

  lemma ImportedAfter(f: Foreign, records: seq<Row>, rows: seq<LegacyRow>, events: seq<Row>)
    requires DistinctRows(rows) && NoConflict(f, records, rows) && Accounts(f, records, rows, events)
    ensures AllImported(f, records + events, rows)
  {
    hide Matches, TargetOfRow, DistinctImports, DistinctRows, EventsComeFrom, NewRowsCarried;
    forall r | r in rows
      ensures FirstImported(records + events, IdOfRow(r)).Some?
              && Matches(f, FirstImported(records + events, IdOfRow(r)).value, TargetOfRow(r), r)
    {
      ImportedAppend(records, events, IdOfRow(r));
      if FirstImported(records, IdOfRow(r)).None? { CarriedIsFound(f, records, rows, events, r); }
    }
  }

  lemma CarriedIsFound(f: Foreign, records: seq<Row>, rows: seq<LegacyRow>, events: seq<Row>, r: LegacyRow)
    requires DistinctRows(rows) && Accounts(f, records, rows, events) && r in rows && FirstImported(records, IdOfRow(r)).None?
    ensures FirstImported(events, IdOfRow(r)).Some? && Matches(f, FirstImported(events, IdOfRow(r)).value, TargetOfRow(r), r)
  {
    hide Matches, TargetOfRow, IdOfRow, DistinctImports, DistinctRows, EventsComeFrom;
    var e :| e in events && Carries(f, records, e, r);
    var found := FirstImported(events, IdOfRow(r)).value;
    FoundCarries(f, records, rows, events, found, r);
  }

  lemma FoundCarries(f: Foreign, records: seq<Row>, rows: seq<LegacyRow>, events: seq<Row>, found: Row, r: LegacyRow)
    requires DistinctRows(rows) && EventsComeFrom(f, records, rows, events) && found in events && r in rows
    requires found.body.legacyId == IdOfRow(r)
    ensures Matches(f, found, TargetOfRow(r), r)
  {
    hide Matches, TargetOfRow, IdOfRow;
    var s :| s in rows && Carries(f, records, found, s);
    var i :| 0 <= i < |rows| && rows[i] == r;
    var j :| 0 <= j < |rows| && rows[j] == s;
  }

  lemma ImportedStays(f: Foreign, records: seq<Row>, later: seq<Row>, rows: seq<LegacyRow>)
    requires AllImported(f, records, rows) && records <= later
    ensures AllImported(f, later, rows)
  {
    hide Matches, TargetOfRow, IdOfRow;
    assert later == records + later[|records|..];
    forall r | r in rows ensures FirstImported(later, IdOfRow(r)) == FirstImported(records, IdOfRow(r)) {
      ImportedAppend(records, later[|records|..], IdOfRow(r));
    }
  }

  lemma NothingNew(f: Foreign, at: string, records: seq<Row>, rows: seq<LegacyRow>)
    requires Validated(rows).None? && Chain(f.eventHash, records).Ok? && AllImported(f, records, rows)
    ensures LegacyBatch(f, at, records, rows) == Ok(LegacyBuilt([], |rows|))
    ensures NoConflict(f, records, rows)
  {
    hide Chain, Matches, GroupEvents, Targets, FirstProblem, OneStream, TargetOfRow, DistinctRows;
    ValidTargets(rows);
    BatchMeans(f, at, records, rows);
    EventsMeanNewRows(f, records, rows, LegacyBatch(f, at, records, rows).value.events);
  }

  lemma EventsMeanNewRows(f: Foreign, records: seq<Row>, rows: seq<LegacyRow>, events: seq<Row>)
    requires Accounts(f, records, rows, events)
    ensures events != [] ==> exists r :: r in rows && FirstImported(records, IdOfRow(r)).None?
  {
    hide Matches, TargetOfRow, IdOfRow, NewRowsCarried, DistinctImports, FirstImported;
    if events != [] {
      assert events[0] in events;
      var r :| r in rows && Carries(f, records, events[0], r);
    }
  }

  /**
   * Idempotence: once a call has succeeded, the same rows add nothing, at once or at any
   * later time, whatever other writers appended in between: every row counts as skipped.
   */
  lemma SecondIngestAddsNothing(f: Foreign, at: string, ledger: seq<Row>, rows: seq<LegacyRow>, again: string, later: seq<Row>)
    requires Validated(rows).None? && CallLegacy(f, at, ledger, ledger, rows, true).report.Report?
    requires CallLegacy(f, at, ledger, ledger, rows, true).ledger <= later && Chain(f.eventHash, later).Ok?
    ensures CallLegacy(f, again, later, later, rows, true)
            == Outcome(later, Registrations(rows), Report(0, 0, |rows|, |rows|, |Targets(rows)|))
  {
    hide NoConflict, Accounts, FreshIds, Registrations, FirstProblem, OneStream;
    hide LegacyBatch, AllImported, Chain, CallLegacy, DistinctRows, Targets;
    LegacyExact(f, at, ledger, rows);
    ValidTargets(rows);
    ImportedAfter(f, ledger, rows, LegacyBatch(f, at, ledger, rows).value.events);
    ImportedStays(f, ledger + LegacyBatch(f, at, ledger, rows).value.events, later, rows);
    NothingNew(f, again, later, rows);
    SkippedCall(f, again, later, rows);
  }

  lemma SkippedCall(f: Foreign, at: string, ledger: seq<Row>, rows: seq<LegacyRow>)
    requires Validated(rows).None? && Chain(f.eventHash, ledger).Ok?
    requires LegacyBatch(f, at, ledger, rows) == Ok(LegacyBuilt([], |rows|))
    ensures CallLegacy(f, at, ledger, ledger, rows, true)
            == Outcome(ledger, Registrations(rows), Report(0, 0, |rows|, |rows|, |Targets(rows)|))
  {
    hide Registrations, FirstProblem, OneStream, LegacyBatch, Chain, Targets, DistinctRows;
    NothingAppended(f.eventHash, ledger);
  }

  /** Nor does a repeated call add to the registry, unless the URL of a target's first row is padded. */
  lemma SecondCallKeepsRegistry(entries: seq<Registration>, rows: seq<LegacyRow>)
    requires forall i :: 0 <= i < |Registrations(rows)| ==> Unpadded(Registrations(rows)[i])
    ensures RegisteredAll(RegisteredAll(entries, Registrations(rows)), Registrations(rows)) == RegisteredAll(entries, Registrations(rows))
  {
    hide RowsOf, Unpadded, Registered;
    OffersTwice(entries, Registrations(rows));
  }

  // ------------------------------------------------- legacy ids stay unique

  /** Each legacy event id stands at most once in the ledger. */
  predicate UniqueImports(records: seq<Row>) {
    forall i, j :: 0 <= i < j < |records| && records[i].body.legacyId != "" ==> records[i].body.legacyId != records[j].body.legacyId
  }

  lemma UniqueAppend(f: Foreign, records: seq<Row>, rows: seq<LegacyRow>, events: seq<Row>)
    requires UniqueImports(records) && Accounts(f, records, rows, events)
    ensures UniqueImports(records + events)
  {
    hide Matches, TargetOfRow, IdOfRow, NewRowsCarried;
    forall i, j | 0 <= i < |records| && 0 <= j < |events| ensures records[i].body.legacyId != events[j].body.legacyId {
      assert events[j] in events;
      var r :| r in rows && Carries(f, records, events[j], r);
    }
  }

  /** A call of the legacy ingest keeps the ids unique, even when another writer came in between. */
  lemma LegacyKeepsUnique(f: Foreign, at: string, seen: seq<Row>, locked: seq<Row>, rows: seq<LegacyRow>, apply: bool)
    requires UniqueImports(locked)
    ensures UniqueImports(CallLegacy(f, at, seen, locked, rows, apply).ledger)
    ensures locked <= CallLegacy(f, at, seen, locked, rows, apply).ledger
    ensures Chain(f.eventHash, locked).Ok? ==> Chain(f.eventHash, CallLegacy(f, at, seen, locked, rows, apply).ledger).Ok?
  {
    hide UniqueImports, FirstProblem, OneStream, Accounts, GroupEvents, AppendAll;
    hide Registrations, Chain, FreshIds, Targets, NoConflict, DistinctRows;
    if Validated(rows).None? && Transaction(f.eventHash, locked, BuildFor(f, at, rows)).Ok? {
      ValidTargets(rows);
      BatchMeans(f, at, locked, rows);
      TransactionMeans(f, at, locked, rows);
      var events := LegacyBatch(f, at, locked, rows).value.events;
      UniqueAppend(f, locked, rows, events);
      TransactionKeepsChain(f.eventHash, locked, events);
    }
  }
}
