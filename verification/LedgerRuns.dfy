/**
 * All writers together: message ingest, legacy ingest and external import, one call after
 * another on one file.
 */
module LedgerRuns {
  import opened Text
  import opened Receipts
  import opened Ledger
  import opened LedgerBlocks
  import opened Ingest
  import L = LegacyIngest
  import opened LegacyRuns
  import opened LegacyCalls
  import X = ExternalImport
  import opened ImportRuns

  datatype Write =
    | MessageWrite(context: Context, messages: seq<Message>)
    | LegacyWrite(at: string, rows: seq<L.LegacyRow>)
    | ImportWrite(request: X.Request)

  /** The foreign functions of all writers. */
  datatype World = World(foreign: Foreign, channelOf: string -> Option<string>)

  function LibOf(w: World): X.Lib {
    X.Lib(w.foreign.eventHash, w.foreign.textHash, w.channelOf)
  }

  /** An import that nothing disturbs: inspected, absent, staged and swapped. */
  function Imported(lib: X.Lib, req: X.Request, rows: seq<Row>): seq<Row> {
    if X.Inspection(lib, req, rows).Some? || X.Present(req, rows) then rows
    else
      match X.Staging(lib, req, rows, X.Duplicate(req, rows))
      case Err(_) => rows
      case Ok(staged) => staged
  }

  /** The file after one call; a refused call changes nothing. */
  function Apply(w: World, rows: seq<Row>, write: Write): seq<Row> {
    match write
    case MessageWrite(ctx, messages) =>
      (match Ingested(w.foreign, ctx, rows, messages) case Ok(now) => now case Err(_) => rows)
    case LegacyWrite(at, legacy) => CallLegacy(w.foreign, at, rows, rows, legacy, true).ledger
    case ImportWrite(req) => Imported(LibOf(w), req, rows)
  }

  /** What the callers see to: a message has a target, an import has an id and a target. */
  predicate Usable(write: Write) {
    match write
    case MessageWrite(ctx, _) => ctx.target != ""
    case LegacyWrite(_, _) => true
    case ImportWrite(req) => req.importId != "" && req.key != ""
  }

  function Written(w: World, writes: seq<Write>): seq<Row> {
    if writes == [] then [] else Apply(w, Written(w, writes[..|writes| - 1]), writes[|writes| - 1])
  }

  // ------------------------------------------------- the marks of the events

  lemma {:induction false} MessagesCarryNoMarks(f: Foreign, ctx: Context, history: seq<Row>, messages: seq<Message>)
    ensures forall e :: e in MessageEvents(f, ctx, history, messages) ==> e.body.legacyId == "" && e.body.importId == ""
  {
    hide LastSeen, ContentHash, PreviousContent, HistoryHead;
    if messages != [] { MessagesCarryNoMarks(f, ctx, history, messages[..|messages| - 1]); }
  }

  lemma {:induction false} LegacyCarryNoImport(f: Foreign, at: string, records: seq<Row>, target: string, rows: seq<L.LegacyRow>)
    ensures L.LegacyEvents(f, at, records, target, rows).Ok? ==>
              forall e :: e in L.LegacyEvents(f, at, records, target, rows).value.events ==> e.body.importId == ""
  {
    hide L.FirstImported, L.Matches, PreviousContent, HistoryHead, History, L.RowHash;
    if rows != [] { LegacyCarryNoImport(f, at, records, target, rows[..|rows| - 1]); }
  }

  lemma {:induction false} GroupsCarryNoImport(f: Foreign, at: string, records: seq<Row>, rows: seq<L.LegacyRow>, targets: seq<string>)
    ensures GroupEvents(f, at, records, rows, targets).Ok? ==>
              forall e :: e in GroupEvents(f, at, records, rows, targets).value.events ==> e.body.importId == ""
  {
    hide L.LegacyEvents, L.RowsOf;
    if targets != [] {
      var n := |targets| - 1;
      GroupsCarryNoImport(f, at, records, rows, targets[..n]);
      LegacyCarryNoImport(f, at, records, targets[n], L.RowsOf(rows, targets[n]));
    }
  }

  lemma NoNewMarks(rows: seq<Row>, events: seq<Row>)
    requires UniqueImports(rows) && forall e :: e in events ==> e.body.legacyId == ""
    ensures UniqueImports(rows + events)
  {
  }

  // ------------------------------------------------- every reachable ledger

  /** A valid ledger in which no legacy observation and no import stands twice. */
  ghost predicate GoodLedger(h: Hash, rows: seq<Row>) {
    Chain(h, rows).Ok? && UniqueImports(rows) && UniqueExternal(rows)
  }

  lemma MessageKeepsGood(w: World, rows: seq<Row>, ctx: Context, messages: seq<Message>)
    requires GoodLedger(w.foreign.eventHash, rows) && ctx.target != ""
    ensures var now := Apply(w, rows, MessageWrite(ctx, messages)); GoodLedger(w.foreign.eventHash, now) && rows <= now
  {
    hide Chain, UniqueImports, UniqueExternal, MessageEvents, History, AppendAll;
    if Ingested(w.foreign, ctx, rows, messages).Ok? {
      var events := MessageEvents(w.foreign, ctx, History(rows, ctx.target), messages);
      IngestAppendsAll(w.foreign, ctx, rows, messages);
      MessagesCarryNoMarks(w.foreign, ctx, History(rows, ctx.target), messages);
      NoNewMarks(rows, events);
      WritersAddNoImport(rows, events);
    }
  }

  lemma LegacyKeepsGood(w: World, rows: seq<Row>, at: string, legacy: seq<L.LegacyRow>)
    requires GoodLedger(w.foreign.eventHash, rows)
    ensures var now := Apply(w, rows, LegacyWrite(at, legacy)); GoodLedger(w.foreign.eventHash, now) && rows <= now
  {
    hide Chain, UniqueImports, UniqueExternal, CallLegacy, LegacyBatch, L.Validated, Accounts;
    LegacyKeepsUnique(w.foreign, at, rows, rows, legacy, true);
    LegacyTail(w.foreign, at, rows, legacy);
    var now := CallLegacy(w.foreign, at, rows, rows, legacy, true).ledger;
    WritersAddNoImport(rows, now[|rows|..]);
    assert rows + now[|rows|..] == now;
  }

  lemma LegacyTail(f: Foreign, at: string, rows: seq<Row>, legacy: seq<L.LegacyRow>)
    requires Chain(f.eventHash, rows).Ok?
    ensures var now := CallLegacy(f, at, rows, rows, legacy, true).ledger;
            rows <= now && forall e :: e in now[|rows|..] ==> e.body.importId == ""
  {
    hide Chain, L.Validated, Accounts, GroupEvents, L.Targets, NoConflict, Registrations, FreshIds, CallLegacy;
    if L.Validated(legacy).None? {
      LegacyExact(f, at, rows, legacy);
      GroupsCarryNoImport(f, at, rows, legacy, L.Targets(legacy));
      if CallLegacy(f, at, rows, rows, legacy, true).report.Report? {
        assert (rows + LegacyBatch(f, at, rows, legacy).value.events)[|rows|..] == LegacyBatch(f, at, rows, legacy).value.events;
      }
    } else {
      RefusedKeeps(f, at, rows, legacy);
    }
  }

  lemma RefusedKeeps(f: Foreign, at: string, rows: seq<Row>, legacy: seq<L.LegacyRow>)
    requires L.Validated(legacy).Some?
    ensures CallLegacy(f, at, rows, rows, legacy, true).ledger == rows
  {
    hide L.Validated;
  }

  lemma ImportKeepsGood(w: World, rows: seq<Row>, req: X.Request)
    requires GoodLedger(w.foreign.eventHash, rows) && req.importId != "" && req.key != ""
    ensures var now := Apply(w, rows, ImportWrite(req)); GoodLedger(w.foreign.eventHash, now) && rows <= now
  {
    hide Chain, UniqueImports, UniqueExternal, X.Staging, X.Inspection, X.Present, X.Duplicate, X.LastContent;
    var lib := LibOf(w);
    if X.Inspection(lib, req, rows).None? && !X.Present(req, rows) && X.Staging(lib, req, rows, X.Duplicate(req, rows)).Ok? {
      X.StagingMeans(lib, req, rows, X.Duplicate(req, rows));
      var event := X.BuildImport(lib, req, rows, X.Duplicate(req, rows));
      ImportIsUnique(req, rows, rows + [event]);
      NoNewMarks(rows, [event]);
    }
  }

  /**
   * Whatever calls were made on an empty file: every stream is consecutive and linked, no
   * legacy observation and no import stands twice, and every later file begins with this one.
   */
  lemma {:induction false} EveryWriterKeepsTheLedger(w: World, writes: seq<Write>)
    requires forall write :: write in writes ==> Usable(write)
    ensures GoodLedger(w.foreign.eventHash, Written(w, writes))
    ensures forall k :: 0 <= k <= |writes| ==> Written(w, writes[..k]) <= Written(w, writes)
    ensures forall s :: s != "" ==> Consecutive(w.foreign.eventHash, History(Written(w, writes), s))
  {
    hide Apply, GoodLedger, Consecutive, History;
    if writes == [] {
      NothingWritten(w.foreign.eventHash);
    } else {
      var n := |writes| - 1;
      var last := writes[n];
      EveryWriterKeepsTheLedger(w, writes[..n]);
      var before := Written(w, writes[..n]);
      assert last in writes && writes == writes[..n] + [last];
      match last {
        case MessageWrite(ctx, messages) => MessageKeepsGood(w, before, ctx, messages);
        case LegacyWrite(at, legacy) => LegacyKeepsGood(w, before, at, legacy);
        case ImportWrite(req) => ImportKeepsGood(w, before, req);
      }
      forall k | 0 <= k <= |writes| ensures Written(w, writes[..k]) <= Written(w, writes) {
        if k <= n { assert writes[..n][..k] == writes[..k]; } else { assert writes[..k] == writes; }
      }
    }
    forall s | s != "" ensures Consecutive(w.foreign.eventHash, History(Written(w, writes), s)) {
      GoodIsConsecutive(w.foreign.eventHash, Written(w, writes), s);
    }
  }

  lemma NothingWritten(h: Hash)
    ensures GoodLedger(h, [])
  {
  }

  lemma GoodIsConsecutive(h: Hash, rows: seq<Row>, s: string)
    requires GoodLedger(h, rows) && s != ""
    ensures Consecutive(h, History(rows, s))
  {
    hide Chain, UniqueImports, UniqueExternal, Consecutive;
    StreamsAreConsecutive(h, rows, s);
  }
}
