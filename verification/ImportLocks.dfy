/**
 * The locks as the program names them. The importer locks one name and the ledger writers
 * another, so a writer can commit between the importer's last check and its swap, and the
 * swap then drops what the writer appended. Losing nothing is exactly a matter of the name:
 * for every hash, and on every file that admits an import.
 */
module ImportLocks {
  import opened Text
  import opened Receipts
  import opened Ledger
  import opened LedgerBlocks
  import opened ExternalImport
  import opened ImportRuns

  /** No writer's lock is the importer's lock. */
  lemma ProgramLocksDiffer(key: string)
    ensures WriterLockId(key) != IMPORT_LOCK
  {
    assert |WriterLockId(key)| > |IMPORT_LOCK|;
  }

  // ------------------------------------------------- files that admit an import

  /** A valid file into which the request can be imported when nothing disturbs it. */
  ghost predicate Admits(lib: Lib, req: Request, file: seq<Row>) {
    && Chain(lib.eventHash, file).Ok? && UniqueExternal(file)
    && req.importId != "" && req.key != "" && req.apply && (req.expected.Some? ==> req.expected.value == file)
    && Inspection(lib, req, file).None? && !Present(req, file)
    && Staging(lib, req, file, Duplicate(req, file)).Ok?
  }

  ghost function StagedFile(lib: Lib, req: Request, file: seq<Row>): seq<Row>
    requires Admits(lib, req, file)
  {
    Staging(lib, req, file, Duplicate(req, file)).value
  }

  /** What the writer's plan adds to the file. */
  ghost function Added(lib: Lib, plan: Plan, file: seq<Row>): seq<Row>
    requires Transaction(lib.eventHash, file, plan).Ok?
  {
    Transaction(lib.eventHash, file, plan).value[|file|..]
  }

  const GO := Input(true, true, false)

  function Two(req: Request, phase: Phase, plan: Plan, stage: WriterStage): map<nat, Proc> {
    map[0 := Importer(req, phase), 1 := Writer(plan, stage)]
  }

  /** One importer and one writer on the file, neither begun. */
  function Begun(req: Request, plan: Plan, file: seq<Row>): World {
    World(file, file, map[], Two(req, Start, plan, Idle), {})
  }

  lemma BegunIsFresh(lib: Lib, req: Request, plan: Plan, file: seq<Row>)
    requires Admits(lib, req, file) && NoImports(plan)
    ensures Fresh(lib, Begun(req, plan, file))
  {
    hide Chain, UniqueExternal, Inspection, Staging, NoImports;
  }

  // ------------------------------------------------- the steps of the run

  /** What a step of the importer, alone under its lock, makes of its phase. */
  lemma ImporterPhases(lib: Lib, req: Request, file: seq<Row>)
    requires Admits(lib, req, file)
    ensures var dup, staged := Duplicate(req, file), StagedFile(lib, req, file);
            && Advance(lib, req, Start, file, GO) == Validated(file, dup)
            && Advance(lib, req, Validated(file, dup), file, GO) == Holding(file, dup)
            && Advance(lib, req, Holding(file, dup), file, GO.(lockFree := false)) == Rechecked(file, dup)
            && Advance(lib, req, Rechecked(file, dup), file, GO.(lockFree := false)) == Staged(file, staged)
            && Advance(lib, req, Staged(file, staged), file, GO.(lockFree := false)) == Armed(file, staged)
    ensures forall now :: Advance(lib, req, Armed(file, StagedFile(lib, req, file)), now, GO.(lockFree := false)) == Swapped(StagedFile(lib, req, file))
  {
    hide Chain, UniqueExternal, Inspection, Staging, Duplicate, Present;
  }

  /** A step of the importer that does not swap. */
  lemma ImporterMoves(lib: Lib, lock: string, req: Request, plan: Plan, stage: WriterStage, w: World, phase: Phase, next: Phase)
    requires w.procs == Two(req, phase, plan, stage) && !phase.Armed?
    requires Advance(lib, req, phase, w.canonical, GO.(lockFree := IMPORT_LOCK !in w.holders)) == next
    ensures Step(lib, lock, w, 0, GO)
            == World(w.canonical, w.committed, HoldersAfter(w.holders, IMPORT_LOCK, 0, HoldsLock(phase), HoldsLock(next)),
                     Two(req, next, plan, stage), w.swapped)
  {
    hide Advance, HoldersAfter, HoldsLock;
    assert w.procs[0 := Importer(req, next)] == Two(req, next, plan, stage);
  }

  lemma RunOn(lib: Lib, lock: string, w: World, schedule: Schedule, last: (nat, Input))
    ensures Run(lib, lock, w, schedule + [last]) == Step(lib, lock, Run(lib, lock, w, schedule), last.0, last.1)
  {
    hide Step;
    assert (schedule + [last])[..|schedule|] == schedule;
  }

  lemma NotBegun(lib: Lib, lock: string, w: World)
    ensures Run(lib, lock, w, []) == w
  {
  }

  /** The importer runs up to its last check and stops there. */
  lemma ImporterArms(lib: Lib, lock: string, req: Request, plan: Plan, file: seq<Row>) returns (schedule: Schedule)
    requires Admits(lib, req, file)
    ensures Run(lib, lock, Begun(req, plan, file), schedule)
            == World(file, file, map[IMPORT_LOCK := 0], Two(req, Armed(file, StagedFile(lib, req, file)), plan, Idle), {})
  {
    hide Advance, Admits, StagedFile, Duplicate, Step, Run;
    ImporterPhases(lib, req, file);
    var dup, staged := Duplicate(req, file), StagedFile(lib, req, file);
    var w := Begun(req, plan, file);
    NotBegun(lib, lock, w);
    var turn := (0, GO);
    ImporterMoves(lib, lock, req, plan, Idle, w, Start, Validated(file, dup));
    RunOn(lib, lock, w, [], turn);
    var w1 := World(file, file, map[], Two(req, Validated(file, dup), plan, Idle), {});
    ImporterMoves(lib, lock, req, plan, Idle, w1, Validated(file, dup), Holding(file, dup));
    RunOn(lib, lock, w, [] + [turn], turn);
    var held := map[IMPORT_LOCK := 0];
    var w2 := World(file, file, held, Two(req, Holding(file, dup), plan, Idle), {});
    ImporterMoves(lib, lock, req, plan, Idle, w2, Holding(file, dup), Rechecked(file, dup));
    RunOn(lib, lock, w, [] + [turn] + [turn], turn);
    var w3 := World(file, file, held, Two(req, Rechecked(file, dup), plan, Idle), {});
    ImporterMoves(lib, lock, req, plan, Idle, w3, Rechecked(file, dup), Staged(file, staged));
    RunOn(lib, lock, w, [] + [turn] + [turn] + [turn], turn);
    var w4 := World(file, file, held, Two(req, Staged(file, staged), plan, Idle), {});
    ImporterMoves(lib, lock, req, plan, Idle, w4, Staged(file, staged), Armed(file, staged));
    RunOn(lib, lock, w, [] + [turn] + [turn] + [turn] + [turn], turn);
    schedule := [] + [turn] + [turn] + [turn] + [turn] + [turn];
  }

  /** The writer takes its own lock, reads, and appends, while the importer waits with its stage. */
  lemma WriterCommits(lib: Lib, lock: string, req: Request, phase: Phase, plan: Plan, file: seq<Row>)
    requires lock != IMPORT_LOCK && Transaction(lib.eventHash, file, plan).Ok?
    ensures var w := World(file, file, map[IMPORT_LOCK := 0], Two(req, phase, plan, Idle), {});
            var added := Added(lib, plan, file);
            Step(lib, lock, Step(lib, lock, Step(lib, lock, w, 1, GO), 1, GO), 1, GO)
            == World(file + added, file + added, map[IMPORT_LOCK := 0], Two(req, phase, plan, Finished(true)), {})
  {
    hide Transaction;
    var held := map[IMPORT_LOCK := 0];
    var added := Added(lib, plan, file);
    var w := World(file, file, held, Two(req, phase, plan, Idle), {});
    var w1 := World(file, file, held[lock := 1], Two(req, phase, plan, Locked), {});
    var w2 := World(file, file, held[lock := 1], Two(req, phase, plan, Read(file, added)), {});
    var w3 := World(file + added, file + added, held, Two(req, phase, plan, Finished(true)), {});
    WriterMoves(lib, lock, req, phase, plan, w, Idle, Locked);
    assert file + [] == file;
    WriterMoves(lib, lock, req, phase, plan, w1, Locked, Read(file, added));
    WriterMoves(lib, lock, req, phase, plan, w2, Read(file, added), Finished(true));
    assert HoldersAfter(held[lock := 1], lock, 1, true, false) == held;
    assert w3.procs == Two(req, phase, plan, Finished(true));
  }

  lemma WriterMoves(lib: Lib, lock: string, req: Request, phase: Phase, plan: Plan, w: World, stage: WriterStage, next: WriterStage)
    requires w.procs == Two(req, phase, plan, stage)
    requires NextStage(lib, plan, stage, w.canonical, lock !in w.holders, false) == next
    ensures var added := if stage.Read? then stage.additions else [];
            Step(lib, lock, w, 1, GO)
            == World(w.canonical + added, w.committed + added,
                     HoldersAfter(w.holders, lock, 1, Holds(Writer(plan, stage)), Holds(Writer(plan, next))),
                     Two(req, phase, plan, next), w.swapped)
  {
    hide NextStage, HoldersAfter, Holds;
    assert w.procs[1 := Writer(plan, next)] == Two(req, phase, plan, next);
  }

  /** The swap installs the stage over whatever the file has become. */
  lemma ImporterSwaps(lib: Lib, lock: string, req: Request, plan: Plan, stage: WriterStage, w: World, file: seq<Row>, staged: seq<Row>)
    requires w.procs == Two(req, Armed(file, staged), plan, stage) && file <= staged
    ensures var w' := Step(lib, lock, w, 0, GO); w'.canonical == staged && w'.committed == w.committed + staged[|file|..]
  {
    hide HoldersAfter;
  }

  /**
   * Under different names, on every file that admits an import, whatever a writer has to
   * append: the run in which it commits between the importer's last check and its swap ends
   * with the writer's rows dropped.
   */
  lemma RowsAreLost(lib: Lib, lock: string, req: Request, plan: Plan, file: seq<Row>) returns (schedule: Schedule)
    requires lock != IMPORT_LOCK && Admits(lib, req, file) && Transaction(lib.eventHash, file, plan).Ok?
    ensures var w := Run(lib, lock, Begun(req, plan, file), schedule);
            var event := BuildImport(lib, req, file, Duplicate(req, file));
            w.canonical == file + [event] && w.committed == file + Added(lib, plan, file) + [event]
  {
    hide Admits, Step, Run, Transaction, Added, BuildImport, Staging;
    var w0 := Begun(req, plan, file);
    var begun := ImporterArms(lib, lock, req, plan, file);
    assert Staging(lib, req, file, Duplicate(req, file)).Ok? by { StagingPasses(lib, req, file); }
    StagingMeans(lib, req, file, Duplicate(req, file));
    var staged := StagedFile(lib, req, file);
    var turn, swap := (1, GO), (0, GO);
    RunOn(lib, lock, w0, begun, turn);
    RunOn(lib, lock, w0, begun + [turn], turn);
    RunOn(lib, lock, w0, begun + [turn] + [turn], turn);
    RunOn(lib, lock, w0, begun + [turn] + [turn] + [turn], swap);
    WriterCommits(lib, lock, req, Armed(file, staged), plan, file);
    var w8 := Run(lib, lock, w0, begun + [turn] + [turn] + [turn]);
    ImporterSwaps(lib, lock, req, plan, Finished(true), w8, file, staged);
    schedule := begun + [turn] + [turn] + [turn] + [swap];
  }

  lemma StagingPasses(lib: Lib, req: Request, file: seq<Row>)
    requires Admits(lib, req, file)
    ensures Staging(lib, req, file, Duplicate(req, file)).Ok?
  {
    hide Chain, UniqueExternal, Inspection, Staging, Present, Duplicate;
  }

  // ------------------------------------------------- a writer for every file

  const NO_BODY := Body("", None, None, "", None, None, None, None, None, None, "", "", "", "", "", "", None, "", "", "")
  const WRITTEN := Row(false, "", "", None, "", Null, Null, "", "", NO_BODY)

  /** A writer with one plain row to append. */
  function WriteOne(): Plan {
    (rows: seq<Row>) => Ok([WRITTEN])
  }

  lemma WrittenIsAppended(h: Hash, rows: seq<Row>, heads: map<string, Head>)
    ensures AppendOne(h, rows, heads, WRITTEN) == Ok(rows + [WRITTEN])
  {
  }

  lemma WriterBuilds(lib: Lib, file: seq<Row>)
    requires Chain(lib.eventHash, file).Ok?
    ensures Transaction(lib.eventHash, file, WriteOne()) == Ok(file + [WRITTEN])
    ensures Added(lib, WriteOne(), file) == [WRITTEN] && NoImports(WriteOne())
  {
    hide AppendAll, AppendOne, Chain;
    AppendSingle(lib.eventHash, file, WRITTEN);
    WrittenIsAppended(lib.eventHash, file, Chain(lib.eventHash, file).value);
  }

  // ------------------------------------------------- exactly when nothing is lost

  /** In every run from a fresh world the file holds exactly what was committed. */
  ghost predicate LosesNothing(lib: Lib, writerLock: string) {
    forall w: World, schedule: Schedule :: Fresh(lib, w) ==>
      Run(lib, writerLock, w, schedule).canonical == Run(lib, writerLock, w, schedule).committed
  }

  /** Some file admits some import. */
  ghost predicate CanImport(lib: Lib) {
    exists req: Request, file: seq<Row> :: Admits(lib, req, file)
  }

  /**
   * For every hash library under which imports are possible at all: no run loses a committed
   * row exactly when the ledger writers take the importer's lock.
   */
  lemma LosesNothingIffSharedLock(lib: Lib, writerLock: string)
    requires CanImport(lib)
    ensures LosesNothing(lib, writerLock) <==> writerLock == IMPORT_LOCK
  {
    hide Run, Fresh, Invariant, Admits;
    if writerLock == IMPORT_LOCK {
      forall w: World, schedule: Schedule | Fresh(lib, w)
        ensures Run(lib, writerLock, w, schedule).canonical == Run(lib, writerLock, w, schedule).committed
      {
        SharedLockLosesNothing(lib, w, schedule);
        InvariantFiles(lib, Run(lib, writerLock, w, schedule));
      }
    } else {
      var req: Request, file: seq<Row> :| Admits(lib, req, file);
      var w, schedule := FileIsLossy(lib, writerLock, req, file);
    }
  }

  /** On every file that admits an import there is a fresh world and a run that loses a row. */
  lemma FileIsLossy(lib: Lib, lock: string, req: Request, file: seq<Row>) returns (w: World, schedule: Schedule)
    requires lock != IMPORT_LOCK && Admits(lib, req, file)
    ensures w.canonical == file && Fresh(lib, w)
    ensures Run(lib, lock, w, schedule).committed == file + [WRITTEN] + [BuildImport(lib, req, file, Duplicate(req, file))]
    ensures Run(lib, lock, w, schedule).canonical == file + [BuildImport(lib, req, file, Duplicate(req, file))]
    ensures Run(lib, lock, w, schedule).canonical != Run(lib, lock, w, schedule).committed
  {
    hide Run, Fresh, Admits, BuildImport, Transaction, Added, NoImports;
    AdmittedIsValid(lib, req, file);
    WriterBuilds(lib, file);
    BegunIsFresh(lib, req, WriteOne(), file);
    schedule := RowsAreLost(lib, lock, req, WriteOne(), file);
    w := Begun(req, WriteOne(), file);
    var event := BuildImport(lib, req, file, Duplicate(req, file));
    assert |file + [event]| != |file + [WRITTEN] + [event]|;
  }

  lemma AdmittedIsValid(lib: Lib, req: Request, file: seq<Row>)
    requires Admits(lib, req, file)
    ensures Chain(lib.eventHash, file).Ok?
  {
    hide Chain, UniqueExternal, Inspection, Staging, Present, Duplicate;
  }

  lemma InvariantFiles(lib: Lib, w: World)
    requires Invariant(lib, w)
    ensures w.canonical == w.committed
  {
    hide Chain, UniqueExternal, AllSound, AllCurrent, Exclusive;
  }

  /** As the program names its locks: every ledger that admits an import has a run that drops a committed row. */
  lemma ProgramCanLoseARow(lib: Lib, key: string, req: Request, file: seq<Row>) returns (w: World, schedule: Schedule)
    requires Admits(lib, req, file)
    ensures w.canonical == file && Fresh(lib, w)
    ensures Run(lib, WriterLockId(key), w, schedule).canonical != Run(lib, WriterLockId(key), w, schedule).committed
    ensures !LosesNothing(lib, WriterLockId(key))
  {
    hide Run, Fresh, Admits;
    ProgramLocksDiffer(key);
    w, schedule := FileIsLossy(lib, WriterLockId(key), req, file);
  }

  // ------------------------------------------------- imports are possible

  /** A request for the channel that a URL names. */
  function RequestFor(lib: Lib, url: string, text: string): Request {
    Request("key", url, if lib.channelOf(url).Some? then lib.channelOf(url).value else "", "id",
            lib.textHash(text), text, "", "", "", "", None, true)
  }

  /** Where any URL names a channel, the empty store admits an import: the hypothesis above is no more than that. */
  lemma EmptyStoreAdmits(lib: Lib, url: string, text: string)
    requires lib.channelOf(url).Some?
    ensures Admits(lib, RequestFor(lib, url, text), []) && CanImport(lib)
  {
    hide UniqueExternal;
    var req := RequestFor(lib, url, text);
    EmptyStoreStages(lib, url, text);
    assert Admits(lib, req, []) by { NothingPresent(lib, req); }
  }

  lemma NothingPresent(lib: Lib, req: Request)
    ensures Chain(lib.eventHash, []).Ok? && UniqueExternal([]) && Inspection(lib, req, []).None? && !Present(req, []) && !Duplicate(req, [])
  {
  }

  lemma EmptyStoreStages(lib: Lib, url: string, text: string)
    requires lib.channelOf(url).Some?
    ensures Staging(lib, RequestFor(lib, url, text), [], false).Ok?
  {
    hide Chain, History, AppendOne, AppendAll, FirstProblem, RowProblem;
    var req := RequestFor(lib, url, text);
    NothingPresent(lib, req);
    var event := BuildImport(lib, req, [], false);
    BuiltIsLinked(lib, req, [], false);
    NoRowBefore(event.eventId);
    LinkedIsAppended(lib.eventHash, [], req.key, event);
    AppendSingle(lib.eventHash, [], event);
    assert [] + [event] == [event];
    TransactionKeepsChain(lib.eventHash, [], [event]);
    OneRowInspected(lib, req, event);
    assert [event][0].body.importId == req.importId;
  }

  lemma NoRowBefore(id: string)
    ensures FirstWith([], id).None? && forall stream :: History([], stream) == []
  {
  }

  lemma OneRowInspected(lib: Lib, req: Request, event: Row)
    ensures FirstProblem(lib, req, [event]) == RowProblem(lib, req, event)
    ensures event == BuildImport(lib, req, [], false) && lib.channelOf(req.url) == Some(req.channel) && req.contentHash == lib.textHash(req.text)
            ==> RowProblem(lib, req, event).None?
  {
    assert [event][..0] == [];
  }
}
