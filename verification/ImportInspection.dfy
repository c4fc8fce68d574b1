/**
 * Inspection over whole runs: which processes keep a file in the form that an import's
 * inspection accepts, and that among such processes, under one lock, no import is ever
 * refused for what it finds in the file.
 */
module ImportInspection {
  import opened Text
  import opened Receipts
  import opened Ledger
  import opened ExternalImport
  import opened ImportRuns

  // ------------------------------------------------- rows that pass

  predicate RowsPass(lib: Lib, req: Request, rows: seq<Row>) {
    forall i :: 0 <= i < |rows| ==> RowProblem(lib, req, rows[i]).None?
  }

  lemma {:induction false} NoProblemIsRowsPass(lib: Lib, req: Request, rows: seq<Row>)
    ensures FirstProblem(lib, req, rows).None? <==> RowsPass(lib, req, rows)
  {
    hide RowProblem;
    if rows != [] {
      var n := |rows| - 1;
      NoProblemIsRowsPass(lib, req, rows[..n]);
      assert rows == rows[..n] + [rows[n]];
      RowsPassJoin(lib, req, rows[..n], [rows[n]]);
    }
  }

  lemma RowsPassJoin(lib: Lib, req: Request, a: seq<Row>, b: seq<Row>)
    ensures RowsPass(lib, req, a + b) <==> RowsPass(lib, req, a) && RowsPass(lib, req, b)
  {
    hide RowProblem;
    var c := a + b;
    if RowsPass(lib, req, c) {
      assert forall i :: 0 <= i < |a| ==> c[i] == a[i];
      assert forall i :: 0 <= i < |b| ==> c[|a| + i] == b[i];
    }
  }

  /** The other request imports into the same channel under a key this one knows, and is no other record under this one's id. */
  predicate Tolerates(lib: Lib, req: Request, other: Request) {
    && other.contentHash == lib.textHash(other.text)
    && lib.channelOf(other.url) == Some(req.channel)
    && (other.key == req.key || other.key == lib.textHash(other.url))
    && (other.importId == req.importId ==> other.provenance == req.provenance && other.contentHash == req.contentHash)
  }

  /** That is exactly what lets the other's row pass, wherever it is built. */
  lemma BuiltPassesExact(lib: Lib, req: Request, other: Request, before: seq<Row>, duplicate: bool)
    ensures RowProblem(lib, req, BuildImport(lib, other, before, duplicate)).None? <==> Tolerates(lib, req, other)
  {
    hide Chain, LastContent;
  }

  // ------------------------------------------------- processes that keep it so

  ghost predicate PlanPasses(lib: Lib, req: Request, plan: Plan) {
    forall rows :: plan(rows).Ok? ==> RowsPass(lib, req, plan(rows).value)
  }

  /** A process that writes only rows that pass. */
  ghost predicate Friendly(lib: Lib, req: Request, proc: Proc) {
    match proc
    case Importer(other, _) => Tolerates(lib, req, other)
    case Writer(plan, _) => PlanPasses(lib, req, plan)
  }

  /** The rows a process will write, or write behind. */
  function InHand(proc: Proc): seq<Row> {
    match proc
    case Importer(_, phase) =>
      (match phase
       case Validated(before, _) => before
       case Holding(before, _) => before
       case Rechecked(before, _) => before
       case Staged(_, staged) => staged
       case Armed(_, staged) => staged
       case _ => [])
    case Writer(_, stage) => if stage.Read? then stage.additions else []
  }

  ghost predicate RowsKept(lib: Lib, req: Request, w: World) {
    && RowsPass(lib, req, w.canonical)
    && forall pid :: pid in w.procs ==> Friendly(lib, req, w.procs[pid]) && RowsPass(lib, req, InHand(w.procs[pid]))
  }

  lemma StagedPasses(lib: Lib, req: Request, other: Request, before: seq<Row>, duplicate: bool)
    requires Tolerates(lib, req, other) && RowsPass(lib, req, before) && Staging(lib, other, before, duplicate).Ok?
    ensures RowsPass(lib, req, Staging(lib, other, before, duplicate).value)
  {
    hide RowProblem, Staging, BuildImport, Tolerates, Inspection, Chain;
    StagingMeans(lib, other, before, duplicate);
    BuiltPassesExact(lib, req, other, before, duplicate);
    RowsPassJoin(lib, req, before, [BuildImport(lib, other, before, duplicate)]);
  }

  lemma AdvanceKeepsRows(lib: Lib, req: Request, other: Request, phase: Phase, canonical: seq<Row>, input: Input)
    requires Tolerates(lib, req, other) && RowsPass(lib, req, canonical) && RowsPass(lib, req, InHand(Importer(other, phase)))
    ensures RowsPass(lib, req, InHand(Importer(other, Advance(lib, other, phase, canonical, input))))
    ensures RowsPass(lib, req, FileAfter(phase, canonical, input))
  {
    hide RowProblem, Staging, Tolerates, Inspection, Present, Duplicate;
    if phase.Rechecked? && Staging(lib, other, phase.before, phase.duplicate).Ok? {
      StagedPasses(lib, req, other, phase.before, phase.duplicate);
    }
  }

  lemma StageKeepsRows(lib: Lib, req: Request, plan: Plan, stage: WriterStage, canonical: seq<Row>, lockFree: bool, fails: bool)
    requires PlanPasses(lib, req, plan) && RowsPass(lib, req, InHand(Writer(plan, stage)))
    ensures RowsPass(lib, req, InHand(Writer(plan, NextStage(lib, plan, stage, canonical, lockFree, fails))))
  {
    hide RowProblem, Chain, AppendAll;
    if stage.Locked? && !fails && Transaction(lib.eventHash, canonical, plan).Ok? {
      var candidates := plan(canonical).value;
      AdditionsAreCandidates(lib.eventHash, canonical, candidates);
      var additions := AppendAll(lib.eventHash, canonical, candidates).value[|canonical|..];
      forall i | 0 <= i < |additions| ensures RowProblem(lib, req, additions[i]).None? {
        assert additions[i] in candidates;
      }
    }
  }

  /** Under any locks. */
  lemma StepKeepsRows(lib: Lib, writerLock: string, req: Request, w: World, pid: nat, choice: Input)
    requires RowsKept(lib, req, w)
    ensures RowsKept(lib, req, Step(lib, writerLock, w, pid, choice))
  {
    hide RowsPass, InHand, Tolerates, PlanPasses, Advance, NextStage, FileAfter, HoldersAfter, Tail, Swaps;
    if pid in w.procs {
      match w.procs[pid]
      case Importer(other, phase) =>
        AdvanceKeepsRows(lib, req, other, phase, w.canonical, choice.(lockFree := IMPORT_LOCK !in w.holders));
      case Writer(plan, stage) =>
        StageKeepsRows(lib, req, plan, stage, w.canonical, writerLock !in w.holders, choice.fails);
        AddedPasses(lib, req, w.canonical, plan, stage);
    }
  }

  lemma AddedPasses(lib: Lib, req: Request, canonical: seq<Row>, plan: Plan, stage: WriterStage)
    requires RowsPass(lib, req, canonical) && RowsPass(lib, req, InHand(Writer(plan, stage)))
    ensures RowsPass(lib, req, canonical + []) && (stage.Read? ==> RowsPass(lib, req, canonical + stage.additions))
  {
    hide RowProblem;
    assert canonical + [] == canonical;
  }

  lemma FreshRowsKept(lib: Lib, req: Request, w: World)
    requires Fresh(lib, w) && RowsPass(lib, req, w.canonical) && forall pid :: pid in w.procs ==> Friendly(lib, req, w.procs[pid])
    ensures RowsKept(lib, req, w)
  {
    hide RowProblem, Chain, UniqueExternal, Friendly, NoImports;
    assert forall pid :: pid in w.procs ==> FreshProc(w.procs[pid]);
  }

  /** Under any locks and in every interleaving, the rows of the file go on passing. */
  lemma {:induction false} RunsKeepRows(lib: Lib, writerLock: string, req: Request, w: World, schedule: Schedule)
    requires Fresh(lib, w) && RowsPass(lib, req, w.canonical) && forall pid :: pid in w.procs ==> Friendly(lib, req, w.procs[pid])
    ensures RowsKept(lib, req, Run(lib, writerLock, w, schedule))
  {
    hide Step, RowsKept, Fresh, RowsPass, Friendly;
    if schedule == [] {
      FreshRowsKept(lib, req, w);
    } else {
      var n := |schedule| - 1;
      RunsKeepRows(lib, writerLock, req, w, schedule[..n]);
      StepKeepsRows(lib, writerLock, req, Run(lib, writerLock, w, schedule[..n]), schedule[n].0, schedule[n].1);
    }
  }

  // ------------------------------------------------- no refusal by inspection

  /** What inspection can find wrong with a file. */
  predicate FoundInFile(reason: Reason) {
    reason in {ChainInvalid, ContentHashMismatch, TargetMismatch, TargetKeyMismatch, StreamMismatch, ImportIdentityConflict}
  }

  /** The import has not been refused for what it found in the file. */
  predicate NotRefused(phase: Phase) {
    match phase
    case Cleaning(r) => !(r.status.Blocked? && FoundInFile(r.status.reason))
    case Done(r) => !(r.status.Blocked? && FoundInFile(r.status.reason))
    case _ => true
  }

  lemma PassingFile(lib: Lib, req: Request, rows: seq<Row>)
    requires Chain(lib.eventHash, rows).Ok? && RowsPass(lib, req, rows)
    ensures Inspection(lib, req, rows).None?
  {
    hide Chain, FirstProblem, RowsPass;
    NoProblemIsRowsPass(lib, req, rows);
  }

  lemma StagingFindsNothing(lib: Lib, req: Request, before: seq<Row>, duplicate: bool)
    requires Tolerates(lib, req, req) && RowsPass(lib, req, before)
    ensures Staging(lib, req, before, duplicate).Err? ==> !FoundInFile(Staging(lib, req, before, duplicate).error)
  {
    hide Chain, Inspection, AppendOne, BuildImport, Tolerates, RowsPass, AppendAll, Present;
    var event := BuildImport(lib, req, before, duplicate);
    if AppendAll(lib.eventHash, before, [event]).Ok? {
      var staged := AppendAll(lib.eventHash, before, [event]).value;
      StagedCopy(lib, before, event);
      BuiltPassesExact(lib, req, req, before, duplicate);
      OneMorePasses(lib, req, before, event);
      PassingFile(lib, req, staged);
    }
  }

  lemma StagedCopy(lib: Lib, before: seq<Row>, event: Row)
    requires AppendAll(lib.eventHash, before, [event]).Ok?
    ensures var staged := AppendAll(lib.eventHash, before, [event]).value;
            Chain(lib.eventHash, staged).Ok? && (staged == before || staged == before + [event])
  {
    hide Chain, AppendOne;
    TransactionKeepsChain(lib.eventHash, before, [event]);
    assert [event][..0] == [];
    AppendOneExtends(lib.eventHash, before, Chain(lib.eventHash, before).value, event);
  }

  lemma OneMorePasses(lib: Lib, req: Request, before: seq<Row>, event: Row)
    requires RowsPass(lib, req, before) && RowProblem(lib, req, event).None?
    ensures RowsPass(lib, req, before + [event])
  {
    hide RowProblem;
  }

  lemma AdvanceNotRefused(lib: Lib, req: Request, phase: Phase, canonical: seq<Row>, input: Input)
    requires NotRefused(phase) && Tolerates(lib, req, req)
    requires Inspection(lib, req, canonical).None? && RowsPass(lib, req, InHand(Importer(req, phase)))
    ensures NotRefused(Advance(lib, req, phase, canonical, input))
  {
    hide Staging, Inspection, Present, Duplicate, Tolerates, RowsPass;
    if phase.Rechecked? { StagingFindsNothing(lib, req, phase.before, phase.duplicate); }
  }

  /** The import `pid`, as far as it has come. */
  ghost predicate Unrefused(w: World, pid: nat, req: Request) {
    pid in w.procs && w.procs[pid].Importer? && w.procs[pid].req == req && NotRefused(w.procs[pid].phase)
  }

  lemma StepUnrefused(lib: Lib, writerLock: string, w: World, pid: nat, req: Request, mover: nat, choice: Input)
    requires Unrefused(w, pid, req) && RowsKept(lib, req, w) && Inspection(lib, req, w.canonical).None?
    ensures Unrefused(Step(lib, writerLock, w, mover, choice), pid, req)
  {
    hide Inspection, Advance, NextStage, HoldersAfter, Tail, FileAfter, Swaps, RowsPass, InHand, NotRefused, Tolerates, PlanPasses;
    if mover == pid {
      assert Friendly(lib, req, w.procs[pid]) && RowsPass(lib, req, InHand(w.procs[pid]));
      AdvanceNotRefused(lib, req, w.procs[pid].phase, w.canonical, choice.(lockFree := IMPORT_LOCK !in w.holders));
    } else {
      OthersStay(lib, writerLock, w, mover, choice);
    }
  }

  /**
   * Under one lock for all: when the file passes an import's inspection at the start and
   * every process writes only rows that do, it passes at every moment of every run, and the
   * import is never refused for what it found in the file.
   */
  lemma {:induction false} InspectionNeverRefuses(lib: Lib, w: World, schedule: Schedule, pid: nat, req: Request)
    requires Fresh(lib, w) && Inspection(lib, req, w.canonical).None?
    requires pid in w.procs && w.procs[pid].Importer? && w.procs[pid].req == req
    requires forall p :: p in w.procs ==> Friendly(lib, req, w.procs[p])
    ensures var now := Run(lib, IMPORT_LOCK, w, schedule);
            Inspection(lib, req, now.canonical).None? && Unrefused(now, pid, req)
  {
    hide Step, Fresh, RowsKept, Inspection, Friendly, Unrefused, RowsPass;
    InspectedRowsPass(lib, req, w.canonical);
    InspectionHolds(lib, w, schedule, req);
    if schedule == [] {
      assert Unrefused(w, pid, req) by { FreshUnrefused(lib, w, pid, req); }
    } else {
      var n := |schedule| - 1;
      InspectionNeverRefuses(lib, w, schedule[..n], pid, req);
      RunsKeepRows(lib, IMPORT_LOCK, req, w, schedule[..n]);
      StepUnrefused(lib, IMPORT_LOCK, Run(lib, IMPORT_LOCK, w, schedule[..n]), pid, req, schedule[n].0, schedule[n].1);
    }
  }

  lemma InspectedRowsPass(lib: Lib, req: Request, rows: seq<Row>)
    requires Inspection(lib, req, rows).None?
    ensures RowsPass(lib, req, rows)
  {
    hide Chain, FirstProblem, RowsPass;
    NoProblemIsRowsPass(lib, req, rows);
  }

  lemma FreshUnrefused(lib: Lib, w: World, pid: nat, req: Request)
    requires Fresh(lib, w) && pid in w.procs && w.procs[pid].Importer? && w.procs[pid].req == req
    ensures Unrefused(w, pid, req)
  {
    hide Chain, UniqueExternal, NoImports;
    assert FreshProc(w.procs[pid]);
  }

  lemma InspectionHolds(lib: Lib, w: World, schedule: Schedule, req: Request)
    requires Fresh(lib, w) && RowsPass(lib, req, w.canonical) && forall p :: p in w.procs ==> Friendly(lib, req, w.procs[p])
    ensures Inspection(lib, req, Run(lib, IMPORT_LOCK, w, schedule).canonical).None?
  {
    hide Fresh, Inspection, Friendly, Run, RowsPass, Chain, UniqueExternal, AllSound, AllCurrent, Exclusive;
    RunsKeepRows(lib, IMPORT_LOCK, req, w, schedule);
    SharedLockLosesNothing(lib, w, schedule);
    PassingFile(lib, req, Run(lib, IMPORT_LOCK, w, schedule).canonical);
  }
}
