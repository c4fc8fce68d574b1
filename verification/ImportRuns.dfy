/**
 * Importers and ledger writers on one store file, step by step in any interleaving. Locks
 * are taken by name. When the writers take the importer's lock no committed row is lost;
 * under any other name a run loses one. The answers are honest either way.
 */
module ImportRuns {
  import opened Text
  import opened Receipts
  import opened Ledger
  import opened LedgerBlocks
  import opened ExternalImport

  const IMPORT_LOCK := "canonical-text-snapshots"

  /** `_text_snapshot_lock_id`: the name under which ledger writers lock; `key` is 16 hexadecimal digits. */
  function WriterLockId(key: string): string {
    "canonical-text-snapshots-" + key
  }

  type Plan = seq<Row> -> Result<seq<Row>, LedgerError>

  /** A writer reads and builds under its lock, then appends to the file. */
  datatype WriterStage = Idle | Locked | Read(local: seq<Row>, additions: seq<Row>) | Finished(appended: bool)

  datatype Proc = Importer(req: Request, phase: Phase) | Writer(plan: Plan, stage: WriterStage)

  /** `committed` lists the rows every process claims to have put into the file, in order; `swapped` who replaced it. */
  datatype World = World(canonical: seq<Row>, committed: seq<Row>, holders: map<string, nat>, procs: map<nat, Proc>, swapped: set<nat>)

  predicate Holds(proc: Proc) {
    match proc
    case Importer(_, phase) => HoldsLock(phase)
    case Writer(_, stage) => stage.Locked? || stage.Read?
  }

  function HoldersAfter(holders: map<string, nat>, lock: string, pid: nat, before: bool, after: bool): map<string, nat> {
    if !before && after then holders[lock := pid]
    else if before && !after then map l | l in holders && l != lock :: holders[l]
    else holders
  }

  function Tail(before: seq<Row>, now: seq<Row>): seq<Row> {
    if |before| <= |now| then now[|before|..] else []
  }

  function ImporterStep(lib: Lib, w: World, pid: nat, req: Request, phase: Phase, choice: Input): World {
    var input := choice.(lockFree := IMPORT_LOCK !in w.holders);
    var next := Advance(lib, req, phase, w.canonical, input);
    World(FileAfter(phase, w.canonical, input),
          if Swaps(phase, input) then w.committed + Tail(phase.before, phase.staged) else w.committed,
          HoldersAfter(w.holders, IMPORT_LOCK, pid, HoldsLock(phase), HoldsLock(next)),
          w.procs[pid := Importer(req, next)],
          if Swaps(phase, input) then w.swapped + {pid} else w.swapped)
  }

  function NextStage(lib: Lib, plan: Plan, stage: WriterStage, canonical: seq<Row>, lockFree: bool, fails: bool): WriterStage {
    match stage
    case Idle => if fails || !lockFree then Finished(false) else Locked
    case Locked =>
      if fails then Finished(false)
      else
        (match Transaction(lib.eventHash, canonical, plan)
         case Err(_) => Finished(false)
         case Ok(now) => Read(canonical, now[|canonical|..]))
    case Read(_, _) => Finished(!fails)
    case Finished(_) => stage
  }

  function WriterStep(lib: Lib, writerLock: string, w: World, pid: nat, plan: Plan, stage: WriterStage, choice: Input): World {
    var next := NextStage(lib, plan, stage, w.canonical, writerLock !in w.holders, choice.fails);
    var added := if stage.Read? && !choice.fails then stage.additions else [];
    World(w.canonical + added, w.committed + added,
          HoldersAfter(w.holders, writerLock, pid, Holds(Writer(plan, stage)), Holds(Writer(plan, next))),
          w.procs[pid := Writer(plan, next)], w.swapped)
  }

  function Step(lib: Lib, writerLock: string, w: World, pid: nat, choice: Input): World {
    if pid !in w.procs then w
    else
      match w.procs[pid]
      case Importer(req, phase) => ImporterStep(lib, w, pid, req, phase, choice)
      case Writer(plan, stage) => WriterStep(lib, writerLock, w, pid, plan, stage, choice)
  }

  type Schedule = seq<(nat, Input)>

  function Run(lib: Lib, writerLock: string, w: World, schedule: Schedule): World {
    if schedule == [] then w
    else
      var last := schedule[|schedule| - 1];
      Step(lib, writerLock, Run(lib, writerLock, w, schedule[..|schedule| - 1]), last.0, last.1)
  }

  // ------------------------------------------------- fresh worlds

  /** Each import stands at most once in the ledger. */
  predicate UniqueExternal(rows: seq<Row>) {
    forall i, j :: 0 <= i < j < |rows| && rows[i].body.importId != "" ==> rows[i].body.importId != rows[j].body.importId
  }

  /** Ledger writers never write rows of an import. */
  ghost predicate NoImports(plan: Plan) {
    forall rows :: plan(rows).Ok? ==> forall r :: r in plan(rows).value ==> r.body.importId == ""
  }

  ghost predicate FreshProc(proc: Proc) {
    match proc
    case Importer(req, phase) => phase == Start && req.importId != "" && req.key != ""
    case Writer(plan, stage) => stage == Idle && NoImports(plan)
  }

  /** A valid ledger, and processes that have not begun. */
  ghost predicate Fresh(lib: Lib, w: World) {
    && w.committed == w.canonical && w.holders == map[] && w.swapped == {}
    && Chain(lib.eventHash, w.canonical).Ok? && UniqueExternal(w.canonical)
    && forall pid :: pid in w.procs ==> FreshProc(w.procs[pid])
  }

  // ------------------------------------------------- honesty, under any locks

  /** The answer of an import, against what it did to the file. */
  predicate HonestResult(r: ImportResult, swapped: bool) {
    && r.eventsAppended == (if swapped then 1 else 0)
    && (r.commitState in {AppliedUnverified, AppliedVerified} <==> swapped)
    && (r.status == Absorbed <==> r.commitState == AppliedVerified)
    && (r.status.Blocked? && r.commitState == NoCommit ==> !swapped)
  }

  predicate HonestProc(proc: Proc, swapped: bool) {
    match proc
    case Writer(_, _) => !swapped
    case Importer(_, phase) =>
      match phase
      case Swapped(_) => swapped
      case Cleaning(r) => HonestResult(r, swapped)
      case Done(r) => HonestResult(r, swapped)
      case _ => !swapped
  }

  lemma AdvanceIsHonest(lib: Lib, req: Request, phase: Phase, canonical: seq<Row>, input: Input, swapped: bool)
    requires HonestProc(Importer(req, phase), swapped)
    ensures HonestProc(Importer(req, Advance(lib, req, phase, canonical, input)), swapped || Swaps(phase, input))
  {
    hide Inspection, Staging, Present, Duplicate;
  }

  ghost predicate AllHonest(w: World) {
    && w.swapped <= w.procs.Keys
    && forall pid :: pid in w.procs ==> HonestProc(w.procs[pid], pid in w.swapped)
  }

  lemma StepIsHonest(lib: Lib, writerLock: string, w: World, pid: nat, choice: Input)
    requires AllHonest(w)
    ensures AllHonest(Step(lib, writerLock, w, pid, choice))
  {
    hide Advance, FileAfter, HonestResult, HoldersAfter, NextStage, Tail, Swaps;
    if pid in w.procs && w.procs[pid].Importer? {
      var input := choice.(lockFree := IMPORT_LOCK !in w.holders);
      AdvanceIsHonest(lib, w.procs[pid].req, w.procs[pid].phase, w.canonical, input, pid in w.swapped);
    }
  }

  /**
   * Whatever the locks and the interleaving, every answer is honest: `events_appended` is 1
   * exactly when that import replaced the file, and a blocked answer with `commit_state`
   * "none" replaced nothing.
   */
  lemma {:induction false} ImportsAreHonest(lib: Lib, writerLock: string, w: World, schedule: Schedule)
    requires Fresh(lib, w)
    ensures AllHonest(Run(lib, writerLock, w, schedule))
  {
    hide Step, Chain, HonestResult;
    if schedule != [] {
      var n := |schedule| - 1;
      ImportsAreHonest(lib, writerLock, w, schedule[..n]);
      StepIsHonest(lib, writerLock, Run(lib, writerLock, w, schedule[..n]), schedule[n].0, schedule[n].1);
    }
  }

  // ------------------------------------------------- safety, under one lock

  /** The staged file is the store as read, with exactly one new import behind it, and it passed inspection. */
  ghost predicate StagedWell(lib: Lib, req: Request, before: seq<Row>, staged: seq<Row>) {
    && |staged| == |before| + 1 && before <= staged && staged[|before|].body.importId == req.importId
    && Chain(lib.eventHash, staged).Ok? && Inspection(lib, req, staged).None?
  }

  ghost predicate ImporterSound(lib: Lib, req: Request, phase: Phase) {
    match phase
    case Validated(before, _) => !Present(req, before)
    case Holding(before, _) => !Present(req, before)
    case Rechecked(before, _) => !Present(req, before)
    case Staged(before, staged) => !Present(req, before) && StagedWell(lib, req, before, staged)
    case Armed(before, staged) => !Present(req, before) && StagedWell(lib, req, before, staged)
    case _ => true
  }

  /** What holds of a process by itself, under any locks. */
  ghost predicate Sound(lib: Lib, proc: Proc) {
    match proc
    case Importer(req, phase) => req.importId != "" && req.key != "" && ImporterSound(lib, req, phase)
    case Writer(plan, stage) =>
      NoImports(plan) && (stage.Read? ==>
        Chain(lib.eventHash, stage.local + stage.additions).Ok? && forall r :: r in stage.additions ==> r.body.importId == "")
  }

  /** The process is about to write, on the strength of what it read. */
  ghost predicate Current(canonical: seq<Row>, proc: Proc) {
    match proc
    case Importer(_, phase) => phase.Armed? ==> phase.before == canonical
    case Writer(_, stage) => stage.Read? ==> stage.local == canonical
  }

  ghost predicate Safe(lib: Lib, w: World) {
    w.canonical == w.committed && Chain(lib.eventHash, w.canonical).Ok? && UniqueExternal(w.canonical)
  }

  ghost predicate Exclusive(w: World) {
    forall pid :: pid in w.procs && Holds(w.procs[pid]) ==> IMPORT_LOCK in w.holders && w.holders[IMPORT_LOCK] == pid
  }

  ghost predicate AllSound(lib: Lib, w: World) {
    forall pid :: pid in w.procs ==> Sound(lib, w.procs[pid])
  }

  ghost predicate AllCurrent(w: World) {
    forall pid :: pid in w.procs ==> Current(w.canonical, w.procs[pid])
  }

  lemma AdvanceIsSound(lib: Lib, req: Request, phase: Phase, canonical: seq<Row>, input: Input)
    requires Sound(lib, Importer(req, phase))
    ensures Sound(lib, Importer(req, Advance(lib, req, phase, canonical, input)))
  {
    hide Inspection, Staging, Present, Duplicate, Chain, BuildImport;
    if phase.Rechecked? && !input.fails && Staging(lib, req, phase.before, phase.duplicate).Ok? {
      StagingMeans(lib, req, phase.before, phase.duplicate);
    }
  }

  lemma {:induction false} AdditionsAreCandidates(h: Hash, rows: seq<Row>, candidates: seq<Row>)
    requires AppendAll(h, rows, candidates).Ok?
    ensures rows <= AppendAll(h, rows, candidates).value
    ensures forall r :: r in AppendAll(h, rows, candidates).value[|rows|..] ==> r in candidates
  {
    hide Chain, AppendOne;
    TransactionKeepsChain(h, rows, candidates);
    if candidates != [] {
      var n := |candidates| - 1;
      AdditionsAreCandidates(h, rows, candidates[..n]);
      TransactionKeepsChain(h, rows, candidates[..n]);
      var now := AppendAll(h, rows, candidates[..n]).value;
      AppendOneExtends(h, now, Chain(h, now).value, candidates[n]);
      assert (now + [candidates[n]])[|rows|..] == now[|rows|..] + [candidates[n]];
    }
  }

  lemma StageIsSound(lib: Lib, plan: Plan, stage: WriterStage, canonical: seq<Row>, lockFree: bool, fails: bool)
    requires Sound(lib, Writer(plan, stage))
    ensures Sound(lib, Writer(plan, NextStage(lib, plan, stage, canonical, lockFree, fails)))
  {
    hide Chain, AppendAll;
    if stage.Locked? && !fails && Transaction(lib.eventHash, canonical, plan).Ok? {
      var candidates := plan(canonical).value;
      AdditionsAreCandidates(lib.eventHash, canonical, candidates);
      TransactionKeepsChain(lib.eventHash, canonical, candidates);
      var now := AppendAll(lib.eventHash, canonical, candidates).value;
      assert canonical + now[|canonical|..] == now;
    }
  }

  /** Soundness of single processes needs no locks. */
  lemma StepIsSound(lib: Lib, writerLock: string, w: World, pid: nat, choice: Input)
    requires AllSound(lib, w)
    ensures AllSound(lib, Step(lib, writerLock, w, pid, choice))
  {
    hide Advance, FileAfter, HoldersAfter, NextStage, Tail, Swaps, Sound;
    if pid in w.procs {
      match w.procs[pid]
      case Importer(req, phase) =>
        AdvanceIsSound(lib, req, phase, w.canonical, choice.(lockFree := IMPORT_LOCK !in w.holders));
      case Writer(plan, stage) =>
        StageIsSound(lib, plan, stage, w.canonical, writerLock !in w.holders, choice.fails);
    }
  }

  lemma StepIsExclusive(lib: Lib, w: World, pid: nat, choice: Input)
    requires Exclusive(w)
    ensures Exclusive(Step(lib, IMPORT_LOCK, w, pid, choice))
  {
    hide FileAfter, Tail, Swaps, Advance, NextStage;
    if pid in w.procs {
      match w.procs[pid]
      case Importer(req, phase) => LockIsTakenFree(lib, req, phase, w.canonical, choice.(lockFree := IMPORT_LOCK !in w.holders));
      case Writer(plan, stage) => WriterLockIsTakenFree(lib, plan, stage, w.canonical, IMPORT_LOCK !in w.holders, choice.fails);
    }
  }

  lemma LockIsTakenFree(lib: Lib, req: Request, phase: Phase, canonical: seq<Row>, input: Input)
    ensures !HoldsLock(phase) && HoldsLock(Advance(lib, req, phase, canonical, input)) ==> input.lockFree
  {
    hide Inspection, Staging, Present, Duplicate;
  }

  lemma WriterLockIsTakenFree(lib: Lib, plan: Plan, stage: WriterStage, canonical: seq<Row>, lockFree: bool, fails: bool)
    ensures !Holds(Writer(plan, stage)) && Holds(Writer(plan, NextStage(lib, plan, stage, canonical, lockFree, fails))) ==> lockFree
  {
    hide Transaction;
  }

  lemma ChangeNeedsLock(lib: Lib, w: World, pid: nat, choice: Input)
    ensures Step(lib, IMPORT_LOCK, w, pid, choice).canonical != w.canonical ==> pid in w.procs && Holds(w.procs[pid])
  {
    hide Advance, NextStage, Tail;
  }

  /** A process becomes ready to write only on the file as it is. */
  lemma MoverIsCurrent(lib: Lib, w: World, pid: nat, choice: Input)
    requires pid in w.procs && Current(w.canonical, w.procs[pid])
    ensures Current(Step(lib, IMPORT_LOCK, w, pid, choice).canonical, Step(lib, IMPORT_LOCK, w, pid, choice).procs[pid])
  {
    hide Inspection, Staging, Present, Duplicate, Transaction, HoldersAfter, Tail;
  }

  lemma CurrentNeedsLock(canonical: seq<Row>, other: seq<Row>, proc: Proc)
    requires Current(canonical, proc) && !Holds(proc)
    ensures Current(other, proc)
  {
  }

  lemma OthersStay(lib: Lib, writerLock: string, w: World, pid: nat, choice: Input)
    ensures Step(lib, writerLock, w, pid, choice).procs.Keys == w.procs.Keys
    ensures forall p :: p in w.procs && p != pid ==> Step(lib, writerLock, w, pid, choice).procs[p] == w.procs[p]
  {
    hide Advance, NextStage, HoldersAfter, Tail, FileAfter, Swaps;
  }

  lemma StepIsCurrent(lib: Lib, w: World, pid: nat, choice: Input)
    requires Exclusive(w) && AllCurrent(w)
    ensures AllCurrent(Step(lib, IMPORT_LOCK, w, pid, choice))
  {
    hide Step, Current, Holds;
    var w' := Step(lib, IMPORT_LOCK, w, pid, choice);
    OthersStay(lib, IMPORT_LOCK, w, pid, choice);
    ChangeNeedsLock(lib, w, pid, choice);
    if pid in w.procs { MoverIsCurrent(lib, w, pid, choice); }
    forall p | p in w'.procs && p != pid ensures Current(w'.canonical, w'.procs[p]) {
      if w'.canonical != w.canonical { CurrentNeedsLock(w.canonical, w'.canonical, w.procs[p]); }
    }
  }

  lemma ImportIsUnique(req: Request, before: seq<Row>, staged: seq<Row>)
    requires UniqueExternal(before) && !Present(req, before) && req.importId != ""
    requires |staged| == |before| + 1 && before <= staged && staged[|before|].body.importId == req.importId
    ensures UniqueExternal(staged)
  {
    forall i, j | 0 <= i < j < |staged| && staged[i].body.importId != "" ensures staged[i].body.importId != staged[j].body.importId {
      assert staged[i] == before[i];
    }
  }

  lemma WritersAddNoImport(rows: seq<Row>, additions: seq<Row>)
    requires UniqueExternal(rows) && forall r :: r in additions ==> r.body.importId == ""
    ensures UniqueExternal(rows + additions)
  {
  }

  /** A write on the strength of the current file loses nothing. */
  lemma StepIsSafe(lib: Lib, w: World, pid: nat, choice: Input)
    requires Safe(lib, w) && AllSound(lib, w) && AllCurrent(w)
    ensures Safe(lib, Step(lib, IMPORT_LOCK, w, pid, choice))
  {
    hide Chain, UniqueExternal, Advance, NextStage, HoldersAfter, Present, Inspection;
    if pid in w.procs {
      assert Sound(lib, w.procs[pid]) && Current(w.canonical, w.procs[pid]);
      match w.procs[pid]
      case Importer(req, phase) =>
        if Swaps(phase, choice.(lockFree := IMPORT_LOCK !in w.holders)) {
          ImportIsUnique(req, phase.before, phase.staged);
          assert phase.staged == phase.before + phase.staged[|phase.before|..];
        }
      case Writer(plan, stage) =>
        if stage.Read? && !choice.fails { WritersAddNoImport(w.canonical, stage.additions); }
        assert w.canonical + [] == w.canonical;
    }
  }

  ghost predicate Invariant(lib: Lib, w: World) {
    Safe(lib, w) && AllSound(lib, w) && AllCurrent(w) && Exclusive(w)
  }

  lemma FreshInvariant(lib: Lib, w: World)
    requires Fresh(lib, w)
    ensures Invariant(lib, w)
  {
    hide Chain, UniqueExternal, NoImports;
  }

  lemma CommittedGrows(lib: Lib, writerLock: string, w: World, pid: nat, choice: Input)
    ensures w.committed <= Step(lib, writerLock, w, pid, choice).committed
  {
    hide Advance, NextStage, HoldersAfter, FileAfter, Tail;
  }

  /**
   * With one lock for all, in every interleaving: the file holds exactly what was committed,
   * in order, behind the rows it began with; every stream stays chained; and no import
   * stands in it twice.
   */
  lemma {:induction false} SharedLockLosesNothing(lib: Lib, w: World, schedule: Schedule)
    requires Fresh(lib, w)
    ensures Invariant(lib, Run(lib, IMPORT_LOCK, w, schedule))
    ensures w.canonical <= Run(lib, IMPORT_LOCK, w, schedule).canonical
  {
    hide Step, Fresh, Safe, AllSound, AllCurrent, Exclusive;
    if schedule == [] {
      FreshInvariant(lib, w);
    } else {
      var n := |schedule| - 1;
      SharedLockLosesNothing(lib, w, schedule[..n]);
      var now := Run(lib, IMPORT_LOCK, w, schedule[..n]);
      StepIsSafe(lib, now, schedule[n].0, schedule[n].1);
      StepIsSound(lib, IMPORT_LOCK, now, schedule[n].0, schedule[n].1);
      StepIsCurrent(lib, now, schedule[n].0, schedule[n].1);
      StepIsExclusive(lib, now, schedule[n].0, schedule[n].1);
      SafeFiles(lib, now);
      SafeFiles(lib, Step(lib, IMPORT_LOCK, now, schedule[n].0, schedule[n].1));
      CommittedGrows(lib, IMPORT_LOCK, now, schedule[n].0, schedule[n].1);
    }
  }

  lemma SafeFiles(lib: Lib, w: World)
    requires Safe(lib, w)
    ensures w.canonical == w.committed
  {
    hide Chain, UniqueExternal;
  }

  /** A sound import about to swap installs a file that passes its own inspection and holds the import. */
  lemma {:induction false} SwapInstallsInspected(lib: Lib, writerLock: string, w: World, pid: nat, choice: Input)
    requires AllSound(lib, w) && pid in w.procs && w.procs[pid].Importer? && Swaps(w.procs[pid].phase, choice)
    ensures var w' := Step(lib, writerLock, w, pid, choice);
            Inspection(lib, w.procs[pid].req, w'.canonical).None? && Present(w.procs[pid].req, w'.canonical)
  {
    hide Inspection, Chain, Advance, HoldersAfter, Tail;
    assert Sound(lib, w.procs[pid]);
    var phase := w.procs[pid].phase;
    assert phase.staged[|phase.before|].body.importId == w.procs[pid].req.importId;
  }

  lemma {:induction false} RunsAreSound(lib: Lib, writerLock: string, w: World, schedule: Schedule)
    requires Fresh(lib, w)
    ensures AllSound(lib, Run(lib, writerLock, w, schedule))
  {
    hide Step, Chain, Sound;
    if schedule == [] {
      FreshInvariant(lib, w);
    } else {
      var n := |schedule| - 1;
      RunsAreSound(lib, writerLock, w, schedule[..n]);
      StepIsSound(lib, writerLock, Run(lib, writerLock, w, schedule[..n]), schedule[n].0, schedule[n].1);
    }
  }

  /** In every run, under any locks: the file an import installs passes that import's inspection and holds it. */
  lemma SwapsInstallInspected(lib: Lib, writerLock: string, w: World, schedule: Schedule, pid: nat, choice: Input)
    requires Fresh(lib, w)
    requires var now := Run(lib, writerLock, w, schedule);
             pid in now.procs && now.procs[pid].Importer? && Swaps(now.procs[pid].phase, choice)
    ensures var now := Run(lib, writerLock, w, schedule);
            var after, req := Step(lib, writerLock, now, pid, choice), now.procs[pid].req;
            Inspection(lib, req, after.canonical).None? && Present(req, after.canonical)
  {
    hide Fresh, AllSound, Inspection, Present, Step, Run;
    RunsAreSound(lib, writerLock, w, schedule);
    SwapInstallsInspected(lib, writerLock, Run(lib, writerLock, w, schedule), pid, choice);
  }
}
