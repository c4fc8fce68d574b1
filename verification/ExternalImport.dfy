/**
 * Import of one external snapshot (`import_external_snapshot`): inspect, lock, re-check,
 * stage, re-check, swap, read back, clean up. A file is read and replaced whole; any step
 * may fail, and other processes may change the file between steps.
 */
module ExternalImport {
  import opened Text
  import opened Receipts
  import opened Ledger
  import opened LedgerBlocks

  /** Foreign functions: event hash, `stable_text_hash`, and the channel a URL names. */
  datatype Lib = Lib(eventHash: Hash, textHash: string -> string, channelOf: string -> Option<string>)

  /** A validated source snapshot. `provenance` stands for the source digests and the original record. */
  datatype Request = Request(
    key: string, url: string, channel: string, importId: string,
    contentHash: string, text: string, source: string, capturedAt: string, at: string, provenance: string,
    expected: Option<seq<Row>>, apply: bool)

  datatype Reason =
    | StoreCasMismatch | SourceCasMismatch | ChainInvalid | ContentHashMismatch | TargetMismatch | TargetKeyMismatch
    | StreamMismatch | ImportIdentityConflict | StageReadBackFailed | PreSwapCasMismatch | CanonicalReadBackFailed
    | CleanupFailed | ImportFailed

  // ------------------------------------------------- inspect

  function RowProblem(lib: Lib, req: Request, row: Row): Option<Reason> {
    if row.body.text.Some? && row.body.contentHash != Some(lib.textHash(row.body.text.value)) then Some(ContentHashMismatch)
    else if lib.channelOf(row.body.url) != Some(req.channel) then Some(TargetMismatch)
    else if row.targetKey != req.key && row.targetKey != lib.textHash(row.body.url) then Some(TargetKeyMismatch)
    else if row.streamId.Some? && row.streamId.value != row.targetKey then Some(StreamMismatch)
    else if row.body.importId == req.importId && (row.body.rest != req.provenance || row.body.contentHash != Some(req.contentHash))
    then Some(ImportIdentityConflict)
    else None
  }

  function FirstProblem(lib: Lib, req: Request, rows: seq<Row>): Option<Reason> {
    if rows == [] then None
    else if FirstProblem(lib, req, rows[..|rows| - 1]).Some? then FirstProblem(lib, req, rows[..|rows| - 1])
    else RowProblem(lib, req, rows[|rows| - 1])
  }

  predicate Present(req: Request, rows: seq<Row>) {
    exists i :: 0 <= i < |rows| && rows[i].body.importId == req.importId
  }

  predicate Duplicate(req: Request, rows: seq<Row>) {
    exists i :: 0 <= i < |rows| && rows[i].body.contentHash == Some(req.contentHash)
  }

  /** `inspect`, without its answers. */
  function Inspection(lib: Lib, req: Request, rows: seq<Row>): Option<Reason> {
    if Chain(lib.eventHash, rows).Err? then Some(ChainInvalid) else FirstProblem(lib, req, rows)
  }

  method Inspect(lib: Lib, req: Request, records: seq<Row>) returns (problem: Option<Reason>, present: bool, duplicate: bool)
    ensures problem == Inspection(lib, req, records)
    ensures problem.None? ==> present == Present(req, records) && duplicate == Duplicate(req, records)
  {
    hide RowProblem, Chain;
    present, duplicate := false, false;
    var heads := ValidateTextSnapshotChain(lib.eventHash, records);
    if heads.Err? { return Some(ChainInvalid), false, false; }
    assert records[..0] == [];
    for i := 0 to |records|
      invariant FirstProblem(lib, req, records[..i]).None?
      invariant present == Present(req, records[..i]) && duplicate == Duplicate(req, records[..i])
    {
      assert records[..i + 1][..i] == records[..i];
      if RowProblem(lib, req, records[i]).Some? {
        FirstProblemStays(lib, req, records, i + 1);
        return RowProblem(lib, req, records[i]), false, false;
      }
      PresentGrows(req, records[..i], records[i]);
      assert records[..i + 1] == records[..i] + [records[i]];
      present := present || records[i].body.importId == req.importId;
      duplicate := duplicate || records[i].body.contentHash == Some(req.contentHash);
    }
    assert records[..|records|] == records;
    return None, present, duplicate;
  }

  lemma PresentGrows(req: Request, rows: seq<Row>, row: Row)
    ensures Present(req, rows + [row]) <==> Present(req, rows) || row.body.importId == req.importId
    ensures Duplicate(req, rows + [row]) <==> Duplicate(req, rows) || row.body.contentHash == Some(req.contentHash)
  {
    var more := rows + [row];
    assert more[|rows|] == row;
    assert forall i :: 0 <= i < |rows| ==> more[i] == rows[i];
  }

  lemma {:induction false} FirstProblemStays(lib: Lib, req: Request, rows: seq<Row>, k: nat)
    requires k <= |rows| && FirstProblem(lib, req, rows[..k]).Some?
    ensures FirstProblem(lib, req, rows) == FirstProblem(lib, req, rows[..k])
  {
    hide RowProblem;
    if k == |rows| {
      assert rows[..k] == rows;
    } else {
      assert rows[..|rows| - 1][..k] == rows[..k];
      FirstProblemStays(lib, req, rows[..|rows| - 1], k);
    }
  }

  // ------------------------------------------------- the event and its stage

  /** The content hash of the last row of the target, in file order. */
  function LastContent(rows: seq<Row>, key: string): Option<string> {
    if rows == [] then None
    else if rows[|rows| - 1].targetKey == key then rows[|rows| - 1].body.contentHash
    else LastContent(rows[..|rows| - 1], key)
  }

  function ImportEvent(lib: Lib, req: Request, head: Head, previous: Option<string>, duplicate: bool): Row {
    var body := Body("discord.visible_text.snapshot_observed", Some(req.contentHash), previous, "", None, None, None,
                     None, Some(duplicate), Some(previous != Some(req.contentHash)), req.capturedAt, req.capturedAt, req.at,
                     req.source, req.url, "", Some(req.text), "", req.importId, req.provenance);
    var event := Row(true, OBSERVATION, req.importId, Some(req.key), req.key, Val(head.sequence + 1), Val(head.sequence), head.hash, "", body);
    event.(eventHash := lib.eventHash(event))
  }

  function BuildImport(lib: Lib, req: Request, records: seq<Row>, duplicate: bool): Row {
    var heads := Chain(lib.eventHash, records);
    ImportEvent(lib, req, if heads.Ok? then HeadOf(heads.value, req.key) else NO_HEAD, LastContent(records, req.key), duplicate)
  }

  /** The staged file: a copy of the store with the event appended, read back and inspected. */
  function Staging(lib: Lib, req: Request, before: seq<Row>, duplicate: bool): Result<seq<Row>, Reason> {
    match AppendAll(lib.eventHash, before, [BuildImport(lib, req, before, duplicate)])
    case Err(_) => Err(ImportFailed)
    case Ok(staged) =>
      if Inspection(lib, req, staged).Some? then Err(Inspection(lib, req, staged).value)
      else if |staged| == |before| || !Present(req, staged)
        || staged[|staged| - 1] != BuildImport(lib, req, before, duplicate) || !(before <= staged) then Err(StageReadBackFailed)
      else Ok(staged)
  }

  lemma BuiltIsLinked(lib: Lib, req: Request, records: seq<Row>, duplicate: bool)
    requires Chain(lib.eventHash, records).Ok? && req.key != ""
    ensures LinkedTo(lib.eventHash, History(records, req.key), req.key, BuildImport(lib, req, records, duplicate))
  {
    hide Chain, History, LastContent;
    StreamsAreConsecutive(lib.eventHash, records, req.key);
    var e := BuildImport(lib, req, records, duplicate);
    assert e.eventHash == lib.eventHash(e.(eventHash := ""));
  }

  /** A stage that passes is the store with exactly the event behind it, valid and inspected. */
  lemma StagingMeans(lib: Lib, req: Request, before: seq<Row>, duplicate: bool)
    requires Staging(lib, req, before, duplicate).Ok?
    ensures var event := BuildImport(lib, req, before, duplicate);
            && Staging(lib, req, before, duplicate).value == before + [event]
            && event.body.importId == req.importId && event.eventId == req.importId
            && event.body.text == Some(req.text) && event.body.contentHash == Some(req.contentHash)
            && event.body.capturedAt == req.capturedAt && event.body.rest == req.provenance
            && event.body.previousContentHash == LastContent(before, req.key)
            && Chain(lib.eventHash, before).Ok? && Chain(lib.eventHash, before + [event]).Ok?
            && Inspection(lib, req, before + [event]).None?
  {
    hide Chain, Inspection, AppendOne;
    var event := BuildImport(lib, req, before, duplicate);
    var staged := AppendAll(lib.eventHash, before, [event]).value;
    TransactionKeepsChain(lib.eventHash, before, [event]);
    assert [event][..0] == [];
    AppendOneExtends(lib.eventHash, before, Chain(lib.eventHash, before).value, event);
  }

  // ------------------------------------------------- the steps of one import

  datatype Status = Blocked(reason: Reason) | ReadyToApply | AlreadyPresent | Absorbed
  datatype CommitState = NoCommit | PresentVerified | AppliedUnverified | AppliedVerified

  datatype ImportResult = ImportResult(status: Status, commitState: CommitState, eventsAppended: nat, readBack: bool)

  function Refusal(reason: Reason): ImportResult {
    ImportResult(Blocked(reason), NoCommit, 0, false)
  }

  /** Blocked after the swap: what was appended stays in the answer. */
  function LateRefusal(reason: Reason): ImportResult {
    ImportResult(Blocked(reason), AppliedUnverified, 1, false)
  }

  const SUCCESS := ImportResult(Absorbed, AppliedVerified, 1, true)

  /** Where an import stands. From `Holding` to `Cleaning` it holds the lock. */
  datatype Phase =
    | Start
    | Validated(before: seq<Row>, duplicate: bool)
    | Holding(before: seq<Row>, duplicate: bool)
    | Rechecked(before: seq<Row>, duplicate: bool)
    | Staged(before: seq<Row>, staged: seq<Row>)
    | Armed(before: seq<Row>, staged: seq<Row>)
    | Swapped(staged: seq<Row>)
    | Cleaning(result: ImportResult)
    | Done(result: ImportResult)

  /** What the surroundings decide for one step. */
  datatype Input = Input(lockFree: bool, sourceIntact: bool, fails: bool)

  predicate HoldsLock(phase: Phase) {
    !phase.Start? && !phase.Validated? && !phase.Done?
  }

  /** One step, on the file as it is at that moment. */
  function Advance(lib: Lib, req: Request, phase: Phase, canonical: seq<Row>, input: Input): Phase {
    match phase
    case Start =>
      if input.fails then Done(Refusal(ImportFailed))
      else if req.expected.Some? && req.expected.value != canonical then Done(Refusal(StoreCasMismatch))
      else if Inspection(lib, req, canonical).Some? then Done(Refusal(Inspection(lib, req, canonical).value))
      else if Present(req, canonical) then Done(ImportResult(AlreadyPresent, PresentVerified, 0, true))
      else if !req.apply then Done(ImportResult(ReadyToApply, NoCommit, 0, false))
      else Validated(canonical, Duplicate(req, canonical))
    case Validated(before, duplicate) =>
      if input.fails || !input.lockFree then Done(Refusal(ImportFailed)) else Holding(before, duplicate)
    case Holding(before, duplicate) =>
      if input.fails then Cleaning(Refusal(ImportFailed))
      else if !input.sourceIntact then Cleaning(Refusal(SourceCasMismatch))
      else if canonical != before then Cleaning(Refusal(StoreCasMismatch))
      else Rechecked(before, duplicate)
    case Rechecked(before, duplicate) =>
      if input.fails then Cleaning(Refusal(ImportFailed))
      else
        (match Staging(lib, req, before, duplicate)
         case Err(reason) => Cleaning(Refusal(reason))
         case Ok(staged) => Staged(before, staged))
    case Staged(before, staged) =>
      if input.fails then Cleaning(Refusal(ImportFailed))
      else if canonical != before || !input.sourceIntact then Cleaning(Refusal(PreSwapCasMismatch))
      else Armed(before, staged)
    case Armed(before, staged) =>
      if input.fails then Cleaning(Refusal(ImportFailed)) else Swapped(staged)
    case Swapped(staged) =>
      if input.fails then Cleaning(LateRefusal(ImportFailed))
      else if Inspection(lib, req, canonical).Some? then Cleaning(LateRefusal(Inspection(lib, req, canonical).value))
      else if canonical != staged then Cleaning(LateRefusal(CanonicalReadBackFailed))
      else Cleaning(SUCCESS)
    case Cleaning(result) =>
      if input.fails then Done(if result.eventsAppended == 1 then LateRefusal(CleanupFailed) else Refusal(CleanupFailed))
      else Done(result)
    case Done(result) => phase
  }

  predicate Swaps(phase: Phase, input: Input) {
    phase.Armed? && !input.fails
  }

  /** The file after one step. */
  function FileAfter(phase: Phase, canonical: seq<Row>, input: Input): seq<Row> {
    if Swaps(phase, input) then phase.staged else canonical
  }

  // ------------------------------------------------- the program

  /** One step and, before it, what other processes may have made of the file. */
  datatype Turn = Turn(others: Option<seq<Row>>, input: Input)

  function Seen(canonical: seq<Row>, turn: Turn): seq<Row> {
    if turn.others.Some? then turn.others.value else canonical
  }

  /** The steps in sequence, up to the end of the import: the answer and the file. */
  function Drive(lib: Lib, req: Request, phase: Phase, canonical: seq<Row>, turns: seq<Turn>): (Phase, seq<Row>)
    decreases |turns|
  {
    if turns == [] || phase.Done? then (phase, canonical)
    else
      var now := Seen(canonical, turns[0]);
      Drive(lib, req, Advance(lib, req, phase, now, turns[0].input), FileAfter(phase, now, turns[0].input), turns[1..])
  }

  lemma DriveStep(lib: Lib, req: Request, phase: Phase, canonical: seq<Row>, turns: seq<Turn>, k: nat)
    requires k < |turns| && !phase.Done?
    ensures var now := Seen(canonical, turns[k]);
            Drive(lib, req, phase, canonical, turns[k..])
            == Drive(lib, req, Advance(lib, req, phase, now, turns[k].input), FileAfter(phase, now, turns[k].input), turns[k + 1..])
  {
    hide Advance, FileAfter, Seen;
    assert turns[k..][1..] == turns[k + 1..];
  }

  lemma DriveEnds(lib: Lib, req: Request, result: ImportResult, canonical: seq<Row>, turns: seq<Turn>)
    ensures Drive(lib, req, Done(result), canonical, turns) == (Done(result), canonical)
  {
  }

  method Interfere(store: SnapshotStore, turn: Turn)
    modifies store
    ensures store.rows == Seen(old(store.rows), turn)
  {
    if turn.others.Some? { store.rows := turn.others.value; }
  }

  /** Stages a copy of the store: the append transaction on the copy, then the checks on what it holds. */
  method Stage(lib: Lib, req: Request, before: seq<Row>, duplicate: bool) returns (r: Result<seq<Row>, Reason>)
    ensures r == Staging(lib, req, before, duplicate)
  {
    hide Chain, Inspection, AppendAll, LastContent;
    var heads := ValidateTextSnapshotChain(lib.eventHash, before);
    if heads.Err? {
      NotAppended(lib.eventHash, before, [BuildImport(lib, req, before, duplicate)]);
      return Err(ImportFailed);
    }
    var event := ImportEvent(lib, req, HeadOf(heads.value, req.key), LastContent(before, req.key), duplicate);
    var additions := CheckCandidates(lib.eventHash, before, heads.value, [event]);
    if additions.Err? { return Err(ImportFailed); }
    var staged := before + additions.value;
    var problem, found, _ := Inspect(lib, req, staged);
    if problem.Some? { return Err(problem.value); }
    if additions.value == [] || !found || staged[|staged| - 1] != event || !(before <= staged) { return Err(StageReadBackFailed); }
    return Ok(staged);
  }

  lemma {:induction false} NotAppended(h: Hash, rows: seq<Row>, candidates: seq<Row>)
    requires Chain(h, rows).Err?
    ensures AppendAll(h, rows, candidates).Err?
  {
    hide Chain, AppendOne;
    if candidates != [] { NotAppended(h, rows, candidates[..|candidates| - 1]); }
  }

  /** Everything under the lock after the first re-check: stage, re-check, swap, read back. */
  method StageAndSwap(lib: Lib, req: Request, store: SnapshotStore, before: seq<Row>, duplicate: bool, turns: seq<Turn>)
    returns (result: ImportResult, used: nat)
    requires |turns| == 8
    modifies store
    ensures 4 <= used <= 7
    ensures Drive(lib, req, Rechecked(before, duplicate), old(store.rows), turns[3..]) == Drive(lib, req, Cleaning(result), store.rows, turns[used..])
  {
    hide Staging, Inspection, Drive;
    DriveStep(lib, req, Rechecked(before, duplicate), store.rows, turns, 3);
    Interfere(store, turns[3]);
    if turns[3].input.fails { return Refusal(ImportFailed), 4; }
    var staged := Stage(lib, req, before, duplicate);
    if staged.Err? { return Refusal(staged.error), 4; }
    DriveStep(lib, req, Staged(before, staged.value), store.rows, turns, 4);
    Interfere(store, turns[4]);
    if turns[4].input.fails { return Refusal(ImportFailed), 5; }
    if store.rows != before || !turns[4].input.sourceIntact { return Refusal(PreSwapCasMismatch), 5; }
    DriveStep(lib, req, Armed(before, staged.value), store.rows, turns, 5);
    Interfere(store, turns[5]);
    if turns[5].input.fails { return Refusal(ImportFailed), 6; }
    store.rows := staged.value;
    DriveStep(lib, req, Swapped(staged.value), store.rows, turns, 6);
    Interfere(store, turns[6]);
    if turns[6].input.fails { return LateRefusal(ImportFailed), 7; }
    var problem, _, _ := Inspect(lib, req, store.rows);
    if problem.Some? { return LateRefusal(problem.value), 7; }
    if store.rows != staged.value { return LateRefusal(CanonicalReadBackFailed), 7; }
    return SUCCESS, 7;
  }

  /** `import_external_snapshot`. `turns` says what happens around each of its steps. */
  method ImportExternalSnapshot(lib: Lib, req: Request, store: SnapshotStore, turns: seq<Turn>) returns (result: ImportResult)
    requires |turns| == 8
    modifies store
    ensures Drive(lib, req, Start, old(store.rows), turns) == (Done(result), store.rows)
  {
    hide Drive, Inspection, Present, Duplicate, Staging;
    assert turns[0..] == turns;
    DriveStep(lib, req, Start, store.rows, turns, 0);
    Interfere(store, turns[0]);
    DriveEndsAll(lib, req);
    if turns[0].input.fails { return Refusal(ImportFailed); }
    var before := store.rows;
    if req.expected.Some? && req.expected.value != before { return Refusal(StoreCasMismatch); }
    var problem, present, duplicate := Inspect(lib, req, before);
    if problem.Some? { return Refusal(problem.value); }
    if present { return ImportResult(AlreadyPresent, PresentVerified, 0, true); }
    if !req.apply { return ImportResult(ReadyToApply, NoCommit, 0, false); }
    DriveStep(lib, req, Validated(before, duplicate), store.rows, turns, 1);
    Interfere(store, turns[1]);
    if turns[1].input.fails || !turns[1].input.lockFree { return Refusal(ImportFailed); }
    DriveStep(lib, req, Holding(before, duplicate), store.rows, turns, 2);
    Interfere(store, turns[2]);
    var used := 3;
    if turns[2].input.fails { result := Refusal(ImportFailed); }
    else if !turns[2].input.sourceIntact { result := Refusal(SourceCasMismatch); }
    else if store.rows != before { result := Refusal(StoreCasMismatch); }
    else { result, used := StageAndSwap(lib, req, store, before, duplicate, turns); }
    DriveStep(lib, req, Cleaning(result), store.rows, turns, used);
    Interfere(store, turns[used]);
    if turns[used].input.fails {
      result := if result.eventsAppended == 1 then LateRefusal(CleanupFailed) else Refusal(CleanupFailed);
    }
  }

  lemma DriveEndsAll(lib: Lib, req: Request)
    ensures forall result, canonical, turns ::
              Drive(lib, req, Done(result), canonical, turns) == (Done(result), canonical)
  {
    forall result, canonical, turns ensures Drive(lib, req, Done(result), canonical, turns) == (Done(result), canonical) {
      DriveEnds(lib, req, result, canonical, turns);
    }
  }
}
