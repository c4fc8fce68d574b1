/**
 * The import of an external snapshot, field by field: which files pass inspection and what
 * is said of the others, every field of the imported event, and exactly when the file is
 * swapped and when the answer says that it was.
 */
module ImportFields {
  import opened Text
  import opened Receipts
  import opened Ledger
  import opened LedgerBlocks
  import opened LedgerFields
  import opened EventFields
  import opened ExternalImport
  import opened ImportInspection

  // ------------------------------------------------- inspection

  predicate TextFits(lib: Lib, row: Row) {
    row.body.text.Some? ==> row.body.contentHash == Some(lib.textHash(row.body.text.value))
  }

  predicate UrlFits(lib: Lib, req: Request, row: Row) {
    lib.channelOf(row.body.url) == Some(req.channel)
  }

  predicate KeyFits(lib: Lib, req: Request, row: Row) {
    row.targetKey == req.key || row.targetKey == lib.textHash(row.body.url)
  }

  predicate StreamFits(row: Row) {
    row.streamId.Some? ==> row.streamId.value == row.targetKey
  }

  /** A row under the id of this import is this import. */
  predicate ImportFits(req: Request, row: Row) {
    row.body.importId == req.importId ==> row.body.rest == req.provenance && row.body.contentHash == Some(req.contentHash)
  }

  predicate RowFits(lib: Lib, req: Request, row: Row) {
    TextFits(lib, row) && UrlFits(lib, req, row) && KeyFits(lib, req, row) && StreamFits(row) && ImportFits(req, row)
  }

  /** The first check that the row fails. */
  predicate FailsFirst(lib: Lib, req: Request, row: Row, reason: Reason) {
    match reason
    case ContentHashMismatch => !TextFits(lib, row)
    case TargetMismatch => TextFits(lib, row) && !UrlFits(lib, req, row)
    case TargetKeyMismatch => TextFits(lib, row) && UrlFits(lib, req, row) && !KeyFits(lib, req, row)
    case StreamMismatch => TextFits(lib, row) && UrlFits(lib, req, row) && KeyFits(lib, req, row) && !StreamFits(row)
    case ImportIdentityConflict =>
      TextFits(lib, row) && UrlFits(lib, req, row) && KeyFits(lib, req, row) && StreamFits(row) && !ImportFits(req, row)
    case _ => false
  }

  lemma RowProblemIs(lib: Lib, req: Request, row: Row)
    ensures RowProblem(lib, req, row).None? <==> RowFits(lib, req, row)
    ensures forall reason :: RowProblem(lib, req, row) == Some(reason) <==> FailsFirst(lib, req, row, reason)
  {
  }

  /** Row `k` is the first that does not fit, and this is the first check that it fails. */
  ghost predicate FirstFailure(lib: Lib, req: Request, rows: seq<Row>, k: nat, reason: Reason) {
    k < |rows| && FailsFirst(lib, req, rows[k], reason) && forall i :: 0 <= i < k ==> RowFits(lib, req, rows[i])
  }

  lemma FailingDoesNotFit(lib: Lib, req: Request, row: Row, reason: Reason)
    ensures FailsFirst(lib, req, row, reason) ==> !RowFits(lib, req, row)
  {
  }

  lemma {:induction false} FirstProblemIs(lib: Lib, req: Request, rows: seq<Row>, reason: Reason)
    ensures FirstProblem(lib, req, rows) == Some(reason) <==> exists k: nat :: FirstFailure(lib, req, rows, k, reason)
  {
    hide RowProblem, RowFits, FailsFirst, RowsPass;
    if rows != [] {
      var n := |rows| - 1;
      FirstProblemIs(lib, req, rows[..n], reason);
      NoProblemIsRowsFit(lib, req, rows[..n]);
      RowProblemIs(lib, req, rows[n]);
      FailingDoesNotFit(lib, req, rows[n], reason);
      forall k: nat | k < n ensures FirstFailure(lib, req, rows, k, reason) <==> FirstFailure(lib, req, rows[..n], k, reason) {
        assert rows[..n][k] == rows[k] && forall i :: 0 <= i < k ==> rows[..n][i] == rows[i];
      }
      if FirstProblem(lib, req, rows[..n]).Some? {
        assert !FirstFailure(lib, req, rows, n, reason) by {
          var i :| 0 <= i < n && !RowFits(lib, req, rows[..n][i]);
          assert rows[..n][i] == rows[i];
        }
        if exists k: nat :: FirstFailure(lib, req, rows[..n], k, reason) {
          var k: nat :| FirstFailure(lib, req, rows[..n], k, reason);
          assert FirstFailure(lib, req, rows, k, reason);
        }
        if exists k: nat :: FirstFailure(lib, req, rows, k, reason) {
          var k: nat :| FirstFailure(lib, req, rows, k, reason);
          assert k < n && FirstFailure(lib, req, rows[..n], k, reason);
        }
      } else {
        assert forall i :: 0 <= i < n ==> RowFits(lib, req, rows[..n][i]) && rows[..n][i] == rows[i];
        assert FirstFailure(lib, req, rows, n, reason) <==> FailsFirst(lib, req, rows[n], reason);
        if exists k: nat :: FirstFailure(lib, req, rows, k, reason) {
          var k: nat :| FirstFailure(lib, req, rows, k, reason);
          FailingDoesNotFit(lib, req, rows[k], reason);
          assert k == n;
        }
      }
    }
  }

  lemma NoProblemIsRowsFit(lib: Lib, req: Request, rows: seq<Row>)
    ensures FirstProblem(lib, req, rows).None? <==> forall i :: 0 <= i < |rows| ==> RowFits(lib, req, rows[i])
  {
    hide RowProblem, RowFits;
    NoProblemIsRowsPass(lib, req, rows);
    forall i | 0 <= i < |rows| ensures RowProblem(lib, req, rows[i]).None? <==> RowFits(lib, req, rows[i]) {
      RowProblemIs(lib, req, rows[i]);
    }
  }

  /** A file passes exactly when its chain is valid and every row fits; else the first row that does not fit decides. */
  lemma InspectionExact(lib: Lib, req: Request, rows: seq<Row>)
    ensures Inspection(lib, req, rows).None? <==>
              Chain(lib.eventHash, rows).Ok? && forall i :: 0 <= i < |rows| ==> RowFits(lib, req, rows[i])
    ensures Inspection(lib, req, rows) == Some(ChainInvalid) <==> Chain(lib.eventHash, rows).Err?
    ensures forall reason :: reason != ChainInvalid ==>
              (Inspection(lib, req, rows) == Some(reason) <==>
                 Chain(lib.eventHash, rows).Ok? && exists k: nat :: FirstFailure(lib, req, rows, k, reason))
  {
    hide RowFits, Chain, FirstFailure, FirstProblem;
    NoProblemIsRowsFit(lib, req, rows);
    forall reason ensures FirstProblem(lib, req, rows) == Some(reason) <==> exists k: nat :: FirstFailure(lib, req, rows, k, reason) {
      FirstProblemIs(lib, req, rows, reason);
    }
    NeverChainInvalid(lib, req, rows);
  }

  lemma {:induction false} NeverChainInvalid(lib: Lib, req: Request, rows: seq<Row>)
    ensures FirstProblem(lib, req, rows) != Some(ChainInvalid)
  {
    if rows != [] { NeverChainInvalid(lib, req, rows[..|rows| - 1]); }
  }

  // ------------------------------------------------- the imported event

  /** Row `j` is the last one with the key. */
  ghost predicate LastWithKey(rows: seq<Row>, key: string, j: nat) {
    j < |rows| && rows[j].targetKey == key && forall i :: j < i < |rows| ==> rows[i].targetKey != key
  }

  /** The content hash of the last row with the key, none when there is no such row. */
  ghost predicate LastUnderKey(rows: seq<Row>, key: string, content: Option<string>) {
    || (content == None && forall i :: 0 <= i < |rows| ==> rows[i].targetKey != key)
    || exists j: nat :: LastWithKey(rows, key, j) && rows[j].body.contentHash == content
  }

  /** The last row with the key, or the end of the rows when there is none. */
  lemma {:induction false} LastContentAt(rows: seq<Row>, key: string) returns (j: nat)
    ensures j == |rows| ==> LastContent(rows, key) == None && forall i :: 0 <= i < |rows| ==> rows[i].targetKey != key
    ensures j != |rows| ==> LastWithKey(rows, key, j) && LastContent(rows, key) == rows[j].body.contentHash
  {
    if rows == [] { return 0; }
    var n := |rows| - 1;
    if rows[n].targetKey == key { return n; }
    j := LastContentAt(rows[..n], key);
    forall i | 0 <= i < n ensures rows[i] == rows[..n][i] {
    }
    if j == n { j := n + 1; }
  }

  lemma LastContentIs(rows: seq<Row>, key: string)
    ensures LastUnderKey(rows, key, LastContent(rows, key))
  {
    hide LastContent, LastWithKey;
    var j := LastContentAt(rows, key);
  }

  /** What the event says of the import. */
  ghost predicate Imports(req: Request, before: seq<Row>, e: Row) {
    var b := e.body;
    && e.eventId == req.importId && b.importId == req.importId && b.rest == req.provenance
    && b.eventType == "discord.visible_text.snapshot_observed"
    && b.text == Some(req.text) && b.contentHash == Some(req.contentHash)
    && LastUnderKey(before, req.key, b.previousContentHash)
    && (b.duplicateContent == Some(true) <==> exists i :: 0 <= i < |before| && before[i].body.contentHash == Some(req.contentHash))
    && (b.changed == Some(true) <==> b.previousContentHash != Some(req.contentHash))
    && b.duplicateContent.Some? && b.changed.Some?
    && b.capturedAt == req.capturedAt && b.observedAt == req.capturedAt && b.ingestedAt == req.at
    && b.source == req.source && b.url == req.url && b.title == "" && b.legacyId == ""
    && b.messageId == "" && b.ordinal == None && b.author == None && b.timestamp == None && b.duplicateMessageId == None
  }

  lemma BuiltByFields(lib: Lib, req: Request, before: seq<Row>)
    requires Chain(lib.eventHash, before).Ok? && req.key != ""
    ensures var e := BuildImport(lib, req, before, Duplicate(req, before));
            Follows(lib.eventHash, History(before, req.key), req.key, e) && Imports(req, before, e)
  {
    hide Chain, History, LastContent, LastUnderKey, HashToQuote;
    var history := History(before, req.key);
    StreamsAreConsecutive(lib.eventHash, before, req.key);
    LastContentIs(before, req.key);
    if history != [] { QuotedHash(lib.eventHash, history[|history| - 1]); }
    var e := BuildImport(lib, req, before, Duplicate(req, before));
    assert e.eventHash == lib.eventHash(e.(eventHash := ""));
  }

  /** The import is sound: its hash is the hash of its text, and its URL is one of its channel. */
  predicate RequestFits(lib: Lib, req: Request) {
    && req.contentHash == lib.textHash(req.text) && lib.channelOf(req.url) == Some(req.channel)
    && req.key != "" && req.importId != ""
  }

  lemma BuiltFits(lib: Lib, req: Request, before: seq<Row>, duplicate: bool)
    ensures var e := BuildImport(lib, req, before, duplicate);
            && e.chained && e.eventId == req.importId && e.targetKey == req.key && e.body.importId == req.importId
            && (RowFits(lib, req, e) <==> req.contentHash == lib.textHash(req.text) && lib.channelOf(req.url) == Some(req.channel))
  {
    hide Chain, LastContent;
  }

  lemma StagedIsNew(lib: Lib, req: Request, before: seq<Row>, duplicate: bool)
    requires !Present(req, before) && Staging(lib, req, before, duplicate).Ok?
    ensures RequestFits(lib, req) && !Taken(before, req.importId)
    ensures Inspection(lib, req, before + [BuildImport(lib, req, before, duplicate)]).None?
  {
    hide Chain, BuildImport, RowFits, Quotes, Sealed, History, Taken, Staging, Inspection;
    var e := BuildImport(lib, req, before, duplicate);
    StagingMeans(lib, req, before, duplicate);
    BuiltFits(lib, req, before, duplicate);
    InspectionExact(lib, req, before + [e]);
    assert RowFits(lib, req, (before + [e])[|before|]);
    if e.eventId != "" && Taken(before, e.eventId) {
      TakenIdExact(lib.eventHash, before, e);
    } else {
      NextRowExact(lib.eventHash, before, e);
    }
  }

  lemma NewIsStaged(lib: Lib, req: Request, before: seq<Row>, duplicate: bool)
    requires Inspection(lib, req, before).None? && RequestFits(lib, req) && !Taken(before, req.importId)
    ensures Staging(lib, req, before, duplicate) == Ok(before + [BuildImport(lib, req, before, duplicate)])
  {
    hide Chain, BuildImport, RowFits, History, Taken, Inspection, AppendAll, AppendOne, LinkedTo;
    var e := BuildImport(lib, req, before, duplicate);
    InspectionExact(lib, req, before);
    BuiltFits(lib, req, before, duplicate);
    BuiltIsLinked(lib, req, before, duplicate);
    TakenIs(before, e.eventId);
    LinkedIsAppended(lib.eventHash, before, req.key, e);
    AppendSingle(lib.eventHash, before, e);
    TransactionKeepsChain(lib.eventHash, before, [e]);
    InspectionExact(lib, req, before + [e]);
    PresentGrows(req, before, e);
  }

  /**
   * A file that passed and does not hold the import is staged exactly when the import is sound
   * and its id is new, and then as itself with the one event behind it, field by field.
   */
  lemma StagingExact(lib: Lib, req: Request, before: seq<Row>)
    requires Inspection(lib, req, before).None? && !Present(req, before)
    ensures Staging(lib, req, before, Duplicate(req, before)).Ok? <==> RequestFits(lib, req) && !Taken(before, req.importId)
    ensures Staging(lib, req, before, Duplicate(req, before)).Ok? ==>
              exists e :: Staging(lib, req, before, Duplicate(req, before)).value == before + [e]
                          && Follows(lib.eventHash, History(before, req.key), req.key, e) && Imports(req, before, e)
  {
    hide Chain, Follows, Imports, BuildImport, Duplicate, Staging, Inspection, Taken;
    var duplicate := Duplicate(req, before);
    if Staging(lib, req, before, duplicate).Ok? { StagedIsNew(lib, req, before, duplicate); }
    if RequestFits(lib, req) && !Taken(before, req.importId) {
      NewIsStaged(lib, req, before, duplicate);
      InspectionExact(lib, req, before);
      BuiltByFields(lib, req, before);
      assert Staging(lib, req, before, duplicate).value == before + [BuildImport(lib, req, before, duplicate)];
    }
  }

  // ------------------------------------------------- whole imports

  /** What other processes make of the file over these turns. */
  function Others(file: seq<Row>, turns: seq<Turn>): seq<Row> {
    if turns == [] then file
    else
      match turns[|turns| - 1].others
      case None => Others(file, turns[..|turns| - 1])
      case Some(rows) => rows
  }

  lemma OthersStep(file: seq<Row>, turns: seq<Turn>, k: nat)
    requires k < |turns|
    ensures Others(file, turns[..k + 1]) == Seen(Others(file, turns[..k]), turns[k])
  {
    assert turns[..k + 1][..k] == turns[..k];
  }

  /** The file as this import first reads it. */
  function Found(file: seq<Row>, turns: seq<Turn>): seq<Row>
    requires |turns| == 8
  {
    Others(file, turns[..1])
  }

  /** Nothing is in the way of staging: the first three steps go through. */
  ghost predicate Admitted(lib: Lib, req: Request, file: seq<Row>, turns: seq<Turn>)
    requires |turns| == 8
  {
    var found := Found(file, turns);
    && (forall i :: 0 <= i < 3 ==> !turns[i].input.fails)
    && (req.expected == None || req.expected == Some(found))
    && Inspection(lib, req, found).None?
    && (forall i :: 0 <= i < |found| ==> found[i].body.importId != req.importId)
    && req.apply && turns[1].input.lockFree
    && turns[2].input.sourceIntact && Others(file, turns[..3]) == found
  }

  /** Nor of the swap. */
  ghost predicate Installed(lib: Lib, req: Request, file: seq<Row>, turns: seq<Turn>)
    requires |turns| == 8
  {
    var found := Found(file, turns);
    && Admitted(lib, req, file, turns)
    && (forall i :: 3 <= i < 6 ==> !turns[i].input.fails)
    && RequestFits(lib, req) && (forall i :: 0 <= i < |found| ==> found[i].eventId != req.importId)
    && turns[4].input.sourceIntact && Others(file, turns[..5]) == found
  }

  /** An import that ends without a swap: nothing appended, and the file is what others made of it. */
  ghost predicate LeftAlone(file: seq<Row>, turns: seq<Turn>, outcome: (Phase, seq<Row>)) {
    && outcome.0.Done? && outcome.0.result.eventsAppended == 0 && !outcome.0.result.status.Absorbed?
    && (outcome.0.result.status.Blocked? || outcome.0.result.status.ReadyToApply? ==> outcome.0.result.commitState == NoCommit && !outcome.0.result.readBack)
    && (outcome.0.result.status.AlreadyPresent? ==> outcome.0.result.commitState == PresentVerified && outcome.0.result.readBack)
    && exists k :: 0 <= k <= |turns| && outcome.1 == Others(file, turns[..k])
  }

  /** After the clean-up. */
  lemma Cleaned(lib: Lib, req: Request, result: ImportResult, file: seq<Row>, turns: seq<Turn>, k: nat)
    requires k < |turns|
    ensures Drive(lib, req, Cleaning(result), file, turns[k..])
            == (Done(if turns[k].input.fails then (if result.eventsAppended == 1 then LateRefusal(CleanupFailed) else Refusal(CleanupFailed)) else result),
                Seen(file, turns[k]))
  {
    hide Drive;
    DriveStep(lib, req, Cleaning(result), file, turns, k);
    DriveEndsAll(lib, req);
  }

  lemma AloneAfter(lib: Lib, req: Request, reason: Reason, file: seq<Row>, turns: seq<Turn>, k: nat)
    requires k < |turns|
    ensures LeftAlone(file, turns, Drive(lib, req, Cleaning(Refusal(reason)), Others(file, turns[..k]), turns[k..]))
  {
    hide Drive;
    Cleaned(lib, req, Refusal(reason), Others(file, turns[..k]), turns, k);
    OthersStep(file, turns, k);
  }

  /** One step that does not write the file. */
  lemma NextTurn(lib: Lib, req: Request, phase: Phase, file: seq<Row>, turns: seq<Turn>, k: nat)
    requires k < |turns| && !phase.Done? && !phase.Armed?
    ensures var now := Others(file, turns[..k + 1]);
            Drive(lib, req, phase, Others(file, turns[..k]), turns[k..])
            == Drive(lib, req, Advance(lib, req, phase, now, turns[k].input), now, turns[k + 1..])
  {
    hide Drive, Advance;
    DriveStep(lib, req, phase, Others(file, turns[..k]), turns, k);
    OthersStep(file, turns, k);
  }

  lemma AloneAt(lib: Lib, req: Request, result: ImportResult, file: seq<Row>, turns: seq<Turn>, k: nat)
    requires k <= |turns| && result.eventsAppended == 0
    requires result.status.Blocked? ==> result == Refusal(result.status.reason)
    requires !result.status.Absorbed?
    requires result.status.ReadyToApply? ==> result == ImportResult(ReadyToApply, NoCommit, 0, false)
    requires result.status.AlreadyPresent? ==> result == ImportResult(AlreadyPresent, PresentVerified, 0, true)
    ensures LeftAlone(file, turns, Drive(lib, req, Done(result), Others(file, turns[..k]), turns[k..]))
  {
    hide Drive;
    DriveEnds(lib, req, result, Others(file, turns[..k]), turns[k..]);
  }

  /** The first step lets the import go on exactly when the file and the request allow it; otherwise it is the answer. */
  lemma FirstTurn(lib: Lib, req: Request, found: seq<Row>, input: Input)
    ensures var phase := Advance(lib, req, Start, found, input);
            var present := exists i :: 0 <= i < |found| && found[i].body.importId == req.importId;
            phase == if input.fails then Done(ImportResult(Blocked(ImportFailed), NoCommit, 0, false))
                     else if req.expected != None && req.expected != Some(found) then Done(ImportResult(Blocked(StoreCasMismatch), NoCommit, 0, false))
                     else if Inspection(lib, req, found).Some? then Done(ImportResult(Blocked(Inspection(lib, req, found).value), NoCommit, 0, false))
                     else if present then Done(ImportResult(AlreadyPresent, PresentVerified, 0, true))
                     else if !req.apply then Done(ImportResult(ReadyToApply, NoCommit, 0, false))
                     else Validated(found, Duplicate(req, found))
  {
    hide Inspection, Duplicate;
  }

  lemma UpToStaging(lib: Lib, req: Request, file: seq<Row>, turns: seq<Turn>)
    requires |turns| == 8
    ensures var found := Found(file, turns);
            if Admitted(lib, req, file, turns)
            then Drive(lib, req, Start, file, turns) == Drive(lib, req, Rechecked(found, Duplicate(req, found)), found, turns[3..])
            else LeftAlone(file, turns, Drive(lib, req, Start, file, turns))
  {
    hide Drive, Inspection, Duplicate, LeftAlone, Others, Present;
    var found := Found(file, turns);
    assert turns[0..] == turns && Others(file, turns[..0]) == file by { NothingBefore(file, turns); }
    NextTurn(lib, req, Start, file, turns, 0);
    FirstTurn(lib, req, found, turns[0].input);
    var phase := Advance(lib, req, Start, found, turns[0].input);
    if phase.Done? {
      AloneAt(lib, req, phase.result, file, turns, 1);
    } else {
      NextTurn(lib, req, phase, file, turns, 1);
      if turns[1].input.fails || !turns[1].input.lockFree {
        AloneAt(lib, req, Refusal(ImportFailed), file, turns, 2);
      } else {
        NextTurn(lib, req, Holding(found, Duplicate(req, found)), file, turns, 2);
        AloneAfter(lib, req, ImportFailed, file, turns, 3);
        AloneAfter(lib, req, SourceCasMismatch, file, turns, 3);
        AloneAfter(lib, req, StoreCasMismatch, file, turns, 3);
      }
    }
  }

  lemma NothingBefore(file: seq<Row>, turns: seq<Turn>)
    ensures turns[0..] == turns && Others(file, turns[..0]) == file
  {
  }

  lemma UpToSwap(lib: Lib, req: Request, file: seq<Row>, turns: seq<Turn>)
    requires |turns| == 8 && Admitted(lib, req, file, turns)
    ensures var found := Found(file, turns);
            var duplicate := Duplicate(req, found);
            var outcome := Drive(lib, req, Rechecked(found, duplicate), found, turns[3..]);
            if Installed(lib, req, file, turns)
            then Staging(lib, req, found, duplicate).Ok?
                 && outcome == Drive(lib, req, Swapped(Staging(lib, req, found, duplicate).value), Staging(lib, req, found, duplicate).value, turns[6..])
            else LeftAlone(file, turns, outcome)
  {
    hide Drive, Inspection, Duplicate, LeftAlone, Others, Staging, Follows, Imports;
    var found := Found(file, turns);
    var duplicate := Duplicate(req, found);
    StagingExact(lib, req, found);
    NextTurn(lib, req, Rechecked(found, duplicate), file, turns, 3);
    if turns[3].input.fails || Staging(lib, req, found, duplicate).Err? {
      AloneAfter(lib, req, ImportFailed, file, turns, 4);
      if Staging(lib, req, found, duplicate).Err? { AloneAfter(lib, req, Staging(lib, req, found, duplicate).error, file, turns, 4); }
    } else {
      var staged := Staging(lib, req, found, duplicate).value;
      NextTurn(lib, req, Staged(found, staged), file, turns, 4);
      AloneAfter(lib, req, ImportFailed, file, turns, 5);
      AloneAfter(lib, req, PreSwapCasMismatch, file, turns, 5);
      DriveStep(lib, req, Armed(found, staged), Others(file, turns[..5]), turns, 5);
      OthersStep(file, turns, 5);
      AloneAfter(lib, req, ImportFailed, file, turns, 6);
    }
  }

  /** What an import does after the swap, and what it then answers. */
  lemma AfterSwap(lib: Lib, req: Request, staged: seq<Row>, turns: seq<Turn>)
    requires |turns| == 8 && Inspection(lib, req, staged).None?
    ensures var outcome := Drive(lib, req, Swapped(staged), staged, turns[6..]);
            && outcome.0.Done? && outcome.0.result.eventsAppended == 1 && outcome.1 == Others(staged, turns[6..])
            && (outcome.0.result == SUCCESS <==> !turns[6].input.fails && !turns[7].input.fails && Others(staged, turns[6..7]) == staged)
            && (outcome.0.result != SUCCESS ==>
                  (outcome.0.result.status.Blocked? && outcome.0.result.commitState == AppliedUnverified && !outcome.0.result.readBack))
  {
    hide Drive, Inspection, Others;
    DriveStep(lib, req, Swapped(staged), staged, turns, 6);
    LastTwo(staged, turns);
    var now := Others(staged, turns[6..7]);
    Cleaned(lib, req, SUCCESS, now, turns, 7);
    Cleaned(lib, req, LateRefusal(ImportFailed), now, turns, 7);
    Cleaned(lib, req, LateRefusal(CanonicalReadBackFailed), now, turns, 7);
    if Inspection(lib, req, now).Some? { Cleaned(lib, req, LateRefusal(Inspection(lib, req, now).value), now, turns, 7); }
  }

  lemma LastTwo(staged: seq<Row>, turns: seq<Turn>)
    requires |turns| == 8
    ensures Others(staged, turns[6..7]) == Seen(staged, turns[6])
    ensures Others(staged, turns[6..]) == Seen(Seen(staged, turns[6]), turns[7])
  {
    var rest := turns[6..];
    assert turns[6..7] == rest[..1];
    OthersStep(staged, rest, 0);
    OthersStep(staged, rest, 1);
    assert rest[..0] == [] && rest[..2] == rest;
  }

  /**
   * A whole import, whatever else happens around it. It swaps the file exactly when nothing
   * was in its way; then it installs the file it found with the one event behind it, and
   * answers with success exactly when reading back and cleaning up went through and no other
   * process had written over it. Otherwise the file is what the others made of it, and the
   * answer claims nothing.
   */
  lemma ImportExact(lib: Lib, req: Request, file: seq<Row>, turns: seq<Turn>)
    requires |turns| == 8
    ensures var found, outcome := Found(file, turns), Drive(lib, req, Start, file, turns);
            && outcome.0.Done?
            && (outcome.0.result.eventsAppended == 1 <==> Installed(lib, req, file, turns))
            && (!Installed(lib, req, file, turns) ==> LeftAlone(file, turns, outcome))
            && (Installed(lib, req, file, turns) ==>
                  exists e :: Follows(lib.eventHash, History(found, req.key), req.key, e) && Imports(req, found, e)
                              && outcome.1 == Others(found + [e], turns[6..])
                              && (outcome.0.result == ImportResult(Absorbed, AppliedVerified, 1, true) <==>
                                    !turns[6].input.fails && !turns[7].input.fails && Others(found + [e], turns[6..7]) == found + [e]))
  {
    hide Drive, Inspection, Duplicate, Others, Staging, Follows, Imports, History, Present, Found;
    var found := Found(file, turns);
    UpToStaging(lib, req, file, turns);
    if Admitted(lib, req, file, turns) {
      UpToSwap(lib, req, file, turns);
      if Installed(lib, req, file, turns) {
        NotPresent(req, found);
        StagingExact(lib, req, found);
        var staged := Staging(lib, req, found, Duplicate(req, found)).value;
        StagedPassed(lib, req, found, Duplicate(req, found));
        AfterSwap(lib, req, staged, turns);
      }
    }
  }

  lemma NotPresent(req: Request, found: seq<Row>)
    requires forall i :: 0 <= i < |found| ==> found[i].body.importId != req.importId
    ensures !Present(req, found)
  {
  }

  lemma StagedPassed(lib: Lib, req: Request, found: seq<Row>, duplicate: bool)
    requires Staging(lib, req, found, duplicate).Ok?
    ensures Inspection(lib, req, Staging(lib, req, found, duplicate).value).None?
  {
    hide Inspection, AppendAll, BuildImport, Present;
  }
}
