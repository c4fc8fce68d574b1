/**
 * Ingest of legacy observations (`_ingest_legacy_observations`,
 * `_build_legacy_observation_events`): several targets in one call, each re-chained into
 * its own stream, all or nothing, and idempotent.
 */
module LegacyIngest {
  import opened Text
  import opened Receipts
  import opened Ledger
  import opened LedgerBlocks
  import opened Ingest

  /** A row as it comes in; `context` is mistyped unless it is an object. */
  datatype LegacyRow = LegacyRow(
    eventId: Raw<string>, targetKey: Raw<string>, capturedAt: Raw<string>, observedAt: Raw<string>, text: Raw<string>,
    context: Raw<string>, streamId: string, eventType: string, source: string, url: string, title: string, rest: string)

  datatype Field = EventIdField | TargetKeyField | CapturedAtField | ObservedAtField | TextField

  datatype Reason =
    | MessageLimitExceeded | Required(field: Field) | ContextInvalid | BodyLimitExceeded
    | DuplicateEventId | TargetIdentityMismatch | LegacyReplayConflict

  // ------------------------------------------------- validation

  predicate NonEmpty(field: Raw<string>) {
    field.Val? && field.v != ""
  }

  /** First failing check of one row. */
  function RowProblem(row: LegacyRow): Option<Reason> {
    if !NonEmpty(row.eventId) then Some(Required(EventIdField))
    else if !NonEmpty(row.targetKey) then Some(Required(TargetKeyField))
    else if !NonEmpty(row.capturedAt) then Some(Required(CapturedAtField))
    else if !NonEmpty(row.observedAt) then Some(Required(ObservedAtField))
    else if !NonEmpty(row.text) then Some(Required(TextField))
    else if row.context.Mistyped? then Some(ContextInvalid)
    else if |row.text.v| > MAX_BODY_TEXT_CHARS then Some(BodyLimitExceeded)
    else None
  }

  function FirstProblem(rows: seq<LegacyRow>): Option<Reason> {
    if rows == [] then None
    else if FirstProblem(rows[..|rows| - 1]).Some? then FirstProblem(rows[..|rows| - 1])
    else RowProblem(rows[|rows| - 1])
  }

  function Str(field: Raw<string>): string {
    if field.Val? then field.v else ""
  }

  function IdOfRow(row: LegacyRow): string {
    Str(row.eventId)
  }

  function TargetOfRow(row: LegacyRow): string {
    Str(row.targetKey)
  }

  predicate DistinctRows(rows: seq<LegacyRow>) {
    forall i, j :: 0 <= i < j < |rows| ==> IdOfRow(rows[i]) != IdOfRow(rows[j])
  }

  /** The targets, in the order they first appear. */
  function Targets(rows: seq<LegacyRow>): (r: seq<string>)
    ensures Distinct(r)
    ensures forall t :: t in r <==> exists i :: 0 <= i < |rows| && TargetOfRow(rows[i]) == t
  {
    if rows == [] then []
    else
      var n := |rows| - 1;
      var r := Targets(rows[..n]);
      assert forall i :: 0 <= i < n ==> rows[..n][i] == rows[i];
      if TargetOfRow(rows[n]) in r then r else r + [TargetOfRow(rows[n])]
  }

  function RowsOf(rows: seq<LegacyRow>, target: string): seq<LegacyRow> {
    if rows == [] then []
    else RowsOf(rows[..|rows| - 1], target) + if TargetOfRow(rows[|rows| - 1]) == target then [rows[|rows| - 1]] else []
  }

  /** The stream ids given for one target agree. */
  predicate OneStream(rows: seq<LegacyRow>) {
    Agree(seq(|rows|, i requires 0 <= i < |rows| => rows[i].streamId))
  }

  function Validated(rows: seq<LegacyRow>): Option<Reason> {
    if |rows| > MAX_MESSAGES then Some(MessageLimitExceeded)
    else if FirstProblem(rows).Some? then FirstProblem(rows)
    else if !DistinctRows(rows) then Some(DuplicateEventId)
    else if exists t :: t in Targets(rows) && !OneStream(RowsOf(rows, t)) then Some(TargetIdentityMismatch)
    else None
  }

  // ------------------------------------------------- events of one target

  /** The record under which a legacy id was imported first. */
  function FirstImported(records: seq<Row>, id: string): (r: Option<Row>)
    ensures r.Some? ==> r.value in records && r.value.body.legacyId == id
    ensures r.None? <==> forall i :: 0 <= i < |records| ==> records[i].body.legacyId != id
  {
    if records == [] then None
    else
      var n := |records| - 1;
      match FirstImported(records[..n], id)
      case Some(row) => Some(row)
      case None =>
        assert forall i :: 0 <= i < n ==> records[..n][i] == records[i];
        if records[n].body.legacyId == id then Some(records[n]) else None
  }

  function RowHash(f: Foreign, row: LegacyRow): string {
    f.textHash(f.redact(Str(row.text)))
  }

  /** What was imported under the id is what comes in again. */
  predicate Matches(f: Foreign, stored: Row, target: string, row: LegacyRow) {
    && stored.targetKey == target && stored.body.capturedAt == Str(row.capturedAt)
    && stored.body.observedAt == Str(row.observedAt) && stored.body.contentHash == Some(RowHash(f, row))
  }

  function LegacyEventFor(f: Foreign, at: string, head: Head, previous: Option<string>, target: string, row: LegacyRow): Row {
    var contentHash := RowHash(f, row);
    var duplicate := previous == Some(contentHash);
    var body := Body(if row.eventType != "" then row.eventType else "discord.visible_text.snapshot_observed",
                     Some(contentHash), previous, "", None, None, None, None, Some(duplicate), Some(!duplicate),
                     Str(row.capturedAt), Str(row.observedAt), at, row.source, row.url, row.title, Some(f.redact(Str(row.text))),
                     IdOfRow(row), "", row.rest);
    var event := Row(true, OBSERVATION, f.textHash("adr0164|" + IdOfRow(row) + "|" + target), Some(target), target,
                     Val(head.sequence + 1), Val(head.sequence), head.hash, "", body);
    event.(eventHash := f.eventHash(event))
  }

  function LegacyEvent(f: Foreign, at: string, history: seq<Row>, target: string, row: LegacyRow): Row {
    LegacyEventFor(f, at, HistoryHead(f.eventHash, history), PreviousContent(history), target, row)
  }

  lemma LegacyEventFacts(f: Foreign, at: string, history: seq<Row>, target: string, row: LegacyRow)
    ensures var e := LegacyEvent(f, at, history, target, row);
            && LinkedTo(f.eventHash, history, target, e)
            && e.body.legacyId == IdOfRow(row) && Matches(f, e, target, row)
            && e.body.contentHash == Some(RowHash(f, row)) && e.eventHash == DurableHash(f.eventHash, e)
            && e.body.previousContentHash == PreviousContent(history) && e.body.text == Some(f.redact(Str(row.text)))
            && (e.body.changed == Some(true) <==> PreviousContent(history) != Some(RowHash(f, row)))
            && e.body.duplicateContent == Some(PreviousContent(history) == Some(RowHash(f, row)))
  {
    hide RowHash, PreviousContent;
    var e := LegacyEvent(f, at, history, target, row);
    assert e.eventHash == f.eventHash(e.(eventHash := ""));
  }

  datatype LegacyBuilt = LegacyBuilt(events: seq<Row>, skipped: nat)

  /** The events for the rows of one target, in order: rows already imported are compared and skipped. */
  function LegacyEvents(f: Foreign, at: string, records: seq<Row>, target: string, rows: seq<LegacyRow>): Result<LegacyBuilt, LedgerError> {
    if rows == [] then Ok(LegacyBuilt([], 0))
    else
      var n := |rows| - 1;
      match LegacyEvents(f, at, records, target, rows[..n])
      case Err(e) => Err(e)
      case Ok(b) =>
        match FirstImported(records + b.events, IdOfRow(rows[n]))
        case Some(stored) => if Matches(f, stored, target, rows[n]) then Ok(b.(skipped := b.skipped + 1)) else Err(ReplayConflict)
        case None => Ok(b.(events := b.events + [LegacyEvent(f, at, History(records, target) + b.events, target, rows[n])]))
  }

  /** The dictionary from legacy id to first imported record. */
  ghost predicate ImportedAre(records: seq<Row>, imported: map<string, Row>) {
    forall id :: id != "" ==> FirstImported(records, id) == if id in imported then Some(imported[id]) else None
  }

  lemma ImportedGrows(records: seq<Row>, row: Row, imported: map<string, Row>)
    requires ImportedAre(records, imported)
    ensures ImportedAre(records + [row], if row.body.legacyId != "" && row.body.legacyId !in imported then imported[row.body.legacyId := row] else imported)
  {
    assert (records + [row])[..|records|] == records;
  }

  lemma NothingImported()
    ensures ImportedAre([], map[])
  {
  }

  method FillImported(records: seq<Row>) returns (imported: map<string, Row>)
    ensures ImportedAre(records, imported)
  {
    hide ImportedAre, FirstImported;
    imported := map[];
    assert records[..0] == [];
    NothingImported();
    for i := 0 to |records|
      invariant ImportedAre(records[..i], imported)
    {
      assert records[..i + 1] == records[..i] + [records[i]];
      ImportedGrows(records[..i], records[i], imported);
      var id := records[i].body.legacyId;
      if id != "" && id !in imported { imported := imported[id := records[i]]; }
    }
    assert records[..|records|] == records;
  }

  /** `_build_legacy_observation_events`. */
  method BuildLegacyObservationEvents(f: Foreign, at: string, records: seq<Row>, target: string, rows: seq<LegacyRow>)
    returns (r: Result<LegacyBuilt, LedgerError>)
    requires target != "" && forall i :: 0 <= i < |rows| ==> IdOfRow(rows[i]) != ""
    ensures r == match Chain(f.eventHash, records) case Err(e) => Err(e) case Ok(_) => LegacyEvents(f, at, records, target, rows)
  {
    hide ImportedAre, FirstImported, Chain, History, LegacyEventFor, HistoryHead, PreviousContent, Matches, HeadOf, DurableHash, RowHash;
    var imported := FillImported(records);
    var heads := ValidateTextSnapshotChain(f.eventHash, records);
    if heads.Err? { return Err(heads.error); }
    StreamsAreConsecutive(f.eventHash, records, target);
    var head := HeadOf(heads.value, target);
    var history := History(records, target);
    var previousContent := PreviousContent(history);
    var events: seq<Row> := [];
    var skipped := 0;
    assert rows[..0] == [] && history + events == history && records + events == records;
    for i := 0 to |rows|
      invariant LegacyEvents(f, at, records, target, rows[..i]) == Ok(LegacyBuilt(events, skipped))
      invariant head == HistoryHead(f.eventHash, history + events)
      invariant previousContent == PreviousContent(history + events)
      invariant ImportedAre(records + events, imported)
    {
      var row := rows[i];
      assert rows[..i + 1][..i] == rows[..i];
      ImportedAnswers(records + events, imported, IdOfRow(row));
      if IdOfRow(row) in imported {
        if !Matches(f, imported[IdOfRow(row)], target, row) {
          FirstConflictStays(f, at, records, target, rows, i + 1);
          return Err(ReplayConflict);
        }
        skipped := skipped + 1;
      } else {
        var event := LegacyEventFor(f, at, head, previousContent, target, row);
        LegacyEventFacts(f, at, history + events, target, row);
        HeadAfter(f.eventHash, history + events, event);
        assert history + (events + [event]) == (history + events) + [event];
        assert records + (events + [event]) == (records + events) + [event];
        ImportedGrows(records + events, event, imported);
        events := events + [event];
        imported := imported[IdOfRow(row) := event];
        head := Head(head.sequence + 1, event.eventHash);
        previousContent := Some(RowHash(f, row));
      }
    }
    assert rows[..|rows|] == rows;
    return Ok(LegacyBuilt(events, skipped));
  }

  lemma ImportedAnswers(records: seq<Row>, imported: map<string, Row>, id: string)
    requires ImportedAre(records, imported) && id != ""
    ensures FirstImported(records, id) == if id in imported then Some(imported[id]) else None
  {
    hide FirstImported;
  }

  lemma {:induction false} FirstConflictStays(f: Foreign, at: string, records: seq<Row>, target: string, rows: seq<LegacyRow>, k: nat)
    requires k <= |rows| && LegacyEvents(f, at, records, target, rows[..k]).Err?
    ensures LegacyEvents(f, at, records, target, rows) == LegacyEvents(f, at, records, target, rows[..k])
  {
    hide FirstImported, Matches, LegacyEvent, History;
    if k == |rows| {
      assert rows[..k] == rows;
    } else {
      assert rows[..|rows| - 1][..k] == rows[..k];
      FirstConflictStays(f, at, records, target, rows[..|rows| - 1], k);
    }
  }
}
