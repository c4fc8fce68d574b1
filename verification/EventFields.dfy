/**
 * The two ingests, field by field: every field of every event that a message batch or a
 * legacy call leaves in the ledger, from the input and from the rows before it.
 */
module EventFields {
  import opened Text
  import opened Receipts
  import opened Ledger
  import opened LedgerBlocks
  import opened LedgerFields
  import opened Ingest
  import opened LegacyIngest
  import opened LegacyRuns
  import opened LegacyCalls
  import opened LegacyFields
  import opened Registry

  /** A row behind `before`: its number, its predecessor's number and hash, its own hash, its one stream. */
  ghost predicate Follows(h: Hash, before: seq<Row>, target: string, e: Row) {
    && e.chained && e.schema == "discord_context_bridge_text_snapshot_observation.v1"
    && e.streamId == Some(target) && e.targetKey == target
    && e.sequence == Val(|before| + 1) && e.expectedPrevious == Val(|before|)
    && e.previousEventHash == (if before == [] then "" else HashToQuote(h, before[|before| - 1]))
    && e.eventHash == h(e.(eventHash := ""))
  }

  /** The content hash of the row before, the empty text when that row has none. */
  function ContentBefore(before: seq<Row>): Option<string> {
    if before == [] then None
    else
      match before[|before| - 1].body.contentHash
      case Some(hash) => Some(hash)
      case None => Some("")
  }

  // ------------------------------------------------- messages

  /** The row observed this message: same id, or without ids the same place, author and time. */
  predicate Observes(row: Row, m: Message) {
    || (m.messageId != "" && row.body.messageId == m.messageId)
    || (m.messageId == "" && row.body.messageId == "" && row.body.ordinal == m.ordinal
        && row.body.author == Some(m.author) && row.body.timestamp == Some(m.timestamp))
  }

  /** The last row that observed the message has this content. */
  ghost predicate LastHad(before: seq<Row>, m: Message, contentHash: string) {
    exists j :: 0 <= j < |before| && Observes(before[j], m) && before[j].body.contentHash == Some(contentHash)
                && forall i :: j < i < |before| ==> !Observes(before[i], m)
  }

  /** What the event says of the message. */
  ghost predicate Tells(f: Foreign, ctx: Context, before: seq<Row>, m: Message, e: Row) {
    var text := f.redact(m.body);
    var hash := f.textHash(text);
    var b := e.body;
    && e.eventId == f.textHash(ctx.capturedAt + "|" + ctx.target + "|" + hash + "|" + ctx.source + "|" + Decimal(|before| + 1))
    && b.eventType == "message_observation"
    && b.text == Some(text) && b.contentHash == Some(hash) && b.previousContentHash == ContentBefore(before)
    && b.messageId == m.messageId && b.ordinal == m.ordinal && b.author == Some(m.author) && b.timestamp == Some(m.timestamp)
    && (b.duplicateMessageId == Some(true) <==> m.messageId != "" && exists j :: 0 <= j < |before| && before[j].body.messageId == m.messageId)
    && (b.duplicateContent == Some(true) <==> LastHad(before, m, hash))
    && (b.changed == Some(true) <==> !LastHad(before, m, hash))
    && b.duplicateMessageId.Some? && b.duplicateContent.Some? && b.changed.Some?
    && b.capturedAt == ctx.capturedAt && b.observedAt == ctx.capturedAt && b.ingestedAt == ctx.ingestedAt
    && b.source == ctx.source && b.url == ctx.url && b.title == ctx.title
    && b.legacyId == "" && b.importId == "" && b.rest == ""
  }

  lemma ObservesIs(before: seq<Row>, m: Message, hash: string)
    ensures LastHad(before, m, hash) <==> LastSeen(before, m) == Some(Some(hash))
  {
    hide LastSeen;
    LastSeenExact(before, m);
    forall j | 0 <= j < |before| ensures Observes(before[j], m) <==> SameMessage(before[j], m) {
    }
    if LastHad(before, m, hash) {
      var j :| 0 <= j < |before| && Observes(before[j], m) && before[j].body.contentHash == Some(hash)
               && forall i :: j < i < |before| ==> !Observes(before[i], m);
      assert LastObservation(before, m, j);
    }
    if LastSeen(before, m) == Some(Some(hash)) {
      var j: nat :| LastObservation(before, m, j);
      assert Observes(before[j], m);
    }
  }

  lemma SeenById(before: seq<Row>, m: Message)
    requires m.messageId != ""
    ensures LastSeen(before, m).Some? <==> exists j :: 0 <= j < |before| && before[j].body.messageId == m.messageId
  {
    hide LastSeen;
    LastSeenExact(before, m);
    forall j | 0 <= j < |before| ensures SameMessage(before[j], m) <==> before[j].body.messageId == m.messageId {
    }
  }

  lemma FollowsIs(f: Foreign, ctx: Context, before: seq<Row>, m: Message)
    ensures Follows(f.eventHash, before, ctx.target, NextEvent(f, ctx, before, m))
  {
    hide LastSeen, EventIdText, ContentHash, PreviousContent, HashToQuote;
    if before != [] { QuotedHash(f.eventHash, before[|before| - 1]); }
    var e := NextEvent(f, ctx, before, m);
    assert e.eventHash == f.eventHash(e.(eventHash := ""));
  }

  lemma TellsIs(f: Foreign, ctx: Context, before: seq<Row>, m: Message)
    ensures Tells(f, ctx, before, m, NextEvent(f, ctx, before, m))
  {
    hide LastSeen, LastHad, HistoryHead;
    ObservesIs(before, m, f.textHash(f.redact(m.body)));
    if m.messageId != "" { SeenById(before, m); }
    assert HistoryHead(f.eventHash, before).sequence == |before| by { HeadCounts(f.eventHash, before); }
  }

  lemma HeadCounts(h: Hash, before: seq<Row>)
    ensures HistoryHead(h, before).sequence == |before|
  {
  }

  /** The stream grows by one event per message, each with exactly these fields. */
  ghost predicate GrowsBy(f: Foreign, ctx: Context, had: seq<Row>, stream: seq<Row>, messages: seq<Message>) {
    && |stream| == |had| + |messages| && stream[..|had|] == had
    && forall k :: 0 <= k < |messages| ==> HoldsMessage(f, ctx, stream, |had| + k, messages[k])
  }

  /** Row `i` of the stream is the event for the message, built on the rows before it. */
  ghost predicate HoldsMessage(f: Foreign, ctx: Context, stream: seq<Row>, i: int, m: Message)
    requires 0 <= i < |stream|
  {
    Follows(f.eventHash, stream[..i], ctx.target, stream[i]) && Tells(f, ctx, stream[..i], m, stream[i])
  }

  lemma EventsGrow(f: Foreign, ctx: Context, had: seq<Row>, messages: seq<Message>)
    ensures GrowsBy(f, ctx, had, had + MessageEvents(f, ctx, had, messages), messages)
  {
    hide MessageEvents, NextEvent, Follows, Tells;
    var events := MessageEvents(f, ctx, had, messages);
    var stream := had + events;
    forall k | 0 <= k < |messages|
      ensures HoldsMessage(f, ctx, stream, |had| + k, messages[k])
    {
      EventAt(f, ctx, had, messages, k);
      assert stream[..|had| + k] == had + events[..k];
      FollowsIs(f, ctx, had + events[..k], messages[k]);
      TellsIs(f, ctx, had + events[..k], messages[k]);
    }
  }

  /** An accepted batch: the new rows of the ledger are the new events of the stream, one per message, field by field. */
  lemma IngestByFields(f: Foreign, ctx: Context, rows: seq<Row>, messages: seq<Message>)
    requires ctx.target != "" && Ingested(f, ctx, rows, messages).Ok?
    ensures var now := Ingested(f, ctx, rows, messages).value;
            var had, has := History(rows, ctx.target), History(now, ctx.target);
            && GrowsBy(f, ctx, had, has, messages) && now == rows + has[|had|..]
            && forall s :: s != ctx.target ==> History(now, s) == History(rows, s)
  {
    hide Ingested, History, MessageEvents, GrowsBy, Chain;
    IngestAppendsAll(f, ctx, rows, messages);
    EventsGrow(f, ctx, History(rows, ctx.target), messages);
    GrownOver(f, ctx, History(rows, ctx.target), History(Ingested(f, ctx, rows, messages).value, ctx.target), messages);
  }

  lemma GrownOver(f: Foreign, ctx: Context, had: seq<Row>, has: seq<Row>, messages: seq<Message>)
    requires GrowsBy(f, ctx, had, has, messages)
    ensures |has| >= |had|
  {
  }

  predicate IsRepeat(e: Row) {
    e.body.duplicateContent == Some(true)
  }

  /** The duplicates of a report: as many as there are events whose content is the one seen last. */
  lemma {:induction false} DuplicatesExact(events: seq<Row>)
    ensures Duplicates(events) == |set i | 0 <= i < |events| && IsRepeat(events[i])|
  {
    var all := set i | 0 <= i < |events| && IsRepeat(events[i]);
    if events == [] {
      assert all == {};
    } else {
      var n := |events| - 1;
      DuplicatesExact(events[..n]);
      DuplicatesStep(events);
      hide IsRepeat, Duplicates;
      var before := set i | 0 <= i < n && IsRepeat(events[..n][i]);
      assert all == if IsRepeat(events[n]) then before + {n} else before;
    }
  }

  lemma DuplicatesStep(events: seq<Row>)
    requires events != []
    ensures Duplicates(events) == Duplicates(events[..|events| - 1]) + if IsRepeat(events[|events| - 1]) then 1 else 0
  {
  }

  // ------------------------------------------------- legacy rows

  /** What the event says of the row. */
  ghost predicate Carried(f: Foreign, at: string, before: seq<Row>, target: string, r: LegacyRow, e: Row) {
    var b := e.body;
    && (exists id :: r.eventId == Val(id) && b.legacyId == id && e.eventId == f.textHash("adr0164|" + id + "|" + target))
    && (exists text :: r.text == Val(text) && b.text == Some(f.redact(text)) && b.contentHash == Some(f.textHash(f.redact(text))))
    && b.eventType == (if r.eventType == "" then "discord.visible_text.snapshot_observed" else r.eventType)
    && b.previousContentHash == ContentBefore(before)
    && (b.duplicateContent == Some(true) <==> b.contentHash == ContentBefore(before))
    && (b.changed == Some(true) <==> b.contentHash != ContentBefore(before))
    && b.duplicateContent.Some? && b.changed.Some?
    && r.capturedAt == Val(b.capturedAt) && r.observedAt == Val(b.observedAt) && b.ingestedAt == at
    && b.source == r.source && b.url == r.url && b.title == r.title && b.rest == r.rest
    && b.messageId == "" && b.ordinal == None && b.author == None && b.timestamp == None && b.duplicateMessageId == None
    && b.importId == ""
  }

  /** The rows of a target whose ids were not imported, in order. */
  function NewRows(ledger: seq<Row>, rows: seq<LegacyRow>, target: string): seq<LegacyRow> {
    if rows == [] then []
    else
      var r := rows[|rows| - 1];
      var known := exists j :: 0 <= j < |ledger| && r.eventId == Val(ledger[j].body.legacyId);
      NewRows(ledger, rows[..|rows| - 1], target) + if r.targetKey == Val(target) && !known then [r] else []
  }

  /** The stream grows by one event per row, each with exactly these fields. */
  ghost predicate Grows(f: Foreign, at: string, had: seq<Row>, stream: seq<Row>, target: string, rows: seq<LegacyRow>) {
    && |stream| == |had| + |rows| && stream[..|had|] == had
    && forall k :: 0 <= k < |rows| ==> HoldsRow(f, at, stream, |had| + k, target, rows[k])
  }

  /** Row `i` of the stream is the event for the legacy row, built on the rows before it. */
  ghost predicate HoldsRow(f: Foreign, at: string, stream: seq<Row>, i: int, target: string, r: LegacyRow)
    requires 0 <= i < |stream|
  {
    Follows(f.eventHash, stream[..i], target, stream[i]) && Carried(f, at, stream[..i], target, r, stream[i])
  }

  lemma NothingGrows(f: Foreign, at: string, had: seq<Row>, target: string)
    ensures Grows(f, at, had, had, target, [])
  {
  }

  lemma GrowsOn(f: Foreign, at: string, had: seq<Row>, stream: seq<Row>, target: string, rows: seq<LegacyRow>, r: LegacyRow, e: Row)
    requires Grows(f, at, had, stream, target, rows)
    requires Follows(f.eventHash, stream, target, e) && Carried(f, at, stream, target, r, e)
    ensures Grows(f, at, had, stream + [e], target, rows + [r])
  {
    hide Follows, Carried;
    var more := stream + [e];
    assert more[..|had|] == stream[..|had|];
    forall k | 0 <= k <= |rows| ensures HoldsRow(f, at, more, |had| + k, target, (rows + [r])[k]) {
      assert more[..|stream|] == stream;
      if k < |rows| {
        assert HoldsRow(f, at, stream, |had| + k, target, rows[k]);
        assert more[..|had| + k] == stream[..|had| + k];
      }
    }
  }

  lemma LegacyEventIs(f: Foreign, at: string, before: seq<Row>, target: string, r: LegacyRow)
    requires RowIsSound(r)
    ensures Follows(f.eventHash, before, target, LegacyEvent(f, at, before, target, r))
    ensures Carried(f, at, before, target, r, LegacyEvent(f, at, before, target, r))
  {
    hide HashToQuote, Filled;
    SoundHasTarget(r);
    if before != [] { QuotedHash(f.eventHash, before[|before| - 1]); }
    var e := LegacyEvent(f, at, before, target, r);
    assert e.eventHash == f.eventHash(e.(eventHash := ""));
  }

  lemma KnownIs(ledger: seq<Row>, r: LegacyRow)
    requires RowIsSound(r)
    ensures FirstImported(ledger, IdOfRow(r)).Some? <==> exists j :: 0 <= j < |ledger| && r.eventId == Val(ledger[j].body.legacyId)
  {
    hide FirstImported, Filled;
    SoundHasTarget(r);
  }

  /** The events of one target. */
  lemma {:induction false} GroupGrows(f: Foreign, at: string, ledger: seq<Row>, target: string, rows: seq<LegacyRow>)
    requires LegacyEvents(f, at, ledger, target, rows).Ok? && DistinctRows(rows)
    requires forall r :: r in rows ==> RowIsSound(r) && r.targetKey == Val(target)
    ensures Grows(f, at, History(ledger, target), History(ledger, target) + LegacyEvents(f, at, ledger, target, rows).value.events,
                  target, NewRows(ledger, rows, target))
  {
    hide History, LegacyEvent, Grows, FirstImported, Matches, RowIsSound, Follows, Carried;
    var had := History(ledger, target);
    if rows == [] {
      assert had + [] == had;
      NothingGrows(f, at, had, target);
    } else {
      var n := |rows| - 1;
      GroupGrows(f, at, ledger, target, rows[..n]);
      var b := LegacyEvents(f, at, ledger, target, rows[..n]).value;
      assert rows[n] in rows;
      KnownIs(ledger, rows[n]);
      forall r | r in rows ensures TargetOfRow(r) == target { SoundHasTarget(r); }
      StillNew(f, at, ledger, target, rows);
      NewRowsStep(ledger, rows, target);
      if FirstImported(ledger, IdOfRow(rows[n])).None? {
        LegacyEventIs(f, at, had + b.events, target, rows[n]);
        var e := LegacyEvent(f, at, had + b.events, target, rows[n]);
        GrowsOn(f, at, had, had + b.events, target, NewRows(ledger, rows[..n], target), rows[n], e);
        assert had + (b.events + [e]) == (had + b.events) + [e];
      }
    }
  }

  lemma NewRowsStep(ledger: seq<Row>, rows: seq<LegacyRow>, target: string)
    requires rows != [] && rows[|rows| - 1].targetKey == Val(target)
    ensures var r, before := rows[|rows| - 1], NewRows(ledger, rows[..|rows| - 1], target);
            NewRows(ledger, rows, target)
            == if exists j :: 0 <= j < |ledger| && r.eventId == Val(ledger[j].body.legacyId) then before else before + [r]
  {
  }

  /** The earlier rows of the batch do not change whether the last one is known. */
  lemma StillNew(f: Foreign, at: string, ledger: seq<Row>, target: string, rows: seq<LegacyRow>)
    requires rows != [] && DistinctRows(rows) && LegacyEvents(f, at, ledger, target, rows).Ok?
    requires forall r :: r in rows ==> TargetOfRow(r) == target
    ensures var n := |rows| - 1;
            FirstImported(ledger + LegacyEvents(f, at, ledger, target, rows[..n]).value.events, IdOfRow(rows[n])).Some?
            <==> FirstImported(ledger, IdOfRow(rows[n])).Some?
  {
    hide Matches, LegacyEvent, FirstImported, LinkedBlock, History, IdOfRow, TargetOfRow, Accounts, NoConflict;
    var n := |rows| - 1;
    assert rows == rows[..n] + [rows[n]];
    DistinctRest(rows);
    TargetEventsMean(f, at, ledger, target, rows[..n]);
    var events := LegacyEvents(f, at, ledger, target, rows[..n]).value.events;
    NotAmongEvents(f, ledger, rows[..n], events, IdOfRow(rows[n]));
    ImportedAppend(ledger, events, IdOfRow(rows[n]));
  }

  lemma {:induction false} OnlyItsRows(ledger: seq<Row>, rows: seq<LegacyRow>, target: string)
    requires forall r :: r in rows ==> RowIsSound(r)
    ensures NewRows(ledger, rows, target) == NewRows(ledger, RowsOf(rows, target), target)
  {
    hide RowIsSound;
    if rows != [] {
      var n := |rows| - 1;
      assert rows[n] in rows;
      SoundHasTarget(rows[n]);
      OnlyItsRows(ledger, rows[..n], target);
      if TargetOfRow(rows[n]) == target {
        assert RowsOf(rows, target)[..|RowsOf(rows, target)| - 1] == RowsOf(rows[..n], target);
      } else {
        assert RowsOf(rows, target) == RowsOf(rows[..n], target);
      }
    }
  }

  /**
   * An accepted call: every stream grows by one event per row of its target whose id was not
   * imported before, in the order of the rows, field by field; nothing else changes.
   */
  lemma LegacyCallByFields(f: Foreign, at: string, ledger: seq<Row>, rows: seq<LegacyRow>)
    requires CallIsSound(rows) && CallLegacy(f, at, ledger, ledger, rows, true).report.Report?
    ensures var o := CallLegacy(f, at, ledger, ledger, rows, true);
            && ledger <= o.ledger && o.report.appended == |o.ledger| - |ledger| && o.report.appended + o.report.skipped == |rows|
            && forall t :: t != "" ==> Grows(f, at, History(ledger, t), History(o.ledger, t), t, NewRows(ledger, rows, t))
  {
    hide History, Chain, Grows, NewRows, CallIsSound, LegacyBatch, NoConflict, Accounts, FreshIds, CallLegacy, Validated, Registrations;
    ValidatedExact(rows);
    LegacyExact(f, at, ledger, rows);
    var now := CallLegacy(f, at, ledger, ledger, rows, true).ledger;
    forall t | t != "" ensures Grows(f, at, History(ledger, t), History(now, t), t, NewRows(ledger, rows, t)) {
      StreamGrows(f, at, ledger, rows, t);
    }
  }

  lemma StreamGrows(f: Foreign, at: string, ledger: seq<Row>, rows: seq<LegacyRow>, t: string)
    requires CallIsSound(rows) && CallLegacy(f, at, ledger, ledger, rows, true).report.Report?
    ensures Grows(f, at, History(ledger, t), History(CallLegacy(f, at, ledger, ledger, rows, true).ledger, t), t, NewRows(ledger, rows, t))
  {
    hide History, Chain, Grows, RowIsSound, NoConflict, Accounts, FreshIds, CallLegacy, GroupEvents, RowsOf, Targets, Validated;
    hide StreamsAgree, LegacyEvents, Registrations, AppendAll, NewRows, DistinctRows;
    ValidatedExact(rows);
    LegacyExact(f, at, ledger, rows);
    ValidTargets(rows);
    GroupsAreAppended(f, at, ledger, rows, Targets(rows));
    OnlyItsRows(ledger, rows, t);
    RowsOfAre(rows, t);
    if t in Targets(rows) {
      BatchOfTarget(f, at, ledger, rows, t);
    } else {
      NoRowsOf(rows, t);
      NewRowsOfNone(ledger, t);
      NothingGrows(f, at, History(ledger, t), t);
    }
  }

  lemma NewRowsOfNone(ledger: seq<Row>, t: string)
    ensures NewRows(ledger, [], t) == []
  {
  }

  lemma {:induction false} GroupsBuilt(f: Foreign, at: string, ledger: seq<Row>, rows: seq<LegacyRow>, targets: seq<string>, t: string)
    requires GroupEvents(f, at, ledger, rows, targets).Ok? && t in targets
    ensures LegacyEvents(f, at, ledger, t, RowsOf(rows, t)).Ok?
  {
    hide LegacyEvents, RowsOf;
    var n := |targets| - 1;
    if targets[n] != t {
      assert t in targets[..n];
      GroupsBuilt(f, at, ledger, rows, targets[..n], t);
    }
  }

  lemma BatchOfTarget(f: Foreign, at: string, ledger: seq<Row>, rows: seq<LegacyRow>, t: string)
    requires CallIsSound(rows) && DistinctRows(rows) && GroupEvents(f, at, ledger, rows, Targets(rows)).Ok? && t in Targets(rows)
    ensures Grows(f, at, History(ledger, t), History(ledger, t) + EventsFor(f, at, ledger, rows, t), t, NewRows(ledger, RowsOf(rows, t), t))
  {
    hide History, Grows, RowIsSound, GroupEvents, RowsOf, Targets, LegacyEvents, NewRows, DistinctRows;
    GroupsBuilt(f, at, ledger, rows, Targets(rows), t);
    RowsOfAre(rows, t);
    forall r | r in RowsOf(rows, t) ensures RowIsSound(r) && r.targetKey == Val(t) { SoundHasTarget(r); }
    GroupGrows(f, at, ledger, t, RowsOf(rows, t));
  }

  /** Row `i` is the first one of its target. */
  ghost predicate FirstOfTarget(rows: seq<LegacyRow>, i: nat) {
    i < |rows| && forall j :: 0 <= j < i ==> rows[j].targetKey != rows[i].targetKey
  }

  /** What is registered: each target once, under the scheme of its URL hash, with URL and title of its first row. */
  lemma RegistrationsByFields(rows: seq<LegacyRow>)
    requires forall r :: r in rows ==> RowIsSound(r)
    ensures forall e :: e in Registrations(rows) <==>
              exists i: nat :: FirstOfTarget(rows, i) && rows[i].targetKey == Val(e.target)
                               && e.url == rows[i].url && e.title == rows[i].title && e.scheme == UrlHash
    ensures forall i, j :: 0 <= i < j < |Registrations(rows)| ==> Registrations(rows)[i].target != Registrations(rows)[j].target
  {
    hide RowIsSound, RowsOf, Targets;
    forall r | r in rows ensures r.targetKey == Val(TargetOfRow(r)) { SoundHasTarget(r); }
    var all := Registrations(rows);
    forall k | 0 <= k < |all| ensures all[k].target == Targets(rows)[k] {
    }
    forall e | e in all
      ensures exists i: nat :: FirstOfTarget(rows, i) && rows[i].targetKey == Val(e.target)
                               && e.url == rows[i].url && e.title == rows[i].title && e.scheme == UrlHash
    {
      var k :| 0 <= k < |all| && all[k] == e;
      var t := Targets(rows)[k];
      assert t in Targets(rows);
      var i := FirstRowOf(rows, t);
    }
    forall e: Registration, i: nat | FirstOfTarget(rows, i) && rows[i].targetKey == Val(e.target)
                       && e.url == rows[i].url && e.title == rows[i].title && e.scheme == UrlHash
      ensures e in all
    {
      assert rows[i] in rows;
      assert TargetOfRow(rows[i]) in Targets(rows);
      var k :| 0 <= k < |Targets(rows)| && Targets(rows)[k] == e.target;
      var first := FirstRowOf(rows, e.target);
      assert first == i;
      assert all[k] == e;
    }
  }

  lemma {:induction false} FirstRowOf(rows: seq<LegacyRow>, t: string) returns (i: nat)
    requires t in Targets(rows) && forall r :: r in rows ==> r.targetKey == Val(TargetOfRow(r))
    ensures FirstOfTarget(rows, i) && rows[i].targetKey == Val(t) && RowsOf(rows, t) != [] && RowsOf(rows, t)[0] == rows[i]
  {
    hide TargetOfRow;
    var n := |rows| - 1;
    assert rows[n] in rows;
    if t in Targets(rows[..n]) {
      i := FirstRowOf(rows[..n], t);
      assert forall j :: 0 <= j <= i ==> rows[..n][j] == rows[j];
    } else {
      i := n;
      NoRowsOf(rows[..n], t);
      forall j | 0 <= j < n ensures rows[j].targetKey != Val(t) {
        assert rows[j] in rows && rows[..n][j] == rows[j];
      }
    }
  }
}
