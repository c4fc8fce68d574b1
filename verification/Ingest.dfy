/**
 * Message ingest: a batch of messages becomes chained events of one stream
 * (`_build_message_events`), with its sequence numbers, its two previous-hash links and
 * its duplicate flags.
 */
module Ingest {
  import opened Text
  import opened Receipts
  import opened Ledger
  import opened LedgerBlocks
  import opened Registry

  const MAX_MESSAGES := 2_000
  const MAX_BODY_TEXT_CHARS := 1_000_000

  datatype Message = Message(messageId: string, author: string, timestamp: string, body: string, ordinal: Option<int>)

  /** The foreign functions: `canonical_event_hash`, `stable_text_hash`, `redact_sensitive_storage_text`. */
  datatype Foreign = Foreign(eventHash: Hash, textHash: string -> string, redact: string -> string)

  /** What stays fixed over one call. `capturedAt` is the hint of the payload, or the time of the call. */
  datatype Context = Context(target: string, url: string, title: string, source: string, capturedAt: string, ingestedAt: string)

  /** `_require_consistent_identity`: the values given agree. */
  predicate Agree(values: seq<string>) {
    forall i, j :: 0 <= i < |values| && 0 <= j < |values| && !Blank(values[i]) && !Blank(values[j]) ==> Strip(values[i]) == Strip(values[j])
  }

  // ------------------------------------------------- identity and duplicates

  /** A stored row observes the same message: same id, or for messages without id the same place, author and time. */
  predicate SameMessage(row: Row, m: Message) {
    if m.messageId != "" then row.body.messageId == m.messageId
    else row.body.messageId == "" && row.body.ordinal == m.ordinal
         && row.body.author == Some(m.author) && row.body.timestamp == Some(m.timestamp)
  }

  /** Backwards search: the content hash of the last observation of the message. */
  function LastSeen(history: seq<Row>, m: Message): Option<Option<string>> {
    if history == [] then None
    else
      var n := |history| - 1;
      if SameMessage(history[n], m) then Some(history[n].body.contentHash) else LastSeen(history[..n], m)
  }

  function ContentHash(f: Foreign, m: Message): string {
    f.textHash(f.redact(m.body))
  }

  function PreviousContent(history: seq<Row>): Option<string> {
    if history == [] then None
    else
      var last := history[|history| - 1].body.contentHash;
      Some(if last.Some? then last.value else "")
  }

  // ------------------------------------------------- events

  function EventIdText(ctx: Context, contentHash: string, sequence: nat): string {
    ctx.capturedAt + "|" + ctx.target + "|" + contentHash + "|" + ctx.source + "|" + Decimal(sequence)
  }

  /** The event for one message, from the head and the duplicate flags. */
  function EventFor(f: Foreign, ctx: Context, head: Head, previous: Option<string>, duplicateId: bool, duplicateContent: bool, m: Message): Row {
    var contentHash := ContentHash(f, m);
    var sequence := head.sequence + 1;
    var body := Body("message_observation", Some(contentHash), previous, m.messageId, m.ordinal, Some(m.author), Some(m.timestamp),
                     Some(duplicateId), Some(duplicateContent), Some(!duplicateContent),
                     ctx.capturedAt, ctx.capturedAt, ctx.ingestedAt, ctx.source, ctx.url, ctx.title, Some(f.redact(m.body)), "", "", "");
    var row := Row(true, OBSERVATION, f.textHash(EventIdText(ctx, contentHash, sequence)), Some(ctx.target), ctx.target,
                   Val(sequence), Val(sequence - 1), head.hash, "", body);
    row.(eventHash := f.eventHash(row))
  }

  /** The event for a message observed after `history`. */
  function NextEvent(f: Foreign, ctx: Context, history: seq<Row>, m: Message): Row {
    EventFor(f, ctx, HistoryHead(f.eventHash, history), PreviousContent(history),
             m.messageId != "" && LastSeen(history, m).Some?, LastSeen(history, m) == Some(Some(ContentHash(f, m))), m)
  }

  /** The events for a batch: each is built on the whole history and the earlier events of the batch. */
  function MessageEvents(f: Foreign, ctx: Context, history: seq<Row>, messages: seq<Message>): (r: seq<Row>)
    ensures |r| == |messages|
  {
    if messages == [] then []
    else
      var n := |messages| - 1;
      var done := MessageEvents(f, ctx, history, messages[..n]);
      done + [NextEvent(f, ctx, history + done, messages[n])]
  }

  // ------------------------------------------------- the program

  type Identity = (Option<int>, Option<string>, Option<string>)

  function IdentityOf(m: Message): Identity {
    (m.ordinal, Some(m.author), Some(m.timestamp))
  }

  /** The two dictionaries answer every question a backwards search would. */
  ghost predicate SeenAre(history: seq<Row>, byId: map<string, Option<string>>, byIdentity: map<Identity, Option<string>>) {
    forall m: Message ::
      LastSeen(history, m) == if m.messageId != "" then (if m.messageId in byId then Some(byId[m.messageId]) else None)
                              else (if IdentityOf(m) in byIdentity then Some(byIdentity[IdentityOf(m)]) else None)
  }

  lemma SeenGrows(history: seq<Row>, row: Row, byId: map<string, Option<string>>, byIdentity: map<Identity, Option<string>>)
    requires SeenAre(history, byId, byIdentity)
    ensures var b := row.body;
            SeenAre(history + [row],
                    if b.messageId != "" then byId[b.messageId := b.contentHash] else byId,
                    if b.messageId != "" then byIdentity else byIdentity[(b.ordinal, b.author, b.timestamp) := b.contentHash])
  {
    assert (history + [row])[..|history|] == history;
  }

  lemma NothingSeen()
    ensures SeenAre([], map[], map[])
  {
  }

  method FillSeen(history: seq<Row>) returns (byId: map<string, Option<string>>, byIdentity: map<Identity, Option<string>>)
    ensures SeenAre(history, byId, byIdentity)
  {
    hide SeenAre;
    byId, byIdentity := map[], map[];
    assert history[..0] == [];
    NothingSeen();
    for i := 0 to |history|
      invariant SeenAre(history[..i], byId, byIdentity)
    {
      var b := history[i].body;
      assert history[..i + 1] == history[..i] + [history[i]];
      SeenGrows(history[..i], history[i], byId, byIdentity);
      if b.messageId != "" {
        byId := byId[b.messageId := b.contentHash];
      } else {
        byIdentity := byIdentity[(b.ordinal, b.author, b.timestamp) := b.contentHash];
      }
    }
    assert history[..|history|] == history;
  }

  /** What a valid or invalid ledger and a batch must yield. */
  function Built(f: Foreign, ctx: Context, records: seq<Row>, messages: seq<Message>): Result<seq<Row>, LedgerError> {
    match Chain(f.eventHash, records)
    case Err(e) => Err(e)
    case Ok(_) => Ok(MessageEvents(f, ctx, History(records, ctx.target), messages))
  }

  /** The two duplicate flags, looked up in the dictionaries. */
  method LookUpDuplicates(ghost history: seq<Row>, byId: map<string, Option<string>>, byIdentity: map<Identity, Option<string>>,
                          m: Message, contentHash: string)
    returns (duplicateId: bool, duplicateContent: bool)
    requires SeenAre(history, byId, byIdentity)
    ensures duplicateId == (m.messageId != "" && LastSeen(history, m).Some?)
    ensures duplicateContent == (LastSeen(history, m) == Some(Some(contentHash)))
  {
    hide SeenAre, LastSeen;
    SeenAnswers(history, byId, byIdentity, m);
    if m.messageId != "" {
      duplicateId := m.messageId in byId;
      duplicateContent := duplicateId && byId[m.messageId] == Some(contentHash);
    } else {
      duplicateId := false;
      duplicateContent := IdentityOf(m) in byIdentity && byIdentity[IdentityOf(m)] == Some(contentHash);
    }
  }

  /** Enters one new event into the dictionaries. */
  method Remember(ghost history: seq<Row>, ghost event: Row, byId: map<string, Option<string>>, byIdentity: map<Identity, Option<string>>,
                  m: Message, contentHash: string)
    returns (byId': map<string, Option<string>>, byIdentity': map<Identity, Option<string>>)
    requires SeenAre(history, byId, byIdentity)
    requires event.body.contentHash == Some(contentHash) && event.body.messageId == m.messageId
    requires (event.body.ordinal, event.body.author, event.body.timestamp) == IdentityOf(m)
    ensures SeenAre(history + [event], byId', byIdentity')
  {
    hide SeenAre;
    SeenGrows(history, event, byId, byIdentity);
    byId', byIdentity' := byId, byIdentity;
    if m.messageId != "" {
      byId' := byId[m.messageId := Some(contentHash)];
    } else {
      byIdentity' := byIdentity[IdentityOf(m) := Some(contentHash)];
    }
  }

  lemma HeadAfter(h: Hash, history: seq<Row>, event: Row)
    ensures HistoryHead(h, history + [event]) == Head(|history| + 1, DurableHash(h, event))
    ensures HistoryHead(h, history).sequence == |history|
    ensures event.body.contentHash.Some? ==> PreviousContent(history + [event]) == event.body.contentHash
  {
  }

  /** `_build_message_events`. */
  method BuildMessageEvents(f: Foreign, ctx: Context, records: seq<Row>, messages: seq<Message>)
    returns (r: Result<seq<Row>, LedgerError>)
    requires ctx.target != ""
    ensures r == Built(f, ctx, records, messages)
  {
    hide SeenAre, Chain, History, LastSeen, EventFor, ContentHash, HistoryHead, PreviousContent, DurableHash, EventHash, HeadOf;
    var existing := History(records, ctx.target);
    var seenIds, seenIdentities := FillSeen(existing);
    var heads := ValidateTextSnapshotChain(f.eventHash, records);
    if heads.Err? { return Err(heads.error); }
    StreamsAreConsecutive(f.eventHash, records, ctx.target);
    var head := HeadOf(heads.value, ctx.target);
    var previousContent := PreviousContent(existing);
    var newEvents: seq<Row> := [];
    assert messages[..0] == [] && existing + newEvents == existing;
    for i := 0 to |messages|
      invariant newEvents == MessageEvents(f, ctx, existing, messages[..i])
      invariant head == HistoryHead(f.eventHash, existing + newEvents)
      invariant previousContent == PreviousContent(existing + newEvents)
      invariant SeenAre(existing + newEvents, seenIds, seenIdentities)
    {
      var m := messages[i];
      ghost var history := existing + newEvents;
      var contentHash := ContentHash(f, m);
      var duplicateId, duplicateContent := LookUpDuplicates(history, seenIds, seenIdentities, m, contentHash);
      var event := EventFor(f, ctx, head, previousContent, duplicateId, duplicateContent, m);
      EventFacts(f, ctx, head, previousContent, duplicateId, duplicateContent, m);
      HeadAfter(f.eventHash, history, event);
      assert messages[..i + 1][..i] == messages[..i];
      assert existing + (newEvents + [event]) == history + [event];
      seenIds, seenIdentities := Remember(history, event, seenIds, seenIdentities, m, contentHash);
      newEvents := newEvents + [event];
      head := Head(head.sequence + 1, event.eventHash);
      previousContent := Some(contentHash);
    }
    assert messages[..|messages|] == messages;
    return Ok(newEvents);
  }

  lemma SeenAnswers(history: seq<Row>, byId: map<string, Option<string>>, byIdentity: map<Identity, Option<string>>, m: Message)
    requires SeenAre(history, byId, byIdentity)
    ensures LastSeen(history, m) == if m.messageId != "" then (if m.messageId in byId then Some(byId[m.messageId]) else None)
                                    else (if IdentityOf(m) in byIdentity then Some(byIdentity[IdentityOf(m)]) else None)
  {
    hide LastSeen, IdentityOf;
  }

  /** What the rest of the program needs to know of an event. */
  lemma EventFacts(f: Foreign, ctx: Context, head: Head, previous: Option<string>, duplicateId: bool, duplicateContent: bool, m: Message)
    ensures var e := EventFor(f, ctx, head, previous, duplicateId, duplicateContent, m);
            && e.chained && StreamOf(e) == ctx.target && e.streamId == Some(ctx.target) && e.targetKey == ctx.target && e.schema == OBSERVATION
            && e.sequence == Val(head.sequence + 1) && e.expectedPrevious == Val(head.sequence) && e.previousEventHash == head.hash
            && e.eventHash == EventHash(f.eventHash, e) == DurableHash(f.eventHash, e)
            && e.eventId == f.textHash(EventIdText(ctx, ContentHash(f, m), head.sequence + 1))
            && e.body.contentHash == Some(ContentHash(f, m)) && e.body.messageId == m.messageId
            && (e.body.ordinal, e.body.author, e.body.timestamp) == IdentityOf(m)
            && e.body.duplicateMessageId == Some(duplicateId) && e.body.duplicateContent == Some(duplicateContent)
            && e.body.changed == Some(!duplicateContent) && e.body.previousContentHash == previous
  {
    hide EventIdText;
    var e := EventFor(f, ctx, head, previous, duplicateId, duplicateContent, m);
    var blank := e.(eventHash := "");
    assert e.eventHash == f.eventHash(blank);
  }

  // ------------------------------------------------- batches compose

  /** Building two batches at once is building the second on top of the first. */
  lemma {:induction false} EventsConcat(f: Foreign, ctx: Context, history: seq<Row>, a: seq<Message>, b: seq<Message>)
    ensures MessageEvents(f, ctx, history, a + b)
            == MessageEvents(f, ctx, history, a) + MessageEvents(f, ctx, history + MessageEvents(f, ctx, history, a), b)
  {
    hide NextEvent;
    var first := MessageEvents(f, ctx, history, a);
    if b == [] {
      assert a + b == a;
      assert first + [] == first;
    } else {
      var n := |b| - 1;
      EventsConcat(f, ctx, history, a, b[..n]);
      assert (a + b)[..|a + b| - 1] == a + b[..n];
      var second := MessageEvents(f, ctx, history + first, b[..n]);
      assert history + (first + second) == (history + first) + second;
    }
  }

  /** The ledger after ingesting a batch. */
  function Ingested(f: Foreign, ctx: Context, rows: seq<Row>, messages: seq<Message>): Result<seq<Row>, LedgerError> {
    AppendAll(f.eventHash, rows, MessageEvents(f, ctx, History(rows, ctx.target), messages))
  }

  /** Each event of a batch links to the history and the events before it. */
  lemma {:induction false} EventsAreLinked(f: Foreign, ctx: Context, history: seq<Row>, messages: seq<Message>)
    ensures LinkedBlock(f.eventHash, history, ctx.target, MessageEvents(f, ctx, history, messages))
  {
    hide NextEvent, LinkedTo, LinkedBlock;
    if messages == [] {
      NothingLinked(f.eventHash, history, ctx.target);
    } else {
      var n := |messages| - 1;
      EventsAreLinked(f, ctx, history, messages[..n]);
      var done := MessageEvents(f, ctx, history, messages[..n]);
      NextEventLinked(f, ctx, history + done, messages[n]);
      LinkedGrows(f.eventHash, history, ctx.target, done, NextEvent(f, ctx, history + done, messages[n]));
    }
  }

  lemma NextEventLinked(f: Foreign, ctx: Context, history: seq<Row>, m: Message)
    ensures LinkedTo(f.eventHash, history, ctx.target, NextEvent(f, ctx, history, m))
  {
    hide EventFor, LastSeen, ContentHash, PreviousContent, StreamOf, EventHash, DurableHash;
    EventFacts(f, ctx, HistoryHead(f.eventHash, history), PreviousContent(history),
               m.messageId != "" && LastSeen(history, m).Some?, LastSeen(history, m) == Some(Some(ContentHash(f, m))), m);
  }

  /** What an accepted ingest leaves: all events of the batch, in order, behind the old ledger. */
  lemma IngestAppendsAll(f: Foreign, ctx: Context, rows: seq<Row>, messages: seq<Message>)
    requires Ingested(f, ctx, rows, messages).Ok? && ctx.target != ""
    ensures var now := Ingested(f, ctx, rows, messages).value;
            var events := MessageEvents(f, ctx, History(rows, ctx.target), messages);
            && Chain(f.eventHash, rows).Ok? && Chain(f.eventHash, now).Ok?
            && now == rows + events && History(now, ctx.target) == History(rows, ctx.target) + events
            && forall s :: s != ctx.target ==> History(now, s) == History(rows, s)
  {
    hide Chain, AppendAll, MessageEvents, History, LinkedBlock, FreshIds;
    var events := MessageEvents(f, ctx, History(rows, ctx.target), messages);
    TransactionKeepsChain(f.eventHash, rows, events);
    EventsAreLinked(f, ctx, History(rows, ctx.target), messages);
    BlockIsAppended(f.eventHash, rows, ctx.target, events);
  }

  /** Ingest succeeds exactly on a valid ledger and with new event ids. */
  lemma IngestSucceeds(f: Foreign, ctx: Context, rows: seq<Row>, messages: seq<Message>)
    requires ctx.target != ""
    ensures Ingested(f, ctx, rows, messages).Ok? <==>
              Chain(f.eventHash, rows).Ok? && FreshIds(rows, MessageEvents(f, ctx, History(rows, ctx.target), messages))
  {
    hide Chain, AppendAll, MessageEvents, History, LinkedBlock, FreshIds;
    EventsAreLinked(f, ctx, History(rows, ctx.target), messages);
    if Chain(f.eventHash, rows).Ok? {
      BlockIsAppended(f.eventHash, rows, ctx.target, MessageEvents(f, ctx, History(rows, ctx.target), messages));
    }
    if Ingested(f, ctx, rows, messages).Ok? {
      TransactionKeepsChain(f.eventHash, rows, MessageEvents(f, ctx, History(rows, ctx.target), messages));
    }
  }

  /** Ingest is a homomorphism: two batches at once, or the second on the ledger the first one leaves. */
  lemma IngestHomomorphism(f: Foreign, ctx: Context, rows: seq<Row>, a: seq<Message>, b: seq<Message>)
    requires ctx.target != ""
    ensures Ingested(f, ctx, rows, a + b)
            == match Ingested(f, ctx, rows, a) case Err(e) => Err(e) case Ok(now) => Ingested(f, ctx, now, b)
  {
    hide AppendAll, MessageEvents, History;
    var history := History(rows, ctx.target);
    EventsConcat(f, ctx, history, a, b);
    var first := MessageEvents(f, ctx, history, a);
    AppendConcat(f.eventHash, rows, first, MessageEvents(f, ctx, history + first, b));
    if Ingested(f, ctx, rows, a).Ok? { IngestAppendsAll(f, ctx, rows, a); }
  }

  // ------------------------------------------------- the call

  function Duplicates(events: seq<Row>): nat {
    if events == [] then 0
    else Duplicates(events[..|events| - 1]) + if events[|events| - 1].body.duplicateContent == Some(true) then 1 else 0
  }

  method CountDuplicates(events: seq<Row>) returns (n: nat)
    ensures n == Duplicates(events)
  {
    n := 0;
    assert events[..0] == [];
    for i := 0 to |events|
      invariant n == Duplicates(events[..i])
    {
      assert events[..i + 1][..i] == events[..i];
      if events[i].body.duplicateContent == Some(true) { n := n + 1; }
    }
    assert events[..|events|] == events;
  }

  datatype IngestReport = IngestReport(appended: nat, pending: nat, duplicates: nat)

  function MessageBuild(f: Foreign, ctx: Context, messages: seq<Message>): seq<Row> -> Result<seq<Row>, LedgerError> {
    (records: seq<Row>) => Built(f, ctx, records, messages)
  }

  /** The transaction of a batch leaves what `Ingested` says, and its candidates are the events of the batch. */
  lemma TransactionIngests(f: Foreign, ctx: Context, rows: seq<Row>, messages: seq<Message>)
    ensures Transaction(f.eventHash, rows, MessageBuild(f, ctx, messages)).Ok? <==> Ingested(f, ctx, rows, messages).Ok?
    ensures Ingested(f, ctx, rows, messages).Ok? ==>
              && Transaction(f.eventHash, rows, MessageBuild(f, ctx, messages)) == Ingested(f, ctx, rows, messages)
              && MessageBuild(f, ctx, messages)(rows) == Ok(MessageEvents(f, ctx, History(rows, ctx.target), messages))
  {
    hide AppendAll, MessageEvents, History, Chain;
    if Ingested(f, ctx, rows, messages).Ok? {
      TransactionKeepsChain(f.eventHash, rows, MessageEvents(f, ctx, History(rows, ctx.target), messages));
    }
  }

  /**
   * `ingest_capture` once the batch is read: a dry run writes nothing and counts what it would
   * write; otherwise the target is registered first, and then all events of the batch are
   * appended, or none. The registration stays when the append is refused.
   */
  method IngestCapture(f: Foreign, ctx: Context, scheme: KeyScheme, store: SnapshotStore, registry: TargetRegistry,
                       messages: seq<Message>, apply: bool)
    returns (r: Result<IngestReport, LedgerError>)
    requires ctx.target != ""
    modifies store, registry
    ensures registry.entries == if apply then Registered(old(registry.entries), Registration(ctx.target, scheme, ctx.url, ctx.title))
                                else old(registry.entries)
    ensures store.rows == if apply && Ingested(f, ctx, old(store.rows), messages).Ok? then Ingested(f, ctx, old(store.rows), messages).value
                          else old(store.rows)
    ensures apply ==> (r.Ok? <==> Ingested(f, ctx, old(store.rows), messages).Ok?)
    ensures !apply ==> (r.Ok? <==> Chain(f.eventHash, old(store.rows)).Ok?)
    ensures r.Ok? ==> r.value == IngestReport(if apply then |messages| else 0, if apply then 0 else |messages|,
                                              Duplicates(MessageEvents(f, ctx, History(old(store.rows), ctx.target), messages)))
  {
    hide Chain, History, MessageEvents, Duplicates, Ingested, Transaction, Registered;
    if !apply {
      var pending := BuildMessageEvents(f, ctx, store.rows, messages);
      if pending.Err? { return Err(pending.error); }
      var count := CountDuplicates(pending.value);
      return Ok(IngestReport(0, |pending.value|, count));
    }
    ghost var before := store.rows;
    registry.Register(Registration(ctx.target, scheme, ctx.url, ctx.title));
    assert store.rows == before;
    TransactionIngests(f, ctx, before, messages);
    var appended := store.Append(f.eventHash, MessageBuild(f, ctx, messages));
    if appended.Err? { return Err(appended.error); }
    IngestAppendsAll(f, ctx, before, messages);
    var count := CountDuplicates(appended.value.1);
    return Ok(IngestReport(appended.value.0, 0, count));
  }

  // ------------------------------------------------- what the flags say

  /** Observation `j` is the last one of the message in `history`. */
  ghost predicate LastObservation(history: seq<Row>, m: Message, j: nat) {
    j < |history| && SameMessage(history[j], m) && forall i :: j < i < |history| ==> !SameMessage(history[i], m)
  }

  lemma {:induction false} LastSeenExact(history: seq<Row>, m: Message)
    ensures LastSeen(history, m).None? <==> forall j :: 0 <= j < |history| ==> !SameMessage(history[j], m)
    ensures forall j: nat :: LastObservation(history, m, j) ==> LastSeen(history, m) == Some(history[j].body.contentHash)
    ensures LastSeen(history, m).Some? ==> exists j: nat :: LastObservation(history, m, j)
  {
    hide SameMessage;
    if history != [] {
      var n := |history| - 1;
      LastSeenExact(history[..n], m);
      if SameMessage(history[n], m) {
        assert LastObservation(history, m, n);
      } else {
        forall j: nat ensures LastObservation(history, m, j) <==> LastObservation(history[..n], m, j) {
        }
        if LastSeen(history, m).Some? {
          var j: nat :| LastObservation(history[..n], m, j);
          assert LastObservation(history, m, j);
        }
      }
    }
  }

  /**
   * The flags of event `k`, against all that was observed before it: the target's whole
   * history and the earlier part of the batch.
   */
  lemma FlagsExact(f: Foreign, ctx: Context, history: seq<Row>, messages: seq<Message>, k: nat)
    requires k < |messages|
    ensures var events := MessageEvents(f, ctx, history, messages);
            var before := history + events[..k];
            var m, flags := messages[k], events[k].body;
            && (flags.duplicateMessageId == Some(true) <==>
                  m.messageId != "" && exists j :: 0 <= j < |before| && before[j].body.messageId == m.messageId)
            && (flags.duplicateContent == Some(true) <==>
                  exists j: nat :: LastObservation(before, m, j) && before[j].body.contentHash == Some(ContentHash(f, m)))
            && flags.changed == Some(flags.duplicateContent != Some(true))
  {
    hide LastSeen, NextEvent, LastObservation;
    EventAt(f, ctx, history, messages, k);
    var events := MessageEvents(f, ctx, history, messages);
    var before := history + events[..k];
    LastSeenExact(before, messages[k]);
    FlagsOfNext(f, ctx, before, messages[k]);
  }

  lemma FlagsOfNext(f: Foreign, ctx: Context, history: seq<Row>, m: Message)
    ensures var flags := NextEvent(f, ctx, history, m).body;
            && flags.duplicateMessageId == Some(m.messageId != "" && LastSeen(history, m).Some?)
            && flags.duplicateContent == Some(LastSeen(history, m) == Some(Some(ContentHash(f, m))))
            && flags.changed == Some(LastSeen(history, m) != Some(Some(ContentHash(f, m))))
  {
    hide LastSeen, ContentHash, HistoryHead, PreviousContent;
  }

  lemma {:induction false} EventAt(f: Foreign, ctx: Context, history: seq<Row>, messages: seq<Message>, k: nat)
    requires k < |messages|
    ensures var events := MessageEvents(f, ctx, history, messages);
            events[k] == NextEvent(f, ctx, history + events[..k], messages[k])
  {
    hide NextEvent;
    var n := |messages| - 1;
    var events, done := MessageEvents(f, ctx, history, messages), MessageEvents(f, ctx, history, messages[..n]);
    if k < n {
      EventAt(f, ctx, history, messages[..n], k);
      assert events[..k] == done[..k];
    } else {
      assert events[..k] == done;
    }
  }

  /** The rows of the stream up to event `k` of a batch. */
  function StreamBefore(f: Foreign, ctx: Context, history: seq<Row>, messages: seq<Message>, k: nat): seq<Row>
    requires k <= |messages|
  {
    history + MessageEvents(f, ctx, history, messages)[..k]
  }

  /** Both links of event `k` point at the row before it in its stream, and it carries message `k`, redacted. */
  lemma {:induction false} LinksExact(f: Foreign, ctx: Context, history: seq<Row>, messages: seq<Message>, k: nat)
    requires k < |messages|
    ensures var before, e, m := StreamBefore(f, ctx, history, messages, k), MessageEvents(f, ctx, history, messages)[k], messages[k];
            && e.sequence == Val(|before| + 1) && e.expectedPrevious == Val(|before|)
            && e.previousEventHash == (if before == [] then "" else DurableHash(f.eventHash, before[|before| - 1]))
            && e.body.previousContentHash == PreviousContent(before)
            && e.eventHash == EventHash(f.eventHash, e)
            && e.body.text == Some(f.redact(m.body)) && e.body.contentHash == Some(f.textHash(f.redact(m.body)))
            && e.body.messageId == m.messageId && e.body.ordinal == m.ordinal
            && e.body.author == Some(m.author) && e.body.timestamp == Some(m.timestamp)
  {
    hide MessageEvents, LastSeen, PreviousContent, DurableHash;
    EventAt(f, ctx, history, messages, k);
    var before := StreamBefore(f, ctx, history, messages, k);
    var e := NextEvent(f, ctx, before, messages[k]);
    assert e.eventHash == f.eventHash(e.(eventHash := ""));
  }

  /** An edit is flagged as changed, and going back to the older text is flagged as changed again. */
  lemma EditsAndRevertsAreChanged(f: Foreign, ctx: Context, history: seq<Row>, m: Message, edited: string)
    requires f.textHash(f.redact(edited)) != ContentHash(f, m)
    ensures var events := MessageEvents(f, ctx, history, [m, m, m.(body := edited), m]);
            && events[1].body.changed == Some(false)
            && events[2].body.changed == Some(true)
            && events[3].body.changed == Some(true)
  {
    hide MessageEvents, NextEvent, LastSeen;
    var batch := [m, m, m.(body := edited), m];
    var events := MessageEvents(f, ctx, history, batch);
    ChangedAfter(f, ctx, history, batch, 1);
    ChangedAfter(f, ctx, history, batch, 2);
    ChangedAfter(f, ctx, history, batch, 3);
  }

  /** Right behind an observation of the same message, `changed` says that the content differs. */
  lemma ChangedAfter(f: Foreign, ctx: Context, history: seq<Row>, messages: seq<Message>, k: nat)
    requires 0 < k < |messages|
    requires var a, b := messages[k - 1], messages[k];
             a.messageId == b.messageId && (a.messageId == "" ==> IdentityOf(a) == IdentityOf(b))
    ensures MessageEvents(f, ctx, history, messages)[k].body.changed == Some(ContentHash(f, messages[k]) != ContentHash(f, messages[k - 1]))
  {
    hide LastSeen, NextEvent, MessageEvents, ContentHash;
    EventAt(f, ctx, history, messages, k - 1);
    EventAt(f, ctx, history, messages, k);
    var events := MessageEvents(f, ctx, history, messages);
    var before := history + events[..k];
    assert before[|before| - 1] == events[k - 1];
    SeenJustNow(f, ctx, history + events[..k - 1], messages[k - 1]);
    SeenLast(before, messages[k]);
    FlagsOfNext(f, ctx, before, messages[k]);
  }

  lemma SeenLast(history: seq<Row>, m: Message)
    requires history != [] && SameMessage(history[|history| - 1], m)
    ensures LastSeen(history, m) == Some(history[|history| - 1].body.contentHash)
  {
  }

  lemma SeenJustNow(f: Foreign, ctx: Context, history: seq<Row>, m: Message)
    ensures var b := NextEvent(f, ctx, history, m).body;
            && b.contentHash == Some(ContentHash(f, m)) && b.messageId == m.messageId
            && (b.ordinal, b.author, b.timestamp) == IdentityOf(m)
  {
    hide ContentHash, HistoryHead, PreviousContent, LastSeen;
  }
}
