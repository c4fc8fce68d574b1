/**
 * Event ids on the texts that are hashed into them. The parts of such a text are joined with
 * `|` and not framed, so two different events can have one text; with a hash that does not
 * collide, an ingest is refused for its ids exactly when that happens.
 */
module EventIds {
  import opened Text
  import opened Framing
  import opened Receipts
  import opened Ledger
  import opened LedgerBlocks
  import opened Ingest
  import opened LegacyIngest
  import opened LegacyRuns
  import opened LegacyCalls

  /** `stable_text_hash` yields 16 characters. */
  ghost predicate Sixteen(textHash: string -> string) {
    forall t :: |textHash(t)| == 16
  }

  /** For every row a text that its event id is the hash of; `None` for an id that is no such hash. */
  ghost predicate IdsFrom(textHash: string -> string, rows: seq<Row>, origins: seq<Option<string>>) {
    && |origins| == |rows|
    && forall i :: 0 <= i < |rows| ==>
         if origins[i].Some? then rows[i].eventId == textHash(origins[i].value) else forall t :: rows[i].eventId != textHash(t)
  }

  /** Every ledger has such texts. */
  lemma {:induction false} OriginsExist(textHash: string -> string, rows: seq<Row>) returns (origins: seq<Option<string>>)
    ensures IdsFrom(textHash, rows, origins)
  {
    origins := [];
    if rows != [] {
      var n := |rows| - 1;
      origins := OriginsExist(textHash, rows[..n]);
      if t :| rows[n].eventId == textHash(t) { origins := origins + [Some(t)]; } else { origins := origins + [None]; }
    }
  }

  ghost function KnownTexts(origins: seq<Option<string>>): set<string> {
    set i | 0 <= i < |origins| && origins[i].Some? :: origins[i].value
  }

  /** Nothing the ledger or the batch hashes collides. */
  ghost predicate NoCollision(textHash: string -> string, origins: seq<Option<string>>, texts: seq<string>) {
    Sixteen(textHash) && CollisionFree(textHash, KnownTexts(origins) + Elements(texts))
  }

  /** The ids of a block are hashes of `texts`. */
  ghost predicate Hashed(textHash: string -> string, events: seq<Row>, texts: seq<string>) {
    |texts| == |events| && forall k :: 0 <= k < |events| ==> events[k].eventId == textHash(texts[k])
  }

  /** No text stands behind an id of the ledger. */
  predicate Unused(origins: seq<Option<string>>, texts: seq<string>) {
    forall t :: t in texts ==> Some(t) !in origins
  }

  lemma {:induction false} FirstWithIs(rows: seq<Row>, id: string)
    ensures FirstWith(rows, id).None? <==> forall i :: 0 <= i < |rows| ==> rows[i].eventId != id
  {
  }

  /** The id of a text is in the ledger exactly when the text is. */
  lemma IdIsKnown(textHash: string -> string, rows: seq<Row>, origins: seq<Option<string>>, texts: seq<string>, t: string)
    requires IdsFrom(textHash, rows, origins) && NoCollision(textHash, origins, texts) && t in texts
    ensures (exists i :: 0 <= i < |rows| && rows[i].eventId == textHash(t)) <==> Some(t) in origins
  {
    if i :| 0 <= i < |rows| && rows[i].eventId == textHash(t) {
      assert origins[i].Some? && origins[i].value in KnownTexts(origins) && t in Elements(texts);
      assert origins[i] == Some(t);
    }
    if Some(t) in origins {
      var i :| 0 <= i < |origins| && origins[i] == Some(t);
      assert rows[i].eventId == textHash(t);
    }
  }

  /** The ids of a block are new exactly when its texts differ and stand behind no id of the ledger. */
  lemma FreshOnTexts(textHash: string -> string, rows: seq<Row>, origins: seq<Option<string>>, events: seq<Row>, texts: seq<string>)
    requires IdsFrom(textHash, rows, origins) && Hashed(textHash, events, texts) && NoCollision(textHash, origins, texts)
    ensures FreshIds(rows, events) <==> Distinct(texts) && Unused(origins, texts)
  {
    hide FirstWith, IdsFrom, NoCollision;
    forall k: nat | k < |events|
      ensures events[k].eventId != "" && texts[k] in texts
      ensures FirstWith(rows + events[..k], events[k].eventId).None? <==>
                Some(texts[k]) !in origins && forall j :: 0 <= j < k ==> texts[j] != texts[k]
    {
      FreshAt(textHash, rows, origins, events, texts, k);
    }
    if FreshIds(rows, events) {
      forall t | t in texts ensures Some(t) !in origins {
        var k: nat :| k < |texts| && texts[k] == t;
        assert FirstWith(rows + events[..k], events[k].eventId).None?;
      }
      forall j, k: nat | 0 <= j < k < |texts| ensures texts[j] != texts[k] {
        assert FirstWith(rows + events[..k], events[k].eventId).None?;
      }
    }
  }

  lemma FreshAt(textHash: string -> string, rows: seq<Row>, origins: seq<Option<string>>, events: seq<Row>, texts: seq<string>, k: nat)
    requires IdsFrom(textHash, rows, origins) && Hashed(textHash, events, texts) && NoCollision(textHash, origins, texts)
    requires k < |events|
    ensures events[k].eventId != "" && texts[k] in texts
    ensures FirstWith(rows + events[..k], events[k].eventId).None? <==>
              Some(texts[k]) !in origins && forall j :: 0 <= j < k ==> texts[j] != texts[k]
  {
    hide FirstWith, IdsFrom, KnownTexts;
    var id, before := events[k].eventId, rows + events[..k];
    assert |textHash(texts[k])| == 16;
    IdIsKnown(textHash, rows, origins, texts, texts[k]);
    FirstWithIs(before, id);
    assert forall i :: 0 <= i < |rows| ==> before[i] == rows[i];
    assert forall j :: 0 <= j < k ==> before[|rows| + j] == events[j];
    forall j | 0 <= j < k ensures events[j].eventId == id <==> texts[j] == texts[k] {
      assert texts[j] in Elements(texts) && texts[k] in Elements(texts);
    }
  }

  // ------------------------------------------------- message events

  /** The texts behind the ids of a batch. */
  function BatchTexts(f: Foreign, ctx: Context, past: nat, messages: seq<Message>): (r: seq<string>)
    ensures |r| == |messages|
  {
    seq(|messages|, k requires 0 <= k < |messages| => EventIdText(ctx, ContentHash(f, messages[k]), past + k + 1))
  }

  lemma BatchIsHashed(f: Foreign, ctx: Context, history: seq<Row>, messages: seq<Message>)
    ensures Hashed(f.textHash, MessageEvents(f, ctx, history, messages), BatchTexts(f, ctx, |history|, messages))
  {
    hide MessageEvents, NextEvent, EventIdText, ContentHash;
    var events := MessageEvents(f, ctx, history, messages);
    forall k | 0 <= k < |events| ensures events[k].eventId == f.textHash(BatchTexts(f, ctx, |history|, messages)[k]) {
      EventAt(f, ctx, history, messages, k);
      NextEventId(f, ctx, history + events[..k], messages[k]);
    }
  }

  lemma NextEventId(f: Foreign, ctx: Context, before: seq<Row>, m: Message)
    ensures NextEvent(f, ctx, before, m).eventId == f.textHash(EventIdText(ctx, ContentHash(f, m), |before| + 1))
  {
    hide EventIdText, ContentHash, LastSeen, PreviousContent;
  }

  lemma DecimalInjective(a: nat, b: nat)
    requires Decimal(a) == Decimal(b)
    ensures a == b
  {
    ParseOfDecimal(a);
    ParseOfDecimal(b);
  }

  /** What stands behind the last bar. */
  function LastPart(s: string): string {
    if s == "" || s[|s| - 1] == '|' then "" else LastPart(s[..|s| - 1]) + [s[|s| - 1]]
  }

  lemma {:induction false} LastPartOf(front: string, last: string)
    requires forall i :: 0 <= i < |last| ==> last[i] != '|'
    ensures LastPart(front + "|" + last) == last
  {
    var s := front + "|" + last;
    if last != "" {
      assert s[..|s| - 1] == front + "|" + last[..|last| - 1];
      LastPartOf(front, last[..|last| - 1]);
    }
  }

  /** The number behind the last bar can be read back. */
  lemma NumberedTexts(x: string, y: string, a: nat, b: nat)
    ensures x + "|" + Decimal(a) == y + "|" + Decimal(b) <==> x == y && a == b
  {
    hide Decimal, LastPart;
    var s, t := x + "|" + Decimal(a), y + "|" + Decimal(b);
    if s == t {
      LastPartOf(x, Decimal(a));
      LastPartOf(y, Decimal(b));
      DecimalInjective(a, b);
      assert x == s[..|x|] && y == t[..|y|];
    }
  }

  /** Two texts of message events are one exactly when the numbers agree and what stands in front of them does. */
  lemma EventTexts(ctx: Context, other: Context, hash: string, otherHash: string, a: nat, b: nat)
    ensures EventIdText(ctx, hash, a) == EventIdText(other, otherHash, b) <==>
              a == b && ctx.capturedAt + "|" + ctx.target + "|" + hash + "|" + ctx.source
                        == other.capturedAt + "|" + other.target + "|" + otherHash + "|" + other.source
  {
    hide Decimal;
    NumberedTexts(ctx.capturedAt + "|" + ctx.target + "|" + hash + "|" + ctx.source,
                  other.capturedAt + "|" + other.target + "|" + otherHash + "|" + other.source, a, b);
  }

  lemma BatchTextsDiffer(f: Foreign, ctx: Context, past: nat, messages: seq<Message>)
    ensures Distinct(BatchTexts(f, ctx, past, messages))
  {
    hide EventIdText, ContentHash;
    forall j, k | 0 <= j < k < |messages| ensures BatchTexts(f, ctx, past, messages)[j] != BatchTexts(f, ctx, past, messages)[k] {
      EventTexts(ctx, ctx, ContentHash(f, messages[j]), ContentHash(f, messages[k]), past + j + 1, past + k + 1);
    }
  }

  /**
   * Where nothing collides, an ingest succeeds exactly on a valid ledger in which no event
   * has the id text of a new one.
   */
  lemma IngestSucceedsOnTexts(f: Foreign, ctx: Context, rows: seq<Row>, origins: seq<Option<string>>, messages: seq<Message>)
    requires ctx.target != "" && IdsFrom(f.textHash, rows, origins)
    requires NoCollision(f.textHash, origins, BatchTexts(f, ctx, |History(rows, ctx.target)|, messages))
    ensures Ingested(f, ctx, rows, messages).Ok? <==>
              Chain(f.eventHash, rows).Ok? && Unused(origins, BatchTexts(f, ctx, |History(rows, ctx.target)|, messages))
  {
    hide Chain, History, MessageEvents, BatchTexts, FreshIds, Ingested, IdsFrom, NoCollision, Unused, Hashed, Distinct;
    var history := History(rows, ctx.target);
    IngestSucceeds(f, ctx, rows, messages);
    BatchIsHashed(f, ctx, history, messages);
    BatchTextsDiffer(f, ctx, |history|, messages);
    FreshOnTexts(f.textHash, rows, origins, MessageEvents(f, ctx, history, messages), BatchTexts(f, ctx, |history|, messages));
  }

  /** Row `i` is a message event of the target, and its id text is the one its own fields make. */
  ghost predicate OwnEvent(rows: seq<Row>, origins: seq<Option<string>>, target: string, i: nat) {
    && i < |rows| && i < |origins| && rows[i].chained && rows[i].eventId != "" && StreamOf(rows[i]) == target
    && rows[i].sequence.Val? && rows[i].sequence.v >= 0
    && exists ctx: Context, hash: string :: origins[i] == Some(EventIdText(ctx, hash, rows[i].sequence.v))
  }

  /** Events of the target's own stream are never in the way: their numbers are lower. */
  lemma OwnStreamNeverClashes(f: Foreign, ctx: Context, rows: seq<Row>, origins: seq<Option<string>>, messages: seq<Message>, i: nat, k: nat)
    requires ctx.target != "" && Chain(f.eventHash, rows).Ok? && OwnEvent(rows, origins, ctx.target, i)
    requires FirstWith(rows, rows[i].eventId) == Some(rows[i]) && k < |messages|
    ensures origins[i] != Some(BatchTexts(f, ctx, |History(rows, ctx.target)|, messages)[k])
  {
    hide Chain, History, FirstWith, EventIdText, StreamOf, ContentHash;
    NumberedWithin(f.eventHash, rows, rows[i]);
    var other: Context, hash: string :| origins[i] == Some(EventIdText(other, hash, rows[i].sequence.v));
    EventTexts(ctx, other, ContentHash(f, messages[k]), hash, |History(rows, ctx.target)| + k + 1, rows[i].sequence.v);
  }

  /** A ledger of one stream of message events takes every batch for it. */
  lemma OneStreamTakesAll(f: Foreign, ctx: Context, rows: seq<Row>, origins: seq<Option<string>>, messages: seq<Message>)
    requires ctx.target != "" && IdsFrom(f.textHash, rows, origins) && Chain(f.eventHash, rows).Ok?
    requires NoCollision(f.textHash, origins, BatchTexts(f, ctx, |History(rows, ctx.target)|, messages))
    requires forall i: nat :: i < |rows| ==> OwnEvent(rows, origins, ctx.target, i) && FirstWith(rows, rows[i].eventId) == Some(rows[i])
    ensures Ingested(f, ctx, rows, messages).Ok?
  {
    hide Chain, History, BatchTexts, FirstWith, OwnEvent, Ingested, NoCollision;
    var texts := BatchTexts(f, ctx, |History(rows, ctx.target)|, messages);
    forall t | t in texts ensures Some(t) !in origins {
      var k: nat :| k < |texts| && texts[k] == t;
      forall i: nat | i < |origins| ensures origins[i] != Some(t) {
        OwnStreamNeverClashes(f, ctx, rows, origins, messages, i, k);
      }
    }
    IngestSucceedsOnTexts(f, ctx, rows, origins, messages);
  }

  // ------------------------------------------------- two events, one text

  lemma SameHash(x: Context, y: Context, hash: string)
    requires x.capturedAt + "|" + x.target == y.capturedAt + "|" + y.target && x.source == y.source
    ensures EventIdText(x, hash, 1) == EventIdText(y, hash, 1)
  {
    hide Decimal;
  }

  /** The first message of a stream: its one event. */
  lemma FirstMessage(f: Foreign, ctx: Context, m: Message)
    ensures MessageEvents(f, ctx, [], [m]) == [NextEvent(f, ctx, [], m)]
    ensures NextEvent(f, ctx, [], m).eventId == f.textHash(EventIdText(ctx, ContentHash(f, m), 1))
    ensures StreamOf(NextEvent(f, ctx, [], m)) == ctx.target
  {
    hide EventIdText, ContentHash, LastSeen;
    assert [m][..0] == [];
    assert MessageEvents(f, ctx, [], []) == [];
    NextEventId(f, ctx, [], m);
    EventFacts(f, ctx, HistoryHead(f.eventHash, []), PreviousContent([]),
               m.messageId != "" && LastSeen([], m).Some?, LastSeen([], m) == Some(Some(ContentHash(f, m))), m);
  }

  /**
   * Whatever the hash: a bar that moves from the capture time into the target key makes two
   * streams share the id of their first message, and the second ingest is refused for it.
   */
  lemma MovedBarRefuses(f: Foreign, x: Context, y: Context, m: Message)
    requires Sixteen(f.textHash) && x.target != "" && y.target != "" && x.target != y.target
    requires x.capturedAt + "|" + x.target == y.capturedAt + "|" + y.target && x.source == y.source
    ensures Ingested(f, x, [], [m]).Ok? && Ingested(f, y, [], [m]).Ok?
    ensures Ingested(f, y, Ingested(f, x, [], [m]).value, [m]) == Err(EventConflict)
  {
    hide EventIdText, ContentHash, NextEvent, MessageEvents, History, AppendOne, Chain, FirstWith, LinkedTo, StreamOf;
    var a, b := NextEvent(f, x, [], m), NextEvent(f, y, [], m);
    FirstMessage(f, x, m);
    FirstMessage(f, y, m);
    SameHash(x, y, ContentHash(f, m));
    EmptyLedger(f.eventHash, x.target);
    EmptyLedger(f.eventHash, y.target);
    assert |a.eventId| == 16 && a.eventId == b.eventId;
    FirstWithIs([], a.eventId);
    NextEventLinked(f, x, [], m);
    NextEventLinked(f, y, [], m);
    LinkedIsAppended(f.eventHash, [], x.target, a);
    LinkedIsAppended(f.eventHash, [], y.target, b);
    AppendSingle(f.eventHash, [], a);
    AppendSingle(f.eventHash, [], b);
    assert [] + [a] == [a];
    TransactionKeepsChain(f.eventHash, [], [a]);
    OtherStreamEmpty(a, y.target);
    FirstWithIs([a], b.eventId);
    LinkedIsAppended(f.eventHash, [a], y.target, b);
    AppendSingle(f.eventHash, [a], b);
  }

  lemma EmptyLedger(h: Hash, target: string)
    ensures Chain(h, []).Ok? && History([], target) == []
  {
  }

  lemma OtherStreamEmpty(a: Row, target: string)
    requires StreamOf(a) != target
    ensures History([a], target) == []
  {
    hide StreamOf;
    assert [a][..0] == [];
  }

  /** Such contexts exist for every capture time and key: here the bar moves behind the capture time. */
  lemma BarBehindTimeRefuses(f: Foreign, time: string, front: string, key: string, source: string, m: Message)
    requires Sixteen(f.textHash) && key != ""
    ensures var x, y := Context(front + "|" + key, "", "", source, time, ""), Context(key, "", "", source, time + "|" + front, "");
            Ingested(f, x, [], [m]).Ok? && Ingested(f, y, Ingested(f, x, [], [m]).value, [m]) == Err(EventConflict)
  {
    hide Ingested;
    var x, y := Context(front + "|" + key, "", "", source, time, ""), Context(key, "", "", source, time + "|" + front, "");
    assert time + "|" + (front + "|" + key) == (time + "|" + front) + "|" + key;
    assert |x.target| != |y.target|;
    MovedBarRefuses(f, x, y, m);
  }

  // ------------------------------------------------- legacy events

  /** The text behind the id of a legacy event. */
  function LegacyIdText(id: string, target: string): string {
    "adr0164|" + id + "|" + target
  }

  function TextOfRow(row: LegacyRow): string {
    LegacyIdText(IdOfRow(row), TargetOfRow(row))
  }

  function TextsOf(events: seq<Row>): seq<string> {
    seq(|events|, k requires 0 <= k < |events| => LegacyIdText(events[k].body.legacyId, events[k].targetKey))
  }

  lemma LegacyEventId(f: Foreign, at: string, history: seq<Row>, target: string, row: LegacyRow)
    ensures var e := LegacyEvent(f, at, history, target, row);
            e.eventId == f.textHash(LegacyIdText(e.body.legacyId, e.targetKey))
  {
    hide HistoryHead, PreviousContent, RowHash;
  }

  lemma HashedJoin(textHash: string -> string, a: seq<Row>, b: seq<Row>)
    requires Hashed(textHash, a, TextsOf(a)) && Hashed(textHash, b, TextsOf(b))
    ensures Hashed(textHash, a + b, TextsOf(a + b))
  {
    hide LegacyIdText;
    var c := a + b;
    assert forall k :: 0 <= k < |a| ==> c[k] == a[k] && TextsOf(c)[k] == TextsOf(a)[k];
    assert forall k :: |a| <= k < |c| ==> c[k] == b[k - |a|] && TextsOf(c)[k] == TextsOf(b)[k - |a|];
  }

  lemma {:induction false} TargetIsHashed(f: Foreign, at: string, records: seq<Row>, target: string, rows: seq<LegacyRow>)
    requires LegacyEvents(f, at, records, target, rows).Ok?
    ensures var events := LegacyEvents(f, at, records, target, rows).value.events; Hashed(f.textHash, events, TextsOf(events))
  {
    hide FirstImported, Matches, LegacyEvent, History, LegacyIdText;
    if rows != [] {
      var n := |rows| - 1;
      TargetIsHashed(f, at, records, target, rows[..n]);
      var done := LegacyEvents(f, at, records, target, rows[..n]).value.events;
      LegacyEventId(f, at, History(records, target) + done, target, rows[n]);
      HashedJoin(f.textHash, done, [LegacyEvent(f, at, History(records, target) + done, target, rows[n])]);
    }
  }

  lemma {:induction false} GroupsAreHashed(f: Foreign, at: string, records: seq<Row>, rows: seq<LegacyRow>, targets: seq<string>)
    requires GroupEvents(f, at, records, rows, targets).Ok?
    ensures var events := GroupEvents(f, at, records, rows, targets).value.events; Hashed(f.textHash, events, TextsOf(events))
  {
    hide LegacyEvents, RowsOf, Hashed;
    if targets == [] {
      NothingHashed(f.textHash);
    } else {
      var n := |targets| - 1;
      GroupsAreHashed(f, at, records, rows, targets[..n]);
      TargetIsHashed(f, at, records, targets[n], RowsOf(rows, targets[n]));
      HashedJoin(f.textHash, GroupEvents(f, at, records, rows, targets[..n]).value.events,
                 LegacyEvents(f, at, records, targets[n], RowsOf(rows, targets[n])).value.events);
    }
  }

  lemma NothingHashed(textHash: string -> string)
    ensures Hashed(textHash, [], TextsOf([]))
  {
  }

  /** The row is not in the ledger yet. */
  predicate New(records: seq<Row>, rows: seq<LegacyRow>, r: LegacyRow) {
    r in rows && FirstImported(records, IdOfRow(r)).None?
  }

  /** No two new rows make one text, and none makes a text that is behind an id of the ledger. */
  ghost predicate ApartOnTexts(records: seq<Row>, origins: seq<Option<string>>, rows: seq<LegacyRow>) {
    && (forall r :: New(records, rows, r) ==> Some(TextOfRow(r)) !in origins)
    && (forall r, s :: New(records, rows, r) && New(records, rows, s) && r != s ==> TextOfRow(r) != TextOfRow(s))
  }

  /** What an event of the batch tells about the row it carries. */
  lemma CarriedText(f: Foreign, records: seq<Row>, rows: seq<LegacyRow>, e: Row, r: LegacyRow)
    requires r in rows && Carries(f, records, e, r)
    ensures New(records, rows, r) && LegacyIdText(e.body.legacyId, e.targetKey) == TextOfRow(r)
  {
    hide FirstImported;
  }

  lemma ApartIsDistinct(f: Foreign, records: seq<Row>, origins: seq<Option<string>>, rows: seq<LegacyRow>, events: seq<Row>)
    requires Accounts(f, records, rows, events) && DistinctRows(rows)
    ensures Distinct(TextsOf(events)) && Unused(origins, TextsOf(events)) <==> ApartOnTexts(records, origins, rows)
  {
    hide Carries, New, LegacyIdText, TextOfRow, DistinctRows, FirstImported;
    var texts := TextsOf(events);
    if Distinct(texts) && Unused(origins, texts) {
      forall r | New(records, rows, r) ensures exists k: nat :: k < |events| && Carries(f, records, events[k], r) && texts[k] == TextOfRow(r) {
        RowIsCarried(f, records, rows, events, r);
      }
      forall r | New(records, rows, r) ensures Some(TextOfRow(r)) !in origins {
        var k: nat :| k < |events| && Carries(f, records, events[k], r) && texts[k] == TextOfRow(r);
        assert texts[k] in texts;
      }
      forall r, s | New(records, rows, r) && New(records, rows, s) && r != s ensures TextOfRow(r) != TextOfRow(s) {
        var k: nat :| k < |events| && Carries(f, records, events[k], r) && texts[k] == TextOfRow(r);
        var m: nat :| m < |events| && Carries(f, records, events[m], s) && texts[m] == TextOfRow(s);
        if k == m { OneRowOnly(f, records, rows, events[k], r, s); }
      }
    }
    if ApartOnTexts(records, origins, rows) {
      forall k: nat | k < |events| ensures exists r :: New(records, rows, r) && Carries(f, records, events[k], r) && texts[k] == TextOfRow(r) {
        EventCarries(f, records, rows, events, k);
      }
      assert Unused(origins, texts);
      forall k: nat, m: nat | k < m < |events| ensures texts[k] != texts[m] {
        var r :| New(records, rows, r) && Carries(f, records, events[k], r) && texts[k] == TextOfRow(r);
        var s :| New(records, rows, s) && Carries(f, records, events[m], s) && texts[m] == TextOfRow(s);
        CarriedIds(f, records, events[k], r);
        CarriedIds(f, records, events[m], s);
      }
    }
  }

  lemma CarriedIds(f: Foreign, records: seq<Row>, e: Row, r: LegacyRow)
    requires Carries(f, records, e, r)
    ensures e.body.legacyId == IdOfRow(r)
  {
  }

  lemma RowIsCarried(f: Foreign, records: seq<Row>, rows: seq<LegacyRow>, events: seq<Row>, r: LegacyRow)
    requires Accounts(f, records, rows, events) && New(records, rows, r)
    ensures exists k: nat :: k < |events| && Carries(f, records, events[k], r) && TextsOf(events)[k] == TextOfRow(r)
  {
    hide Carries, LegacyIdText, TextOfRow, FirstImported, EventsComeFrom, DistinctImports;
    var e :| e in events && Carries(f, records, e, r);
    var k: nat :| k < |events| && events[k] == e;
    CarriedText(f, records, rows, e, r);
  }

  lemma EventCarries(f: Foreign, records: seq<Row>, rows: seq<LegacyRow>, events: seq<Row>, k: nat)
    requires Accounts(f, records, rows, events) && k < |events|
    ensures exists r :: New(records, rows, r) && Carries(f, records, events[k], r) && TextsOf(events)[k] == TextOfRow(r)
  {
    hide Carries, LegacyIdText, TextOfRow, FirstImported, NewRowsCarried, DistinctImports, New;
    assert events[k] in events;
    var r :| r in rows && Carries(f, records, events[k], r);
    CarriedText(f, records, rows, events[k], r);
  }

  lemma OneRowOnly(f: Foreign, records: seq<Row>, rows: seq<LegacyRow>, e: Row, r: LegacyRow, s: LegacyRow)
    requires DistinctRows(rows) && New(records, rows, r) && New(records, rows, s) && Carries(f, records, e, r) && Carries(f, records, e, s)
    ensures r == s
  {
    hide IdOfRow, FirstImported, Matches;
    var i :| 0 <= i < |rows| && rows[i] == r;
    var j :| 0 <= j < |rows| && rows[j] == s;
    assert IdOfRow(rows[i]) == IdOfRow(rows[j]);
  }

  /**
   * Where nothing collides, a legacy call succeeds exactly on a valid ledger, without
   * conflicts, and when its new rows make texts of their own.
   */
  lemma LegacyExactOnTexts(f: Foreign, at: string, ledger: seq<Row>, origins: seq<Option<string>>, rows: seq<LegacyRow>)
    requires Validated(rows).None? && IdsFrom(f.textHash, ledger, origins)
    requires NoCollision(f.textHash, origins, seq(|rows|, i requires 0 <= i < |rows| => TextOfRow(rows[i])))
    ensures CallLegacy(f, at, ledger, ledger, rows, true).report.Report? <==>
              Chain(f.eventHash, ledger).Ok? && NoConflict(f, ledger, rows) && ApartOnTexts(ledger, origins, rows)
  {
    hide Chain, NoConflict, ApartOnTexts, LegacyBatch, IdsFrom, NoCollision;
    hide TextOfRow, FreshIds, Validated, DistinctRows, Accounts, CallLegacy, Targets;
    LegacyExact(f, at, ledger, rows);
    ValidTargets(rows);
    if Chain(f.eventHash, ledger).Ok? {
      BatchMeans(f, at, ledger, rows);
      if NoConflict(f, ledger, rows) {
        var events := LegacyBatch(f, at, ledger, rows).value.events;
        BatchIsHashedLegacy(f, at, ledger, rows);
        FewerTexts(f, ledger, origins, rows, events);
        FreshOnTexts(f.textHash, ledger, origins, events, TextsOf(events));
        ApartIsDistinct(f, ledger, origins, rows, events);
      }
    }
  }

  lemma BatchIsHashedLegacy(f: Foreign, at: string, ledger: seq<Row>, rows: seq<LegacyRow>)
    requires LegacyBatch(f, at, ledger, rows).Ok?
    ensures var events := LegacyBatch(f, at, ledger, rows).value.events; Hashed(f.textHash, events, TextsOf(events))
  {
    hide Chain, GroupEvents, Hashed;
    GroupsAreHashed(f, at, ledger, rows, Targets(rows));
  }

  lemma FewerTexts(f: Foreign, records: seq<Row>, origins: seq<Option<string>>, rows: seq<LegacyRow>, events: seq<Row>)
    requires Accounts(f, records, rows, events)
    requires NoCollision(f.textHash, origins, seq(|rows|, i requires 0 <= i < |rows| => TextOfRow(rows[i])))
    ensures NoCollision(f.textHash, origins, TextsOf(events))
  {
    hide Accounts, TextOfRow, LegacyIdText, KnownTexts, Carries;
    var all := seq(|rows|, i requires 0 <= i < |rows| => TextOfRow(rows[i]));
    forall t | t in TextsOf(events) ensures t in all {
      var k: nat :| k < |events| && TextsOf(events)[k] == t;
      EventCarries(f, records, rows, events, k);
      var r :| New(records, rows, r) && Carries(f, records, events[k], r) && TextsOf(events)[k] == TextOfRow(r);
      var i :| 0 <= i < |rows| && rows[i] == r;
      assert all[i] == t;
    }
    assert KnownTexts(origins) + Elements(TextsOf(events)) <= KnownTexts(origins) + Elements(all);
  }

  /** A bar that moves from the id into the target: two rows, one text. */
  function BarRows(id: string, middle: string, target: string): seq<LegacyRow> {
    [LegacyRow(Val(id + "|" + middle), Val(target), Val("t"), Val("t"), Val("x"), Absent, "", "", "", "", "", ""),
     LegacyRow(Val(id), Val(middle + "|" + target), Val("t"), Val("t"), Val("x"), Absent, "", "", "", "", "", "")]
  }

  lemma BarRowsShareText(id: string, middle: string, target: string)
    ensures var rows := BarRows(id, middle, target);
            TextOfRow(rows[0]) == TextOfRow(rows[1]) && IdOfRow(rows[0]) != IdOfRow(rows[1])
  {
    assert "adr0164|" + (id + "|" + middle) + "|" + target == "adr0164|" + id + "|" + (middle + "|" + target);
  }

  lemma BarRowsAreValid(id: string, middle: string, target: string)
    requires id != "" && target != ""
    ensures Validated(BarRows(id, middle, target)).None?
  {
    hide Agree, Targets, RowsOf;
    var rows := BarRows(id, middle, target);
    BarRowsShareText(id, middle, target);
    assert rows[..1] == [rows[0]] && rows[..1][..0] == [];
    assert FirstProblem(rows[..1]).None?;
    forall t | t in Targets(rows) ensures OneStream(RowsOf(rows, t)) { NoStreamGiven(rows, t); }
  }

  lemma NoStreamGiven(rows: seq<LegacyRow>, t: string)
    requires forall r :: r in rows ==> r.streamId == ""
    ensures OneStream(RowsOf(rows, t))
  {
    RowsOfAre(rows, t);
    assert Blank("");
    assert forall r :: r in RowsOf(rows, t) ==> r.streamId == "";
  }

  lemma RegisteredAnyway(f: Foreign, at: string, ledger: seq<Row>, rows: seq<LegacyRow>)
    requires Validated(rows).None? && LegacyBatch(f, at, ledger, rows).Ok?
    ensures CallLegacy(f, at, ledger, ledger, rows, true).registered == Registrations(rows)
  {
    hide Validated, LegacyBatch, Transaction, Registrations;
  }

  lemma NothingToConflict(f: Foreign, at: string, rows: seq<LegacyRow>)
    requires Validated(rows).None?
    ensures LegacyBatch(f, at, [], rows).Ok?
  {
    hide Validated, LegacyBatch, Accounts, DistinctRows;
    ValidTargets(rows);
    assert Chain(f.eventHash, []).Ok? && forall id :: FirstImported([], id).None?;
    BatchMeans(f, at, [], rows);
  }

  /**
   * The concrete failure: on the empty ledger, and whatever the hash, two valid rows are
   * refused for sharing an id, while their targets are registered.
   */
  lemma BarRowsAreRefused(f: Foreign, at: string, id: string, middle: string, target: string)
    requires id != "" && target != ""
    ensures Validated(BarRows(id, middle, target)).None?
    ensures !CallLegacy(f, at, [], [], BarRows(id, middle, target), true).report.Report?
    ensures CallLegacy(f, at, [], [], BarRows(id, middle, target), true).ledger == []
    ensures CallLegacy(f, at, [], [], BarRows(id, middle, target), true).registered == Registrations(BarRows(id, middle, target))
  {
    hide Validated, CallLegacy, Accounts, LegacyBatch, Chain, DistinctRows;
    hide TextOfRow, Targets, NoConflict, Carries, LegacyIdText, Registrations;
    var rows := BarRows(id, middle, target);
    BarRowsAreValid(id, middle, target);
    BarRowsShareText(id, middle, target);
    LegacyExact(f, at, [], rows);
    ValidTargets(rows);
    NothingToConflict(f, at, rows);
    RegisteredAnyway(f, at, [], rows);
    if CallLegacy(f, at, [], [], rows, true).report.Report? {
      BarRowsRepeat(f, at, rows);
    }
  }

  /** Two new rows of one text give two events of one id. */
  lemma BarRowsRepeat(f: Foreign, at: string, rows: seq<LegacyRow>)
    requires |rows| == 2 && TextOfRow(rows[0]) == TextOfRow(rows[1]) && rows[0] != rows[1] && DistinctRows(rows)
    requires LegacyBatch(f, at, [], rows).Ok? && Accounts(f, [], rows, LegacyBatch(f, at, [], rows).value.events)
    ensures !FreshIds([], LegacyBatch(f, at, [], rows).value.events)
  {
    hide Accounts, LegacyBatch, DistinctRows, TextOfRow, Carries, LegacyIdText, FirstWith, IdOfRow;
    var events := LegacyBatch(f, at, [], rows).value.events;
    BatchIsHashedLegacy(f, at, [], rows);
    assert New([], rows, rows[0]) && New([], rows, rows[1]);
    RowIsCarried(f, [], rows, events, rows[0]);
    RowIsCarried(f, [], rows, events, rows[1]);
    var k: nat :| k < |events| && Carries(f, [], events[k], rows[0]) && TextsOf(events)[k] == TextOfRow(rows[0]);
    var m: nat :| m < |events| && Carries(f, [], events[m], rows[1]) && TextsOf(events)[m] == TextOfRow(rows[1]);
    if k == m { OneRowOnly(f, [], rows, events[k], rows[0], rows[1]); }
    var early, late := if k < m then k else m, if k < m then m else k;
    FirstWithIs([] + events[..late], events[late].eventId);
    assert ([] + events[..late])[early] == events[early];
  }
}
