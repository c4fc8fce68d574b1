/**
 * The record files of an export: the messages of one channel in time order, numbered, cut
 * into chunks, and handed over to the ingest.
 */
module ExportRecords {
  import opened Text
  import opened Ingest
  import opened CaptureBatch
  import opened ChannelMap
  import opened RecordExport
  import opened Registry
  import opened Snowflake

  // ------------------------------------------------- the order of the messages

  /** `(timestamp, int(id))` of a before that of b. */
  predicate Before(a: Candidate, b: Candidate) {
    Less(a.message.timestamp, b.message.timestamp)
    || (a.message.timestamp == b.message.timestamp && IdValue(a.message.id) < IdValue(b.message.id))
  }

  predicate Tie(a: Candidate, b: Candidate) {
    a.message.timestamp == b.message.timestamp && IdValue(a.message.id) == IdValue(b.message.id)
  }

  /** Behind everything that does not come later. */
  function InsertLate(x: Candidate, s: seq<Candidate>): seq<Candidate> {
    if s == [] then [x]
    else if Before(x, s[|s| - 1]) then InsertLate(x, s[..|s| - 1]) + [s[|s| - 1]]
    else s + [x]
  }

  /** `sorted(..., key=(timestamp, int(id)))`, which is stable. */
  function InTimeOrder(s: seq<Candidate>): seq<Candidate> {
    if s == [] then [] else InsertLate(s[|s| - 1], InTimeOrder(s[..|s| - 1]))
  }

  /** No message comes before an earlier one. */
  predicate Ordered(s: seq<Candidate>) {
    forall i, j :: 0 <= i < j < |s| ==> !Before(s[j], s[i])
  }

  predicate StrictlyOrdered(s: seq<Candidate>) {
    forall i, j :: 0 <= i < j < |s| ==> Before(s[i], s[j])
  }

  lemma BeforeFacts(a: Candidate, b: Candidate, c: Candidate)
    ensures Before(a, b) && Before(b, c) ==> Before(a, c)
    ensures !(Before(a, b) && Before(b, a))
    ensures Before(a, b) || Before(b, a) || Tie(a, b)
    ensures Before(a, b) ==> !Tie(a, b)
  {
    hide IdValue;
    var x, y, z := a.message.timestamp, b.message.timestamp, c.message.timestamp;
    LessTotal(x, y);
    LessIrreflexive(x);
    if Less(x, y) { LessAsymmetric(x, y); if Less(y, z) { LessTransitive(x, y, z); } }
    if Less(y, x) { LessAsymmetric(y, x); }
  }

  lemma {:induction false} InsertedOnce(x: Candidate, s: seq<Candidate>)
    ensures multiset(InsertLate(x, s)) == multiset(s) + multiset{x}
  {
    hide Before;
    if s != [] {
      var n := |s| - 1;
      assert s == s[..n] + [s[n]];
      InsertedOnce(x, s[..n]);
    }
  }

  /** Behind the last message that does not come later, `x` comes before none in front of it. */
  lemma AppendOrdered(x: Candidate, s: seq<Candidate>)
    requires Ordered(s) && (s != [] ==> !Before(x, s[|s| - 1]))
    ensures Ordered(s + [x])
  {
    hide Before;
    forall i | 0 <= i < |s| ensures !Before(x, s[i]) {
      if i < |s| - 1 { TiesMove(x, s[|s| - 1], s[i]); }
    }
  }

  lemma LastStaysLast(x: Candidate, front: seq<Candidate>, last: Candidate, r: seq<Candidate>)
    requires Ordered(front + [last]) && Ordered(r) && multiset(r) == multiset(front) + multiset{x} && Before(x, last)
    ensures Ordered(r + [last])
  {
    hide Before;
    BeforeFacts(x, last, x);
    forall i | 0 <= i < |r| ensures !Before(last, r[i]) {
      assert r[i] in multiset(r);
      if r[i] != x {
        assert r[i] in multiset(front);
        var j :| 0 <= j < |front| && front[j] == r[i];
        assert (front + [last])[j] == r[i] && (front + [last])[|front|] == last;
      }
    }
  }

  lemma {:induction false} InsertedLate(x: Candidate, s: seq<Candidate>)
    requires Ordered(s)
    ensures Ordered(InsertLate(x, s))
  {
    hide Before;
    if s != [] && Before(x, s[|s| - 1]) {
      var n := |s| - 1;
      assert s == s[..n] + [s[n]];
      InsertedLate(x, s[..n]);
      InsertedOnce(x, s[..n]);
      LastStaysLast(x, s[..n], s[n], InsertLate(x, s[..n]));
    } else {
      AppendOrdered(x, s);
      assert [] + [x] == [x];
    }
  }

  /** What comes before `b`, where `last` does not, comes before `last`. */
  lemma TiesMove(x: Candidate, last: Candidate, b: Candidate)
    ensures Before(x, b) && !Before(last, b) ==> Before(x, last)
  {
    hide IdValue;
    var s, t, u := x.message.timestamp, last.message.timestamp, b.message.timestamp;
    LessTotal(t, u);
    LessTotal(s, t);
    if Less(s, u) && Less(u, t) { LessTransitive(s, u, t); }
  }

  /** The sort permutes and orders. */
  lemma {:induction false} TimeOrderSorts(s: seq<Candidate>)
    ensures multiset(InTimeOrder(s)) == multiset(s) && Ordered(InTimeOrder(s))
  {
    hide Before, InsertLate;
    if s != [] {
      var n := |s| - 1;
      TimeOrderSorts(s[..n]);
      InsertedLate(s[n], InTimeOrder(s[..n]));
      InsertedOnce(s[n], InTimeOrder(s[..n]));
      assert s == s[..n] + [s[n]];
    }
  }

  /** Different messages of one channel share no time and id value. */
  predicate NoTies(s: seq<Candidate>) {
    forall a, b :: a in s && b in s && a != b ==> !Tie(a, b)
  }

  lemma PermutedDistinct<T>(a: seq<T>, b: seq<T>)
    requires multiset(a) == multiset(b) && Distinct(a)
    ensures Distinct(b)
  {
    forall i, j | 0 <= i < j < |b| ensures b[i] != b[j] {
      if b[i] == b[j] {
        TwiceIn(b, i, j);
        OnceIn(a, b[i]);
      }
    }
  }

  lemma TwiceIn<T>(s: seq<T>, i: nat, j: nat)
    requires i < j < |s| && s[i] == s[j]
    ensures multiset(s)[s[i]] >= 2
  {
    assert s == s[..i] + [s[i]] + s[i + 1..j] + [s[j]] + s[j + 1..];
  }

  lemma {:induction false} OnceIn<T>(s: seq<T>, x: T)
    requires Distinct(s)
    ensures multiset(s)[x] <= 1
  {
    if s != [] {
      var n := |s| - 1;
      OnceIn(s[..n], x);
      assert s == s[..n] + [s[n]];
      if s[n] == x { assert x !in s[..n]; }
    }
  }

  lemma SameMembers<T>(a: seq<T>, b: seq<T>)
    requires multiset(a) == multiset(b)
    ensures forall x :: x in a <==> x in b
  {
    forall x ensures x in a <==> x in b {
      assert x in a <==> x in multiset(a);
      assert x in b <==> x in multiset(b);
    }
  }

  /** The order is strict exactly when no two messages share timestamp and id value. */
  lemma StrictIffNoTies(s: seq<Candidate>)
    requires Distinct(s)
    ensures StrictlyOrdered(InTimeOrder(s)) <==> NoTies(s)
  {
    hide Before, Tie, InTimeOrder;
    var sorted := InTimeOrder(s);
    TimeOrderSorts(s);
    PermutedDistinct(s, sorted);
    SameMembers(s, sorted);
    if NoTies(s) {
      forall i, j | 0 <= i < j < |sorted| ensures Before(sorted[i], sorted[j]) {
        assert sorted[i] in s && sorted[j] in s;
        BeforeFacts(sorted[i], sorted[j], sorted[i]);
      }
    }
    if StrictlyOrdered(sorted) {
      forall a, b | a in s && b in s && a != b ensures !Tie(a, b) {
        var i :| 0 <= i < |sorted| && sorted[i] == a;
        var j :| 0 <= j < |sorted| && sorted[j] == b;
        BeforeFacts(a, b, a);
        BeforeFacts(b, a, b);
        TieSymmetric(a, b);
      }
    }
  }

  lemma TieSymmetric(a: Candidate, b: Candidate)
    ensures Tie(a, b) <==> Tie(b, a)
  {
  }

  // ------------------------------------------------- where ties come from

  /** Where every id is plain, the messages of a channel are strictly ordered by `(timestamp, id)`. */
  lemma PlainIsStrict(s: seq<Candidate>)
    requires forall i, j :: 0 <= i < j < |s| ==> s[i].message.id != s[j].message.id
    requires forall c :: c in s ==> Plain(c.message.id)
    ensures StrictlyOrdered(InTimeOrder(s))
  {
    hide InTimeOrder, StrictlyOrdered, IdValue, Plain;
    forall a, b | a in s && b in s && a != b ensures !Tie(a, b) {
      var i :| 0 <= i < |s| && s[i] == a;
      var j :| 0 <= j < |s| && s[j] == b;
      assert a.message.id != b.message.id;
      if IdValue(a.message.id) == IdValue(b.message.id) { PlainIdsDiffer(a.message.id, b.message.id); }
    }
    StrictIffNoTies(s);
  }

  /** The picks stand in the order of their message ids. */
  lemma PicksAscend(channels: Channels, includeDm: bool, observed: seq<Candidate>)
    ensures var picks := Picks(channels, includeDm, observed);
            forall i, j :: 0 <= i < j < |picks| ==> Less(picks[i].chosen.message.id, picks[j].chosen.message.id)
  {
    hide ReasonFor, Best, SortedSet, Ids;
    var ids := SortedSet(Ids(observed));
    forall i | 0 <= i < |ids| ensures PickFor(channels, includeDm, observed, ids[i]).chosen.message.id == ids[i] {
      WithIdIsFilter(observed, ids[i]);
    }
  }

  lemma {:induction false} EmittedAscend(picks: seq<Pick>, c: string)
    requires forall i, j :: 0 <= i < j < |picks| ==> Less(picks[i].chosen.message.id, picks[j].chosen.message.id)
    ensures forall i, j :: 0 <= i < j < |EmittedIn(picks, c)| ==> Less(EmittedIn(picks, c)[i].message.id, EmittedIn(picks, c)[j].message.id)
    ensures forall e :: e in EmittedIn(picks, c) ==> exists i :: 0 <= i < |picks| && picks[i].chosen == e
  {
    if picks != [] {
      var n := |picks| - 1;
      var rest := picks[..n];
      EmittedAscend(rest, c);
      assert forall i :: 0 <= i < n ==> rest[i] == picks[i];
      forall e | e in EmittedIn(rest, c) ensures Less(e.message.id, picks[n].chosen.message.id) {
        var i :| 0 <= i < |rest| && rest[i].chosen == e;
      }
    }
  }

  /**
   * The records of a channel: no message twice; strictly ordered exactly when no two of them
   * share timestamp and id value, and always when every id is plain: ASCII digits, no zero in
   * front, no final newline.
   */
  lemma ChannelOrderExact(channels: Channels, includeDm: bool, observed: seq<Candidate>, c: string)
    ensures var emitted := EmittedIn(Picks(channels, includeDm, observed), c);
            && Distinct(emitted)
            && (StrictlyOrdered(InTimeOrder(emitted)) <==> NoTies(emitted))
            && ((forall e :: e in emitted ==> Plain(e.message.id)) ==> StrictlyOrdered(InTimeOrder(emitted)))
  {
    hide Picks, EmittedIn, InTimeOrder, StrictlyOrdered, NoTies, Plain;
    var picks := Picks(channels, includeDm, observed);
    var emitted := EmittedIn(picks, c);
    PicksAscend(channels, includeDm, observed);
    EmittedAscend(picks, c);
    forall i, j | 0 <= i < j < |emitted| ensures emitted[i].message.id != emitted[j].message.id {
      LessIrreflexive(emitted[i].message.id);
    }
    StrictIffNoTies(emitted);
    if forall e :: e in emitted ==> Plain(e.message.id) { PlainIsStrict(emitted); }
  }

  /** An ordinary message of a channel, seen once. */
  function Observation(id: string, channel: string, time: string, content: string): Candidate {
    Candidate(CachedMessage(id, channel, time, "", "", content, true, false, false, false, false, false), "", "")
  }

  /** A message seen once in a channel whose server is known is emitted. */
  lemma {:induction false} SeenIsEmitted(picks: seq<Pick>, k: nat, channel: string)
    requires k < |picks| && picks[k].reason.None? && RecordExport.Channel(picks[k]) == channel
    ensures picks[k].chosen in EmittedIn(picks, channel)
  {
    var n := |picks| - 1;
    if k < n {
      assert picks[..n][k] == picks[k];
      SeenIsEmitted(picks[..n], k, channel);
    }
  }

  lemma OnlyObservation(observed: seq<Candidate>, id: string, only: Candidate)
    requires only in observed && only.message.id == id && forall c :: c in observed && c.message.id == id ==> c == only
    ensures id in Ids(observed) && WithId(observed, id) != [] && WithId(observed, id)[Best(WithId(observed, id))] == only
  {
    hide Best, WithId;
    WithIdIsFilter(observed, id);
    var i :| 0 <= i < |observed| && observed[i] == only;
    assert Ids(observed)[i] == id;
    assert WithId(observed, id)[Best(WithId(observed, id))] in WithId(observed, id);
  }

  lemma ObservationIsEmitted(channels: Channels, observed: seq<Candidate>, id: string, channel: string, time: string, content: string)
    requires var c := Observation(id, channel, time, content);
             c in observed && forall o :: o in observed && o.message.id == id ==> o == c
    requires ChannelUrl(channels, channel).0.Some? && ChannelUrl(channels, channel).1 != Dm && !Blank(content)
    ensures Observation(id, channel, time, content) in EmittedIn(Picks(channels, false, observed), channel)
  {
    hide Best, WithId, EmittedIn, SortedSet, ChannelUrl, Blank, Ids;
    var c := Observation(id, channel, time, content);
    OnlyObservation(observed, id, c);
    UrlMeansKnown(channels, channel);
    var ids, picks := SortedSet(Ids(observed)), Picks(channels, false, observed);
    var k :| 0 <= k < |ids| && ids[k] == id;
    PickAt(channels, false, observed, id);
    assert picks[k] == Pick(c, None);
    SeenIsEmitted(picks, k, channel);
  }

  lemma UrlMeansKnown(channels: Channels, channel: string)
    ensures ChannelUrl(channels, channel).0.Some? ==> ChannelUrl(channels, channel).1 != ServerUnknown
  {
  }

  /**
   * Every pair of different ids with one value breaks the strict order: two messages of one
   * mapped channel with one timestamp, both of which the cache accepts and the export emits.
   */
  lemma TiedIdsBreakOrder(channels: Channels, channel: string, a: string, b: string, time: string, content: string)
    requires IsSnowflake(channel) && IsSnowflake(a) && IsSnowflake(b) && a != b && IdValue(a) == IdValue(b)
    requires ChannelUrl(channels, channel).0.Some? && ChannelUrl(channels, channel).1 != Dm && !Blank(content)
    ensures var observed := [Observation(a, channel, time, content), Observation(b, channel, time, content)];
            var emitted := EmittedIn(Picks(channels, false, observed), channel);
            && observed[0] in emitted && observed[1] in emitted
            && !StrictlyOrdered(InTimeOrder(emitted))
  {
    hide Picks, EmittedIn, InTimeOrder, StrictlyOrdered, ChannelUrl, Blank, IdValue, IsSnowflake;
    var x, y := Observation(a, channel, time, content), Observation(b, channel, time, content);
    var observed := [x, y];
    assert x in observed && y in observed;
    ObservationIsEmitted(channels, observed, a, channel, time, content);
    ObservationIsEmitted(channels, observed, b, channel, time, content);
    ChannelOrderExact(channels, false, observed, channel);
    assert Tie(x, y) && x != y;
  }

  /** A channel that one hint maps to a server, and in it two messages that tie: by a final newline, or by a zero in front. */
  lemma OrderNeedNotBeStrict(channel: string, guild: string, id: string, time: string, content: string)
    requires IsSnowflake(channel) && IsSnowflake(guild) && IsSnowflake(id) && Digits(id) == id && |id| < 21 && !Blank(content)
    ensures var channels := Learned([GuildHint(channel, guild, "")]);
            forall other :: other in {id + "\n", "0" + id} ==>
              var observed := [Observation(id, channel, time, content), Observation(other, channel, time, content)];
              && IsSnowflake(other) && other != id
              && !StrictlyOrdered(InTimeOrder(EmittedIn(Picks(channels, false, observed), channel)))
  {
    hide Picks, EmittedIn, InTimeOrder, StrictlyOrdered, Blank, IdValue, IsSnowflake, Digits;
    var channels := Learned([GuildHint(channel, guild, "")]);
    OneHintMaps(channel, guild);
    NewlineTies(id);
    ZeroTies(id);
    TiedIdsBreakOrder(channels, channel, id, id + "\n", time, content);
    TiedIdsBreakOrder(channels, channel, id, "0" + id, time, content);
  }

  lemma OneHintMaps(channel: string, guild: string)
    requires IsSnowflake(channel) && IsSnowflake(guild)
    ensures var url := ChannelUrl(Learned([GuildHint(channel, guild, "")]), channel);
            url.0.Some? && url.1 == PlainChannel
  {
    hide IsSnowflake;
    var hints := [GuildHint(channel, guild, "")];
    assert hints[..0] == [];
  }

  // ------------------------------------------------- rows and chunks

  const RECORD_SOURCE := "discord_desktop_cache"

  function RowFor(targetKey: string, url: string, title: string, capturedAt: string, c: Candidate, ordinal: nat): FlatRow {
    FlatRow(VisibleRecord, targetKey, url, title, "", RECORD_SOURCE, capturedAt,
            Message(c.message.id, c.message.author, c.message.timestamp, c.message.content, Some(ordinal)))
  }

  /** The rows of one channel: the messages in time order, numbered from zero. */
  function Rows(targetKey: string, url: string, title: string, capturedAt: string, emitted: seq<Candidate>): seq<FlatRow> {
    var sorted := InTimeOrder(emitted);
    seq(|sorted|, i requires 0 <= i < |sorted| => RowFor(targetKey, url, title, capturedAt, sorted[i], i))
  }

  /** `rows[index : index + MAX_MESSAGES]` for every `index`. */
  function Chunks(rows: seq<FlatRow>): seq<seq<FlatRow>> {
    if rows == [] then []
    else if |rows| <= MAX_MESSAGES then [rows]
    else [rows[..MAX_MESSAGES]] + Chunks(rows[MAX_MESSAGES..])
  }

  function Joined(chunks: seq<seq<FlatRow>>): seq<FlatRow> {
    if chunks == [] then [] else chunks[0] + Joined(chunks[1..])
  }

  /** The chunks join up to the rows, and none is empty or over the limit. */
  lemma {:induction false} ChunksJoin(rows: seq<FlatRow>)
    ensures Joined(Chunks(rows)) == rows
    ensures forall k :: 0 <= k < |Chunks(rows)| ==> 1 <= |Chunks(rows)[k]| <= MAX_MESSAGES
    ensures forall k, r :: 0 <= k < |Chunks(rows)| && r in Chunks(rows)[k] ==> r in rows
  {
    if rows == [] {
    } else if |rows| <= MAX_MESSAGES {
      assert Joined([rows]) == rows + Joined([]);
    } else {
      ChunksJoin(rows[MAX_MESSAGES..]);
      assert rows == rows[..MAX_MESSAGES] + rows[MAX_MESSAGES..];
    }
  }

  method BuildRows(targetKey: string, url: string, title: string, capturedAt: string, emitted: seq<Candidate>) returns (rows: seq<FlatRow>)
    ensures rows == Rows(targetKey, url, title, capturedAt, emitted)
  {
    hide InTimeOrder, RowFor;
    var chosen := InTimeOrder(emitted);
    rows := [];
    for ordinal := 0 to |chosen|
      invariant rows == Rows(targetKey, url, title, capturedAt, emitted)[..ordinal]
    {
      rows := rows + [RowFor(targetKey, url, title, capturedAt, chosen[ordinal], ordinal)];
    }
    assert Rows(targetKey, url, title, capturedAt, emitted)[..|chosen|] == Rows(targetKey, url, title, capturedAt, emitted);
  }

  // ------------------------------------------------- hand-over

  lemma SameValueAgrees(values: seq<string>, v: string)
    requires forall i :: 0 <= i < |values| ==> values[i] == v
    ensures Agree(values)
  {
  }

  /** The rows carry one target, URL, title and source. */
  predicate Uniform(rows: seq<FlatRow>, targetKey: string, url: string, title: string) {
    forall i :: 0 <= i < |rows| ==>
      rows[i].schema == VisibleRecord && rows[i].targetKey == targetKey && rows[i].url == url && rows[i].title == title && rows[i].streamId == ""
  }

  lemma UniformIsTakeable(rows: seq<FlatRow>, targetKey: string, url: string, title: string)
    requires Uniform(rows, targetKey, url, title) && 1 <= |rows| <= MAX_MESSAGES
    ensures Takeable(rows) <==> BodiesFit(rows)
  {
    hide Agree, BodiesFit;
    SameValueAgrees(TargetKeys(rows), targetKey);
    SameValueAgrees(Urls(rows), url);
    SameValueAgrees(Titles(rows), title);
    SameValueAgrees(StreamIds(rows), "");
  }

  lemma RowsAreUniform(targetKey: string, url: string, title: string, capturedAt: string, emitted: seq<Candidate>, chunk: seq<FlatRow>)
    requires forall r :: r in chunk ==> r in Rows(targetKey, url, title, capturedAt, emitted)
    ensures Uniform(chunk, targetKey, url, title)
  {
    hide InTimeOrder;
    forall i | 0 <= i < |chunk|
      ensures chunk[i].schema == VisibleRecord && chunk[i].targetKey == targetKey && chunk[i].url == url && chunk[i].title == title && chunk[i].streamId == ""
    {
      assert chunk[i] in chunk;
    }
  }

  /**
   * The ingest takes every chunk of a channel whose bodies are within the size limit, and
   * only those, and files all of them under the one target of the channel.
   */
  lemma ChunksAreIngested(textHash: string -> string, targetKey: string, url: string, title: string, capturedAt: string,
                          emitted: seq<Candidate>, k: nat, fallback: string)
    requires Strip(targetKey) == targetKey && targetKey != ""
    requires k < |Chunks(Rows(targetKey, url, title, capturedAt, emitted))|
    ensures var chunk := Chunks(Rows(targetKey, url, title, capturedAt, emitted))[k];
            && (FromBatch(Wrap(chunk)).Ok? <==> BodiesFit(chunk))
            && (FromBatch(Wrap(chunk)).Ok? ==>
                  && FromBatch(Wrap(chunk)).value.messages == CaptureBatch.MessagesOf(chunk)
                  && TargetIdentity(textHash, FromBatch(Wrap(chunk)).value, fallback) == (targetKey, UrlHash))
  {
    hide Rows, Chunks, FromBatch, BodiesFit, Takeable, Strip, Uniform, CaptureBatch.MessagesOf;
    var rows := Rows(targetKey, url, title, capturedAt, emitted);
    ChunksJoin(rows);
    var chunk := Chunks(rows)[k];
    RowsAreUniform(targetKey, url, title, capturedAt, emitted, chunk);
    UniformIsTakeable(chunk, targetKey, url, title);
    BatchExact(chunk);
    FirstRowUniform(chunk, targetKey, url, title);
  }

  lemma FirstRowUniform(chunk: seq<FlatRow>, targetKey: string, url: string, title: string)
    requires Uniform(chunk, targetKey, url, title) && chunk != []
    ensures chunk[0].targetKey == targetKey
  {
  }

  /** What a record file tells about the messages: every emitted message once, in order, with its number. */
  lemma RowsAreNumbered(targetKey: string, url: string, title: string, capturedAt: string, emitted: seq<Candidate>)
    ensures var rows, sorted := Rows(targetKey, url, title, capturedAt, emitted), InTimeOrder(emitted);
            && |rows| == |emitted| && multiset(sorted) == multiset(emitted) && Ordered(sorted)
            && forall i :: 0 <= i < |rows| ==>
                 rows[i].message.ordinal == Some(i) && rows[i].message.messageId == sorted[i].message.id
                 && rows[i].message.body == sorted[i].message.content && rows[i].message.author == sorted[i].message.author
                 && rows[i].message.timestamp == sorted[i].message.timestamp
  {
    hide InTimeOrder, Ordered;
    TimeOrderSorts(emitted);
    assert |multiset(InTimeOrder(emitted))| == |InTimeOrder(emitted)| && |multiset(emitted)| == |emitted|;
  }
}
