/**
 * Export of cached messages (`export_desktop_cache_records`): one observation is chosen per
 * message, exclusions are counted by reason and by channel, and every count adds up.
 */
module RecordExport {
  import opened Text
  import opened ChannelMap

  /** A message object of the cache. The last six say which fields are present and not empty. */
  datatype CachedMessage = CachedMessage(
    id: string, channel: string, timestamp: string, edited: string, author: string, content: string, conversation: bool,
    attachments: bool, snapshots: bool, stickers: bool, poll: bool, embeds: bool)

  datatype Candidate = Candidate(message: CachedMessage, observedAt: string, entryName: string)

  datatype Reason =
    | DmChannel | UnknownServer | SystemMessageType
    | AttachmentOnly | ForwardOnly | StickerOnly | PollOnly | EmbedOnly | NoContent

  const ALL_REASONS := [DmChannel, UnknownServer, SystemMessageType, AttachmentOnly, ForwardOnly, StickerOnly, PollOnly, EmbedOnly, NoContent]

  // ------------------------------------------------- choosing one observation

  /** `_Candidate.rank`: a less than b. */
  predicate Outranked(a: Candidate, b: Candidate) {
    || Less(a.message.edited, b.message.edited)
    || (a.message.edited == b.message.edited && Less(a.observedAt, b.observedAt))
    || (a.message.edited == b.message.edited && a.observedAt == b.observedAt && Less(a.entryName, b.entryName))
  }

  lemma OutrankedTransitive(a: Candidate, b: Candidate, c: Candidate)
    requires !Outranked(b, a) && !Outranked(c, b)
    ensures !Outranked(c, a)
  {
    LessTotal(a.message.edited, b.message.edited);
    LessTotal(b.message.edited, c.message.edited);
    LessTotal(a.observedAt, b.observedAt);
    LessTotal(b.observedAt, c.observedAt);
    LessTotal(a.entryName, b.entryName);
    LessTotal(b.entryName, c.entryName);
    RankCycle(a, b, c);
  }

  lemma RankCycle(a: Candidate, b: Candidate, c: Candidate)
    ensures !(Outranked(c, a) && (Outranked(a, b) || SameRank(a, b)) && (Outranked(b, c) || SameRank(b, c)))
  {
    StringCycle(a.message.edited, b.message.edited, c.message.edited);
    StringCycle(a.observedAt, b.observedAt, c.observedAt);
    StringCycle(a.entryName, b.entryName, c.entryName);
    LessIrreflexive(a.message.edited);
    LessIrreflexive(a.observedAt);
    LessIrreflexive(a.entryName);
  }

  predicate SameRank(a: Candidate, b: Candidate) {
    a.message.edited == b.message.edited && a.observedAt == b.observedAt && a.entryName == b.entryName
  }

  /** `a <= b <= c <= a` leaves only equality. */
  lemma StringCycle(a: string, b: string, c: string)
    ensures LessEq(a, b) && LessEq(b, c) && LessEq(c, a) ==> a == b == c
  {
    if LessEq(a, b) && LessEq(b, c) && LessEq(c, a) {
      if Less(a, b) && Less(b, c) { LessTransitive(a, b, c); }
      if Less(a, b) && b == c { LessAsymmetric(a, b); }
      if Less(a, c) { LessAsymmetric(a, c); }
      if Less(b, c) && a == b { LessAsymmetric(b, c); }
    }
  }

  /** `max(candidates, key=rank)`: the first of the highest rank. */
  function Best(candidates: seq<Candidate>): (i: nat)
    requires candidates != []
    ensures i < |candidates|
  {
    var n := |candidates| - 1;
    if n == 0 then 0
    else
      var i := Best(candidates[..n]);
      if Outranked(candidates[i], candidates[n]) then n else i
  }

  lemma {:induction false} BestIsFirstOfHighest(candidates: seq<Candidate>)
    requires candidates != []
    ensures forall k :: 0 <= k < |candidates| ==> !Outranked(candidates[Best(candidates)], candidates[k])
    ensures forall k :: 0 <= k < Best(candidates) ==> Outranked(candidates[k], candidates[Best(candidates)])
  {
    hide Outranked;
    var n := |candidates| - 1;
    var best := Best(candidates);
    if n == 0 {
      NotOutrankedBySelf(candidates[0]);
    } else {
      var rest := candidates[..n];
      BestIsFirstOfHighest(rest);
      var i := Best(rest);
      NotOutrankedBySelf(candidates[n]);
      if best == n {
        forall k | 0 <= k < n ensures !Outranked(candidates[n], candidates[k]) && Outranked(candidates[k], candidates[n]) {
          assert rest[k] == candidates[k] && !Outranked(rest[i], rest[k]);
          BelowTheNew(candidates[k], candidates[i], candidates[n]);
        }
      } else {
        assert forall k :: 0 <= k < n ==> rest[k] == candidates[k];
      }
    }
  }

  lemma NotOutrankedBySelf(a: Candidate)
    ensures !Outranked(a, a)
  {
    LessIrreflexive(a.message.edited);
    LessIrreflexive(a.observedAt);
    LessIrreflexive(a.entryName);
  }

  lemma BelowTheNew(k: Candidate, i: Candidate, n: Candidate)
    requires !Outranked(i, k) && Outranked(i, n)
    ensures Outranked(k, n) && !Outranked(n, k)
  {
    if !Outranked(k, n) { OutrankedTransitive(n, k, i); }
    OutrankedAsymmetric(k, n);
  }

  lemma OutrankedAsymmetric(a: Candidate, b: Candidate)
    ensures Outranked(a, b) ==> !Outranked(b, a)
  {
    NotOutrankedBySelf(a);
    RankCycle(a, b, b);
  }

  // ------------------------------------------------- exclusion

  /** `_exclusion_reason`. */
  function ContentReason(m: CachedMessage): Option<Reason> {
    if !m.conversation then Some(SystemMessageType)
    else if !Blank(m.content) then None
    else if m.attachments then Some(AttachmentOnly)
    else if m.snapshots then Some(ForwardOnly)
    else if m.stickers then Some(StickerOnly)
    else if m.poll then Some(PollOnly)
    else if m.embeds then Some(EmbedOnly)
    else Some(NoContent)
  }

  function ReasonFor(channels: Channels, includeDm: bool, m: CachedMessage): Option<Reason> {
    var kind := ChannelUrl(channels, m.channel).1;
    if kind == Dm && !includeDm then Some(DmChannel)
    else if kind == ServerUnknown then Some(UnknownServer)
    else ContentReason(m)
  }

  // ------------------------------------------------- one pick per message

  function WithId(observed: seq<Candidate>, id: string): seq<Candidate> {
    if observed == [] then []
    else WithId(observed[..|observed| - 1], id) + if observed[|observed| - 1].message.id == id then [observed[|observed| - 1]] else []
  }

  function Ids(observed: seq<Candidate>): seq<string> {
    seq(|observed|, i requires 0 <= i < |observed| => observed[i].message.id)
  }

  lemma {:induction false} WithIdIsFilter(observed: seq<Candidate>, id: string)
    ensures forall c :: c in WithId(observed, id) <==> c in observed && c.message.id == id
    ensures WithId(observed, id) == [] <==> id !in Ids(observed)
  {
    if observed != [] {
      var n := |observed| - 1;
      WithIdIsFilter(observed[..n], id);
      assert observed == observed[..n] + [observed[n]];
      assert Ids(observed) == Ids(observed[..n]) + [observed[n].message.id];
    }
  }

  /** The chosen observation of a message, and why it is left out, if it is. */
  datatype Pick = Pick(chosen: Candidate, reason: Option<Reason>)

  function PickFor(channels: Channels, includeDm: bool, observed: seq<Candidate>, id: string): Pick
    requires id in Ids(observed)
  {
    WithIdIsFilter(observed, id);
    var chosen := WithId(observed, id)[Best(WithId(observed, id))];
    Pick(chosen, ReasonFor(channels, includeDm, chosen.message))
  }

  /** The picks, in the order of the message ids. */
  function Picks(channels: Channels, includeDm: bool, observed: seq<Candidate>): seq<Pick> {
    var ids := SortedSet(Ids(observed));
    seq(|ids|, i requires 0 <= i < |ids| => PickFor(channels, includeDm, observed, ids[i]))
  }

  // ------------------------------------------------- buckets

  /** Weights that fall into buckets. */
  type Weighted<B> = seq<(B, nat)>

  function Weight<B>(items: Weighted<B>): nat {
    if items == [] then 0 else Weight(items[..|items| - 1]) + items[|items| - 1].1
  }

  function InBucket<B(==)>(items: Weighted<B>, bucket: B): nat {
    if items == [] then 0
    else InBucket(items[..|items| - 1], bucket) + if items[|items| - 1].0 == bucket then items[|items| - 1].1 else 0
  }

  function OverBuckets<B(==)>(items: Weighted<B>, buckets: seq<B>): nat {
    if buckets == [] then 0 else OverBuckets(items, buckets[..|buckets| - 1]) + InBucket(items, buckets[|buckets| - 1])
  }

  lemma {:induction false} OneMoreItem<B>(items: Weighted<B>, item: (B, nat), buckets: seq<B>)
    requires Distinct(buckets)
    ensures OverBuckets(items + [item], buckets) == OverBuckets(items, buckets) + if item.0 in buckets then item.1 else 0
  {
    assert (items + [item])[..|items|] == items;
    if buckets != [] {
      var n := |buckets| - 1;
      OneMoreItem(items, item, buckets[..n]);
      assert buckets[n] !in buckets[..n];
    }
  }

  lemma {:induction false} NoItems<B>(buckets: seq<B>)
    ensures OverBuckets<B>([], buckets) == 0
  {
    if buckets != [] { NoItems(buckets[..|buckets| - 1]); }
  }

  /** Distinct buckets that hold everything share out the whole weight. */
  lemma {:induction false} BucketsSum<B>(items: Weighted<B>, buckets: seq<B>)
    requires Distinct(buckets) && forall i :: 0 <= i < |items| ==> items[i].0 in buckets
    ensures OverBuckets(items, buckets) == Weight(items)
  {
    if items == [] {
      NoItems(buckets);
    } else {
      var n := |items| - 1;
      BucketsSum(items[..n], buckets);
      OneMoreItem(items[..n], items[n], buckets);
      assert items == items[..n] + [items[n]];
    }
  }

  function Relabel<B, K>(items: Weighted<B>, tag: B -> K): Weighted<K> {
    seq(|items|, i requires 0 <= i < |items| => (tag(items[i].0), items[i].1))
  }

  /** One line per bucket, with the weight of the bucket, under the tag of the bucket. */
  function Lines<B(==), K>(items: Weighted<B>, tag: B -> K, buckets: seq<B>): Weighted<K> {
    seq(|buckets|, i requires 0 <= i < |buckets| => (tag(buckets[i]), InBucket(items, buckets[i])))
  }

  lemma LinesGrow<B, K>(items: Weighted<B>, tag: B -> K, buckets: seq<B>, last: B)
    ensures Lines(items, tag, buckets + [last]) == Lines(items, tag, buckets) + [(tag(last), InBucket(items, last))]
  {
  }

  lemma {:induction false} OneMoreInLines<B, K>(items: Weighted<B>, item: (B, nat), tag: B -> K, buckets: seq<B>, k: K)
    requires Distinct(buckets)
    ensures InBucket(Lines(items + [item], tag, buckets), k)
            == InBucket(Lines(items, tag, buckets), k) + if item.0 in buckets && tag(item.0) == k then item.1 else 0
  {
    if buckets != [] {
      var n := |buckets| - 1;
      var last := buckets[n];
      OneMoreInLines(items, item, tag, buckets[..n], k);
      assert buckets == buckets[..n] + [last] && last !in buckets[..n];
      LinesGrow(items, tag, buckets[..n], last);
      LinesGrow(items + [item], tag, buckets[..n], last);
      assert (items + [item])[..|items|] == items;
    }
  }

  lemma {:induction false} EmptyLines<B, K>(tag: B -> K, buckets: seq<B>, k: K)
    ensures InBucket(Lines([], tag, buckets), k) == 0
  {
    if buckets != [] {
      var n := |buckets| - 1;
      EmptyLines(tag, buckets[..n], k);
      assert buckets == buckets[..n] + [buckets[n]];
      LinesGrow([], tag, buckets[..n], buckets[n]);
    }
  }

  /** Summing up line by line is summing up item by item. */
  lemma {:induction false} LinesRegroup<B, K>(items: Weighted<B>, tag: B -> K, buckets: seq<B>, k: K)
    requires Distinct(buckets) && forall i :: 0 <= i < |items| ==> items[i].0 in buckets
    ensures InBucket(Lines(items, tag, buckets), k) == InBucket(Relabel(items, tag), k)
  {
    if items == [] {
      EmptyLines(tag, buckets, k);
    } else {
      var n := |items| - 1;
      LinesRegroup(items[..n], tag, buckets, k);
      OneMoreInLines(items[..n], items[n], tag, buckets, k);
      assert items == items[..n] + [items[n]];
      assert Relabel(items, tag) == Relabel(items[..n], tag) + [(tag(items[n].0), items[n].1)];
    }
  }

  // ------------------------------------------------- counting picks

  function One(b: bool): nat {
    if b then 1 else 0
  }

  function Channel(p: Pick): string {
    p.chosen.message.channel
  }

  function EmittedItems(picks: seq<Pick>): Weighted<string> {
    seq(|picks|, i requires 0 <= i < |picks| => (Channel(picks[i]), One(picks[i].reason.None?)))
  }

  function ExcludedItems(picks: seq<Pick>): Weighted<string> {
    seq(|picks|, i requires 0 <= i < |picks| => (Channel(picks[i]), One(picks[i].reason.Some?)))
  }

  function ReasonItems(picks: seq<Pick>): Weighted<Option<Reason>> {
    seq(|picks|, i requires 0 <= i < |picks| => (picks[i].reason, One(picks[i].reason.Some?)))
  }

  /** The messages emitted for a channel, in the order of their ids. */
  function EmittedIn(picks: seq<Pick>, channel: string): seq<Candidate> {
    if picks == [] then []
    else
      var p := picks[|picks| - 1];
      EmittedIn(picks[..|picks| - 1], channel) + if p.reason.None? && Channel(p) == channel then [p.chosen] else []
  }

  lemma ItemsGrow(picks: seq<Pick>, p: Pick)
    ensures EmittedItems(picks + [p]) == EmittedItems(picks) + [(Channel(p), One(p.reason.None?))]
    ensures ExcludedItems(picks + [p]) == ExcludedItems(picks) + [(Channel(p), One(p.reason.Some?))]
    ensures ReasonItems(picks + [p]) == ReasonItems(picks) + [(p.reason, One(p.reason.Some?))]
  {
  }

  lemma BucketGrows<B>(items: Weighted<B>, item: (B, nat), bucket: B)
    ensures InBucket(items + [item], bucket) == InBucket(items, bucket) + if item.0 == bucket then item.1 else 0
    ensures Weight(items + [item]) == Weight(items) + item.1
  {
    assert (items + [item])[..|items|] == items;
  }

  lemma {:induction false} EmittedCount(picks: seq<Pick>, channel: string)
    ensures |EmittedIn(picks, channel)| == InBucket(EmittedItems(picks), channel)
  {
    if picks != [] {
      var n := |picks| - 1;
      EmittedCount(picks[..n], channel);
      assert picks == picks[..n] + [picks[n]];
      ItemsGrow(picks[..n], picks[n]);
      BucketGrows(EmittedItems(picks[..n]), (Channel(picks[n]), One(picks[n].reason.None?)), channel);
    }
  }

  /** Every message seen is emitted or excluded, and excluded for one reason. */
  lemma {:induction false} SeenIsEmittedOrExcluded(picks: seq<Pick>)
    ensures |picks| == Weight(EmittedItems(picks)) + Weight(ExcludedItems(picks))
    ensures Weight(ReasonItems(picks)) == Weight(ExcludedItems(picks))
  {
    if picks != [] {
      var n := |picks| - 1;
      var p := picks[n];
      SeenIsEmittedOrExcluded(picks[..n]);
      assert picks == picks[..n] + [p];
      ItemsGrow(picks[..n], p);
      BucketGrows(EmittedItems(picks[..n]), (Channel(p), One(p.reason.None?)), "");
      BucketGrows(ExcludedItems(picks[..n]), (Channel(p), One(p.reason.Some?)), "");
      BucketGrows(ReasonItems(picks[..n]), (p.reason, One(p.reason.Some?)), None);
    }
  }

  // ------------------------------------------------- the program: selection

  function CountAt<K(==)>(counts: map<K, nat>, k: K): nat {
    if k in counts then counts[k] else 0
  }

  method GroupCandidates(observed: seq<Candidate>) returns (candidates: map<string, seq<Candidate>>)
    ensures candidates.Keys == set id | id in Ids(observed)
    ensures forall id :: id in candidates ==> candidates[id] == WithId(observed, id)
  {
    candidates := map[];
    assert observed[..0] == [];
    for i := 0 to |observed|
      invariant candidates.Keys == set id | id in Ids(observed[..i])
      invariant forall id :: id in candidates ==> candidates[id] == WithId(observed[..i], id)
    {
      var id := observed[i].message.id;
      assert observed[..i + 1][..i] == observed[..i];
      assert Ids(observed[..i + 1]) == Ids(observed[..i]) + [id];
      WithIdIsFilter(observed[..i], id);
      candidates := candidates[id := (if id in candidates then candidates[id] else []) + [observed[i]]];
    }
    assert observed[..|observed|] == observed;
  }

  predicate HasChannel(picks: seq<Pick>, channel: string) {
    exists i :: 0 <= i < |picks| && Channel(picks[i]) == channel
  }

  ghost predicate ReasonsCounted(picks: seq<Pick>, exclusions: map<Reason, nat>) {
    forall r :: CountAt(exclusions, r) == InBucket(ReasonItems(picks), Some(r))
  }

  ghost predicate ExcludedCounted(picks: seq<Pick>, channelExcluded: map<string, nat>) {
    forall c :: CountAt(channelExcluded, c) == InBucket(ExcludedItems(picks), c)
  }

  ghost predicate EmittedKept(picks: seq<Pick>, byChannel: map<string, seq<Candidate>>) {
    && (forall c :: c in byChannel <==> HasChannel(picks, c))
    && (forall c :: c in byChannel ==> byChannel[c] == EmittedIn(picks, c))
  }

  /** What the selection leaves in its three dictionaries. */
  ghost predicate Counted(picks: seq<Pick>, exclusions: map<Reason, nat>, byChannel: map<string, seq<Candidate>>, channelExcluded: map<string, nat>) {
    ReasonsCounted(picks, exclusions) && EmittedKept(picks, byChannel) && ExcludedCounted(picks, channelExcluded)
  }

  lemma NothingCounted()
    ensures Counted([], map[], map[], map[])
  {
  }

  lemma {:induction false} NoneEmitted(picks: seq<Pick>, channel: string)
    requires !HasChannel(picks, channel)
    ensures EmittedIn(picks, channel) == []
  {
    if picks != [] {
      var n := |picks| - 1;
      assert forall i :: 0 <= i < n ==> picks[..n][i] == picks[i];
      NoneEmitted(picks[..n], channel);
    }
  }

  lemma ReasonsGrow(picks: seq<Pick>, p: Pick, exclusions: map<Reason, nat>)
    requires ReasonsCounted(picks, exclusions)
    ensures ReasonsCounted(picks + [p], if p.reason.Some? then exclusions[p.reason.value := CountAt(exclusions, p.reason.value) + 1] else exclusions)
  {
    hide InBucket;
    ItemsGrow(picks, p);
    var exclusions' := if p.reason.Some? then exclusions[p.reason.value := CountAt(exclusions, p.reason.value) + 1] else exclusions;
    forall r ensures CountAt(exclusions', r) == InBucket(ReasonItems(picks + [p]), Some(r)) {
      BucketGrows(ReasonItems(picks), (p.reason, One(p.reason.Some?)), Some(r));
    }
  }

  lemma ExcludedGrow(picks: seq<Pick>, p: Pick, channelExcluded: map<string, nat>)
    requires ExcludedCounted(picks, channelExcluded)
    ensures ExcludedCounted(picks + [p], if p.reason.Some? then channelExcluded[Channel(p) := CountAt(channelExcluded, Channel(p)) + 1] else channelExcluded)
  {
    hide InBucket;
    ItemsGrow(picks, p);
    var c := Channel(p);
    var channelExcluded' := if p.reason.Some? then channelExcluded[c := CountAt(channelExcluded, c) + 1] else channelExcluded;
    forall x ensures CountAt(channelExcluded', x) == InBucket(ExcludedItems(picks + [p]), x) {
      BucketGrows(ExcludedItems(picks), (c, One(p.reason.Some?)), x);
    }
  }

  lemma HasChannelGrows(picks: seq<Pick>, p: Pick, c: string)
    ensures HasChannel(picks + [p], c) <==> HasChannel(picks, c) || Channel(p) == c
  {
    var more := picks + [p];
    assert more[|picks|] == p;
    assert forall i :: 0 <= i < |picks| ==> more[i] == picks[i];
  }

  lemma EmittedGrows(picks: seq<Pick>, p: Pick, c: string)
    ensures EmittedIn(picks + [p], c) == if p.reason.None? && Channel(p) == c then EmittedIn(picks, c) + [p.chosen] else EmittedIn(picks, c)
  {
    assert (picks + [p])[..|picks|] == picks;
    assert EmittedIn(picks, c) + [] == EmittedIn(picks, c);
  }

  lemma KeptGrows(picks: seq<Pick>, p: Pick, byChannel: map<string, seq<Candidate>>)
    requires EmittedKept(picks, byChannel)
    ensures var c := Channel(p);
            var before := if c in byChannel then byChannel[c] else [];
            EmittedKept(picks + [p], byChannel[c := if p.reason.None? then before + [p.chosen] else before])
  {
    hide EmittedIn, HasChannel;
    var c := Channel(p);
    var before := if c in byChannel then byChannel[c] else [];
    var byChannel' := byChannel[c := if p.reason.None? then before + [p.chosen] else before];
    if c !in byChannel { NoneEmitted(picks, c); }
    forall x ensures x in byChannel' <==> HasChannel(picks + [p], x) { HasChannelGrows(picks, p, x); }
    forall x | x in byChannel' ensures byChannel'[x] == EmittedIn(picks + [p], x) { EmittedGrows(picks, p, x); }
  }

  /** What is chosen for one message id. */
  lemma PickAt(channels: Channels, includeDm: bool, observed: seq<Candidate>, id: string)
    requires id in Ids(observed)
    ensures WithId(observed, id) != []
    ensures var group := WithId(observed, id);
            PickFor(channels, includeDm, observed, id)
            == Pick(group[Best(group)], ReasonFor(channels, includeDm, group[Best(group)].message))
  {
    hide ReasonFor, Best, WithId;
    WithIdIsFilter(observed, id);
  }

  /** The selection loop. */
  method SelectMessages(channels: Channels, includeDm: bool, observed: seq<Candidate>)
    returns (exclusions: map<Reason, nat>, byChannel: map<string, seq<Candidate>>, channelExcluded: map<string, nat>, uniqueSeen: nat)
    ensures Counted(Picks(channels, includeDm, observed), exclusions, byChannel, channelExcluded)
    ensures uniqueSeen == |Picks(channels, includeDm, observed)|
  {
    hide ReasonsCounted, EmittedKept, ExcludedCounted, ReasonFor, WithId, Best, CountAt, PickFor, Ids, SortedSet;
    var candidates := GroupCandidates(observed);
    exclusions, byChannel, channelExcluded := map[], map[], map[];
    var ids := SortedSet(Ids(observed));
    ghost var picks := Picks(channels, includeDm, observed);
    NothingCounted();
    assert picks[..0] == [];
    for i := 0 to |ids|
      invariant Counted(picks[..i], exclusions, byChannel, channelExcluded)
    {
      assert ids[i] in Ids(observed);
      PickAt(channels, includeDm, observed, ids[i]);
      var group := candidates[ids[i]];
      var chosen: Candidate := group[Best(group)];
      var channel := chosen.message.channel;
      var reason := ReasonFor(channels, includeDm, chosen.message);
      assert picks[..i + 1] == picks[..i] + [Pick(chosen, reason)];
      ReasonsGrow(picks[..i], picks[i], exclusions);
      ExcludedGrow(picks[..i], picks[i], channelExcluded);
      KeptGrows(picks[..i], picks[i], byChannel);
      if reason.Some? {
        exclusions := exclusions[reason.value := CountAt(exclusions, reason.value) + 1];
        channelExcluded := channelExcluded[channel := CountAt(channelExcluded, channel) + 1];
        byChannel := byChannel[channel := if channel in byChannel then byChannel[channel] else []];
      } else {
        byChannel := byChannel[channel := (if channel in byChannel then byChannel[channel] else []) + [chosen]];
      }
    }
    assert picks[..|ids|] == picks;
    uniqueSeen := |ids|;
  }
}
