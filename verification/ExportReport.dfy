/** The report of an export: totals by channel, server, kind and reason, and why they add up. */
module ExportReport {
  import opened Text
  import opened ChannelMap
  import opened RecordExport

  // ------------------------------------------------- channels in order

  /** Shorter ids first, then by text. */
  predicate Earlier(a: string, b: string) {
    |a| < |b| || (|a| == |b| && Less(a, b))
  }

  function InsertChannel(c: string, order: seq<string>): seq<string> {
    if order == [] then [c]
    else if c == order[0] then order
    else if Earlier(c, order[0]) then [c] + order
    else [order[0]] + InsertChannel(c, order[1..])
  }

  function ChannelOrder(picks: seq<Pick>): seq<string> {
    if picks == [] then [] else InsertChannel(Channel(picks[|picks| - 1]), ChannelOrder(picks[..|picks| - 1]))
  }

  predicate InOrder(order: seq<string>) {
    forall i, j :: 0 <= i < j < |order| ==> Earlier(order[i], order[j])
  }

  lemma {:induction false} InsertedChannel(c: string, order: seq<string>)
    requires InOrder(order)
    ensures forall x :: x in InsertChannel(c, order) <==> x == c || x in order
    ensures InOrder(InsertChannel(c, order))
  {
    if order != [] && c != order[0] {
      if Earlier(c, order[0]) {
        forall j | 0 <= j < |order| ensures Earlier(c, order[j]) {
          if j > 0 && |c| == |order[0]| == |order[j]| { LessTransitive(c, order[0], order[j]); }
        }
      } else {
        LessTotal(c, order[0]);
        InsertedChannel(c, order[1..]);
        var rest := InsertChannel(c, order[1..]);
        forall x | x in rest ensures Earlier(order[0], x) {
          if x != c {
            var j :| 0 <= j < |order[1..]| && order[1..][j] == x;
            assert order[j + 1] == x;
          }
        }
      }
    }
  }

  lemma EarlierIrreflexive(a: string)
    ensures !Earlier(a, a)
  {
    LessIrreflexive(a);
  }

  /** The order lists every channel once. */
  lemma {:induction false} OrderCovers(picks: seq<Pick>)
    ensures InOrder(ChannelOrder(picks)) && Distinct(ChannelOrder(picks))
    ensures forall c :: c in ChannelOrder(picks) <==> HasChannel(picks, c)
  {
    hide Earlier, HasChannel;
    if picks == [] {
      NoChannels();
    } else {
      var n := |picks| - 1;
      OrderCovers(picks[..n]);
      InsertedChannel(Channel(picks[n]), ChannelOrder(picks[..n]));
      assert picks == picks[..n] + [picks[n]];
      forall c ensures HasChannel(picks, c) <==> HasChannel(picks[..n], c) || Channel(picks[n]) == c {
        HasChannelGrows(picks[..n], picks[n], c);
      }
    }
    var order := ChannelOrder(picks);
    forall i, j | 0 <= i < j < |order| ensures order[i] != order[j] { EarlierIrreflexive(order[i]); }
  }

  lemma NoChannels()
    ensures forall c :: !HasChannel([], c)
  {
  }

  // ------------------------------------------------- the totals

  function KindTag(channels: Channels): string -> UrlKind {
    (c: string) => ChannelUrl(channels, c).1
  }

  /** The server a channel counts for; none for direct messages and unknown servers. */
  function ServerTag(channels: Channels, serverKey: string -> string): string -> Option<string> {
    (c: string) => match ChannelUrl(channels, c).2 case None => None case Some(guild) => Some(serverKey(guild))
  }

  function SeenItems(picks: seq<Pick>): Weighted<string> {
    seq(|picks|, i requires 0 <= i < |picks| => (Channel(picks[i]), 1))
  }

  /** One per channel. */
  function Ones<K>(order: seq<string>, tag: string -> K): Weighted<K> {
    seq(|order|, i requires 0 <= i < |order| => (tag(order[i]), 1))
  }

  datatype ServerLine = ServerLine(channels: nat, messages: nat)

  function MessagesOf(servers: map<string, ServerLine>, key: string): nat {
    if key in servers then servers[key].messages else 0
  }

  function ChannelsOf(servers: map<string, ServerLine>, key: string): nat {
    if key in servers then servers[key].channels else 0
  }

  /** One line per channel, which counts when the channel emits. */
  function Emitting<K>(picks: seq<Pick>, order: seq<string>, tag: string -> K): Weighted<K> {
    seq(|order|, i requires 0 <= i < |order| => (tag(order[i]), One(EmittedIn(picks, order[i]) != [])))
  }

  /** A server has a line when one of its channels emits, and the line counts these channels. */
  ghost predicate ChannelsCounted(channels: Channels, serverKey: string -> string, picks: seq<Pick>, order: seq<string>, servers: map<string, ServerLine>) {
    forall key ::
      && ChannelsOf(servers, key) == InBucket(Emitting(picks, order, ServerTag(channels, serverKey)), Some(key))
      && (key in servers <==> ChannelsOf(servers, key) > 0)
  }

  datatype Totals = Totals(
    unknownChannels: nat, unknownMessages: nat, dmChannels: nat, dmMessages: nat,
    servers: map<string, ServerLine>, emitted: nat)

  ghost predicate TotalsAre(channels: Channels, serverKey: string -> string, picks: seq<Pick>, order: seq<string>, t: Totals) {
    && t.unknownChannels == InBucket(Ones(order, KindTag(channels)), ServerUnknown)
    && t.unknownMessages == InBucket(Lines(ExcludedItems(picks), KindTag(channels), order), ServerUnknown)
    && t.dmChannels == InBucket(Ones(order, KindTag(channels)), Dm)
    && t.dmMessages == InBucket(Lines(SeenItems(picks), KindTag(channels), order), Dm)
    && t.emitted == OverBuckets(EmittedItems(picks), order)
    && (forall key :: MessagesOf(t.servers, key) == InBucket(Lines(EmittedItems(picks), ServerTag(channels, serverKey), order), Some(key)))
    && ChannelsCounted(channels, serverKey, picks, order, t.servers)
  }

  /** A channel without URL emits nothing. */
  ghost predicate UnknownEmitNothing(channels: Channels, picks: seq<Pick>) {
    forall c :: ChannelUrl(channels, c).0.None? ==> EmittedIn(picks, c) == []
  }

  lemma NoTotals(channels: Channels, serverKey: string -> string, picks: seq<Pick>)
    ensures TotalsAre(channels, serverKey, picks, [], Totals(0, 0, 0, 0, map[], 0))
  {
  }

  lemma OnesGrow<K>(order: seq<string>, tag: string -> K, c: string)
    ensures Ones(order + [c], tag) == Ones(order, tag) + [(tag(c), 1)]
  {
  }

  lemma {:induction false} SeenInChannel(picks: seq<Pick>, c: string)
    ensures InBucket(SeenItems(picks), c) == |EmittedIn(picks, c)| + InBucket(ExcludedItems(picks), c)
  {
    if picks != [] {
      var n := |picks| - 1;
      var p := picks[n];
      SeenInChannel(picks[..n], c);
      assert picks == picks[..n] + [p];
      assert SeenItems(picks) == SeenItems(picks[..n]) + [(Channel(p), 1)];
      ItemsGrow(picks[..n], p);
      BucketGrows(SeenItems(picks[..n]), (Channel(p), 1), c);
      BucketGrows(ExcludedItems(picks[..n]), (Channel(p), One(p.reason.Some?)), c);
    }
  }

  /** One channel more. */
  function AddChannel(channels: Channels, serverKey: string -> string, t: Totals, c: string, emitted: nat, excluded: nat): Totals {
    var (url, kind, guild) := ChannelUrl(channels, c);
    var t1 := if kind == ServerUnknown then t.(unknownChannels := t.unknownChannels + 1, unknownMessages := t.unknownMessages + excluded) else t;
    var t2 := if kind == Dm then t1.(dmChannels := t1.dmChannels + 1, dmMessages := t1.dmMessages + emitted + excluded) else t1;
    if emitted == 0 || url.None? then t2
    else
      var t3 := t2.(emitted := t2.emitted + emitted);
      if guild.None? then t3
      else
        var key := serverKey(guild.value);
        var line := if key in t3.servers then t3.servers[key] else ServerLine(0, 0);
        t3.(servers := t3.servers[key := ServerLine(line.channels + 1, line.messages + emitted)])
  }

  lemma AddedMessages(channels: Channels, serverKey: string -> string, t: Totals, c: string, emitted: nat, excluded: nat, key: string)
    requires ChannelUrl(channels, c).0.None? ==> emitted == 0
    ensures MessagesOf(AddChannel(channels, serverKey, t, c, emitted, excluded).servers, key)
            == MessagesOf(t.servers, key) + if ServerTag(channels, serverKey)(c) == Some(key) then emitted else 0
  {
  }

  lemma AddedTotals(channels: Channels, serverKey: string -> string, t: Totals, c: string, emitted: nat, excluded: nat)
    requires ChannelUrl(channels, c).0.None? ==> emitted == 0
    ensures var t', kind := AddChannel(channels, serverKey, t, c, emitted, excluded), KindTag(channels)(c);
            && t'.unknownChannels == t.unknownChannels + One(kind == ServerUnknown)
            && t'.unknownMessages == t.unknownMessages + (if kind == ServerUnknown then excluded else 0)
            && t'.dmChannels == t.dmChannels + One(kind == Dm)
            && t'.dmMessages == t.dmMessages + (if kind == Dm then emitted + excluded else 0)
            && t'.emitted == t.emitted + emitted
  {
  }

  lemma AddedChannel(channels: Channels, serverKey: string -> string, t: Totals, c: string, emitted: nat, excluded: nat, key: string)
    requires ChannelUrl(channels, c).0.None? ==> emitted == 0
    requires key in t.servers <==> ChannelsOf(t.servers, key) > 0
    ensures var servers := AddChannel(channels, serverKey, t, c, emitted, excluded).servers;
            && ChannelsOf(servers, key) == ChannelsOf(t.servers, key) + One(ServerTag(channels, serverKey)(c) == Some(key) && emitted > 0)
            && (key in servers <==> ChannelsOf(servers, key) > 0)
  {
  }

  lemma EmittingGrows<K>(picks: seq<Pick>, order: seq<string>, tag: string -> K, c: string)
    ensures Emitting(picks, order + [c], tag) == Emitting(picks, order, tag) + [(tag(c), One(EmittedIn(picks, c) != []))]
  {
  }

  lemma ChannelsGrow(channels: Channels, serverKey: string -> string, picks: seq<Pick>, order: seq<string>, t: Totals, c: string)
    requires ChannelsCounted(channels, serverKey, picks, order, t.servers) && UnknownEmitNothing(channels, picks)
    ensures ChannelsCounted(channels, serverKey, picks, order + [c],
                            AddChannel(channels, serverKey, t, c, |EmittedIn(picks, c)|, InBucket(ExcludedItems(picks), c)).servers)
  {
    hide AddChannel, InBucket, EmittedIn, ChannelUrl, ExcludedItems, ServerTag, ChannelsOf, Emitting;
    var emitted, excluded := |EmittedIn(picks, c)|, InBucket(ExcludedItems(picks), c);
    var tag := ServerTag(channels, serverKey);
    EmittingGrows(picks, order, tag, c);
    forall key
      ensures var servers := AddChannel(channels, serverKey, t, c, emitted, excluded).servers;
              ChannelsOf(servers, key) == InBucket(Emitting(picks, order + [c], tag), Some(key)) && (key in servers <==> ChannelsOf(servers, key) > 0)
    {
      AddedChannel(channels, serverKey, t, c, emitted, excluded, key);
      BucketGrows(Emitting(picks, order, tag), (tag(c), One(EmittedIn(picks, c) != [])), Some(key));
    }
  }

  lemma TotalsGrow(channels: Channels, serverKey: string -> string, picks: seq<Pick>, order: seq<string>, t: Totals, c: string)
    requires TotalsAre(channels, serverKey, picks, order, t) && UnknownEmitNothing(channels, picks)
    ensures TotalsAre(channels, serverKey, picks, order + [c],
                      AddChannel(channels, serverKey, t, c, |EmittedIn(picks, c)|, InBucket(ExcludedItems(picks), c)))
  {
    hide AddChannel, InBucket, EmittedIn, ChannelUrl, EmittedItems, ExcludedItems;
    hide SeenItems, KindTag, ServerTag, MessagesOf, Lines, Ones, ChannelsCounted;
    ChannelsGrow(channels, serverKey, picks, order, t, c);
    var emitted, excluded := |EmittedIn(picks, c)|, InBucket(ExcludedItems(picks), c);
    var kinds, servers := KindTag(channels), ServerTag(channels, serverKey);
    AddedTotals(channels, serverKey, t, c, emitted, excluded);
    EmittedCount(picks, c);
    SeenInChannel(picks, c);
    OnesGrow(order, kinds, c);
    BucketGrows(Ones(order, kinds), (kinds(c), 1), ServerUnknown);
    BucketGrows(Ones(order, kinds), (kinds(c), 1), Dm);
    LinesGrow(ExcludedItems(picks), kinds, order, c);
    BucketGrows(Lines(ExcludedItems(picks), kinds, order), (kinds(c), excluded), ServerUnknown);
    LinesGrow(SeenItems(picks), kinds, order, c);
    BucketGrows(Lines(SeenItems(picks), kinds, order), (kinds(c), InBucket(SeenItems(picks), c)), Dm);
    assert (order + [c])[..|order|] == order;
    LinesGrow(EmittedItems(picks), servers, order, c);
    var t' := AddChannel(channels, serverKey, t, c, emitted, excluded);
    forall key ensures MessagesOf(t'.servers, key) == InBucket(Lines(EmittedItems(picks), servers, order + [c]), Some(key)) {
      AddedMessages(channels, serverKey, t, c, emitted, excluded, key);
      BucketGrows(Lines(EmittedItems(picks), servers, order), (servers(c), emitted), Some(key));
    }
  }

  /** The loop over the channels. */
  method Summarise(channels: Channels, serverKey: string -> string, ghost picks: seq<Pick>, order: seq<string>,
                   byChannel: map<string, seq<Candidate>>, channelExcluded: map<string, nat>)
    returns (t: Totals)
    requires UnknownEmitNothing(channels, picks) && forall c :: c in order ==> HasChannel(picks, c)
    requires EmittedKept(picks, byChannel) && ExcludedCounted(picks, channelExcluded)
    ensures TotalsAre(channels, serverKey, picks, order, t)
  {
    hide TotalsAre, UnknownEmitNothing, AddChannel, EmittedIn, HasChannel, InBucket, ExcludedItems;
    t := Totals(0, 0, 0, 0, map[], 0);
    NoTotals(channels, serverKey, picks);
    assert order[..0] == [];
    for i := 0 to |order|
      invariant TotalsAre(channels, serverKey, picks, order[..i], t)
    {
      var c := order[i];
      assert HasChannel(picks, c);
      TotalsGrow(channels, serverKey, picks, order[..i], t, c);
      assert order[..i + 1] == order[..i] + [c];
      t := AddChannel(channels, serverKey, t, c, |byChannel[c]|, CountAt(channelExcluded, c));
    }
    assert order[..|order|] == order;
  }

  predicate Emits(picks: seq<Pick>, tag: string -> Option<string>, key: string, c: string) {
    tag(c) == Some(key) && EmittedIn(picks, c) != []
  }

  /** The channels of one server that emit. */
  function EmittingOf(picks: seq<Pick>, order: seq<string>, tag: string -> Option<string>, key: string): set<string> {
    set c | c in order && Emits(picks, tag, key, c)
  }

  lemma EmittingOfGrows(picks: seq<Pick>, order: seq<string>, tag: string -> Option<string>, key: string, c: string)
    requires c !in order
    ensures |EmittingOf(picks, order + [c], tag, key)| == |EmittingOf(picks, order, tag, key)| + One(Emits(picks, tag, key, c))
  {
    hide Emits;
    var before, now := EmittingOf(picks, order, tag, key), EmittingOf(picks, order + [c], tag, key);
    assert now == if Emits(picks, tag, key, c) then before + {c} else before;
  }

  lemma {:induction false} CountedOnce(picks: seq<Pick>, order: seq<string>, tag: string -> Option<string>, key: string)
    requires Distinct(order)
    ensures InBucket(Emitting(picks, order, tag), Some(key)) == |EmittingOf(picks, order, tag, key)|
  {
    hide EmittedIn, InBucket, Emitting, EmittingOf;
    if order == [] {
      NothingEmits(picks, tag, key);
    } else {
      var n := |order| - 1;
      var c := order[n];
      CountedOnce(picks, order[..n], tag, key);
      assert order == order[..n] + [c] && c !in order[..n];
      EmittingGrows(picks, order[..n], tag, c);
      BucketGrows(Emitting(picks, order[..n], tag), (tag(c), One(EmittedIn(picks, c) != [])), Some(key));
      EmittingOfGrows(picks, order[..n], tag, key, c);
    }
  }

  lemma NothingEmits(picks: seq<Pick>, tag: string -> Option<string>, key: string)
    ensures InBucket(Emitting(picks, [], tag), Some(key)) == 0 && EmittingOf(picks, [], tag, key) == {}
  {
  }

  /** A server has a line exactly when a channel of it emits, and the line counts its emitting channels, each once. */
  lemma ServerChannels(channels: Channels, serverKey: string -> string, picks: seq<Pick>, t: Totals, key: string)
    requires TotalsAre(channels, serverKey, picks, ChannelOrder(picks), t)
    ensures ChannelsOf(t.servers, key) == |EmittingOf(picks, ChannelOrder(picks), ServerTag(channels, serverKey), key)|
    ensures key in t.servers <==> exists c :: HasChannel(picks, c) && Emits(picks, ServerTag(channels, serverKey), key, c)
  {
    hide *;
    var tag := ServerTag(channels, serverKey);
    var order := ChannelOrder(picks);
    OrderCovers(picks);
    CountsOf(channels, serverKey, picks, order, t, key);
    CountedOnce(picks, order, tag, key);
    EmittingSome(picks, order, tag, key);
  }

  lemma CountsOf(channels: Channels, serverKey: string -> string, picks: seq<Pick>, order: seq<string>, t: Totals, key: string)
    requires TotalsAre(channels, serverKey, picks, order, t)
    ensures ChannelsOf(t.servers, key) == InBucket(Emitting(picks, order, ServerTag(channels, serverKey)), Some(key))
    ensures key in t.servers <==> ChannelsOf(t.servers, key) > 0
  {
    hide InBucket, Emitting, ServerTag, ChannelsOf, MessagesOf, KindTag, Lines, Ones, OverBuckets, EmittedItems, ExcludedItems, SeenItems;
  }

  lemma EmittingSome(picks: seq<Pick>, order: seq<string>, tag: string -> Option<string>, key: string)
    requires forall c :: c in order <==> HasChannel(picks, c)
    ensures |EmittingOf(picks, order, tag, key)| > 0 <==> exists c :: HasChannel(picks, c) && Emits(picks, tag, key, c)
  {
    hide Emits, HasChannel;
    var emitting := EmittingOf(picks, order, tag, key);
    if |emitting| > 0 {
      var c :| c in emitting;
      assert HasChannel(picks, c) && Emits(picks, tag, key, c);
    }
    if c :| HasChannel(picks, c) && Emits(picks, tag, key, c) {
      assert c in emitting;
    }
  }

  // ------------------------------------------------- why it adds up

  /** Sum of `CountAt` over a list of reasons. */
  function SumCounts(exclusions: map<Reason, nat>, reasons: seq<Reason>): nat {
    if reasons == [] then 0 else SumCounts(exclusions, reasons[..|reasons| - 1]) + CountAt(exclusions, reasons[|reasons| - 1])
  }

  function SumMessages(servers: map<string, ServerLine>, keys: seq<string>): nat {
    if keys == [] then 0 else SumMessages(servers, keys[..|keys| - 1]) + MessagesOf(servers, keys[|keys| - 1])
  }

  function Somes<B>(s: seq<B>): seq<Option<B>> {
    seq(|s|, i requires 0 <= i < |s| => Some(s[i]))
  }

  lemma {:induction false} SameBuckets<B, K>(a: Weighted<B>, x: B, b: Weighted<K>, y: K)
    requires |a| == |b|
    requires forall i :: 0 <= i < |a| ==> (if a[i].0 == x then a[i].1 else 0) == (if b[i].0 == y then b[i].1 else 0)
    ensures InBucket(a, x) == InBucket(b, y)
  {
    if a != [] { SameBuckets(a[..|a| - 1], x, b[..|b| - 1], y); }
  }

  lemma {:induction false} EmptyBucket<B>(a: Weighted<B>, x: B)
    requires forall i :: 0 <= i < |a| ==> a[i].0 != x || a[i].1 == 0
    ensures InBucket(a, x) == 0
  {
    if a != [] { EmptyBucket(a[..|a| - 1], x); }
  }

  lemma {:induction false} SomesOver<B>(items: Weighted<Option<B>>, buckets: seq<B>)
    ensures OverBuckets(items, [None] + Somes(buckets)) == InBucket(items, None) + OverBuckets(items, Somes(buckets))
  {
    if buckets == [] {
      var none: seq<Option<B>> := [None];
      assert none + Somes(buckets) == none && none[..0] == [];
    } else {
      var n := |buckets| - 1;
      SomesOver(items, buckets[..n]);
      var all := [None] + Somes(buckets);
      assert all[..|all| - 1] == [None] + Somes(buckets[..n]);
      assert Somes(buckets)[..n] == Somes(buckets[..n]);
    }
  }

  lemma SomesDistinct<B>(buckets: seq<B>)
    requires Distinct(buckets)
    ensures Distinct([None] + Somes(buckets))
  {
  }

  lemma SomesHas<B>(buckets: seq<B>, b: B)
    requires b in buckets
    ensures Some(b) in Somes(buckets)
  {
    var j :| 0 <= j < |buckets| && buckets[j] == b;
    assert Somes(buckets)[j] == Some(b);
  }

  /** Distinct buckets share out the weight, with what has no bucket beside them. */
  lemma OptionalBuckets<B>(items: Weighted<Option<B>>, buckets: seq<B>)
    requires Distinct(buckets)
    requires forall i :: 0 <= i < |items| && items[i].0.Some? ==> items[i].0.value in buckets
    ensures Weight(items) == InBucket(items, None) + OverBuckets(items, Somes(buckets))
  {
    hide Weight, InBucket, OverBuckets;
    SomesDistinct(buckets);
    SomesOver(items, buckets);
    forall i | 0 <= i < |items| ensures items[i].0 in [None] + Somes(buckets) {
      if items[i].0.Some? { SomesHas(buckets, items[i].0.value); }
    }
    BucketsSum(items, [None] + Somes(buckets));
  }

  lemma PicksAreReasoned(channels: Channels, includeDm: bool, observed: seq<Candidate>)
    ensures forall p :: p in Picks(channels, includeDm, observed) ==> p.reason == ReasonFor(channels, includeDm, p.chosen.message)
  {
    hide ReasonFor, WithId, Best;
  }

  lemma {:induction false} EmittedFrom(picks: seq<Pick>, c: string)
    ensures EmittedIn(picks, c) != [] ==> exists i :: 0 <= i < |picks| && picks[i].reason.None? && Channel(picks[i]) == c
  {
    if picks != [] {
      var n := |picks| - 1;
      EmittedFrom(picks[..n], c);
      assert forall i :: 0 <= i < n ==> picks[..n][i] == picks[i];
    }
  }

  /** Nothing is emitted for a channel whose server is unknown, nor, unless asked for, for direct messages. */
  lemma HiddenChannelsEmitNothing(channels: Channels, includeDm: bool, observed: seq<Candidate>)
    ensures UnknownEmitNothing(channels, Picks(channels, includeDm, observed))
    ensures forall c :: ChannelUrl(channels, c).1 == Dm && !includeDm ==> EmittedIn(Picks(channels, includeDm, observed), c) == []
  {
    hide Picks, EmittedIn, ContentReason;
    var picks := Picks(channels, includeDm, observed);
    PicksAreReasoned(channels, includeDm, observed);
    forall i | 0 <= i < |picks| ensures picks[i].reason == ReasonFor(channels, includeDm, picks[i].chosen.message) { assert picks[i] in picks; }
    forall c ensures EmittedIn(picks, c) != [] ==> exists i :: 0 <= i < |picks| && picks[i].reason.None? && Channel(picks[i]) == c {
      EmittedFrom(picks, c);
    }
  }

  lemma ItemsInOrder(picks: seq<Pick>)
    ensures forall i :: 0 <= i < |picks| ==> Channel(picks[i]) in ChannelOrder(picks)
    ensures Distinct(ChannelOrder(picks))
  {
    hide ChannelOrder;
    OrderCovers(picks);
    forall i | 0 <= i < |picks| ensures Channel(picks[i]) in ChannelOrder(picks) {
      assert HasChannel(picks, Channel(picks[i]));
    }
  }

  /** Unique messages seen = emitted + excluded, and the exclusions by reason, or by channel, make up the excluded. */
  lemma {:induction false} SeenAddsUp(picks: seq<Pick>, exclusions: map<Reason, nat>)
    requires ReasonsCounted(picks, exclusions)
    ensures |picks| == OverBuckets(EmittedItems(picks), ChannelOrder(picks)) + SumCounts(exclusions, ALL_REASONS)
    ensures SumCounts(exclusions, ALL_REASONS) == OverBuckets(ExcludedItems(picks), ChannelOrder(picks))
  {
    hide ChannelOrder, Weight, InBucket, OverBuckets, SumCounts, Distinct;
    ItemsInOrder(picks);
    SeenIsEmittedOrExcluded(picks);
    BucketsSum(EmittedItems(picks), ChannelOrder(picks));
    BucketsSum(ExcludedItems(picks), ChannelOrder(picks));
    ReasonsAreAll();
    OptionalBuckets(ReasonItems(picks), ALL_REASONS);
    EmptyBucket(ReasonItems(picks), None);
    SumOfReasons(picks, exclusions, ALL_REASONS);
  }

  lemma ReasonsAreAll()
    ensures Distinct(ALL_REASONS) && forall r: Reason :: r in ALL_REASONS
  {
    forall r: Reason ensures r in ALL_REASONS {
      match r
      case DmChannel => assert ALL_REASONS[0] == r;
      case UnknownServer => assert ALL_REASONS[1] == r;
      case SystemMessageType => assert ALL_REASONS[2] == r;
      case AttachmentOnly => assert ALL_REASONS[3] == r;
      case ForwardOnly => assert ALL_REASONS[4] == r;
      case StickerOnly => assert ALL_REASONS[5] == r;
      case PollOnly => assert ALL_REASONS[6] == r;
      case EmbedOnly => assert ALL_REASONS[7] == r;
      case NoContent => assert ALL_REASONS[8] == r;
    }
  }

  lemma {:induction false} SumOfReasons(picks: seq<Pick>, exclusions: map<Reason, nat>, reasons: seq<Reason>)
    requires ReasonsCounted(picks, exclusions)
    ensures SumCounts(exclusions, reasons) == OverBuckets(ReasonItems(picks), Somes(reasons))
  {
    hide InBucket, ReasonItems, CountAt;
    if reasons != [] {
      var n := |reasons| - 1;
      SumOfReasons(picks, exclusions, reasons[..n]);
      assert Somes(reasons)[..n] == Somes(reasons[..n]);
      assert Somes(reasons)[n] == Some(reasons[n]);
    }
  }

  /** The messages counted as `server_unknown` and as direct messages are the exclusions under these reasons. */
  lemma KindsAddUp(channels: Channels, includeDm: bool, observed: seq<Candidate>, serverKey: string -> string,
                   exclusions: map<Reason, nat>, t: Totals)
    requires var picks := Picks(channels, includeDm, observed);
             ReasonsCounted(picks, exclusions) && TotalsAre(channels, serverKey, picks, ChannelOrder(picks), t)
    ensures t.unknownMessages == CountAt(exclusions, UnknownServer)
    ensures !includeDm ==> t.dmMessages == CountAt(exclusions, DmChannel)
  {
    hide Picks, ChannelOrder, InBucket, OverBuckets, ContentReason, ChannelsCounted, ServerTag;
    var picks, kinds := Picks(channels, includeDm, observed), KindTag(channels);
    PicksAreReasoned(channels, includeDm, observed);
    ItemsInOrder(picks);
    LinesRegroup(ExcludedItems(picks), kinds, ChannelOrder(picks), ServerUnknown);
    LinesRegroup(SeenItems(picks), kinds, ChannelOrder(picks), Dm);
    forall i | 0 <= i < |picks| ensures picks[i].reason == ReasonFor(channels, includeDm, picks[i].chosen.message) { assert picks[i] in picks; }
    assert forall i :: 0 <= i < |picks| ==> picks[i].reason != Some(DmChannel) || kinds(Channel(picks[i])) == Dm by { ContentReasons(); }
    assert forall i :: 0 <= i < |picks| ==> (picks[i].reason == Some(UnknownServer) <==> kinds(Channel(picks[i])) == ServerUnknown) by { ContentReasons(); }
    SameBuckets(Relabel(ExcludedItems(picks), kinds), ServerUnknown, ReasonItems(picks), Some(UnknownServer));
    if !includeDm { SameBuckets(Relabel(SeenItems(picks), kinds), Dm, ReasonItems(picks), Some(DmChannel)); }
  }

  lemma ContentReasons()
    ensures forall m: CachedMessage :: ContentReason(m) != Some(DmChannel) && ContentReason(m) != Some(UnknownServer)
  {
  }

  /** Emitted messages are those of the servers and, when asked for, direct messages. */
  lemma ServersAddUp(channels: Channels, includeDm: bool, observed: seq<Candidate>, serverKey: string -> string, t: Totals, keys: seq<string>)
    requires var picks := Picks(channels, includeDm, observed); TotalsAre(channels, serverKey, picks, ChannelOrder(picks), t)
    requires Distinct(keys)
    requires forall c :: ServerTag(channels, serverKey)(c).Some? && HasChannel(Picks(channels, includeDm, observed), c) ==>
               ServerTag(channels, serverKey)(c).value in keys
    ensures var picks := Picks(channels, includeDm, observed);
            && t.emitted == SumMessages(t.servers, keys) + InBucket(Lines(EmittedItems(picks), KindTag(channels), ChannelOrder(picks)), Dm)
            && (!includeDm ==> t.emitted == SumMessages(t.servers, keys))
  {
    hide Picks, ChannelOrder, InBucket, OverBuckets, EmittedIn, SumMessages, Weight, Distinct;
    var picks, kinds, servers := Picks(channels, includeDm, observed), KindTag(channels), ServerTag(channels, serverKey);
    var order := ChannelOrder(picks);
    ItemsInOrder(picks);
    BucketsSum(EmittedItems(picks), order);
    RelabelKeepsWeight(EmittedItems(picks), servers);
    forall i | 0 <= i < |picks| ensures HasChannel(picks, Channel(picks[i])) { }
    OptionalBuckets(Relabel(EmittedItems(picks), servers), keys);
    LinesRegroup(EmittedItems(picks), kinds, order, Dm);
    NoServerIsDm(channels, includeDm, observed, serverKey);
    SumOfServers(channels, serverKey, picks, t, keys);
    if !includeDm { DmEmitsNothing(channels, observed); }
  }

  lemma {:induction false} RelabelKeepsWeight<B, K>(items: Weighted<B>, tag: B -> K)
    ensures Weight(Relabel(items, tag)) == Weight(items)
  {
    if items != [] {
      var n := |items| - 1;
      RelabelKeepsWeight(items[..n], tag);
      assert Relabel(items, tag)[..n] == Relabel(items[..n], tag);
    }
  }

  /** An emitted message without a server is a direct message. */
  lemma NoServerIsDm(channels: Channels, includeDm: bool, observed: seq<Candidate>, serverKey: string -> string)
    ensures var picks := Picks(channels, includeDm, observed);
            InBucket(Relabel(EmittedItems(picks), ServerTag(channels, serverKey)), None) == InBucket(Relabel(EmittedItems(picks), KindTag(channels)), Dm)
  {
    hide Picks, InBucket, ContentReason;
    var picks := Picks(channels, includeDm, observed);
    PicksAreReasoned(channels, includeDm, observed);
    forall i | 0 <= i < |picks| ensures picks[i].reason == ReasonFor(channels, includeDm, picks[i].chosen.message) { assert picks[i] in picks; }
    SameBuckets(Relabel(EmittedItems(picks), ServerTag(channels, serverKey)), None, Relabel(EmittedItems(picks), KindTag(channels)), Dm);
  }

  lemma DmEmitsNothing(channels: Channels, observed: seq<Candidate>)
    ensures InBucket(Relabel(EmittedItems(Picks(channels, false, observed)), KindTag(channels)), Dm) == 0
  {
    hide Picks, InBucket, ContentReason;
    var picks := Picks(channels, false, observed);
    PicksAreReasoned(channels, false, observed);
    forall i | 0 <= i < |picks| ensures picks[i].reason == ReasonFor(channels, false, picks[i].chosen.message) { assert picks[i] in picks; }
    EmptyBucket(Relabel(EmittedItems(picks), KindTag(channels)), Dm);
  }

  lemma {:induction false} SumOfServers(channels: Channels, serverKey: string -> string, picks: seq<Pick>, t: Totals, keys: seq<string>)
    requires TotalsAre(channels, serverKey, picks, ChannelOrder(picks), t)
    ensures SumMessages(t.servers, keys) == OverBuckets(Relabel(EmittedItems(picks), ServerTag(channels, serverKey)), Somes(keys))
  {
    hide ChannelOrder, InBucket, Distinct, ServerTag, MessagesOf, KindTag;
    if keys != [] {
      var n := |keys| - 1;
      SumOfServers(channels, serverKey, picks, t, keys[..n]);
      ItemsInOrder(picks);
      LinesRegroup(EmittedItems(picks), ServerTag(channels, serverKey), ChannelOrder(picks), Some(keys[n]));
      assert Somes(keys)[..n] == Somes(keys[..n]) && Somes(keys)[n] == Some(keys[n]);
    }
  }

  datatype Report = Report(uniqueSeen: nat, emitted: nat, excluded: nat, exclusions: map<Reason, nat>, totals: Totals)

  /** The counting part of `export_desktop_cache_records`. */
  method CountExport(channels: Channels, includeDm: bool, observed: seq<Candidate>, serverKey: string -> string) returns (r: Report)
    ensures var picks := Picks(channels, includeDm, observed);
            && r.uniqueSeen == |picks| && r.uniqueSeen == r.emitted + r.excluded
            && r.excluded == SumCounts(r.exclusions, ALL_REASONS) && ReasonsCounted(picks, r.exclusions)
            && TotalsAre(channels, serverKey, picks, ChannelOrder(picks), r.totals) && r.emitted == r.totals.emitted
  {
    hide Picks, ChannelOrder, ReasonsCounted, EmittedKept, ExcludedCounted, UnknownEmitNothing, HasChannel, InOrder, Distinct;
    var exclusions, byChannel, channelExcluded, uniqueSeen := SelectMessages(channels, includeDm, observed);
    ghost var picks := Picks(channels, includeDm, observed);
    OrderCovers(picks);
    HiddenChannelsEmitNothing(channels, includeDm, observed);
    var order := ChannelOrder(Picks(channels, includeDm, observed));
    var t := Summarise(channels, serverKey, picks, order, byChannel, channelExcluded);
    SeenAddsUp(picks, exclusions);
    return Report(uniqueSeen, t.emitted, SumCounts(exclusions, ALL_REASONS), exclusions, t);
  }
}
