/**
 * The export, field by field: the URL a channel gets from the hints, which observation of a
 * message is chosen and why a message is left out, and every field of the rows written.
 */
module ExportFields {
  import opened Text
  import opened Ingest
  import opened CaptureBatch
  import opened ChannelMap
  import opened Snowflake
  import opened RecordExport
  import opened ExportRecords

  // ------------------------------------------------- URLs

  ghost predicate NamedDm(hints: seq<Hint>, channel: string) {
    exists i :: 0 <= i < |hints| && hints[i] == DmHint(channel)
  }

  lemma {:induction false} DmExact(hints: seq<Hint>, channel: string)
    ensures channel in Learned(hints).dm <==> NamedDm(hints, channel)
  {
    hide IsSnowflake;
    if hints != [] {
      var n := |hints| - 1;
      DmExact(hints[..n], channel);
      assert hints == hints[..n] + [hints[n]];
      if NamedDm(hints, channel) {
        var i :| 0 <= i < |hints| && hints[i] == DmHint(channel);
        assert i == n || hints[..n][i] == DmHint(channel);
      }
      if NamedDm(hints[..n], channel) {
        var i :| 0 <= i < n && hints[..n][i] == DmHint(channel);
        assert hints[i] == DmHint(channel);
      }
    }
  }

  /** Hint `k` is the first sound hint that names a guild for the channel. */
  ghost predicate GuildFrom(hints: seq<Hint>, k: nat, channel: string, guild: string) {
    && k < |hints| && hints[k].GuildHint? && hints[k].channel == channel && hints[k].guild == guild && IsSnowflake(channel) && IsSnowflake(guild)
    && forall i :: 0 <= i < k ==> !(hints[i].GuildHint? && hints[i].channel == channel && IsSnowflake(hints[i].guild))
  }

  ghost predicate NoGuildFor(hints: seq<Hint>, channel: string) {
    forall i :: 0 <= i < |hints| ==>
      !(hints[i].GuildHint? && hints[i].channel == channel && IsSnowflake(channel) && IsSnowflake(hints[i].guild))
  }

  /** Hint `p` is the first sound hint that names a parent for the channel. */
  ghost predicate ParentFrom(hints: seq<Hint>, p: nat, channel: string, parent: string) {
    && p < |hints| && hints[p] == ParentHint(channel, parent) && IsSnowflake(channel) && IsSnowflake(parent)
    && forall i :: 0 <= i < p ==> !(hints[i].ParentHint? && hints[i].channel == channel && IsSnowflake(hints[i].parent))
  }

  ghost predicate NoParentFor(hints: seq<Hint>, channel: string) {
    forall i :: 0 <= i < |hints| ==>
      !(hints[i].ParentHint? && hints[i].channel == channel && IsSnowflake(channel) && IsSnowflake(hints[i].parent))
  }

  /** The guild comes from a hint for the channel itself, or else from one for its parent. */
  ghost predicate Belongs(hints: seq<Hint>, channel: string, guild: string) {
    || (exists k: nat :: GuildFrom(hints, k, channel, guild))
    || (NoGuildFor(hints, channel)
        && exists p: nat, parent, k: nat :: ParentFrom(hints, p, channel, parent) && GuildFrom(hints, k, parent, guild))
  }

  lemma GuildFromIs(hints: seq<Hint>, k: nat, channel: string, guild: string)
    ensures GuildFrom(hints, k, channel, guild) <==> NamesFirst(hints, k, channel) && guild == GuildAt(hints, k)
  {
    hide IsSnowflake;
    if NamesFirst(hints, k, channel) {
      forall i | 0 <= i < k ensures !(hints[i].GuildHint? && hints[i].channel == channel && IsSnowflake(hints[i].guild)) {
        assert !Names(hints, i, channel);
      }
    }
  }

  lemma ParentFromIs(hints: seq<Hint>, p: nat, channel: string, parent: string)
    ensures ParentFrom(hints, p, channel, parent) <==> NamesParentFirst(hints, p, channel) && parent == ParentAt(hints, p)
  {
    hide IsSnowflake;
    if NamesParentFirst(hints, p, channel) {
      forall i | 0 <= i < p ensures !(hints[i].ParentHint? && hints[i].channel == channel && IsSnowflake(hints[i].parent)) {
        assert !NamesParent(hints, i, channel);
      }
    }
  }

  lemma NoGuildIs(hints: seq<Hint>, channel: string)
    ensures NoGuildFor(hints, channel) <==> forall i: nat :: !Names(hints, i, channel)
  {
    hide IsSnowflake;
    if forall i: nat :: !Names(hints, i, channel) {
      forall i | 0 <= i < |hints|
        ensures !(hints[i].GuildHint? && hints[i].channel == channel && IsSnowflake(channel) && IsSnowflake(hints[i].guild))
      {
        assert !Names(hints, i, channel);
      }
    }
  }

  lemma NoParentIs(hints: seq<Hint>, channel: string)
    ensures NoParentFor(hints, channel) <==> forall i: nat :: !NamesParent(hints, i, channel)
  {
    hide IsSnowflake;
    if forall i: nat :: !NamesParent(hints, i, channel) {
      forall i | 0 <= i < |hints|
        ensures !(hints[i].ParentHint? && hints[i].channel == channel && IsSnowflake(channel) && IsSnowflake(hints[i].parent))
      {
        assert !NamesParent(hints, i, channel);
      }
    }
  }

  lemma {:induction false} FirstGuild(hints: seq<Hint>, channel: string, k: nat) returns (first: nat)
    requires Names(hints, k, channel)
    ensures NamesFirst(hints, first, channel)
    decreases k
  {
    hide Names;
    if i: nat :| i < k && Names(hints, i, channel) { first := FirstGuild(hints, channel, i); } else { first := k; }
  }

  /** The guild of a channel, on the fields of the hints. */
  lemma GuildByHints(hints: seq<Hint>, channel: string, guild: string)
    ensures GuildFor(Learned(hints), channel) == Some(guild) <==> Belongs(hints, channel, guild)
  {
    hide IsSnowflake, Learned, Names, NamesParent, NamesFirst, NamesParentFirst, GuildFrom, ParentFrom, GuildAt, ParentAt, NoGuildFor, GuildFor;
    GuildExact(hints, channel);
    NoGuildIs(hints, channel);
    forall k: nat, c, g ensures GuildFrom(hints, k, c, g) <==> NamesFirst(hints, k, c) && g == GuildAt(hints, k) {
      GuildFromIs(hints, k, c, g);
    }
    forall p: nat, parent ensures ParentFrom(hints, p, channel, parent) <==> NamesParentFirst(hints, p, channel) && parent == ParentAt(hints, p) {
      ParentFromIs(hints, p, channel, parent);
    }
    if GuildFor(Learned(hints), channel) == Some(guild) {
      if k: nat :| Names(hints, k, channel) {
        var first := FirstGuild(hints, channel, k);
        assert GuildFrom(hints, first, channel, guild);
      } else {
        var p: nat, i: nat :| NamesParentFirst(hints, p, channel) && Names(hints, i, ParentAt(hints, p));
        var k := FirstGuild(hints, ParentAt(hints, p), i);
        assert ThroughParent(hints, p, k, channel);
        assert ParentFrom(hints, p, channel, ParentAt(hints, p)) && GuildFrom(hints, k, ParentAt(hints, p), guild);
      }
    }
    if NoGuildFor(hints, channel) {
      forall p: nat, parent, k: nat | ParentFrom(hints, p, channel, parent) && GuildFrom(hints, k, parent, guild)
        ensures GuildFor(Learned(hints), channel) == Some(guild)
      {
        assert ThroughParent(hints, p, k, channel);
      }
    }
  }

  lemma ParentByHints(hints: seq<Hint>, channel: string)
    ensures channel in Learned(hints).parentOf <==> !NoParentFor(hints, channel)
    ensures forall p: nat, parent :: ParentFrom(hints, p, channel, parent) ==>
              channel in Learned(hints).parentOf && Learned(hints).parentOf[channel] == parent
  {
    hide IsSnowflake, Learned, NamesParent, NamesParentFirst, ParentFrom, NoParentFor;
    ParentExact(hints, channel);
    NoParentIs(hints, channel);
    forall p: nat, parent ensures ParentFrom(hints, p, channel, parent) <==> NamesParentFirst(hints, p, channel) && parent == ParentAt(hints, p) {
      ParentFromIs(hints, p, channel, parent);
    }
  }

  /**
   * The URL of a channel, to the letter: direct messages; a thread under its guild and parent;
   * a channel under its guild; and none where no guild is known.
   */
  lemma UrlByHints(hints: seq<Hint>, channel: string)
    ensures var c := Learned(hints);
            && (NamedDm(hints, channel) ==> ChannelUrl(c, channel) == (Some("https://discord.com/channels/@me/" + channel), Dm, None))
            && (!NamedDm(hints, channel) && (forall guild :: !Belongs(hints, channel, guild)) ==> ChannelUrl(c, channel) == (None, ServerUnknown, None))
            && (forall guild :: !NamedDm(hints, channel) && Belongs(hints, channel, guild) && NoParentFor(hints, channel) ==>
                  ChannelUrl(c, channel) == (Some("https://discord.com/channels/" + guild + "/" + channel), PlainChannel, Some(guild)))
            && (forall guild, p: nat, parent :: !NamedDm(hints, channel) && Belongs(hints, channel, guild) && ParentFrom(hints, p, channel, parent) ==>
                  ChannelUrl(c, channel)
                  == (Some("https://discord.com/channels/" + guild + "/" + parent + "/threads/" + channel), ThreadChannel, Some(guild)))
  {
    hide Learned, GuildFor, Belongs, ParentFrom, NoParentFor, NamedDm;
    DmExact(hints, channel);
    ParentByHints(hints, channel);
    forall guild ensures GuildFor(Learned(hints), channel) == Some(guild) <==> Belongs(hints, channel, guild) {
      GuildByHints(hints, channel, guild);
    }
    assert SITE + "@me/" == "https://discord.com/channels/@me/";
  }

  // ------------------------------------------------- picks

  /** The other observation was edited later, or seen later, or stands in the later entry: in this order of importance. */
  predicate Later(a: Candidate, b: Candidate) {
    if a.message.edited != b.message.edited then Less(a.message.edited, b.message.edited)
    else if a.observedAt != b.observedAt then Less(a.observedAt, b.observedAt)
    else Less(a.entryName, b.entryName)
  }

  lemma LaterIs(a: Candidate, b: Candidate)
    ensures Outranked(a, b) <==> Later(a, b)
  {
    LessIrreflexive(a.message.edited);
    LessIrreflexive(a.observedAt);
  }

  /** Why a message of a channel of this kind is left out; the first reason in this order counts. */
  predicate LeftOut(kind: UrlKind, includeDm: bool, m: CachedMessage, reason: Reason) {
    var open := kind != ServerUnknown && (kind == Dm ==> includeDm);
    var bare := open && m.conversation && Blank(m.content);
    match reason
    case DmChannel => kind == Dm && !includeDm
    case UnknownServer => kind == ServerUnknown
    case SystemMessageType => open && !m.conversation
    case AttachmentOnly => bare && m.attachments
    case ForwardOnly => bare && !m.attachments && m.snapshots
    case StickerOnly => bare && !m.attachments && !m.snapshots && m.stickers
    case PollOnly => bare && !m.attachments && !m.snapshots && !m.stickers && m.poll
    case EmbedOnly => bare && !m.attachments && !m.snapshots && !m.stickers && !m.poll && m.embeds
    case NoContent => bare && !m.attachments && !m.snapshots && !m.stickers && !m.poll && !m.embeds
  }

  lemma ReasonIs(channels: Channels, includeDm: bool, m: CachedMessage)
    ensures var kind, reason := ChannelUrl(channels, m.channel).1, ReasonFor(channels, includeDm, m);
            && (forall r :: reason == Some(r) <==> LeftOut(kind, includeDm, m, r))
            && (reason.None? <==> kind != ServerUnknown && (kind == Dm ==> includeDm) && m.conversation && !Blank(m.content))
  {
    hide ChannelUrl, Blank;
  }

  /** Every message seen is picked once: the first of its latest observations, left out for the reason that applies. */
  lemma PicksByFields(channels: Channels, includeDm: bool, observed: seq<Candidate>, k: nat)
    requires k < |Picks(channels, includeDm, observed)|
    ensures var p := Picks(channels, includeDm, observed)[k];
            var m := p.chosen.message;
            && p.chosen in observed
            && (forall c :: c in observed && c.message.id == m.id ==> !Later(p.chosen, c))
            && (forall r :: p.reason == Some(r) <==> LeftOut(ChannelUrl(channels, m.channel).1, includeDm, m, r))
  {
    hide Best, WithId, ReasonFor, SortedSet, Ids, Outranked, ChannelUrl, LeftOut, Later;
    var id := SortedSet(Ids(observed))[k];
    assert id in Ids(observed);
    PickAt(channels, includeDm, observed, id);
    WithIdIsFilter(observed, id);
    var group := WithId(observed, id);
    BestIsFirstOfHighest(group);
    var chosen := group[Best(group)];
    assert chosen in group;
    ReasonIs(channels, includeDm, chosen.message);
    forall c | c in observed && c.message.id == chosen.message.id ensures !Later(chosen, c) {
      assert c in group;
      var i :| 0 <= i < |group| && group[i] == c;
      LaterIs(chosen, c);
    }
  }

  /** The ids picked are the ids seen, in ascending order. */
  lemma PicksCover(channels: Channels, includeDm: bool, observed: seq<Candidate>)
    ensures var picks := Picks(channels, includeDm, observed);
            && (forall c :: c in observed ==> exists k :: 0 <= k < |picks| && picks[k].chosen.message.id == c.message.id)
            && forall i, j :: 0 <= i < j < |picks| ==> Less(picks[i].chosen.message.id, picks[j].chosen.message.id)
  {
    hide Best, WithId, ReasonFor, SortedSet, ChannelUrl;
    PicksAscend(channels, includeDm, observed);
    var ids, picks := SortedSet(Ids(observed)), Picks(channels, includeDm, observed);
    forall c | c in observed ensures exists k :: 0 <= k < |picks| && picks[k].chosen.message.id == c.message.id {
      var i :| 0 <= i < |observed| && observed[i] == c;
      assert Ids(observed)[i] == c.message.id;
      assert c.message.id in ids;
      var k :| 0 <= k < |ids| && ids[k] == c.message.id;
      WithIdIsFilter(observed, ids[k]);
      PickAt(channels, includeDm, observed, ids[k]);
      assert picks[k].chosen.message.id == c.message.id;
    }
  }

  // ------------------------------------------------- rows

  /** By timestamp, then by the number that the id is. */
  predicate InPlace(a: CachedMessage, b: CachedMessage) {
    if a.timestamp != b.timestamp then Less(a.timestamp, b.timestamp) else IdValue(a.id) <= IdValue(b.id)
  }

  lemma InPlaceIs(a: Candidate, b: Candidate)
    ensures !Before(b, a) <==> InPlace(a.message, b.message)
  {
    LessIrreflexive(a.message.timestamp);
    LessTotal(a.message.timestamp, b.message.timestamp);
    if Less(a.message.timestamp, b.message.timestamp) { LessAsymmetric(a.message.timestamp, b.message.timestamp); }
  }

  /** The rows of a channel: the emitted messages in time order, each with exactly these fields. */
  lemma RowsByFields(targetKey: string, url: string, title: string, capturedAt: string, emitted: seq<Candidate>)
    returns (sorted: seq<Candidate>)
    ensures multiset(sorted) == multiset(emitted)
    ensures forall i, j :: 0 <= i < j < |sorted| ==> InPlace(sorted[i].message, sorted[j].message)
    ensures var rows := Rows(targetKey, url, title, capturedAt, emitted);
            && |rows| == |sorted|
            && forall i :: 0 <= i < |rows| ==>
                 var r, m := rows[i], sorted[i].message;
                 && r.schema == VisibleRecord && r.targetKey == targetKey && r.url == url && r.title == title && r.streamId == ""
                 && r.source == "discord_desktop_cache" && r.capturedAt == capturedAt
                 && r.message.messageId == m.id && r.message.author == m.author && r.message.timestamp == m.timestamp
                 && r.message.body == m.content && r.message.ordinal == Some(i)
  {
    hide InTimeOrder, Before, InPlace;
    sorted := InTimeOrder(emitted);
    TimeOrderSorts(emitted);
    forall i, j | 0 <= i < j < |sorted| ensures InPlace(sorted[i].message, sorted[j].message) {
      InPlaceIs(sorted[i], sorted[j]);
    }
  }

  /** Where a message is inserted: in front of those only that come later. */
  lemma {:induction false} InsertedAt(x: Candidate, s: seq<Candidate>) returns (k: nat)
    ensures k <= |s| && InsertLate(x, s) == s[..k] + [x] + s[k..]
    ensures forall i :: k <= i < |s| ==> Before(x, s[i])
  {
    hide Before;
    var n := |s| - 1;
    if s != [] && Before(x, s[n]) {
      k := InsertedAt(x, s[..n]);
      assert s == s[..n] + [s[n]];
      assert s[..n][k..] + [s[n]] == s[k..];
      assert s[..k] + [x] + s[..n][k..] + [s[n]] == s[..k] + [x] + (s[..n][k..] + [s[n]]);
      forall i | k <= i < |s| ensures Before(x, s[i]) {
        if i < n { assert s[i] == s[..n][i]; }
      }
    } else {
      k := |s|;
      assert s[..k] + [x] + s[k..] == s + [x];
      assert [] + [x] == [x];
    }
  }

  /** `a` stands in front of `b`. */
  ghost predicate InFront(s: seq<Candidate>, a: Candidate, b: Candidate) {
    exists i, j :: 0 <= i < j < |s| && s[i] == a && s[j] == b
  }

  /** Messages that tie stay in the order in which they came. */
  lemma {:induction false} TiesStay(s: seq<Candidate>, i: nat, j: nat)
    requires i < j < |InTimeOrder(s)|
    requires Tie(InTimeOrder(s)[i], InTimeOrder(s)[j])
    ensures InFront(s, InTimeOrder(s)[i], InTimeOrder(s)[j])
  {
    hide Before, Tie, InsertLate;
    var n := |s| - 1;
    var t, sorted := InTimeOrder(s[..n]), InTimeOrder(s);
    var k := InsertedAt(s[n], t);
    if i == k {
      assert sorted[j] == t[j - 1];
      BeforeFacts(s[n], sorted[j], s[n]);
    } else if j == k {
      TimeOrderSorts(s[..n]);
      SameMembers(t, s[..n]);
      assert sorted[i] == t[i] && t[i] in s[..n];
      var a :| 0 <= a < n && s[..n][a] == t[i];
      assert s[a] == sorted[i] && s[n] == sorted[j];
    } else {
      var p, q := if i < k then i else i - 1, if j < k then j else j - 1;
      assert sorted[i] == t[p] && sorted[j] == t[q];
      TiesStay(s[..n], p, q);
      var a, b :| 0 <= a < b < |s[..n]| && s[..n][a] == t[p] && s[..n][b] == t[q];
      assert s[a] == t[p] && s[b] == t[q];
    }
  }

  // ------------------------------------------------- counts

  lemma {:induction false} CountIsCardinality(picks: seq<Pick>, reason: Reason)
    ensures InBucket(ReasonItems(picks), Some(reason)) == |set i | 0 <= i < |picks| && picks[i].reason == Some(reason)|
  {
    hide InBucket;
    if picks == [] {
      NoneCounted(picks, reason);
    } else {
      var n := |picks| - 1;
      CountIsCardinality(picks[..n], reason);
      assert picks == picks[..n] + [picks[n]];
      ItemsGrow(picks[..n], picks[n]);
      BucketGrows(ReasonItems(picks[..n]), (picks[n].reason, One(picks[n].reason.Some?)), Some(reason));
      var before := set i | 0 <= i < n && picks[..n][i].reason == Some(reason);
      var all := set i | 0 <= i < |picks| && picks[i].reason == Some(reason);
      assert all == if picks[n].reason == Some(reason) then before + {n} else before;
    }
  }

  lemma NoneCounted(picks: seq<Pick>, reason: Reason)
    requires picks == []
    ensures InBucket(ReasonItems(picks), Some(reason)) == 0
    ensures (set i | 0 <= i < |picks| && picks[i].reason == Some(reason)) == {}
  {
  }

  /** Each exclusion is counted under its own reason: as many as there are picks with it. */
  lemma ExclusionsAreCounted(picks: seq<Pick>, exclusions: map<Reason, nat>, byChannel: map<string, seq<Candidate>>, channelExcluded: map<string, nat>)
    requires Counted(picks, exclusions, byChannel, channelExcluded)
    ensures forall r :: (if r in exclusions then exclusions[r] else 0) == |set i | 0 <= i < |picks| && picks[i].reason == Some(r)|
  {
    hide EmittedKept, ExcludedCounted, InBucket;
    forall r ensures (if r in exclusions then exclusions[r] else 0) == |set i | 0 <= i < |picks| && picks[i].reason == Some(r)| {
      CountIsCardinality(picks, r);
    }
  }
}
