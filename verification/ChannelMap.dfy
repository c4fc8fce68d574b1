/**
 * Which server and parent a channel belongs to, as the record exporter learns it from the
 * cache (`_ChannelMap`), and the URL it gives the channel (`_channel_url`).
 */
module ChannelMap {
  import opened Text
  import opened Snowflake

  /** What the map knows. */
  datatype Channels = Channels(
    guildOf: map<string, string>, parentOf: map<string, string>, dm: set<string>, sources: map<string, nat>, conflicts: nat)

  const NOTHING_KNOWN := Channels(map[], map[], {}, map[], 0)

  /** How often a source was the first to name a guild. */
  function Credited(sources: map<string, nat>, source: string): nat {
    if source in sources then sources[source] else 0
  }

  function WithGuild(c: Channels, channel: string, guild: string, source: string): Channels {
    if !IsSnowflake(channel) || !IsSnowflake(guild) then c
    else if channel !in c.guildOf then
      c.(guildOf := c.guildOf[channel := guild], sources := c.sources[source := Credited(c.sources, source) + 1])
    else if c.guildOf[channel] != guild then c.(conflicts := c.conflicts + 1)
    else c
  }

  function WithParent(c: Channels, channel: string, parent: string): Channels {
    if IsSnowflake(channel) && IsSnowflake(parent) && channel !in c.parentOf
    then c.(parentOf := c.parentOf[channel := parent]) else c
  }

  function WithDm(c: Channels, channel: string): Channels {
    c.(dm := c.dm + {channel})
  }

  /** `_ChannelMap.guild_for`. */
  function GuildFor(c: Channels, channel: string): Option<string> {
    if channel in c.guildOf then Some(c.guildOf[channel])
    else if channel in c.parentOf && c.parentOf[channel] in c.guildOf then Some(c.guildOf[c.parentOf[channel]])
    else None
  }

  class ChannelMap {
    var guildOf: map<string, string>
    var parentOf: map<string, string>
    var dmChannels: set<string>
    var sources: map<string, nat>
    var conflicts: nat

    function View(): Channels
      reads this
    {
      Channels(guildOf, parentOf, dmChannels, sources, conflicts)
    }

    constructor ()
      ensures View() == NOTHING_KNOWN
    {
      guildOf, parentOf, dmChannels, sources, conflicts := map[], map[], {}, map[], 0;
    }

    method AddGuild(channel: string, guild: string, source: string)
      modifies this
      ensures View() == WithGuild(old(View()), channel, guild, source)
    {
      if !IsSnowflake(channel) || !IsSnowflake(guild) { return; }
      if channel !in guildOf {
        guildOf := guildOf[channel := guild];
        sources := sources[source := (if source in sources then sources[source] else 0) + 1];
      } else if guildOf[channel] != guild {
        conflicts := conflicts + 1;
      }
    }

    method AddParent(channel: string, parent: string)
      modifies this
      ensures View() == WithParent(old(View()), channel, parent)
    {
      if IsSnowflake(channel) && IsSnowflake(parent) && channel !in parentOf {
        parentOf := parentOf[channel := parent];
      }
    }

    method AddDm(channel: string)
      modifies this
      ensures View() == WithDm(old(View()), channel)
    {
      dmChannels := dmChannels + {channel};
    }

    method FindGuild(channel: string) returns (guild: Option<string>)
      ensures guild == GuildFor(View(), channel)
    {
      if channel in guildOf { return Some(guildOf[channel]); }
      if channel in parentOf && parentOf[channel] in guildOf { return Some(guildOf[parentOf[channel]]); }
      return None;
    }

    /** Everything that the cache entries tell about channels, in the order it is read. */
    method LearnHints(hints: seq<Hint>)
      requires View() == NOTHING_KNOWN
      modifies this
      ensures View() == Learned(hints)
    {
      hide WithGuild, WithParent, WithDm;
      assert hints[..0] == [];
      for i := 0 to |hints|
        invariant View() == Learned(hints[..i])
      {
        assert hints[..i + 1][..i] == hints[..i];
        match hints[i] {
          case GuildHint(channel, guild, source) => AddGuild(channel, guild, source);
          case ParentHint(channel, parent) => AddParent(channel, parent);
          case DmHint(channel) => AddDm(channel);
        }
      }
      assert hints[..|hints|] == hints;
    }
  }

  // ------------------------------------------------- the first word counts

  datatype Hint = GuildHint(channel: string, guild: string, source: string) | ParentHint(channel: string, parent: string) | DmHint(channel: string)

  function Learn(c: Channels, hint: Hint): Channels {
    match hint
    case GuildHint(channel, guild, source) => WithGuild(c, channel, guild, source)
    case ParentHint(channel, parent) => WithParent(c, channel, parent)
    case DmHint(channel) => WithDm(c, channel)
  }

  function Learned(hints: seq<Hint>): Channels {
    if hints == [] then NOTHING_KNOWN else Learn(Learned(hints[..|hints| - 1]), hints[|hints| - 1])
  }

  /** The hint names a guild for the channel, and is well-formed. */
  predicate NamesGuild(hint: Hint, channel: string) {
    hint.GuildHint? && hint.channel == channel && IsSnowflake(channel) && IsSnowflake(hint.guild)
  }

  predicate Names(hints: seq<Hint>, k: nat, channel: string) {
    k < |hints| && NamesGuild(hints[k], channel)
  }

  /** Hint `k` is the first to do so. */
  ghost predicate NamesFirst(hints: seq<Hint>, k: nat, channel: string) {
    Names(hints, k, channel) && forall i: nat :: i < k ==> !Names(hints, i, channel)
  }

  /** How many hints contradict the mapping. */
  function Contradictions(hints: seq<Hint>, c: Channels): nat {
    if hints == [] then 0
    else
      var n := |hints| - 1;
      Contradictions(hints[..n], c)
      + if Names(hints, n, hints[n].channel) && hints[n].channel in c.guildOf && c.guildOf[hints[n].channel] != hints[n].guild then 1 else 0
  }

  /** One more hint: it names a guild for a channel not yet mapped, or leaves the channel as it is. */
  lemma LearnOne(c: Channels, hint: Hint, channel: string)
    ensures var before, now := c.guildOf, Learn(c, hint).guildOf;
            && (channel in now <==> channel in before || NamesGuild(hint, channel))
            && (channel in before ==> channel in now && now[channel] == before[channel])
            && (channel !in before && NamesGuild(hint, channel) ==> now[channel] == hint.guild)
  {
    hide IsSnowflake;
  }

  lemma LearnStep(hints: seq<Hint>, channel: string)
    requires hints != []
    ensures var n := |hints| - 1;
            var before, now := Learned(hints[..n]).guildOf, Learned(hints).guildOf;
            && (channel in now <==> channel in before || Names(hints, n, channel))
            && (channel in before ==> channel in now && now[channel] == before[channel])
            && (channel !in before && Names(hints, n, channel) ==> now[channel] == hints[n].guild)
  {
    hide Learn, NamesGuild;
    LearnOne(Learned(hints[..|hints| - 1]), hints[|hints| - 1], channel);
  }

  /** A channel is mapped exactly when some hint names a guild for it. */
  lemma {:induction false} MappedIffNamed(hints: seq<Hint>, channel: string)
    ensures channel in Learned(hints).guildOf <==> exists k: nat :: Names(hints, k, channel)
  {
    hide IsSnowflake, Learn;
    if hints != [] {
      var n := |hints| - 1;
      MappedIffNamed(hints[..n], channel);
      LearnStep(hints, channel);
      forall k: nat ensures Names(hints, k, channel) <==> Names(hints[..n], k, channel) || (k == n && Names(hints, n, channel)) {
      }
    }
  }

  /** And then it is mapped to the guild named first. */
  lemma {:induction false} FirstHintWins(hints: seq<Hint>, channel: string, k: nat)
    requires NamesFirst(hints, k, channel)
    ensures channel in Learned(hints).guildOf && Learned(hints).guildOf[channel] == hints[k].guild
  {
    hide IsSnowflake, Learn;
    var n := |hints| - 1;
    LearnStep(hints, channel);
    if k < n {
      assert NamesFirst(hints[..n], k, channel) by {
        assert Names(hints[..n], k, channel);
        forall i: nat | i < k ensures !Names(hints[..n], i, channel) { assert !Names(hints, i, channel); }
      }
      FirstHintWins(hints[..n], channel, k);
    } else {
      MappedIffNamed(hints[..n], channel);
      forall i: nat ensures !Names(hints[..n], i, channel) {
        if i < n { assert !Names(hints, i, channel); }
      }
    }
  }

  lemma {:induction false} ContradictionsStay(hints: seq<Hint>, c: Channels, later: Channels)
    requires forall ch :: ch in c.guildOf ==> ch in later.guildOf && later.guildOf[ch] == c.guildOf[ch]
    requires forall k: nat :: k < |hints| && Names(hints, k, hints[k].channel) ==> hints[k].channel in c.guildOf
    ensures Contradictions(hints, later) == Contradictions(hints, c)
  {
    hide IsSnowflake;
    if hints != [] {
      var n := |hints| - 1;
      forall k: nat | k < n && Names(hints[..n], k, hints[..n][k].channel) ensures hints[..n][k].channel in c.guildOf {
        assert Names(hints, k, hints[k].channel);
      }
      ContradictionsStay(hints[..n], c, later);
    }
  }

  lemma NamedAreMapped(hints: seq<Hint>)
    ensures forall k: nat :: k < |hints| && Names(hints, k, hints[k].channel) ==> hints[k].channel in Learned(hints).guildOf
  {
    hide IsSnowflake, Learned, Names;
    forall k: nat | k < |hints| && Names(hints, k, hints[k].channel) ensures hints[k].channel in Learned(hints).guildOf {
      MappedIffNamed(hints, hints[k].channel);
    }
  }

  /** `conflicts` counts exactly the hints that contradict the mapping the export goes by. */
  lemma {:induction false} ConflictsAreContradictions(hints: seq<Hint>)
    ensures Learned(hints).conflicts == Contradictions(hints, Learned(hints))
  {
    hide IsSnowflake;
    if hints != [] {
      var n := |hints| - 1;
      ConflictsAreContradictions(hints[..n]);
      NamedAreMapped(hints[..n]);
      ContradictionsStay(hints[..n], Learned(hints[..n]), Learned(hints));
    }
  }

  // ------------------------------------------------- parents, and the guild a channel ends up with

  predicate NamesParent(hints: seq<Hint>, k: nat, channel: string) {
    k < |hints| && HintsParent(hints[k], channel)
  }

  ghost predicate NamesParentFirst(hints: seq<Hint>, k: nat, channel: string) {
    NamesParent(hints, k, channel) && forall i: nat :: i < k ==> !NamesParent(hints, i, channel)
  }

  predicate HintsParent(hint: Hint, channel: string) {
    hint.ParentHint? && hint.channel == channel && IsSnowflake(channel) && IsSnowflake(hint.parent)
  }

  lemma ParentOne(c: Channels, hint: Hint, channel: string)
    ensures var before, now := c.parentOf, Learn(c, hint).parentOf;
            && (channel in now <==> channel in before || HintsParent(hint, channel))
            && (channel in before ==> channel in now && now[channel] == before[channel])
            && (channel !in before && HintsParent(hint, channel) ==> now[channel] == hint.parent)
  {
    hide IsSnowflake;
  }

  lemma ParentStep(hints: seq<Hint>, channel: string)
    requires hints != []
    ensures var n := |hints| - 1;
            var before, now := Learned(hints[..n]).parentOf, Learned(hints).parentOf;
            && (channel in now <==> channel in before || NamesParent(hints, n, channel))
            && (channel in before ==> channel in now && now[channel] == before[channel])
            && (channel !in before && NamesParent(hints, n, channel) ==> now[channel] == hints[n].parent)
  {
    hide Learn, HintsParent;
    ParentOne(Learned(hints[..|hints| - 1]), hints[|hints| - 1], channel);
  }

  lemma {:induction false} ParentKnownIffNamed(hints: seq<Hint>, channel: string)
    ensures channel in Learned(hints).parentOf <==> exists k: nat :: NamesParent(hints, k, channel)
  {
    hide IsSnowflake, Learn;
    if hints != [] {
      var n := |hints| - 1;
      ParentKnownIffNamed(hints[..n], channel);
      ParentStep(hints, channel);
      forall k: nat ensures NamesParent(hints, k, channel) <==> NamesParent(hints[..n], k, channel) || (k == n && NamesParent(hints, n, channel)) {
      }
    }
  }

  lemma {:induction false} FirstParentWins(hints: seq<Hint>, channel: string, k: nat)
    requires NamesParentFirst(hints, k, channel)
    ensures channel in Learned(hints).parentOf && Learned(hints).parentOf[channel] == hints[k].parent
  {
    hide IsSnowflake, Learn;
    var n := |hints| - 1;
    ParentStep(hints, channel);
    if k < n {
      assert NamesParentFirst(hints[..n], k, channel) by {
        assert NamesParent(hints[..n], k, channel);
        forall i: nat | i < k ensures !NamesParent(hints[..n], i, channel) { assert !NamesParent(hints, i, channel); }
      }
      FirstParentWins(hints[..n], channel, k);
    } else {
      ParentKnownIffNamed(hints[..n], channel);
      forall i: nat ensures !NamesParent(hints[..n], i, channel) {
        if i < n { assert !NamesParent(hints, i, channel); }
      }
    }
  }

  /** What hint `p` names as the parent, hint `k` as the guild. */
  function ParentAt(hints: seq<Hint>, p: nat): string {
    if p < |hints| && hints[p].ParentHint? then hints[p].parent else ""
  }

  function GuildAt(hints: seq<Hint>, k: nat): string {
    if k < |hints| && hints[k].GuildHint? then hints[k].guild else ""
  }

  /** No hint names a guild for the channel itself, and hint `k` is the first to name one for the parent it was first given. */
  ghost predicate ThroughParent(hints: seq<Hint>, p: nat, k: nat, channel: string) {
    && (forall i: nat :: !Names(hints, i, channel))
    && NamesParentFirst(hints, p, channel) && NamesFirst(hints, k, ParentAt(hints, p))
  }

  lemma MappedExact(hints: seq<Hint>, channel: string)
    ensures channel in Learned(hints).guildOf <==> exists k: nat :: Names(hints, k, channel)
    ensures forall k: nat :: NamesFirst(hints, k, channel) ==>
              channel in Learned(hints).guildOf && Learned(hints).guildOf[channel] == GuildAt(hints, k)
  {
    hide Learned, NamesGuild;
    MappedIffNamed(hints, channel);
    forall k: nat | NamesFirst(hints, k, channel)
      ensures channel in Learned(hints).guildOf && Learned(hints).guildOf[channel] == GuildAt(hints, k)
    {
      FirstHintWins(hints, channel, k);
      NamedIsHint(hints, k, channel);
    }
  }

  lemma NamedIsHint(hints: seq<Hint>, k: nat, channel: string)
    requires Names(hints, k, channel)
    ensures k < |hints| && hints[k].GuildHint? && GuildAt(hints, k) == hints[k].guild
  {
    hide IsSnowflake;
  }

  lemma ParentExact(hints: seq<Hint>, channel: string)
    ensures channel in Learned(hints).parentOf <==> exists p: nat :: NamesParent(hints, p, channel)
    ensures forall p: nat :: NamesParentFirst(hints, p, channel) ==>
              channel in Learned(hints).parentOf && Learned(hints).parentOf[channel] == ParentAt(hints, p)
  {
    hide Learned, IsSnowflake;
    ParentKnownIffNamed(hints, channel);
    forall p: nat | NamesParentFirst(hints, p, channel)
      ensures channel in Learned(hints).parentOf && Learned(hints).parentOf[channel] == ParentAt(hints, p)
    {
      FirstParentWins(hints, channel, p);
    }
  }

  /**
   * The guild of a channel, told by the hints alone: the one named first for the channel; if
   * none was, the one named first for the parent named first; and otherwise none.
   */
  lemma GuildExact(hints: seq<Hint>, channel: string)
    ensures forall k: nat :: NamesFirst(hints, k, channel) ==> GuildFor(Learned(hints), channel) == Some(GuildAt(hints, k))
    ensures forall p: nat, k: nat :: ThroughParent(hints, p, k, channel) ==> GuildFor(Learned(hints), channel) == Some(GuildAt(hints, k))
    ensures GuildFor(Learned(hints), channel).None? <==>
              && (forall i: nat :: !Names(hints, i, channel))
              && (forall p: nat, i: nat :: NamesParentFirst(hints, p, channel) ==> !Names(hints, i, ParentAt(hints, p)))
  {
    hide Learned, Names, NamesParent, ParentAt, GuildAt, NamesFirst, NamesParentFirst;
    MappedExact(hints, channel);
    ParentExact(hints, channel);
    if channel in Learned(hints).parentOf {
      var p := FirstParent(hints, channel);
      MappedExact(hints, ParentAt(hints, p));
    } else {
      NoFirstParent(hints, channel);
    }
  }

  lemma NoFirstParent(hints: seq<Hint>, channel: string)
    requires forall p: nat :: !NamesParent(hints, p, channel)
    ensures forall p: nat :: !NamesParentFirst(hints, p, channel)
  {
    hide NamesParent;
  }

  lemma FirstParent(hints: seq<Hint>, channel: string) returns (p: nat)
    requires exists k: nat :: NamesParent(hints, k, channel)
    ensures NamesParentFirst(hints, p, channel)
  {
    hide NamesParent;
    var k: nat :| NamesParent(hints, k, channel);
    p := LeastParent(hints, channel, k);
  }

  lemma {:induction false} LeastParent(hints: seq<Hint>, channel: string, k: nat) returns (p: nat)
    requires NamesParent(hints, k, channel)
    ensures NamesParentFirst(hints, p, channel)
    decreases k
  {
    hide NamesParent;
    if i: nat :| i < k && NamesParent(hints, i, channel) {
      p := LeastParent(hints, channel, i);
    } else {
      p := k;
    }
  }

  // ------------------------------------------------- which source a mapping is credited to

  /** How many hints were the first to name a guild for their channel; from one source, or from any. */
  ghost function FirstNamings(hints: seq<Hint>, source: Option<string>): nat {
    if hints == [] then 0
    else
      var n := |hints| - 1;
      FirstNamings(hints[..n], source)
      + if hints[n].GuildHint? && NamesFirst(hints, n, hints[n].channel) && (source.None? || source.value == hints[n].source) then 1 else 0
  }

  /** The counts per source add up to the mapped channels, each credited to the hint that came first. */
  lemma {:induction false} SourcesAreCredited(hints: seq<Hint>)
    ensures forall s :: Credited(Learned(hints).sources, s) == FirstNamings(hints, Some(s))
    ensures |Learned(hints).guildOf| == FirstNamings(hints, None)
  {
    hide IsSnowflake, NamesFirst, Learn;
    if hints != [] {
      var n := |hints| - 1;
      SourcesAreCredited(hints[..n]);
      CreditStep(hints);
    }
  }

  lemma CreditStep(hints: seq<Hint>)
    requires hints != []
    ensures var n := |hints| - 1;
            var before, now, last := Learned(hints[..n]), Learned(hints), hints[n];
            var first := last.GuildHint? && NamesFirst(hints, n, last.channel);
            && (forall s :: Credited(now.sources, s) == Credited(before.sources, s) + if first && last.source == s then 1 else 0)
            && |now.guildOf| == |before.guildOf| + if first then 1 else 0
  {
    hide IsSnowflake;
    var n := |hints| - 1;
    if hints[n].GuildHint? {
      MappedIffNamed(hints[..n], hints[n].channel);
      assert NamesFirst(hints, n, hints[n].channel) <==> NamesGuild(hints[n], hints[n].channel) && forall i: nat :: !Names(hints[..n], i, hints[n].channel) by {
        forall i: nat ensures Names(hints[..n], i, hints[n].channel) <==> i < n && Names(hints, i, hints[n].channel) { }
      }
    }
  }

  // ------------------------------------------------- URLs

  datatype UrlKind = Dm | ServerUnknown | ThreadChannel | PlainChannel

  const SITE := "https://discord.com/channels/"

  /** `_channel_url`: URL, kind and guild. */
  function ChannelUrl(c: Channels, channel: string): (Option<string>, UrlKind, Option<string>) {
    if channel in c.dm then (Some(SITE + "@me/" + channel), Dm, None)
    else
      match GuildFor(c, channel)
      case None => (None, ServerUnknown, None)
      case Some(guild) =>
        if channel in c.parentOf then (Some(SITE + guild + "/" + c.parentOf[channel] + "/threads/" + channel), ThreadChannel, Some(guild))
        else (Some(SITE + guild + "/" + channel), PlainChannel, Some(guild))
  }

  /** What stands behind the last slash. */
  function LastSegment(url: string): string {
    if url == "" || url[|url| - 1] == '/' then "" else LastSegment(url[..|url| - 1]) + [url[|url| - 1]]
  }

  lemma {:induction false} SegmentOf(front: string, id: string)
    requires forall i :: 0 <= i < |id| ==> id[i] != '/'
    ensures LastSegment(front + "/" + id) == id
  {
    var url := front + "/" + id;
    if id != "" {
      assert url[..|url| - 1] == front + "/" + id[..|id| - 1];
      SegmentOf(front, id[..|id| - 1]);
    }
  }

  /** The URL ends in the channel's own id. */
  lemma UrlEndsInId(c: Channels, channel: string) returns (front: string)
    requires ChannelUrl(c, channel).0.Some?
    ensures ChannelUrl(c, channel).0.value == front + "/" + channel
    ensures front != "" && front[0] == 'h'
  {
    if channel in c.dm {
      front := SITE + "@me";
    } else {
      var guild := GuildFor(c, channel).value;
      if channel in c.parentOf { front := SITE + guild + "/" + c.parentOf[channel] + "/threads"; }
      else { front := SITE + guild; }
    }
    assert front + "/" + channel == ChannelUrl(c, channel).0.value;
  }

  /** Two channels never share a URL. */
  lemma UrlsAreDistinct(c: Channels, a: string, b: string)
    requires IsSnowflake(a) && IsSnowflake(b)
    requires ChannelUrl(c, a).0.Some? && ChannelUrl(c, a).0 == ChannelUrl(c, b).0
    ensures a == b
  {
    hide ChannelUrl, IsSnowflake;
    NoSlashInId(a);
    NoSlashInId(b);
    var x := UrlEndsInId(c, a);
    var y := UrlEndsInId(c, b);
    SegmentOf(x, a);
    SegmentOf(y, b);
  }

  // ------------------------------------------------- the text behind the target key

  /** `url.strip()`, of which the target key is the hash. */
  function TargetText(c: Channels, channel: string): Option<string> {
    match ChannelUrl(c, channel).0
    case None => None
    case Some(url) => Some(Strip(url))
  }

  lemma StrippedUrl(front: string, id: string)
    requires front != "" && !IsSpace(front[0]) && IsSnowflake(id)
    ensures Strip(front + "/" + id) == front + "/" + Digits(id)
  {
    hide DigitAmong;
    var url, d := front + "/" + id, Digits(id);
    assert StripLeft(url) == url;
    assert DigitOf(d[|d| - 1]).Some? && !IsSpace(d[|d| - 1]) by { hide IsSpace; DigitIsNoSpace(d[|d| - 1]); }
    var clean := front + "/" + d;
    assert clean[|clean| - 1] == d[|d| - 1];
    assert StripRight(clean) == clean;
    if id != d { assert url[..|url| - 1] == clean; } else { assert url == clean; }
  }

  lemma DigitIsNoSpace(c: char)
    requires DigitOf(c).Some?
    ensures !IsSpace(c)
  {
    hide DigitAmong;
  }

  /** The URL in front of the channel's own id. */
  function FrontOf(c: Channels, channel: string): string {
    var url := ChannelUrl(c, channel).0;
    if url.Some? && |channel| <= |url.value| then url.value[..|url.value| - |channel|] else ""
  }

  lemma FrontIs(c: Channels, channel: string, front: string)
    requires ChannelUrl(c, channel).0.Some? && ChannelUrl(c, channel).0.value == front + "/" + channel
    ensures FrontOf(c, channel) == front + "/"
  {
    hide ChannelUrl;
  }

  /**
   * Two channels share the text of a target key, and with it a record file, exactly when
   * their URLs agree up to their ids and the ids differ in a final newline at most.
   */
  lemma SharedTargetExact(c: Channels, a: string, b: string)
    requires IsSnowflake(a) && IsSnowflake(b) && ChannelUrl(c, a).0.Some? && ChannelUrl(c, b).0.Some?
    ensures TargetText(c, a) == TargetText(c, b) <==> Digits(a) == Digits(b) && FrontOf(c, a) == FrontOf(c, b)
  {
    hide ChannelUrl, IsSnowflake, Strip, Digits, FrontOf;
    var x := UrlEndsInId(c, a);
    var y := UrlEndsInId(c, b);
    FrontIs(c, a, x);
    FrontIs(c, b, y);
    StrippedUrl(x, a);
    StrippedUrl(y, b);
    DigitsAreSnowflake(a);
    DigitsAreSnowflake(b);
    SegmentOf(x, Digits(a));
    SegmentOf(y, Digits(b));
    SameEnd(x, y, Digits(a));
  }

  lemma SameEnd(x: string, y: string, d: string)
    ensures x + "/" + d == y + "/" + d ==> x + "/" == y + "/"
  {
    if x + "/" + d == y + "/" + d {
      assert (x + "/" + d)[..|x| + 1] == x + "/" && (y + "/" + d)[..|y| + 1] == y + "/";
    }
  }

  lemma DigitsAreSnowflake(id: string)
    requires IsSnowflake(id)
    ensures forall i :: 0 <= i < |Digits(id)| ==> Digits(id)[i] != '/'
  {
    hide IsSnowflake;
    NoSlashInId(id);
  }

  /** Such pairs exist: a channel id and the same id with a newline, mapped to one server, share a record file. */
  lemma NewlineSharesTarget(c: Channels, channel: string)
    requires IsSnowflake(channel) && Digits(channel) == channel
    requires channel in c.guildOf && channel + "\n" in c.guildOf && c.guildOf[channel] == c.guildOf[channel + "\n"]
    requires channel !in c.dm && channel + "\n" !in c.dm && channel !in c.parentOf && channel + "\n" !in c.parentOf
    ensures IsSnowflake(channel + "\n") && channel != channel + "\n"
    ensures TargetText(c, channel).Some? && TargetText(c, channel) == TargetText(c, channel + "\n")
  {
    hide IsSnowflake, Strip, IdValue;
    NewlineTies(channel);
    var front := SITE + c.guildOf[channel];
    assert front[0] == 'h';
    StrippedUrl(front, channel);
    StrippedUrl(front, channel + "\n");
    assert Digits(channel + "\n") == channel;
  }
}
