/**
 * The record files of an export: what is written where, that the listed record counts add up
 * to the report, and when a file still holds what was written to it.
 */
module ExportOutputs {
  import opened Text
  import opened CaptureBatch
  import opened Ingest
  import opened ChannelMap
  import opened RecordExport
  import opened ExportReport
  import opened ExportRecords
  import opened Snowflake

  /** `<key>.ndjson` is part 0; `<key>.part001.ndjson` and so on are the parts of a channel that needs several. */
  datatype FileName = FileName(targetKey: string, part: nat)

  /** One line of `outputs`, with the rows written to its file. */
  datatype Output = Output(file: FileName, rows: seq<FlatRow>, server: Option<string>)

  /** What the loop over the channels works on; `target` hashes a stripped URL. */
  datatype Export = Export(
    channels: Channels, picks: seq<Pick>,
    serverKey: string -> string, target: string -> string, title: string -> string)

  /** `max(cand.observed_at ...)`. */
  function Latest(emitted: seq<Candidate>): string {
    if emitted == [] then ""
    else
      var before, last := Latest(emitted[..|emitted| - 1]), emitted[|emitted| - 1].observedAt;
      if Less(before, last) then last else before
  }

  function KeyOf(x: Export, c: string): string {
    match TargetText(x.channels, c)
    case None => ""
    case Some(text) => x.target(text)
  }

  function RowsOf(x: Export, c: string): seq<FlatRow> {
    var emitted := EmittedIn(x.picks, c);
    match ChannelUrl(x.channels, c).0
    case None => []
    case Some(url) => Rows(KeyOf(x, c), url, x.title(c), Latest(emitted), emitted)
  }

  function FileOf(x: Export, c: string, parts: nat, k: nat): FileName {
    FileName(KeyOf(x, c), if parts == 1 then 0 else k + 1)
  }

  function OutputsOf(x: Export, c: string): seq<Output> {
    var chunks := Chunks(RowsOf(x, c));
    seq(|chunks|, k requires 0 <= k < |chunks| =>
      Output(FileOf(x, c, |chunks|, k), chunks[k], ServerTag(x.channels, x.serverKey)(c)))
  }

  function AllOutputs(x: Export, order: seq<string>): seq<Output> {
    if order == [] then [] else AllOutputs(x, order[..|order| - 1]) + OutputsOf(x, order[|order| - 1])
  }

  type Disk = map<FileName, seq<FlatRow>>

  /** Writing replaces what a file held. */
  function DiskAfter(outputs: seq<Output>): Disk {
    if outputs == [] then map[] else DiskAfter(outputs[..|outputs| - 1])[outputs[|outputs| - 1].file := outputs[|outputs| - 1].rows]
  }

  // ------------------------------------------------- the program

  /** The writing part of the loop over the channels. */
  method WriteRecords(x: Export, order: seq<string>, byChannel: map<string, seq<Candidate>>) returns (outputs: seq<Output>, disk: Disk)
    requires EmittedKept(x.picks, byChannel) && forall c :: c in order ==> HasChannel(x.picks, c)
    ensures outputs == AllOutputs(x, order) && disk == DiskAfter(outputs)
  {
    hide EmittedIn, HasChannel, ChannelUrl, DiskAfter, OutputsOf, ServerTag;
    outputs, disk := [], NothingWritten();
    assert order[..0] == [];
    for i := 0 to |order|
      invariant outputs == AllOutputs(x, order[..i]) && disk == DiskAfter(outputs)
    {
      var c := order[i];
      assert HasChannel(x.picks, c);
      assert order[..i + 1][..i] == order[..i];
      var url := ChannelUrl(x.channels, c).0;
      if byChannel[c] == [] || url.None? {
        NoRowsNoOutputs(x, c);
        assert outputs + [] == outputs;
      } else {
        var rows := BuildRows(KeyOf(x, c), url.value, x.title(c), Latest(byChannel[c]), byChannel[c]);
        outputs, disk := WriteChannel(x, c, rows, outputs, disk);
      }
    }
    assert order[..|order|] == order;
  }

  function NothingWritten(): (disk: Disk)
    ensures disk == DiskAfter([])
  {
    map[]
  }

  lemma NoRowsNoOutputs(x: Export, c: string)
    requires EmittedIn(x.picks, c) == [] || ChannelUrl(x.channels, c).0.None?
    ensures RowsOf(x, c) == [] && OutputsOf(x, c) == []
  {
    hide ChannelUrl;
  }

  lemma DiskGrows(outputs: seq<Output>, o: Output)
    ensures DiskAfter(outputs + [o]) == DiskAfter(outputs)[o.file := o.rows]
  {
    assert (outputs + [o])[..|outputs|] == outputs;
  }

  lemma WrittenAt(x: Export, c: string, k: nat)
    requires k < |Chunks(RowsOf(x, c))|
    ensures var chunks := Chunks(RowsOf(x, c));
            && |OutputsOf(x, c)| == |chunks|
            && OutputsOf(x, c)[k] == Output(FileOf(x, c, |chunks|, k), chunks[k], ServerTag(x.channels, x.serverKey)(c))
  {
    hide Chunks, RowsOf, ChannelUrl, FileOf, ServerTag;
  }

  /** The inner loop: one file per chunk. */
  method WriteChannel(x: Export, c: string, rows: seq<FlatRow>, outputs: seq<Output>, disk: Disk) returns (outputs': seq<Output>, disk': Disk)
    requires rows == RowsOf(x, c) && disk == DiskAfter(outputs)
    ensures outputs' == outputs + OutputsOf(x, c) && disk' == DiskAfter(outputs')
  {
    hide Chunks, RowsOf, ChannelUrl, DiskAfter, OutputsOf, FileOf, ServerTag;
    var chunks := Chunks(rows);
    var serverKey := ServerTag(x.channels, x.serverKey)(c);
    outputs', disk' := outputs, disk;
    ghost var all := OutputsOf(x, c);
    OutputCount(x, c);
    for k := 0 to |chunks|
      invariant outputs' == outputs + all[..k] && disk' == DiskAfter(outputs')
    {
      var file := FileOf(x, c, |chunks|, k);
      WrittenAt(x, c, k);
      assert all[..k + 1] == all[..k] + [Output(file, chunks[k], serverKey)];
      DiskGrows(outputs', Output(file, chunks[k], serverKey));
      disk' := disk'[file := chunks[k]];
      outputs' := outputs' + [Output(file, chunks[k], serverKey)];
    }
    assert all[..|chunks|] == all;
  }

  lemma OutputCount(x: Export, c: string)
    ensures |OutputsOf(x, c)| == |Chunks(RowsOf(x, c))|
  {
    hide Chunks, RowsOf, ChannelUrl, FileOf, ServerTag;
  }

  // ------------------------------------------------- the record counts add up

  /** `record_count` of every output, under its server. */
  function RecordItems(outputs: seq<Output>): Weighted<Option<string>> {
    seq(|outputs|, i requires 0 <= i < |outputs| => (outputs[i].server, |outputs[i].rows|))
  }

  lemma {:induction false} WeightsJoin<B>(a: Weighted<B>, b: Weighted<B>, bucket: B)
    ensures InBucket(a + b, bucket) == InBucket(a, bucket) + InBucket(b, bucket)
    ensures Weight(a + b) == Weight(a) + Weight(b)
  {
    if b == [] {
      assert a + b == a;
    } else {
      var n := |b| - 1;
      WeightsJoin(a, b[..n], bucket);
      assert a + b == a + b[..n] + [b[n]] && b == b[..n] + [b[n]];
      BucketGrows(a + b[..n], b[n], bucket);
      BucketGrows(b[..n], b[n], bucket);
    }
  }

  lemma {:induction false} OneBucket<B>(items: Weighted<B>, only: B, bucket: B)
    requires forall i :: 0 <= i < |items| ==> items[i].0 == only
    ensures InBucket(items, bucket) == if only == bucket then Weight(items) else 0
  {
    if items != [] { OneBucket(items[..|items| - 1], only, bucket); }
  }

  function Lengths(chunks: seq<seq<FlatRow>>, server: Option<string>): Weighted<Option<string>> {
    seq(|chunks|, k requires 0 <= k < |chunks| => (server, |chunks[k]|))
  }

  lemma {:induction false} LengthsJoin(chunks: seq<seq<FlatRow>>, server: Option<string>)
    ensures Weight(Lengths(chunks, server)) == |Joined(chunks)|
  {
    if chunks != [] {
      LengthsJoin(chunks[1..], server);
      var head: Weighted<Option<string>> := [(server, |chunks[0]|)];
      assert Lengths(chunks, server) == head + Lengths(chunks[1..], server);
      WeightsJoin(head, Lengths(chunks[1..], server), server);
      assert Weight(head) == |chunks[0]| by { assert head[..0] == []; }
    }
  }

  lemma ChannelRecords(x: Export, c: string, bucket: Option<string>)
    requires UnknownEmitNothing(x.channels, x.picks)
    ensures var items, tag := RecordItems(OutputsOf(x, c)), ServerTag(x.channels, x.serverKey);
            && Weight(items) == |EmittedIn(x.picks, c)|
            && InBucket(items, bucket) == if tag(c) == bucket then |EmittedIn(x.picks, c)| else 0
  {
    hide Chunks, ServerTag, EmittedIn, ChannelUrl, InBucket, Weight, FileOf, Joined;
    var chunks, server := Chunks(RowsOf(x, c)), ServerTag(x.channels, x.serverKey)(c);
    assert RecordItems(OutputsOf(x, c)) == Lengths(chunks, server);
    LengthsJoin(chunks, server);
    ChunksJoin(RowsOf(x, c));
    RowCount(x, c);
    OneBucket(Lengths(chunks, server), server, bucket);
  }

  lemma RowCount(x: Export, c: string)
    requires UnknownEmitNothing(x.channels, x.picks)
    ensures |RowsOf(x, c)| == |EmittedIn(x.picks, c)|
  {
    hide EmittedIn, ChannelUrl, Rows, KeyOf;
    var emitted := EmittedIn(x.picks, c);
    if ChannelUrl(x.channels, c).0.Some? {
      RowsAreNumbered(KeyOf(x, c), ChannelUrl(x.channels, c).0.value, x.title(c), Latest(emitted), emitted);
    }
  }

  lemma {:induction false} RecordsAddUp(x: Export, order: seq<string>, bucket: Option<string>)
    requires UnknownEmitNothing(x.channels, x.picks)
    ensures Weight(RecordItems(AllOutputs(x, order))) == OverBuckets(EmittedItems(x.picks), order)
    ensures InBucket(RecordItems(AllOutputs(x, order)), bucket)
            == InBucket(Lines(EmittedItems(x.picks), ServerTag(x.channels, x.serverKey), order), bucket)
  {
    hide OutputsOf, ServerTag, EmittedIn, InBucket, Weight, EmittedItems, UnknownEmitNothing;
    var tag := ServerTag(x.channels, x.serverKey);
    if order == [] {
      assert RecordItems([]) == [];
      assert Lines(EmittedItems(x.picks), tag, []) == [];
      EmptyBucket<Option<string>>([], bucket);
      NoWeight();
    } else {
      var n := |order| - 1;
      var c := order[n];
      RecordsAddUp(x, order[..n], bucket);
      ChannelRecords(x, c, bucket);
      EmittedCount(x.picks, c);
      assert RecordItems(AllOutputs(x, order)) == RecordItems(AllOutputs(x, order[..n])) + RecordItems(OutputsOf(x, c));
      WeightsJoin(RecordItems(AllOutputs(x, order[..n])), RecordItems(OutputsOf(x, c)), bucket);
      assert order == order[..n] + [c];
      LinesGrow(EmittedItems(x.picks), tag, order[..n], c);
      BucketGrows(Lines(EmittedItems(x.picks), tag, order[..n]), (tag(c), InBucket(EmittedItems(x.picks), c)), bucket);
    }
  }

  lemma NoWeight()
    ensures Weight<Option<string>>([]) == 0
  {
  }

  /** The record counts of the listed files add up to the emitted messages, in all and for every server. */
  lemma OutputsMatchReport(x: Export, t: Totals, key: string)
    requires UnknownEmitNothing(x.channels, x.picks) && TotalsAre(x.channels, x.serverKey, x.picks, ChannelOrder(x.picks), t)
    ensures var items := RecordItems(AllOutputs(x, ChannelOrder(x.picks)));
            Weight(items) == t.emitted && InBucket(items, Some(key)) == ExportReport.MessagesOf(t.servers, key)
  {
    hide ServerTag, EmittedIn, InBucket, Weight, UnknownEmitNothing;
    hide ChannelOrder, KindTag, ExportReport.MessagesOf, AllOutputs, ChannelsCounted;
    RecordsAddUp(x, ChannelOrder(x.picks), Some(key));
  }

  // ------------------------------------------------- what the files still hold

  /** Both channels write, under one key, and either both write one file or both write several. */
  predicate Clash(x: Export, c: string, d: string) {
    && OutputsOf(x, c) != [] && OutputsOf(x, d) != [] && KeyOf(x, c) == KeyOf(x, d)
    && ((|OutputsOf(x, c)| == 1) == (|OutputsOf(x, d)| == 1))
  }

  /** Every file of the channel holds the rows that were written for it. */
  predicate Holds(x: Export, c: string, disk: Disk) {
    forall k :: 0 <= k < |OutputsOf(x, c)| ==>
      OutputsOf(x, c)[k].file in disk && disk[OutputsOf(x, c)[k].file] == OutputsOf(x, c)[k].rows
  }

  lemma OutputAt(x: Export, c: string, k: nat)
    requires k < |OutputsOf(x, c)|
    ensures OutputsOf(x, c)[k].file == FileOf(x, c, |OutputsOf(x, c)|, k)
    ensures OutputsOf(x, c)[k].rows != [] && ChannelUrl(x.channels, c).0.Some?
    ensures OutputsOf(x, c)[k].rows[0].url == ChannelUrl(x.channels, c).0.value
  {
    hide Chunks, ChannelUrl, EmittedIn, InTimeOrder;
    ChunksJoin(RowsOf(x, c));
    var chunk := Chunks(RowsOf(x, c))[k];
    assert chunk[0] in chunk && chunk[0] in RowsOf(x, c);
  }

  /** Without a clash two channels write different files; with one they write a common file. */
  lemma ClashIsCommonFile(x: Export, c: string, d: string)
    ensures Clash(x, c, d) <==>
              exists k, m :: 0 <= k < |OutputsOf(x, c)| && 0 <= m < |OutputsOf(x, d)| && OutputsOf(x, c)[k].file == OutputsOf(x, d)[m].file
  {
    hide OutputsOf, KeyOf;
    forall k | 0 <= k < |OutputsOf(x, c)| ensures OutputsOf(x, c)[k].file == FileOf(x, c, |OutputsOf(x, c)|, k) { OutputAt(x, c, k); }
    forall m | 0 <= m < |OutputsOf(x, d)| ensures OutputsOf(x, d)[m].file == FileOf(x, d, |OutputsOf(x, d)|, m) { OutputAt(x, d, m); }
    if Clash(x, c, d) {
      assert OutputsOf(x, c)[0].file == OutputsOf(x, d)[0].file;
    }
  }

  /** Writes replace the files they name and no others. */
  lemma {:induction false} DiskAfterMore(a: seq<Output>, b: seq<Output>)
    requires forall k, m :: 0 <= k < m < |b| ==> b[k].file != b[m].file
    ensures forall k :: 0 <= k < |b| ==> b[k].file in DiskAfter(a + b) && DiskAfter(a + b)[b[k].file] == b[k].rows
    ensures forall f :: (forall k :: 0 <= k < |b| ==> b[k].file != f) ==>
              (f in DiskAfter(a + b) <==> f in DiskAfter(a)) && (f in DiskAfter(a) ==> DiskAfter(a + b)[f] == DiskAfter(a)[f])
  {
    if b == [] {
      assert a + b == a;
    } else {
      var n := |b| - 1;
      DiskAfterMore(a, b[..n]);
      assert (a + b)[..|a + b| - 1] == a + b[..n] && (a + b)[|a + b| - 1] == b[n];
      assert forall k :: 0 <= k < n ==> b[..n][k] == b[k];
    }
  }

  lemma ChannelFilesDiffer(x: Export, c: string)
    ensures forall k, m :: 0 <= k < m < |OutputsOf(x, c)| ==> OutputsOf(x, c)[k].file != OutputsOf(x, c)[m].file
  {
    hide OutputsOf, KeyOf;
    forall k, m | 0 <= k < m < |OutputsOf(x, c)| ensures OutputsOf(x, c)[k].file != OutputsOf(x, c)[m].file {
      OutputAt(x, c, k);
      OutputAt(x, c, m);
    }
  }

  /** The channel written last keeps its files; an earlier one keeps its own exactly when the two do not clash. */
  lemma OneMoreChannel(x: Export, before: seq<Output>, c: string, d: string)
    requires IsSnowflake(c) && IsSnowflake(d) && c != d
    ensures var now := DiskAfter(before + OutputsOf(x, d));
            Holds(x, d, now) && (Holds(x, c, now) <==> Holds(x, c, DiskAfter(before)) && !Clash(x, c, d))
  {
    hide OutputsOf, DiskAfter, Clash, IsSnowflake;
    var now := DiskAfter(before + OutputsOf(x, d));
    ChannelFilesDiffer(x, d);
    DiskAfterMore(before, OutputsOf(x, d));
    ClashIsCommonFile(x, c, d);
    if Clash(x, c, d) {
      var k, m :| 0 <= k < |OutputsOf(x, c)| && 0 <= m < |OutputsOf(x, d)| && OutputsOf(x, c)[k].file == OutputsOf(x, d)[m].file;
      OutputAt(x, c, k);
      OutputAt(x, d, m);
      if ChannelUrl(x.channels, c).0 == ChannelUrl(x.channels, d).0 { UrlsAreDistinct(x.channels, c, d); }
      assert now[OutputsOf(x, c)[k].file] != OutputsOf(x, c)[k].rows;
    } else {
      forall k | 0 <= k < |OutputsOf(x, c)|
        ensures var f := OutputsOf(x, c)[k].file;
                (f in now <==> f in DiskAfter(before)) && (f in DiskAfter(before) ==> now[f] == DiskAfter(before)[f])
      {
        var f := OutputsOf(x, c)[k].file;
        assert forall m :: 0 <= m < |OutputsOf(x, d)| ==> OutputsOf(x, d)[m].file != f;
      }
    }
  }

  /** A channel's files are as written exactly when no later channel clashes with it. */
  lemma {:induction false} HoldsExact(x: Export, order: seq<string>, i: nat)
    requires i < |order| && Distinct(order) && forall c :: c in order ==> IsSnowflake(c)
    ensures Holds(x, order[i], DiskAfter(AllOutputs(x, order))) <==> forall j :: i < j < |order| ==> !Clash(x, order[i], order[j])
  {
    hide OutputsOf, DiskAfter, Clash, IsSnowflake, Holds;
    var n := |order| - 1;
    var before := AllOutputs(x, order[..n]);
    assert order[n] in order && order[i] in order;
    if i < n {
      HoldsExact(x, order[..n], i);
      OneMoreChannel(x, before, order[i], order[n]);
      assert forall j :: i < j < n ==> order[..n][j] == order[j];
    } else {
      LastHolds(x, before, order[n]);
    }
  }

  lemma LastHolds(x: Export, before: seq<Output>, d: string)
    ensures Holds(x, d, DiskAfter(before + OutputsOf(x, d)))
  {
    hide OutputsOf, DiskAfter;
    ChannelFilesDiffer(x, d);
    DiskAfterMore(before, OutputsOf(x, d));
  }

  /** After the export every listed file holds its records exactly when no two channels clash. */
  lemma NothingOverwrittenExact(x: Export)
    requires forall p :: p in x.picks ==> IsSnowflake(RecordExport.Channel(p))
    ensures var order := ChannelOrder(x.picks);
            (forall c :: c in order ==> Holds(x, c, DiskAfter(AllOutputs(x, order)))) <==>
            (forall i, j :: 0 <= i < j < |order| ==> !Clash(x, order[i], order[j]))
  {
    hide ChannelOrder, Clash, IsSnowflake, Holds, AllOutputs, DiskAfter, InOrder;
    var order := ChannelOrder(x.picks);
    var disk := DiskAfter(AllOutputs(x, order));
    OrderCovers(x.picks);
    forall c | c in order ensures IsSnowflake(c) {
      assert HasChannel(x.picks, c);
    }
    forall i | 0 <= i < |order|
      ensures Holds(x, order[i], disk) <==> forall j :: i < j < |order| ==> !Clash(x, order[i], order[j])
    {
      HoldsExact(x, order, i);
    }
    if forall c :: c in order ==> Holds(x, c, disk) {
      forall i, j | 0 <= i < j < |order| ensures !Clash(x, order[i], order[j]) { assert Holds(x, order[i], disk); }
    }
  }

  // ------------------------------------------------- two channels, one file

  lemma {:induction false} FewEmitted(picks: seq<Pick>, c: string)
    ensures |EmittedIn(picks, c)| <= |picks|
  {
    if picks != [] { FewEmitted(picks[..|picks| - 1], c); }
  }

  lemma {:induction false} InsertedLength(y: string, s: seq<string>)
    requires Ascending(s)
    ensures |Insert(y, s)| <= |s| + 1
  {
    if s != [] && y != s[0] && !Less(y, s[0]) { InsertedLength(y, s[1..]); }
  }

  lemma {:induction false} SortedLength(s: seq<string>)
    ensures |SortedSet(s)| <= |s|
  {
    if s != [] {
      SortedLength(s[1..]);
      InsertedLength(s[0], SortedSet(s[1..]));
    }
  }

  /** A channel that emits no more than one chunk writes one file. */
  lemma OneFile(x: Export, c: string, only: Candidate)
    requires UnknownEmitNothing(x.channels, x.picks) && only in EmittedIn(x.picks, c) && |x.picks| <= MAX_MESSAGES
    ensures |OutputsOf(x, c)| == 1 && HasChannel(x.picks, c)
  {
    hide EmittedIn, ChannelUrl, UnknownEmitNothing, InTimeOrder, FileOf, RowsOf;
    FewEmitted(x.picks, c);
    RowCount(x, c);
    EmittedFrom(x.picks, c);
  }

  /** An export over channels that the hints have mapped. */
  function ExportOf(hints: seq<Hint>, observed: seq<Candidate>, serverKey: string -> string, target: string -> string, title: string -> string): Export {
    Export(Learned(hints), Picks(Learned(hints), false, observed), serverKey, target, title)
  }

  lemma TwoHintsMap(channel: string, guild: string)
    requires IsSnowflake(channel) && Digits(channel) == channel && IsSnowflake(guild)
    ensures var c := Learned([GuildHint(channel, guild, ""), GuildHint(channel + "\n", guild, "")]);
            && IsSnowflake(channel + "\n") && channel != channel + "\n"
            && ChannelUrl(c, channel).0.Some? && ChannelUrl(c, channel).1 == PlainChannel
            && ChannelUrl(c, channel + "\n").0.Some? && ChannelUrl(c, channel + "\n").1 == PlainChannel
            && TargetText(c, channel) == TargetText(c, channel + "\n")
  {
    hide IsSnowflake, TargetText, Digits;
    NewlineTies(channel);
    var hints := [GuildHint(channel, guild, ""), GuildHint(channel + "\n", guild, "")];
    assert hints[..1] == [hints[0]] && [hints[0]][..0] == [];
    assert Learned([hints[0]]).guildOf == map[channel := guild];
    assert Learned(hints) == Learn(Learned([hints[0]]), hints[1]);
    NewlineSharesTarget(Learned(hints), channel);
  }

  lemma PicksAreObserved(channels: Channels, observed: seq<Candidate>)
    ensures |Picks(channels, false, observed)| <= |observed|
    ensures forall p :: p in Picks(channels, false, observed) ==> p.chosen in observed
  {
    hide ReasonFor, Best, SortedSet, WithId;
    SortedLength(Ids(observed));
    var ids := SortedSet(Ids(observed));
    forall i | 0 <= i < |ids| ensures PickFor(channels, false, observed, ids[i]).chosen in observed {
      WithIdIsFilter(observed, ids[i]);
    }
  }

  /** Two channels of the order that clash leave a file that does not hold its records. */
  lemma ClashLoses(x: Export, c: string, d: string)
    requires (forall p :: p in x.picks ==> IsSnowflake(RecordExport.Channel(p))) && HasChannel(x.picks, c) && HasChannel(x.picks, d)
    requires c != d && Clash(x, c, d)
    ensures var order := ChannelOrder(x.picks);
            c in order && d in order && !(forall c :: c in order ==> Holds(x, c, DiskAfter(AllOutputs(x, order))))
  {
    hide ChannelOrder, HasChannel, IsSnowflake, Holds, AllOutputs, DiskAfter, InOrder, OutputsOf, KeyOf;
    var order := ChannelOrder(x.picks);
    OrderCovers(x.picks);
    var i :| 0 <= i < |order| && order[i] == c;
    var j :| 0 <= j < |order| && order[j] == d;
    NothingOverwrittenExact(x);
    assert Clash(x, d, c);
    assert i < j || j < i;
  }

  /**
   * Two channels of one server whose ids differ in a final newline, one message in each: the
   * report lists both files, and they are one file, so the messages of one channel are gone.
   */
  lemma NewlineChannelsOverwrite(channel: string, guild: string, a: string, b: string, time: string, content: string,
                                 serverKey: string -> string, target: string -> string, title: string -> string)
    requires IsSnowflake(channel) && Digits(channel) == channel && IsSnowflake(guild) && IsSnowflake(a) && IsSnowflake(b) && a != b
    requires !Blank(content)
    ensures var hints := [GuildHint(channel, guild, ""), GuildHint(channel + "\n", guild, "")];
            var observed := [Observation(a, channel, time, content), Observation(b, channel + "\n", time, content)];
            var x := ExportOf(hints, observed, serverKey, target, title);
            && Clash(x, channel, channel + "\n") && channel in ChannelOrder(x.picks) && channel + "\n" in ChannelOrder(x.picks)
            && !(forall c :: c in ChannelOrder(x.picks) ==> Holds(x, c, DiskAfter(AllOutputs(x, ChannelOrder(x.picks)))))
  {
    hide Picks, EmittedIn, IsSnowflake, Digits, Blank, ChannelUrl, OutputsOf;
    hide ChannelOrder, Holds, AllOutputs, DiskAfter, HasChannel, Learned, UnknownEmitNothing, TargetText;
    var hints := [GuildHint(channel, guild, ""), GuildHint(channel + "\n", guild, "")];
    var first, second := Observation(a, channel, time, content), Observation(b, channel + "\n", time, content);
    var observed := [first, second];
    var x := ExportOf(hints, observed, serverKey, target, title);
    TwoHintsMap(channel, guild);
    assert first in observed && second in observed;
    ObservationIsEmitted(x.channels, observed, a, channel, time, content);
    ObservationIsEmitted(x.channels, observed, b, channel + "\n", time, content);
    HiddenChannelsEmitNothing(x.channels, false, observed);
    PicksAreObserved(x.channels, observed);
    OneFile(x, channel, first);
    OneFile(x, channel + "\n", second);
    ClashLoses(x, channel, channel + "\n");
  }

  // ------------------------------------------------- the time of a file

  /** The latest of the times at which its messages were seen. */
  lemma {:induction false} LatestExact(emitted: seq<Candidate>)
    ensures emitted == [] ==> Latest(emitted) == ""
    ensures emitted != [] ==> exists c :: c in emitted && c.observedAt == Latest(emitted)
    ensures forall c :: c in emitted ==> !Less(Latest(emitted), c.observedAt)
  {
    if emitted != [] {
      var n := |emitted| - 1;
      var before, last := Latest(emitted[..n]), emitted[n];
      LatestExact(emitted[..n]);
      assert emitted == emitted[..n] + [last];
      LessIrreflexive(last.observedAt);
      if Less(before, last.observedAt) {
        LessAsymmetric(before, last.observedAt);
        forall c | c in emitted[..n] ensures !Less(last.observedAt, c.observedAt) {
          if Less(last.observedAt, c.observedAt) { LessTransitive(before, last.observedAt, c.observedAt); }
        }
        assert last in emitted;
      } else if n == 0 {
        assert last.observedAt == "";
        assert last in emitted;
      } else {
        var c :| c in emitted[..n] && c.observedAt == before;
        assert c in emitted;
      }
    }
  }

  /** Its name: the hash of the stripped URL, and a part number from 1 on when the channel has several files. */
  lemma FilesByFields(x: Export, c: string, k: nat)
    requires k < |OutputsOf(x, c)|
    ensures ChannelUrl(x.channels, c).0.Some?
    ensures var o, parts := OutputsOf(x, c)[k], |OutputsOf(x, c)|;
            && o.file.targetKey == x.target(Strip(ChannelUrl(x.channels, c).0.value))
            && o.file.part == (if parts == 1 then 0 else k + 1)
            && o.server == (match ChannelUrl(x.channels, c).2 case None => None case Some(guild) => Some(x.serverKey(guild)))
            && forall r :: r in o.rows ==> r.targetKey == o.file.targetKey && r.url == ChannelUrl(x.channels, c).0.value
                                           && r.title == x.title(c) && r.capturedAt == Latest(EmittedIn(x.picks, c))
  {
    hide ChannelUrl, EmittedIn, Latest, InTimeOrder, Strip, Chunks;
    var chunks := Chunks(RowsOf(x, c));
    ChunksJoin(RowsOf(x, c));
    NoChunks();
    forall r: FlatRow | r in chunks[k]
      ensures r.targetKey == KeyOf(x, c) && r.url == ChannelUrl(x.channels, c).0.value && r.title == x.title(c) && r.capturedAt == Latest(EmittedIn(x.picks, c))
    {
      assert r in RowsOf(x, c);
    }
  }

  lemma NoChunks()
    ensures Chunks([]) == []
  {
  }
}
