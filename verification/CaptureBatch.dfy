/**
 * A batch of flat message records on its way into the ledger (`_messages_from_batch`,
 * `_messages_from_flat_rows`, `_target_identity`): which batches are taken, and under which target.
 */
module CaptureBatch {
  import opened Text
  import opened Ingest
  import opened Registry

  datatype Schema = VisibleRecord | IncrementalVisible | OtherSchema(name: string)

  /** One record; a missing text is empty. */
  datatype FlatRow = FlatRow(
    schema: Schema, targetKey: string, url: string, title: string, streamId: string,
    source: string, capturedAt: string, message: Message)

  datatype BatchError = PayloadMustBeObject | InconsistentSchema | AdapterMissing | MessageLimitExceeded | BodyLimitExceeded | MixedTarget

  datatype Batch = Batch(messages: seq<Message>, targetKey: string, url: string, title: string, streamId: string, source: string, capturedAt: string)

  predicate IsFlat(schema: Schema) {
    schema == VisibleRecord || schema == IncrementalVisible
  }

  /** `_first_nonempty` over one field. */
  function FirstGiven(values: seq<string>): string {
    if values == [] then ""
    else if FirstGiven(values[..|values| - 1]) != "" then FirstGiven(values[..|values| - 1])
    else Strip(values[|values| - 1])
  }

  function Column(rows: seq<FlatRow>, pick: FlatRow -> string): seq<string> {
    seq(|rows|, i requires 0 <= i < |rows| => pick(rows[i]))
  }

  function TargetKeys(rows: seq<FlatRow>): seq<string> { Column(rows, (r: FlatRow) => r.targetKey) }
  function Urls(rows: seq<FlatRow>): seq<string> { Column(rows, (r: FlatRow) => r.url) }
  function Titles(rows: seq<FlatRow>): seq<string> { Column(rows, (r: FlatRow) => r.title) }
  function StreamIds(rows: seq<FlatRow>): seq<string> { Column(rows, (r: FlatRow) => r.streamId) }

  predicate OneTarget(rows: seq<FlatRow>) {
    Agree(TargetKeys(rows)) && Agree(Urls(rows)) && Agree(Titles(rows)) && Agree(StreamIds(rows))
  }

  predicate BodiesFit(rows: seq<FlatRow>) {
    forall i :: 0 <= i < |rows| ==> |rows[i].message.body| <= MAX_BODY_TEXT_CHARS
  }

  function MessagesOf(rows: seq<FlatRow>): seq<Message> {
    seq(|rows|, i requires 0 <= i < |rows| => rows[i].message)
  }

  /** `_messages_from_flat_rows`, behind the schema check of `_messages_from_batch`. */
  function FromRows(rows: seq<FlatRow>): Result<Batch, BatchError> {
    if rows == [] then Err(PayloadMustBeObject)
    else if exists i :: 0 <= i < |rows| && rows[i].schema != rows[0].schema then Err(InconsistentSchema)
    else if !IsFlat(rows[0].schema) then Err(AdapterMissing)
    else if |rows| > MAX_MESSAGES then Err(MessageLimitExceeded)
    else if !BodiesFit(rows) then Err(BodyLimitExceeded)
    else if !OneTarget(rows) then Err(MixedTarget)
    else
      var source := FirstGiven(Column(rows, (r: FlatRow) => r.source));
      Ok(Batch(MessagesOf(rows), FirstGiven(TargetKeys(rows)), FirstGiven(Urls(rows)), FirstGiven(Titles(rows)),
               FirstGiven(StreamIds(rows)), if source == "" then "visible_text" else source,
               FirstGiven(Column(rows, (r: FlatRow) => r.capturedAt))))
  }

  /** The objects among the rows; `None` is a value that is no object. */
  function ObjectsOf(given: seq<Option<FlatRow>>): seq<FlatRow> {
    if given == [] then []
    else
      var last := given[|given| - 1];
      ObjectsOf(given[..|given| - 1]) + if last.Some? then [last.value] else []
  }

  /** `_messages_from_batch`. */
  function FromBatch(given: seq<Option<FlatRow>>): Result<Batch, BatchError> {
    if exists i :: 0 <= i < |given| && given[i].None? then Err(PayloadMustBeObject) else FromRows(ObjectsOf(given))
  }

  /** `_target_identity`; `fallback` is the text derived from the messages. */
  function TargetIdentity(textHash: string -> string, b: Batch, fallback: string): (string, KeyScheme) {
    if b.targetKey != "" then (b.targetKey, UrlHash)
    else if b.url != "" then (textHash(b.url), UrlHash)
    else if b.title != "" then (textHash(b.title), TitleFallback)
    else if b.streamId != "" then (textHash(b.streamId), StreamIdHash)
    else (textHash(fallback), ContentFallback)
  }

  // ------------------------------------------------- no row under a foreign target

  lemma {:induction false} FirstGivenIsCommon(values: seq<string>)
    requires Agree(values)
    ensures forall i :: 0 <= i < |values| && !Blank(values[i]) ==> Strip(values[i]) == FirstGiven(values)
    ensures FirstGiven(values) == "" <==> forall i :: 0 <= i < |values| ==> Blank(values[i])
    ensures FirstGiven(values) != "" ==> exists i :: 0 <= i < |values| && Strip(values[i]) == FirstGiven(values)
  {
    hide Strip;
    if values != [] {
      var n := |values| - 1;
      var rest := values[..n];
      assert forall i :: 0 <= i < n ==> rest[i] == values[i];
      assert Agree(rest) by {
        forall i, j | 0 <= i < n && 0 <= j < n && !Blank(rest[i]) && !Blank(rest[j]) ensures Strip(rest[i]) == Strip(rest[j]) {
          assert rest[i] == values[i] && rest[j] == values[j];
        }
      }
      FirstGivenIsCommon(rest);
    }
  }

  function Wrap(rows: seq<FlatRow>): seq<Option<FlatRow>> {
    seq(|rows|, i requires 0 <= i < |rows| => Some(rows[i]))
  }

  lemma {:induction false} ObjectsOfWrapped(rows: seq<FlatRow>)
    ensures ObjectsOf(Wrap(rows)) == rows
  {
    if rows != [] {
      var n := |rows| - 1;
      ObjectsOfWrapped(rows[..n]);
      assert Wrap(rows)[..n] == Wrap(rows[..n]);
    }
  }

  /** Which batches of objects are taken. */
  predicate Takeable(rows: seq<FlatRow>) {
    && 1 <= |rows| <= MAX_MESSAGES && (forall i :: 0 <= i < |rows| ==> rows[i].schema == rows[0].schema) && IsFlat(rows[0].schema)
    && BodiesFit(rows) && OneTarget(rows)
  }

  /**
   * A batch is taken exactly when it is of one flat schema, within the limits, and names one
   * target; and every row that names a key, URL, title or stream of its own names the batch's.
   */
  lemma BatchExact(rows: seq<FlatRow>)
    ensures FromBatch(Wrap(rows)).Ok? <==> Takeable(rows)
    ensures FromBatch(Wrap(rows)).Ok? ==>
              var b := FromBatch(Wrap(rows)).value;
              && b.messages == MessagesOf(rows)
              && forall i :: 0 <= i < |rows| ==>
                   && (Blank(rows[i].targetKey) || Strip(rows[i].targetKey) == b.targetKey)
                   && (Blank(rows[i].url) || Strip(rows[i].url) == b.url)
                   && (Blank(rows[i].title) || Strip(rows[i].title) == b.title)
                   && (Blank(rows[i].streamId) || Strip(rows[i].streamId) == b.streamId)
  {
    hide BodiesFit, Agree, FirstGiven, Strip, MessagesOf, ObjectsOf;
    ObjectsOfWrapped(rows);
    if rows != [] {
      if OneTarget(rows) {
        FirstGivenIsCommon(TargetKeys(rows));
        FirstGivenIsCommon(Urls(rows));
        FirstGivenIsCommon(Titles(rows));
        FirstGivenIsCommon(StreamIds(rows));
        forall i | 0 <= i < |rows|
          ensures TargetKeys(rows)[i] == rows[i].targetKey && Urls(rows)[i] == rows[i].url
                  && Titles(rows)[i] == rows[i].title && StreamIds(rows)[i] == rows[i].streamId
        {
        }
      }
    }
  }

  // ------------------------------------------------- field by field

  ghost predicate SameOrBlank(a: string, b: string) {
    Strip(a) == "" || Strip(b) == "" || Strip(a) == Strip(b)
  }

  /** Two rows of a batch do not contradict each other. */
  ghost predicate Compatible(a: FlatRow, b: FlatRow) {
    && a.schema == b.schema && SameOrBlank(a.targetKey, b.targetKey) && SameOrBlank(a.url, b.url)
    && SameOrBlank(a.title, b.title) && SameOrBlank(a.streamId, b.streamId)
  }

  /** A batch of 1 to 2000 records, of one of the two flat schemas, no body over a million characters, no two records in contradiction. */
  lemma BatchByFields(rows: seq<FlatRow>)
    ensures FromBatch(Wrap(rows)).Ok? <==>
              && 1 <= |rows| <= 2_000
              && (forall i :: 0 <= i < |rows| ==> rows[i].schema in {VisibleRecord, IncrementalVisible} && |rows[i].message.body| <= 1_000_000)
              && forall i, j :: 0 <= i < |rows| && 0 <= j < |rows| ==> Compatible(rows[i], rows[j])
  {
    hide Strip, FromBatch, MessagesOf;
    BatchExact(rows);
    if rows != [] {
      var keys, urls, titles, streams := TargetKeys(rows), Urls(rows), Titles(rows), StreamIds(rows);
      forall i | 0 <= i < |rows|
        ensures keys[i] == rows[i].targetKey && urls[i] == rows[i].url && titles[i] == rows[i].title && streams[i] == rows[i].streamId
      {
      }
      if OneTarget(rows) {
        forall i, j | 0 <= i < |rows| && 0 <= j < |rows|
          ensures SameOrBlank(rows[i].targetKey, rows[j].targetKey) && SameOrBlank(rows[i].url, rows[j].url)
                  && SameOrBlank(rows[i].title, rows[j].title) && SameOrBlank(rows[i].streamId, rows[j].streamId)
        {
          assert keys[i] == rows[i].targetKey && keys[j] == rows[j].targetKey;
        }
      }
      if forall i, j :: 0 <= i < |rows| && 0 <= j < |rows| ==> Compatible(rows[i], rows[j]) {
        forall i, j | 0 <= i < |rows| && 0 <= j < |rows|
          ensures SameOrBlank(keys[i], keys[j]) && SameOrBlank(urls[i], urls[j]) && SameOrBlank(titles[i], titles[j]) && SameOrBlank(streams[i], streams[j])
        {
          assert Compatible(rows[i], rows[j]);
        }
        forall i | 0 <= i < |rows| ensures rows[i].schema == rows[0].schema { assert Compatible(rows[i], rows[0]); }
      }
    }
  }

  /** Why a batch is not taken; the first reason in this order counts. */
  ghost predicate BatchRefused(rows: seq<FlatRow>, error: BatchError) {
    var alike := rows != [] && forall i :: 0 <= i < |rows| ==> rows[i].schema == rows[0].schema;
    var flat := alike && rows[0].schema in {VisibleRecord, IncrementalVisible};
    var short := forall i :: 0 <= i < |rows| ==> |rows[i].message.body| <= 1_000_000;
    match error
    case PayloadMustBeObject => rows == []
    case InconsistentSchema => rows != [] && !alike
    case AdapterMissing => alike && !flat
    case MessageLimitExceeded => flat && |rows| > 2_000
    case BodyLimitExceeded => flat && |rows| <= 2_000 && !short
    case MixedTarget =>
      && flat && |rows| <= 2_000 && short
      && exists i, j :: 0 <= i < |rows| && 0 <= j < |rows| && !Compatible(rows[i], rows[j])
  }

  lemma BatchRefusedExact(rows: seq<FlatRow>, error: BatchError)
    ensures FromBatch(Wrap(rows)) == Err(error) <==> BatchRefused(rows, error)
  {
    hide Compatible, OneTarget, FirstGiven, MessagesOf, ObjectsOf, Takeable;
    ObjectsOfWrapped(rows);
    BatchByFields(rows);
  }

  /** A batch with a value that is no object is refused as such. */
  lemma NoObjectIsRefused(given: seq<Option<FlatRow>>)
    requires None in given
    ensures FromBatch(given) == Err(PayloadMustBeObject)
  {
    var i :| 0 <= i < |given| && given[i] == None;
  }

  /** The first text that is not blank, stripped. */
  ghost predicate FirstFilled(values: seq<string>, given: string) {
    || (given == "" && forall i :: 0 <= i < |values| ==> Strip(values[i]) == "")
    || exists i :: 0 <= i < |values| && given == Strip(values[i]) != "" && forall j :: 0 <= j < i ==> Strip(values[j]) == ""
  }

  lemma {:induction false} FirstGivenExact(values: seq<string>)
    ensures FirstFilled(values, FirstGiven(values))
  {
    hide Strip;
    if values != [] {
      var n := |values| - 1;
      FirstGivenExact(values[..n]);
      assert forall i :: 0 <= i < n ==> values[..n][i] == values[i];
      if FirstGiven(values[..n]) != "" {
        var i :| 0 <= i < n && FirstGiven(values[..n]) == Strip(values[..n][i]) != "" && forall j :: 0 <= j < i ==> Strip(values[..n][j]) == "";
        assert FirstGiven(values) == Strip(values[i]);
      }
    }
  }

  /** What a batch says of itself: the first given value of each field of its records. */
  lemma BatchMeans(rows: seq<FlatRow>)
    requires FromBatch(Wrap(rows)).Ok?
    ensures var b := FromBatch(Wrap(rows)).value;
            && |b.messages| == |rows| && (forall i :: 0 <= i < |rows| ==> b.messages[i] == rows[i].message)
            && FirstFilled(seq(|rows|, i requires 0 <= i < |rows| => rows[i].targetKey), b.targetKey)
            && FirstFilled(seq(|rows|, i requires 0 <= i < |rows| => rows[i].url), b.url)
            && FirstFilled(seq(|rows|, i requires 0 <= i < |rows| => rows[i].title), b.title)
            && FirstFilled(seq(|rows|, i requires 0 <= i < |rows| => rows[i].streamId), b.streamId)
            && FirstFilled(seq(|rows|, i requires 0 <= i < |rows| => rows[i].capturedAt), b.capturedAt)
            && (b.source == "visible_text" || FirstFilled(seq(|rows|, i requires 0 <= i < |rows| => rows[i].source), b.source))
            && ((forall i :: 0 <= i < |rows| ==> Strip(rows[i].source) == "") ==> b.source == "visible_text")
  {
    hide Strip, FirstFilled, FirstGiven, OneTarget, BodiesFit, ObjectsOf;
    ObjectsOfWrapped(rows);
    ColumnsAre(rows);
    FirstGivenExact(TargetKeys(rows));
    FirstGivenExact(Urls(rows));
    FirstGivenExact(Titles(rows));
    FirstGivenExact(StreamIds(rows));
    FirstGivenExact(Column(rows, (r: FlatRow) => r.capturedAt));
    FirstGivenExact(Column(rows, (r: FlatRow) => r.source));
    NothingGiven(rows, FirstGiven(Column(rows, (r: FlatRow) => r.source)));
  }

  lemma ColumnsAre(rows: seq<FlatRow>)
    ensures seq(|rows|, i requires 0 <= i < |rows| => rows[i].targetKey) == TargetKeys(rows)
    ensures seq(|rows|, i requires 0 <= i < |rows| => rows[i].url) == Urls(rows)
    ensures seq(|rows|, i requires 0 <= i < |rows| => rows[i].title) == Titles(rows)
    ensures seq(|rows|, i requires 0 <= i < |rows| => rows[i].streamId) == StreamIds(rows)
    ensures seq(|rows|, i requires 0 <= i < |rows| => rows[i].capturedAt) == Column(rows, (r: FlatRow) => r.capturedAt)
    ensures seq(|rows|, i requires 0 <= i < |rows| => rows[i].source) == Column(rows, (r: FlatRow) => r.source)
  {
  }

  lemma NothingGiven(rows: seq<FlatRow>, given: string)
    requires FirstFilled(Column(rows, (r: FlatRow) => r.source), given)
    ensures (forall i :: 0 <= i < |rows| ==> Strip(rows[i].source) == "") ==> given == ""
  {
    hide Strip;
  }

  /** Which of its texts names the target: key, URL, title, stream, in this order; the key itself, of the others the hash. */
  lemma IdentityByFields(textHash: string -> string, b: Batch, fallback: string)
    ensures var id := TargetIdentity(textHash, b, fallback);
            && (b.targetKey != "" ==> id == (b.targetKey, UrlHash))
            && (b.targetKey == "" && b.url != "" ==> id == (textHash(b.url), UrlHash))
            && (b.targetKey == "" && b.url == "" && b.title != "" ==> id == (textHash(b.title), TitleFallback))
            && (b.targetKey == "" && b.url == "" && b.title == "" && b.streamId != "" ==> id == (textHash(b.streamId), StreamIdHash))
            && (b.targetKey == "" && b.url == "" && b.title == "" && b.streamId == "" ==> id == (textHash(fallback), ContentFallback))
  {
  }
}
