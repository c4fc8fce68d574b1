/**
 * The append-only ledger of text snapshots: many streams in one file, each chained by
 * consecutive sequence numbers and previous-event hashes; validation and the append
 * transaction (`_validate_text_snapshot_chain`, `_snapshot_stream_history`,
 * `_append_text_snapshots_transaction`).
 */
module Ledger {
  import opened Text
  import opened Receipts

  const OBSERVATION := "discord_context_bridge_text_snapshot_observation.v1"

  /** The fields of a row that the chain does not look at; `None` for a field that is missing. */
  datatype Body = Body(
    eventType: string,
    contentHash: Option<string>, previousContentHash: Option<string>,
    messageId: string, ordinal: Option<int>, author: Option<string>, timestamp: Option<string>,
    duplicateMessageId: Option<bool>, duplicateContent: Option<bool>, changed: Option<bool>,
    capturedAt: string, observedAt: string, ingestedAt: string,
    source: string, url: string, title: string, text: Option<string>,
    legacyId: string, importId: string, rest: string)

  /** A row. `chained` says whether it carries the keys of the canonical chain; older rows do not. */
  datatype Row = Row(
    chained: bool, schema: string, eventId: string,
    streamId: Option<string>, targetKey: string,
    sequence: Raw<int>, expectedPrevious: Raw<int>,
    previousEventHash: string, eventHash: string,
    body: Body)

  /** `canonical_event_hash`, left uninterpreted. */
  type Hash = Row -> string

  /** The hash covers everything but the stored hash. */
  function EventHash(h: Hash, row: Row): string {
    h(row.(eventHash := ""))
  }

  function DurableHash(h: Hash, row: Row): string {
    if !row.chained && row.eventHash != "" then row.eventHash else EventHash(h, row)
  }

  /** `row.get("stream_id") or ""`. */
  function StreamIdOf(row: Row): string {
    if row.streamId.Some? then row.streamId.value else ""
  }

  /** `_snapshot_stream_id`. */
  function StreamOf(row: Row): string {
    if row.chained then (if StreamIdOf(row) != "" then StreamIdOf(row) else row.targetKey)
    else (if row.targetKey != "" then row.targetKey else StreamIdOf(row))
  }

  /** `_validate_snapshot_stream_binding`. */
  predicate Bound(row: Row) {
    row.chained ==> row.schema == OBSERVATION && row.eventId != "" && StreamIdOf(row) != "" && StreamIdOf(row) == row.targetKey
  }

  datatype LedgerError = Corrupt | EventConflict | SequenceConflict | ReplayConflict

  // ------------------------------------------------- repeated rows

  function FirstWith(rows: seq<Row>, id: string): (r: Option<Row>)
    ensures r.Some? ==> r.value in rows && r.value.eventId == id
    ensures r.None? <==> forall i :: 0 <= i < |rows| ==> rows[i].eventId != id
  {
    if rows == [] then None
    else
      var n := |rows| - 1;
      match FirstWith(rows[..n], id)
      case Some(row) => Some(row)
      case None =>
        assert forall i :: 0 <= i < n ==> rows[..n][i] == rows[i];
        if rows[n].eventId == id then Some(rows[n]) else None
  }

  /** The id of `row` is taken by an earlier row with other content. */
  predicate Conflicts(prior: seq<Row>, row: Row) {
    row.eventId != "" && FirstWith(prior, row.eventId).Some? && FirstWith(prior, row.eventId).value != row
  }

  /** `row` repeats an earlier row of the chain exactly: it stays in the file but not in the history. */
  predicate Repeats(prior: seq<Row>, row: Row) {
    row.chained && row.eventId != "" && FirstWith(prior, row.eventId) == Some(row)
  }

  // ------------------------------------------------- validation

  datatype Head = Head(sequence: nat, hash: string)

  const NO_HEAD := Head(0, "")

  function HeadOf(heads: map<string, Head>, stream: string): Head {
    if stream in heads then heads[stream] else NO_HEAD
  }

  /** A chained row continues the stream whose head is given. */
  predicate Continues(h: Hash, head: Head, row: Row) {
    row.chained ==>
      && row.sequence == Val(head.sequence + 1) && row.expectedPrevious == Val(head.sequence)
      && row.previousEventHash == head.hash && row.eventHash == EventHash(h, row)
  }

  function NextHeads(h: Hash, heads: map<string, Head>, row: Row): map<string, Head> {
    if StreamOf(row) == "" then heads
    else heads[StreamOf(row) := Head(HeadOf(heads, StreamOf(row)).sequence + 1, DurableHash(h, row))]
  }

  /** `_validate_text_snapshot_chain`: the head of every stream. */
  function Chain(h: Hash, rows: seq<Row>): Result<map<string, Head>, LedgerError> {
    if rows == [] then Ok(map[])
    else
      var n := |rows| - 1;
      match Chain(h, rows[..n])
      case Err(e) => Err(e)
      case Ok(heads) =>
        if Conflicts(rows[..n], rows[n]) then Err(Corrupt)
        else if Repeats(rows[..n], rows[n]) then Ok(heads)
        else if !Bound(rows[n]) then Err(Corrupt)
        else if StreamOf(rows[n]) != "" && !Continues(h, HeadOf(heads, StreamOf(rows[n])), rows[n]) then Err(Corrupt)
        else Ok(NextHeads(h, heads, rows[n]))
  }

  /** `_snapshot_stream_history`: the rows of one stream, exact repeats left out. */
  function History(rows: seq<Row>, stream: string): seq<Row> {
    if rows == [] then []
    else
      var n := |rows| - 1;
      History(rows[..n], stream)
      + if !Repeats(rows[..n], rows[n]) && StreamOf(rows[n]) == stream then [rows[n]] else []
  }

  /** The head a history ends in. */
  function HistoryHead(h: Hash, history: seq<Row>): Head {
    if history == [] then NO_HEAD else Head(|history|, DurableHash(h, history[|history| - 1]))
  }

  /** Row `k` is well placed: no conflict, and it continues the history of its stream before it. */
  ghost predicate WellPlaced(h: Hash, rows: seq<Row>, k: nat)
    requires k < |rows|
  {
    && !Conflicts(rows[..k], rows[k])
    && (Repeats(rows[..k], rows[k])
        || (Bound(rows[k])
            && (StreamOf(rows[k]) != "" ==> Continues(h, HistoryHead(h, History(rows[..k], StreamOf(rows[k]))), rows[k]))))
  }

  ghost predicate HeadsAre(h: Hash, heads: map<string, Head>, rows: seq<Row>) {
    forall s :: s != "" ==> HeadOf(heads, s) == HistoryHead(h, History(rows, s))
  }

  /** Validation succeeds exactly when every row is well placed, and yields the head of each history. */
  lemma {:induction false} ChainExact(h: Hash, rows: seq<Row>)
    ensures Chain(h, rows).Ok? <==> forall k: nat :: k < |rows| ==> WellPlaced(h, rows, k)
    ensures Chain(h, rows).Ok? ==> HeadsAre(h, Chain(h, rows).value, rows)
  {
    hide WellPlaced, HeadsAre, Conflicts, Repeats, Bound, Continues, NextHeads, HistoryHead;
    if rows == [] {
      assert HeadsAre(h, map[], []) by { NoHeads(h); }
    } else {
      var n := |rows| - 1;
      ChainExact(h, rows[..n]);
      forall k: nat | k < n ensures WellPlaced(h, rows, k) <==> WellPlaced(h, rows[..n], k) { PrefixPlaced(h, rows, n, k); }
      if Chain(h, rows[..n]).Ok? {
        LastPlaced(h, rows);
        if Chain(h, rows).Ok? { HeadsStep(h, rows); }
      }
    }
  }

  lemma NoHeads(h: Hash)
    ensures HeadsAre(h, map[], [])
  {
  }

  lemma PrefixPlaced(h: Hash, rows: seq<Row>, n: nat, k: nat)
    requires k < n <= |rows|
    ensures WellPlaced(h, rows, k) <==> WellPlaced(h, rows[..n], k)
  {
    assert rows[..n][..k] == rows[..k];
  }

  lemma LastPlaced(h: Hash, rows: seq<Row>)
    requires rows != [] && Chain(h, rows[..|rows| - 1]).Ok? && HeadsAre(h, Chain(h, rows[..|rows| - 1]).value, rows[..|rows| - 1])
    ensures Chain(h, rows).Ok? <==> WellPlaced(h, rows, |rows| - 1)
  {
    hide Conflicts, Repeats, Bound, Continues, NextHeads, HistoryHead, HeadOf, History;
  }

  lemma HeadsOfLast(h: Hash, rows: seq<Row>)
    requires rows != [] && Chain(h, rows).Ok?
    ensures var before, last := rows[..|rows| - 1], rows[|rows| - 1];
            && Chain(h, before).Ok?
            && Chain(h, rows).value == if Repeats(before, last) then Chain(h, before).value else NextHeads(h, Chain(h, before).value, last)
  {
    hide Conflicts, Repeats, Bound, Continues, NextHeads;
  }

  lemma HistoryOfLast(rows: seq<Row>, s: string)
    requires rows != []
    ensures var before, last := rows[..|rows| - 1], rows[|rows| - 1];
            History(rows, s) == if !Repeats(before, last) && StreamOf(last) == s then History(before, s) + [last] else History(before, s)
  {
    hide Repeats, StreamOf;
    assert History(rows[..|rows| - 1], s) + [] == History(rows[..|rows| - 1], s);
  }

  lemma HeadsStep(h: Hash, rows: seq<Row>)
    requires rows != [] && Chain(h, rows).Ok? && Chain(h, rows[..|rows| - 1]).Ok?
    requires HeadsAre(h, Chain(h, rows[..|rows| - 1]).value, rows[..|rows| - 1])
    ensures HeadsAre(h, Chain(h, rows).value, rows)
  {
    hide Repeats, NextHeads, HeadOf, HistoryHead, Chain, History, StreamOf;
    var n := |rows| - 1;
    var heads := Chain(h, rows[..n]).value;
    HeadsOfLast(h, rows);
    forall s | s != "" ensures HeadOf(Chain(h, rows).value, s) == HistoryHead(h, History(rows, s)) {
      HistoryOfLast(rows, s);
      HeadMoves(h, heads, rows[n], s, History(rows[..n], s));
    }
  }

  /** A row moves the head of its own stream, to where its history then ends, and no other. */
  lemma HeadMoves(h: Hash, heads: map<string, Head>, row: Row, s: string, before: seq<Row>)
    requires s != "" && HeadOf(heads, s) == HistoryHead(h, before)
    ensures HeadOf(NextHeads(h, heads, row), s) == HistoryHead(h, if StreamOf(row) == s then before + [row] else before)
  {
    hide StreamOf, DurableHash;
  }

  /** What a later row must give as the hash of `row`: older rows without the chain may carry a hash of their own. */
  function HashToQuote(h: Hash, row: Row): string {
    if row.chained || row.eventHash == "" then h(row.(eventHash := "")) else row.eventHash
  }

  /** Row `k` of a stream, when it is chained: its number, its predecessor's number and hash, its own hash. */
  ghost predicate InPlace(h: Hash, history: seq<Row>, k: nat)
    requires k < |history|
  {
    var row := history[k];
    row.chained ==>
      && row.sequence == Val(k + 1) && row.expectedPrevious == Val(k)
      && row.previousEventHash == (if k == 0 then "" else HashToQuote(h, history[k - 1]))
      && row.eventHash == h(row.(eventHash := ""))
  }

  ghost predicate Consecutive(h: Hash, history: seq<Row>) {
    forall k: nat :: k < |history| ==> InPlace(h, history, k)
  }

  /** In a valid ledger every stream is numbered 1, 2, 3, ... and linked hash by hash. */
  lemma {:induction false} StreamsAreConsecutive(h: Hash, rows: seq<Row>, stream: string)
    requires Chain(h, rows).Ok? && stream != ""
    ensures Consecutive(h, History(rows, stream))
    ensures HeadOf(Chain(h, rows).value, stream) == HistoryHead(h, History(rows, stream))
  {
    hide Conflicts, Repeats, Bound, Continues, NextHeads, HistoryHead, Consecutive;
    ChainExact(h, rows);
    if rows == [] {
      NothingConsecutive(h);
    } else {
      var n := |rows| - 1;
      ChainExact(h, rows[..n]);
      StreamsAreConsecutive(h, rows[..n], stream);
      var before := History(rows[..n], stream);
      assert before + [] == before;
      if !Repeats(rows[..n], rows[n]) && StreamOf(rows[n]) == stream { ConsecutiveGrows(h, before, rows[n]); }
    }
  }

  lemma NothingConsecutive(h: Hash)
    ensures Consecutive(h, [])
  {
  }

  lemma ConsecutiveGrows(h: Hash, history: seq<Row>, row: Row)
    requires Consecutive(h, history) && Continues(h, HistoryHead(h, history), row)
    ensures Consecutive(h, history + [row])
  {
    hide HashToQuote;
    var more := history + [row];
    forall k: nat | k < |more| ensures InPlace(h, more, k) {
      if k < |history| {
        assert InPlace(h, history, k);
      } else if k > 0 {
        QuotedHash(h, history[k - 1]);
      }
    }
  }

  lemma QuotedHash(h: Hash, row: Row)
    ensures DurableHash(h, row) == HashToQuote(h, row)
  {
  }

  /** The loop of the validator, with its dictionary of event ids and its dictionary of heads. */
  method ValidateTextSnapshotChain(h: Hash, snapshots: seq<Row>) returns (r: Result<map<string, Head>, LedgerError>)
    ensures r == Chain(h, snapshots)
  {
    hide Bound, Continues, DurableHash;
    var eventIds: map<string, Row> := map[];
    var heads: map<string, Head> := map[];
    assert snapshots[..0] == [];
    for i := 0 to |snapshots|
      invariant Chain(h, snapshots[..i]) == Ok(heads)
      invariant IdsKnown(snapshots[..i], eventIds)
    {
      var snapshot := snapshots[i];
      assert snapshots[..i + 1][..i] == snapshots[..i];
      if snapshot.eventId != "" && snapshot.eventId in eventIds && eventIds[snapshot.eventId] != snapshot {
        ChainErrorStays(h, snapshots, i + 1);
        return Err(Corrupt);
      }
      ghost var repeated := Repeats(snapshots[..i], snapshot);
      assert repeated <==> snapshot.chained && snapshot.eventId != "" && snapshot.eventId in eventIds;
      IdsKnownStep(snapshots, i, eventIds);
      if !(snapshot.chained && snapshot.eventId != "" && snapshot.eventId in eventIds) {
        if !Bound(snapshot) || (StreamOf(snapshot) != "" && !Continues(h, HeadOf(heads, StreamOf(snapshot)), snapshot)) {
          ChainErrorStays(h, snapshots, i + 1);
          return Err(Corrupt);
        }
        heads := NextHeads(h, heads, snapshot);
      }
      if snapshot.eventId != "" { eventIds := eventIds[snapshot.eventId := snapshot]; }
    }
    assert snapshots[..|snapshots|] == snapshots;
    return Ok(heads);
  }

  /** The dictionary holds, for every id seen, the first row that bore it. */
  ghost predicate IdsKnown(rows: seq<Row>, ids: map<string, Row>) {
    forall id :: id != "" ==> FirstWith(rows, id) == if id in ids then Some(ids[id]) else None
  }

  lemma IdsKnownStep(rows: seq<Row>, i: nat, ids: map<string, Row>)
    requires i < |rows| && IdsKnown(rows[..i], ids) && !Conflicts(rows[..i], rows[i])
    ensures IdsKnown(rows[..i + 1], if rows[i].eventId != "" then ids[rows[i].eventId := rows[i]] else ids)
  {
    assert rows[..i + 1][..i] == rows[..i];
  }

  lemma {:induction false} ChainErrorStays(h: Hash, rows: seq<Row>, k: nat)
    requires k <= |rows| && Chain(h, rows[..k]).Err?
    ensures Chain(h, rows) == Chain(h, rows[..k])
  {
    hide Conflicts, Repeats, Bound, Continues, NextHeads;
    if k == |rows| {
      assert rows[..k] == rows;
    } else {
      assert rows[..|rows| - 1][..k] == rows[..k];
      ChainErrorStays(h, rows[..|rows| - 1], k);
    }
  }

  // ------------------------------------------------- the append transaction

  /** One candidate against the ledger as it stands: skipped, refused or appended. */
  function AppendOne(h: Hash, rows: seq<Row>, heads: map<string, Head>, row: Row): Result<seq<Row>, LedgerError> {
    if !Bound(row) then Err(Corrupt)
    else if Conflicts(rows, row) then Err(EventConflict)
    else if row.eventId != "" && FirstWith(rows, row.eventId).Some? then Ok(rows)
    else if row.chained && row.eventHash != EventHash(h, row) then Err(Corrupt)
    else if row.chained && !(row.sequence.Val? && row.expectedPrevious.Val?) then Err(Corrupt)
    else if !Continues(h, HeadOf(heads, StreamOf(row)), row) then Err(SequenceConflict)
    else Ok(rows + [row])
  }

  /** The ledger after offering the candidates in order. */
  function AppendAll(h: Hash, rows: seq<Row>, candidates: seq<Row>): Result<seq<Row>, LedgerError> {
    if candidates == [] then (match Chain(h, rows) case Ok(_) => Ok(rows) case Err(e) => Err(e))
    else
      var n := |candidates| - 1;
      match AppendAll(h, rows, candidates[..n])
      case Err(e) => Err(e)
      case Ok(now) =>
        match Chain(h, now)
        case Err(e) => Err(e)
        case Ok(heads) => AppendOne(h, now, heads, candidates[n])
  }

  /** A row that the transaction appends keeps the ledger valid. */
  lemma AppendedKeepsChain(h: Hash, rows: seq<Row>, row: Row)
    requires Chain(h, rows).Ok? && AppendOne(h, rows, Chain(h, rows).value, row).Ok?
    ensures Chain(h, AppendOne(h, rows, Chain(h, rows).value, row).value).Ok?
  {
    hide Bound, Continues, NextHeads, EventHash;
    assert (rows + [row])[..|rows|] == rows;
  }

  /**
   * Every writer preserves the chain: whatever candidates are offered, an accepted
   * transaction leaves the old ledger as a prefix and the new ledger valid. (So the
   * validation after the loop never fails.)
   */
  lemma {:induction false} TransactionKeepsChain(h: Hash, rows: seq<Row>, candidates: seq<Row>)
    requires AppendAll(h, rows, candidates).Ok?
    ensures Chain(h, rows).Ok? && Chain(h, AppendAll(h, rows, candidates).value).Ok?
    ensures rows <= AppendAll(h, rows, candidates).value
  {
    hide Chain, AppendOne;
    if candidates != [] {
      var n := |candidates| - 1;
      TransactionKeepsChain(h, rows, candidates[..n]);
      var now := AppendAll(h, rows, candidates[..n]).value;
      AppendedKeepsChain(h, now, candidates[n]);
      AppendOneExtends(h, now, Chain(h, now).value, candidates[n]);
    }
  }

  lemma AppendOneExtends(h: Hash, rows: seq<Row>, heads: map<string, Head>, row: Row)
    ensures AppendOne(h, rows, heads, row).Ok? ==>
              AppendOne(h, rows, heads, row).value in {rows, rows + [row]} && rows <= AppendOne(h, rows, heads, row).value
  {
  }

  /** Offering two batches at once is offering one after the other. */
  lemma {:induction false} AppendConcat(h: Hash, rows: seq<Row>, a: seq<Row>, b: seq<Row>)
    ensures AppendAll(h, rows, a + b) ==
            match AppendAll(h, rows, a) case Err(e) => Err(e) case Ok(now) => AppendAll(h, now, b)
  {
    hide Chain, AppendOne;
    if b == [] {
      assert a + b == a;
      if AppendAll(h, rows, a).Ok? { TransactionKeepsChain(h, rows, a); }
    } else {
      var n := |b| - 1;
      AppendConcat(h, rows, a, b[..n]);
      assert (a + b)[..|a + b| - 1] == a + b[..n];
    }
  }

  /** The store file. `Append` is the transaction: read, build, check, append, all under one lock. */
  class SnapshotStore {
    var rows: seq<Row>

    constructor ()
      ensures rows == []
    {
      rows := [];
    }

    /**
     * All or nothing: on success the file holds the old rows followed by the accepted
     * candidates, on any refusal it is untouched.
     */
    method Append(h: Hash, build: seq<Row> -> Result<seq<Row>, LedgerError>) returns (r: Result<(nat, seq<Row>), LedgerError>)
      modifies this
      ensures r == match Transaction(h, old(rows), build)
                   case Err(e) => Err(e)
                   case Ok(now) => Ok((|now| - |old(rows)|, build(old(rows)).value))
      ensures rows == match Transaction(h, old(rows), build) case Err(_) => old(rows) case Ok(now) => now
    {
      var heads := ValidateTextSnapshotChain(h, rows);
      if heads.Err? { return Err(heads.error); }
      var candidates := build(rows);
      if candidates.Err? { return Err(candidates.error); }
      var additions := CheckCandidates(h, rows, heads.value, candidates.value);
      if additions.Err? { return Err(additions.error); }
      TransactionKeepsChain(h, rows, candidates.value);
      rows := rows + additions.value;
      return Ok((|additions.value|, candidates.value));
    }
  }

  /** The result of a transaction as a function of the file's content. */
  function Transaction(h: Hash, rows: seq<Row>, build: seq<Row> -> Result<seq<Row>, LedgerError>): (r: Result<seq<Row>, LedgerError>)
    ensures r.Ok? ==> rows <= r.value && build(rows).Ok?
  {
    match Chain(h, rows)
    case Err(e) => Err(e)
    case Ok(_) =>
      match build(rows)
      case Err(e) => Err(e)
      case Ok(candidates) =>
        if AppendAll(h, rows, candidates).Ok? then TransactionKeepsChain(h, rows, candidates); AppendAll(h, rows, candidates)
        else AppendAll(h, rows, candidates)
  }

  /** The loop over the candidates, with its dictionary of known ids and of heads. */
  method CheckCandidates(h: Hash, rows: seq<Row>, heads: map<string, Head>, candidates: seq<Row>)
    returns (r: Result<seq<Row>, LedgerError>)
    requires Chain(h, rows) == Ok(heads)
    ensures AppendAll(h, rows, candidates) == match r case Err(e) => Err(e) case Ok(additions) => Ok(rows + additions)
  {
    hide Bound, Continues, NextHeads, EventHash, Chain, Conflicts, AppendOne, IdsKnown;
    var byEventId := IdsOf(h, rows);
    var current := heads;
    var additions: seq<Row> := [];
    assert candidates[..0] == [] && rows + additions == rows;
    for i := 0 to |candidates|
      invariant AppendAll(h, rows, candidates[..i]) == Ok(rows + additions)
      invariant Chain(h, rows + additions) == Ok(current)
      invariant IdsKnown(rows + additions, byEventId)
    {
      var snapshot := candidates[i];
      ghost var now := rows + additions;
      assert candidates[..i + 1][..i] == candidates[..i];
      var verdict := Judge(h, now, current, byEventId, snapshot);
      if verdict.Err? {
        AppendErrorStays(h, rows, candidates, i + 1);
        return Err(verdict.error);
      }
      if verdict.value {
        assert rows + (additions + [snapshot]) == now + [snapshot];
        AppendedStep(h, now, current, byEventId, snapshot);
        additions := additions + [snapshot];
        if snapshot.eventId != "" { byEventId := byEventId[snapshot.eventId := snapshot]; }
        current := NextHeads(h, current, snapshot);
      }
    }
    assert candidates[..|candidates|] == candidates;
    return Ok(additions);
  }

  /** One candidate: refuse it, skip it (`false`) or append it (`true`). */
  method Judge(h: Hash, ghost now: seq<Row>, heads: map<string, Head>, byEventId: map<string, Row>, snapshot: Row)
    returns (r: Result<bool, LedgerError>)
    requires IdsKnown(now, byEventId)
    ensures AppendOne(h, now, heads, snapshot)
            == match r case Err(e) => Err(e) case Ok(appended) => Ok(if appended then now + [snapshot] else now)
    ensures r == Ok(true) ==> snapshot.eventId != "" ==> snapshot.eventId !in byEventId
  {
    hide Bound;
    if !Bound(snapshot) { return Err(Corrupt); }
    if snapshot.eventId != "" && snapshot.eventId in byEventId {
      if byEventId[snapshot.eventId] != snapshot { return Err(EventConflict); }
      return Ok(false);
    }
    var head := HeadOf(heads, StreamOf(snapshot));
    if snapshot.chained {
      if snapshot.eventHash != EventHash(h, snapshot) { return Err(Corrupt); }
      if !snapshot.sequence.Val? || !snapshot.expectedPrevious.Val? { return Err(Corrupt); }
      if snapshot.expectedPrevious.v != head.sequence { return Err(SequenceConflict); }
      if snapshot.sequence.v != head.sequence + 1 { return Err(SequenceConflict); }
      if snapshot.previousEventHash != head.hash { return Err(SequenceConflict); }
    }
    return Ok(true);
  }

  lemma AppendedStep(h: Hash, now: seq<Row>, heads: map<string, Head>, ids: map<string, Row>, row: Row)
    requires Chain(h, now) == Ok(heads) && IdsKnown(now, ids) && AppendOne(h, now, heads, row) == Ok(now + [row])
    requires row.eventId != "" ==> row.eventId !in ids
    ensures Chain(h, now + [row]) == Ok(NextHeads(h, heads, row))
    ensures IdsKnown(now + [row], if row.eventId != "" then ids[row.eventId := row] else ids)
  {
    hide Continues, NextHeads;
    assert (now + [row])[..|now|] == now;
    assert !Conflicts(now, row) && !Repeats(now, row);
    IdsKnownStep(now + [row], |now|, ids);
    assert (now + [row])[..|now| + 1] == now + [row];
  }

  lemma {:induction false} AppendErrorStays(h: Hash, rows: seq<Row>, candidates: seq<Row>, k: nat)
    requires k <= |candidates| && AppendAll(h, rows, candidates[..k]).Err?
    ensures AppendAll(h, rows, candidates) == AppendAll(h, rows, candidates[..k])
  {
    hide Chain, AppendOne;
    if k == |candidates| {
      assert candidates[..k] == candidates;
    } else {
      assert candidates[..|candidates| - 1][..k] == candidates[..k];
      AppendErrorStays(h, rows, candidates[..|candidates| - 1], k);
    }
  }

  /** `{row["event_id"]: row for row in snapshots}`: in a valid ledger, last and first are the same row. */
  method IdsOf(h: Hash, rows: seq<Row>) returns (ids: map<string, Row>)
    requires Chain(h, rows).Ok?
    ensures IdsKnown(rows, ids)
  {
    hide Conflicts;
    ids := map[];
    assert rows[..0] == [];
    for i := 0 to |rows|
      invariant IdsKnown(rows[..i], ids)
    {
      NoConflictAt(h, rows, i);
      IdsKnownStep(rows, i, ids);
      if rows[i].eventId != "" { ids := ids[rows[i].eventId := rows[i]]; }
    }
    assert rows[..|rows|] == rows;
  }

  lemma NoConflictAt(h: Hash, rows: seq<Row>, i: nat)
    requires Chain(h, rows).Ok? && i < |rows|
    ensures !Conflicts(rows[..i], rows[i])
  {
    hide Chain, Conflicts, Repeats, Bound, Continues, HistoryHead;
    ChainExact(h, rows);
    assert WellPlaced(h, rows, i);
  }
}
