/**
 * Blocks of freshly built events against the append transaction: when a block is taken,
 * and what it does to the histories.
 */
module LedgerBlocks {
  import opened Text
  import opened Receipts
  import opened Ledger

  lemma {:induction false} FirstPosition(rows: seq<Row>, id: string) returns (k: nat)
    requires FirstWith(rows, id).Some?
    ensures k < |rows| && FirstWith(rows, id) == Some(rows[k]) && FirstWith(rows[..k], id).None?
  {
    var n := |rows| - 1;
    if FirstWith(rows[..n], id).Some? {
      k := FirstPosition(rows[..n], id);
      assert rows[..n][..k] == rows[..k];
    } else {
      k := n;
    }
  }

  lemma {:induction false} HistoryPrefix(rows: seq<Row>, k: nat, stream: string)
    requires k <= |rows|
    ensures |History(rows[..k], stream)| <= |History(rows, stream)|
  {
    hide Repeats;
    if k == |rows| {
      assert rows[..k] == rows;
    } else {
      var n := |rows| - 1;
      assert rows[..n][..k] == rows[..k];
      HistoryPrefix(rows[..n], k, stream);
    }
  }

  /** A chained row of a valid ledger bears a number within the length of its stream's history. */
  lemma NumberedWithin(h: Hash, rows: seq<Row>, row: Row)
    requires Chain(h, rows).Ok? && row.chained && row.eventId != "" && FirstWith(rows, row.eventId) == Some(row) && StreamOf(row) != ""
    ensures row.sequence.Val? && row.sequence.v <= |History(rows, StreamOf(row))|
  {
    hide Chain, Bound, StreamOf, History, Conflicts;
    var k := FirstPosition(rows, row.eventId);
    ChainExact(h, rows);
    assert WellPlaced(h, rows, k);
    HistoryPrefix(rows, k + 1, StreamOf(row));
    HistoryStep(rows, k, StreamOf(row));
  }

  lemma HistoryStep(rows: seq<Row>, k: nat, stream: string)
    requires k < |rows| && !Repeats(rows[..k], rows[k]) && StreamOf(rows[k]) == stream
    ensures |History(rows[..k + 1], stream)| == |History(rows[..k], stream)| + 1
  {
    hide Repeats, StreamOf;
    assert rows[..k + 1][..k] == rows[..k];
  }

  // ------------------------------------------------- linked events

  /** An event of stream `target` that continues `history`. */
  predicate LinkedTo(h: Hash, history: seq<Row>, target: string, event: Row) {
    && event.chained && event.schema == OBSERVATION && event.streamId == Some(target) && event.targetKey == target
    && event.sequence == Val(|history| + 1) && Continues(h, HistoryHead(h, history), event)
  }

  ghost predicate LinkedBlock(h: Hash, history: seq<Row>, target: string, events: seq<Row>) {
    forall k: nat :: k < |events| ==> LinkedTo(h, history + events[..k], target, events[k])
  }

  lemma NothingLinked(h: Hash, history: seq<Row>, target: string)
    ensures LinkedBlock(h, history, target, [])
  {
  }

  lemma LinkedGrows(h: Hash, history: seq<Row>, target: string, done: seq<Row>, event: Row)
    ensures LinkedBlock(h, history, target, done + [event]) <==>
              LinkedBlock(h, history, target, done) && LinkedTo(h, history + done, target, event)
  {
    hide LinkedTo;
    var events := done + [event];
    assert events[..|done|] == done;
    assert forall k: nat :: k < |done| ==> events[..k] == done[..k] && events[k] == done[k];
  }

  /** The ids of the block are new: none stands in the ledger, none comes twice. */
  ghost predicate FreshIds(rows: seq<Row>, events: seq<Row>) {
    forall k: nat :: k < |events| ==> events[k].eventId != "" && FirstWith(rows + events[..k], events[k].eventId).None?
  }

  lemma NoIds(rows: seq<Row>)
    ensures FreshIds(rows, [])
  {
  }

  lemma FreshIdsStep(rows: seq<Row>, done: seq<Row>, event: Row)
    ensures FreshIds(rows, done + [event]) <==>
              FreshIds(rows, done) && event.eventId != "" && FirstWith(rows + done, event.eventId).None?
  {
    hide FirstWith;
    var events := done + [event];
    assert events[..|done|] == done;
    assert forall k: nat :: k < |done| ==> events[..k] == done[..k] && events[k] == done[k];
  }

  /** The transaction never skips a linked event, and takes it exactly when its id is new. */
  lemma LinkedIsAppended(h: Hash, rows: seq<Row>, target: string, event: Row)
    requires Chain(h, rows).Ok? && target != "" && LinkedTo(h, History(rows, target), target, event)
    ensures var r := AppendOne(h, rows, Chain(h, rows).value, event);
            && (r.Ok? <==> event.eventId != "" && FirstWith(rows, event.eventId).None?)
            && (r.Ok? ==> r.value == rows + [event])
            && (r.Err? && event.eventId != "" ==> r.error == EventConflict)
  {
    hide Chain, EventHash, HistoryHead, History;
    StreamsAreConsecutive(h, rows, target);
    if event.eventId != "" && FirstWith(rows, event.eventId) == Some(event) { NumberedWithin(h, rows, event); }
  }

  lemma AppendedHistory(rows: seq<Row>, event: Row, stream: string)
    requires FirstWith(rows, event.eventId).None?
    ensures History(rows + [event], stream) == if StreamOf(event) == stream then History(rows, stream) + [event] else History(rows, stream)
  {
    hide StreamOf;
    assert (rows + [event])[..|rows|] == rows;
    assert History(rows, stream) + [] == History(rows, stream);
  }

  lemma NothingAppended(h: Hash, rows: seq<Row>)
    requires Chain(h, rows).Ok?
    ensures AppendAll(h, rows, []) == Ok(rows)
  {
    hide Chain;
  }

  lemma AppendSingle(h: Hash, rows: seq<Row>, row: Row)
    requires Chain(h, rows).Ok?
    ensures AppendAll(h, rows, [row]) == AppendOne(h, rows, Chain(h, rows).value, row)
  {
    hide Chain, AppendOne;
    assert [row][..0] == [];
    NothingAppended(h, rows);
  }

  /** A linked block is taken whole, and lengthens the history of its own stream only; or, on a used id, not at all. */
  lemma {:induction false} BlockIsAppended(h: Hash, rows: seq<Row>, target: string, events: seq<Row>)
    requires Chain(h, rows).Ok? && target != "" && LinkedBlock(h, History(rows, target), target, events)
    ensures AppendAll(h, rows, events).Ok? <==> FreshIds(rows, events)
    ensures AppendAll(h, rows, events).Ok? ==>
              var now := AppendAll(h, rows, events).value;
              && now == rows + events
              && History(now, target) == History(rows, target) + events
              && forall s :: s != target ==> History(now, s) == History(rows, s)
  {
    hide Chain, AppendOne, History, FirstWith, FreshIds, LinkedTo, LinkedBlock, StreamOf;
    var history := History(rows, target);
    if events == [] {
      NoIds(rows);
      assert rows + [] == rows && history + [] == history;
    } else {
      var n := |events| - 1;
      var done, event := events[..n], events[n];
      assert done + [event] == events;
      LinkedGrows(h, history, target, done, event);
      FreshIdsStep(rows, done, event);
      BlockIsAppended(h, rows, target, done);
      if AppendAll(h, rows, done).Ok? {
        TransactionKeepsChain(h, rows, done);
        LinkedIsAppended(h, rows + done, target, event);
        if AppendAll(h, rows, events).Ok? { BlockHistories(h, rows, target, done, event); }
      }
    }
  }

  lemma BlockHistories(h: Hash, rows: seq<Row>, target: string, done: seq<Row>, event: Row)
    requires FirstWith(rows + done, event.eventId).None? && LinkedTo(h, History(rows, target) + done, target, event) && target != ""
    requires History(rows + done, target) == History(rows, target) + done
    requires forall s :: s != target ==> History(rows + done, s) == History(rows, s)
    ensures rows + done + [event] == rows + (done + [event])
    ensures History(rows + (done + [event]), target) == History(rows, target) + (done + [event])
    ensures forall s :: s != target ==> History(rows + (done + [event]), s) == History(rows, s)
  {
    hide History, FirstWith, Continues;
    assert rows + done + [event] == rows + (done + [event]);
    assert History(rows, target) + done + [event] == History(rows, target) + (done + [event]);
    AppendedHistory(rows + done, event, target);
    forall s | s != target ensures History(rows + (done + [event]), s) == History(rows, s) {
      AppendedHistory(rows + done, event, s);
    }
  }
}
