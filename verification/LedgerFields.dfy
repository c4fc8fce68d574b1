/**
 * The ledger, field by field: what the validator demands of the next row, what stands in
 * every row of a valid stream, and which row the transaction takes or why it refuses it.
 */
module LedgerFields {
  import opened Text
  import opened Receipts
  import opened Ledger
  import opened LedgerBlocks

  function LastHash(h: Hash, history: seq<Row>): string {
    if history == [] then "" else HashToQuote(h, history[|history| - 1])
  }

  /** A chained row names its observation and its one stream. */
  predicate Named(row: Row, stream: string) {
    && row.schema == "discord_context_bridge_text_snapshot_observation.v1" && row.eventId != ""
    && stream != "" && row.streamId == Some(stream) && row.targetKey == stream
  }

  /** It bears the next number, says which number came before, and quotes the hash of the row before. */
  predicate Quotes(h: Hash, history: seq<Row>, row: Row) {
    && row.sequence == Val(|history| + 1) && row.expectedPrevious == Val(|history|)
    && row.previousEventHash == LastHash(h, history)
  }

  /** Its own hash covers all its other fields. */
  predicate Sealed(h: Hash, row: Row) {
    row.eventHash == h(row.(eventHash := ""))
  }

  predicate Taken(rows: seq<Row>, id: string) {
    exists i :: 0 <= i < |rows| && rows[i].eventId == id
  }

  lemma TakenIs(rows: seq<Row>, id: string)
    ensures Taken(rows, id) <==> FirstWith(rows, id).Some?
  {
  }

  lemma NamedIsBound(row: Row)
    requires row.chained
    ensures Bound(row) <==> Named(row, row.targetKey)
    ensures Bound(row) ==> StreamOf(row) == row.targetKey
  {
  }

  lemma ContinuesByFields(h: Hash, history: seq<Row>, row: Row)
    requires row.chained
    ensures Continues(h, HistoryHead(h, history), row) <==> Quotes(h, history, row) && Sealed(h, row)
  {
  }

  // ------------------------------------------------- the next row

  /** After a valid ledger, the validator passes a chained row with a new id exactly when its fields are in place. */
  lemma NextRowExact(h: Hash, rows: seq<Row>, row: Row)
    requires Chain(h, rows).Ok? && row.chained && (row.eventId != "" ==> !Taken(rows, row.eventId))
    ensures Chain(h, rows + [row]).Ok? <==>
              Named(row, row.targetKey) && Quotes(h, History(rows, row.targetKey), row) && Sealed(h, row)
  {
    hide Chain, History, Bound, StreamOf, Continues, HistoryHead, NextHeads, Named, Quotes, Sealed, Taken, FirstWith;
    TakenIs(rows, row.eventId);
    NamedIsBound(row);
    ContinuesByFields(h, History(rows, row.targetKey), row);
    NextRow(h, rows, row);
    NamedMeans(row);
  }

  lemma NamedMeans(row: Row)
    ensures Named(row, row.targetKey) ==> row.targetKey != "" && row.eventId != ""
  {
  }

  lemma NextRow(h: Hash, rows: seq<Row>, row: Row)
    requires Chain(h, rows).Ok? && (row.eventId != "" ==> FirstWith(rows, row.eventId).None?)
    ensures Chain(h, rows + [row]).Ok? <==>
              Bound(row) && (StreamOf(row) != "" ==> Continues(h, HistoryHead(h, History(rows, StreamOf(row))), row))
  {
    hide Bound, StreamOf, Continues, HistoryHead, History, NextHeads, FirstWith;
    assert (rows + [row])[..|rows|] == rows;
    if StreamOf(row) != "" { StreamsAreConsecutive(h, rows, StreamOf(row)); }
  }

  /** A row with a taken id passes exactly when it repeats the first row of that id. */
  lemma TakenIdExact(h: Hash, rows: seq<Row>, row: Row)
    requires Chain(h, rows).Ok? && row.chained && row.eventId != "" && Taken(rows, row.eventId)
    ensures Chain(h, rows + [row]).Ok? <==> row in rows
    ensures AppendAll(h, rows, [row]) == (if row !in rows && Named(row, row.targetKey) then Err(EventConflict)
                                          else if Named(row, row.targetKey) then Ok(rows) else Err(Corrupt))
  {
    hide Chain, History, Bound, StreamOf, Continues, HistoryHead, NextHeads, Named, FirstWith;
    TakenIs(rows, row.eventId);
    NamedIsBound(row);
    FirstIsOnly(h, rows, row);
    AppendSingle(h, rows, row);
    RepeatedRow(h, rows, row);
  }

  lemma RepeatedRow(h: Hash, rows: seq<Row>, row: Row)
    requires Chain(h, rows).Ok? && row.chained && row.eventId != "" && FirstWith(rows, row.eventId).Some?
    ensures Chain(h, rows + [row]).Ok? <==> FirstWith(rows, row.eventId) == Some(row)
  {
    hide Bound, StreamOf, Continues, NextHeads, FirstWith;
    assert (rows + [row])[..|rows|] == rows;
  }

  /** In a valid ledger the rows of one id are one row. */
  lemma FirstIsOnly(h: Hash, rows: seq<Row>, row: Row)
    requires Chain(h, rows).Ok? && row.eventId != ""
    ensures row in rows <==> FirstWith(rows, row.eventId) == Some(row)
  {
    hide Chain;
    if row in rows {
      var i :| 0 <= i < |rows| && rows[i] == row;
      NoConflictAt(h, rows, i);
      FirstOfPrefix(rows, i, row.eventId);
    }
  }

  lemma {:induction false} FirstOfPrefix(rows: seq<Row>, i: nat, id: string)
    requires i < |rows| && rows[i].eventId == id
    ensures FirstWith(rows, id) == if FirstWith(rows[..i], id).Some? then FirstWith(rows[..i], id) else Some(rows[i])
  {
    var n := |rows| - 1;
    if i < n {
      assert rows[..n][..i] == rows[..i];
      FirstOfPrefix(rows[..n], i, id);
    }
  }

  // ------------------------------------------------- the rows of a valid stream

  /** Every chained row of a stream of a valid ledger: its names, its number, its link and its own hash. */
  lemma {:induction false} RowsByFields(h: Hash, rows: seq<Row>, stream: string, k: nat)
    requires Chain(h, rows).Ok? && stream != "" && k < |History(rows, stream)| && History(rows, stream)[k].chained
    ensures var history := History(rows, stream); var row := history[k];
            && Named(row, stream)
            && row.sequence == Val(k + 1) && row.expectedPrevious == Val(k)
            && row.previousEventHash == (if k == 0 then "" else HashToQuote(h, history[k - 1]))
            && row.eventHash == h(row.(eventHash := ""))
  {
    hide Chain, History, StreamOf, Bound, Named;
    StreamsAreConsecutive(h, rows, stream);
    assert InPlace(h, History(rows, stream), k);
    HistoryIsBound(h, rows, stream, k);
    NamedIsBound(History(rows, stream)[k]);
  }

  lemma {:induction false} HistoryIsBound(h: Hash, rows: seq<Row>, stream: string, k: nat)
    requires Chain(h, rows).Ok? && k < |History(rows, stream)|
    ensures Bound(History(rows, stream)[k]) && StreamOf(History(rows, stream)[k]) == stream
  {
    hide Bound, StreamOf, Continues, Repeats, Conflicts, NextHeads;
    var n := |rows| - 1;
    HistoryOfLast(rows, stream);
    if k < |History(rows[..n], stream)| { HistoryIsBound(h, rows[..n], stream, k); }
  }

  // ------------------------------------------------- what the transaction makes of one row

  /** A chained row with a new id: taken, or refused for its names and hash, or for its place. */
  lemma OfferExact(h: Hash, rows: seq<Row>, row: Row)
    requires Chain(h, rows).Ok? && row.chained && (row.eventId != "" ==> !Taken(rows, row.eventId))
    ensures AppendAll(h, rows, [row])
            == if !Named(row, row.targetKey) || !Sealed(h, row) || !row.sequence.Val? || !row.expectedPrevious.Val? then Err(Corrupt)
               else if !Quotes(h, History(rows, row.targetKey), row) then Err(SequenceConflict)
               else Ok(rows + [row])
  {
    hide Chain, History, Bound, StreamOf, Continues, HistoryHead, NextHeads, Named, FirstWith, Taken, Quotes;
    TakenIs(rows, row.eventId);
    NamedIsBound(row);
    NamedMeans(row);
    ContinuesByFields(h, History(rows, row.targetKey), row);
    AppendSingle(h, rows, row);
    if Named(row, row.targetKey) { StreamsAreConsecutive(h, rows, row.targetKey); }
  }

  /** A row of the older form is taken whenever its id is new, and counts for the target it names, or else for its stream. */
  lemma OlderRowIsTaken(h: Hash, rows: seq<Row>, row: Row, stream: string)
    requires Chain(h, rows).Ok? && !row.chained && (row.eventId != "" ==> !Taken(rows, row.eventId))
    requires stream == if row.targetKey != "" then row.targetKey else if row.streamId.Some? then row.streamId.value else ""
    ensures AppendAll(h, rows, [row]) == Ok(rows + [row]) && Chain(h, rows + [row]).Ok?
    ensures History(rows + [row], stream) == History(rows, stream) + [row]
    ensures forall other :: other != stream ==> History(rows + [row], other) == History(rows, other)
  {
    hide Chain, HistoryHead, NextHeads, FirstWith, Taken, History;
    TakenIs(rows, row.eventId);
    AppendSingle(h, rows, row);
    NextRow(h, rows, row);
    forall other ensures History(rows + [row], other) == if other == stream then History(rows, other) + [row] else History(rows, other) {
      HistoryOfLast(rows + [row], other);
      assert (rows + [row])[..|rows|] == rows;
    }
  }

  /** What follows a row of the older form quotes the hash it carries, or one computed like all others. */
  lemma OlderRowIsQuoted(h: Hash, rows: seq<Row>, older: Row, row: Row)
    requires Chain(h, rows).Ok? && !older.chained && older.targetKey != "" && (older.eventId != "" ==> !Taken(rows, older.eventId))
    requires row.chained && row.targetKey == older.targetKey && row.eventId != "" && !Taken(rows + [older], row.eventId)
    ensures Chain(h, rows + [older] + [row]).Ok? ==>
              row.previousEventHash == if older.eventHash != "" then older.eventHash else h(older.(eventHash := ""))
  {
    hide Chain, History, Taken;
    OlderRowIsTaken(h, rows, older, older.targetKey);
    NextRowExact(h, rows + [older], row);
  }
}
