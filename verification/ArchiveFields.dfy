/**
 * The cursor loop of `enumerate_archive_pages` in terms of the fields of the responses: which
 * field a scope pages by, which responses are read, what is listed and which error ends it.
 */
module ArchiveFields {
  import opened Text
  import opened Receipts
  import opened ArchiveInventory

  /** Joined private archives page by the thread id, all others by the archive timestamp. */
  ghost predicate PagesBy(scope: ArchiveScope, thread: Thread, cursor: string) {
    && cursor != ""
    && if scope == JoinedPrivate then thread.id == Val(cursor)
       else thread.metadata.Val? && thread.metadata.v.archiveTimestamp == Val(cursor)
  }

  /** Thread objects with ids. */
  ghost predicate AllSound(items: seq<Item>) {
    forall i :: 0 <= i < |items| ==> items[i].Some? && items[i].value.id.Val? && items[i].value.id.v != ""
  }

  ghost function ThreadsOf(items: seq<Item>): seq<Thread>
    requires AllSound(items)
  {
    seq(|items|, i requires 0 <= i < |items| => items[i].value)
  }

  /** A response that can be read and says whether there is more. */
  ghost predicate Readable(answer: Option<Payload>, more: bool) {
    && answer.Some? && answer.value.threads.Val? && answer.value.hasMore == Val(more)
    && AllSound(answer.value.threads.v)
  }

  /** The response to request `i`: the first goes out without a cursor, each later one with the cursor before it. */
  ghost function Answer(fetch: Source, sent: seq<string>, i: nat): Option<Payload>
    requires i <= |sent|
  {
    fetch(i, if i == 0 then None else Some(sent[i - 1]))
  }

  /** The last thread of a response is the one with this cursor. */
  ghost predicate LeadsTo(scope: ArchiveScope, answer: Payload, cursor: string)
    requires answer.threads.Val?
  {
    && answer.threads.v != []
    && answer.threads.v[|answer.threads.v| - 1].Some?
    && PagesBy(scope, answer.threads.v[|answer.threads.v| - 1].value, cursor)
  }

  /** Distinct cursors, each read off the last thread of a response that said there was more. */
  ghost predicate Linked(scope: ArchiveScope, fetch: Source, sent: seq<string>) {
    && (forall i, j :: 0 <= i < j < |sent| ==> sent[i] != sent[j])
    && forall i: nat :: i < |sent| ==>
         Readable(Answer(fetch, sent, i), true) && LeadsTo(scope, Answer(fetch, sent, i).value, sent[i])
  }

  /** A complete reading: up to a response that says there is no more, or up to the page limit. */
  ghost predicate Complete(scope: ArchiveScope, fetch: Source, maxPages: nat, sent: seq<string>, terminal: bool) {
    && Linked(scope, fetch, sent)
    && if terminal then |sent| < maxPages && Readable(Answer(fetch, sent, |sent|), false) else |sent| == maxPages
  }

  /** The threads of the first `n` responses, in the order they came. */
  ghost function Arrived(fetch: Source, sent: seq<string>, n: nat): seq<Thread>
    requires n <= |sent| + 1
    requires forall i: nat :: i < n ==> Readable(Answer(fetch, sent, i), i < |sent|)
  {
    if n == 0 then []
    else
      assert Readable(Answer(fetch, sent, n - 1), n - 1 < |sent|);
      Arrived(fetch, sent, n - 1) + ThreadsOf(Answer(fetch, sent, n - 1).value.threads.v)
  }

  /** The last thread that arrived under its id. */
  ghost predicate LastUnderId(arrived: seq<Thread>, thread: Thread) {
    exists p :: 0 <= p < |arrived| && arrived[p] == thread && forall q :: p < q < |arrived| ==> arrived[q].id != thread.id
  }

  ghost predicate HasOne(kept: seq<Thread>, id: Raw<string>) {
    exists i :: 0 <= i < |kept| && kept[i].id == id
  }

  /** Id `a` arrived before id `b` did. */
  ghost predicate ArrivedBefore(arrived: seq<Thread>, a: Raw<string>, b: Raw<string>) {
    exists p :: 0 <= p < |arrived| && arrived[p].id == a && forall q :: 0 <= q <= p ==> arrived[q].id != b
  }

  /** One thread per id that arrived: the last one under it, ordered by when the id first arrived. */
  ghost predicate LastOfEach(arrived: seq<Thread>, kept: seq<Thread>) {
    && (forall i :: 0 <= i < |kept| ==> LastUnderId(arrived, kept[i]))
    && (forall p :: 0 <= p < |arrived| ==> HasOne(kept, arrived[p].id))
    && (forall i, j :: 0 <= i < j < |kept| ==> ArrivedBefore(arrived, kept[i].id, kept[j].id))
  }

  // ------------------------------------------------- one response

  lemma {:induction false} ItemsExact(items: seq<Item>)
    ensures ReadItems(items).Ok? <==> AllSound(items)
    ensures AllSound(items) ==> ReadItems(items) == Ok(ThreadsOf(items))
  {
    if items != [] {
      var n := |items| - 1;
      ItemsExact(items[..n]);
      assert items == items[..n] + [items[n]];
      if AllSound(items) {
        assert ThreadsOf(items) == ThreadsOf(items[..n]) + [items[n].value];
      }
    }
  }

  lemma PageExact(answer: Option<Payload>)
    ensures ReadPage(answer).Ok? <==> Readable(answer, true) || Readable(answer, false)
    ensures ReadPage(answer).Ok? ==> Readable(answer, ReadPage(answer).value.more)
                                     && ReadPage(answer).value.threads == ThreadsOf(answer.value.threads.v)
  {
    hide ReadItems, AllSound;
    if answer.Some? && answer.value.threads.Val? { ItemsExact(answer.value.threads.v); }
  }

  lemma CursorExact(scope: ArchiveScope, thread: Thread, cursor: string)
    ensures CursorFor(scope, thread) == Ok(cursor) <==> PagesBy(scope, thread, cursor)
    ensures CursorFor(scope, thread).Err? ==> CursorFor(scope, thread) == Err(CursorMissing)
  {
  }

  /** A readable response that says there is more, and the cursor it leads to. */
  lemma NextExact(scope: ArchiveScope, answer: Option<Payload>, cursor: string)
    requires ReadPage(answer).Ok? && Readable(answer, true)
    ensures NextCursor(scope, ReadPage(answer).value) == Ok(cursor) <==> LeadsTo(scope, answer.value, cursor)
  {
    hide ReadPage, CursorFor;
    PageExact(answer);
    var items := answer.value.threads.v;
    if items != [] { CursorExact(scope, items[|items| - 1].value, cursor); }
  }

  // ------------------------------------------------- whole readings

  lemma LinkedExact(scope: ArchiveScope, fetch: Source, sent: seq<string>)
    ensures Chained(scope, fetch, sent) <==> Linked(scope, fetch, sent)
  {
    hide ReadPage, NextCursor, AllSound, PagesBy;
    forall i: nat | i < |sent|
      ensures (PageAt(fetch, sent, i).Ok? && PageAt(fetch, sent, i).value.more
               && NextCursor(scope, PageAt(fetch, sent, i).value) == Ok(sent[i]))
              <==> (Readable(Answer(fetch, sent, i), true) && LeadsTo(scope, Answer(fetch, sent, i).value, sent[i]))
    {
      PageExact(Answer(fetch, sent, i));
      if Readable(Answer(fetch, sent, i), true) { NextExact(scope, Answer(fetch, sent, i), sent[i]); }
    }
  }

  lemma CompleteExact(scope: ArchiveScope, fetch: Source, maxPages: nat, sent: seq<string>, terminal: bool)
    ensures Reading(scope, fetch, maxPages, sent, terminal) <==> Complete(scope, fetch, maxPages, sent, terminal)
  {
    hide ReadPage, NextCursor, AllSound, PagesBy, Chained, Linked;
    LinkedExact(scope, fetch, sent);
    PageExact(Answer(fetch, sent, |sent|));
  }

  /** The responses a reading reads. */
  function Pages(sent: seq<string>, terminal: bool): nat {
    |sent| + if terminal then 1 else 0
  }

  lemma AllRead(scope: ArchiveScope, fetch: Source, maxPages: nat, sent: seq<string>, terminal: bool)
    requires Complete(scope, fetch, maxPages, sent, terminal)
    ensures forall i: nat :: i < Pages(sent, terminal) ==> Readable(Answer(fetch, sent, i), i < |sent|)
  {
    hide AllSound, PagesBy, LeadsTo, Answer;
  }

  lemma {:induction false} ArrivedExact(fetch: Source, sent: seq<string>, n: nat)
    requires n <= |sent| + 1 && forall i: nat :: i < n ==> Readable(Answer(fetch, sent, i), i < |sent|)
    ensures Received(fetch, sent, n) == Arrived(fetch, sent, n)
    ensures forall p :: 0 <= p < |Arrived(fetch, sent, n)| ==> Arrived(fetch, sent, n)[p].id.Val?
  {
    hide ReadPage;
    if n > 0 {
      ArrivedExact(fetch, sent, n - 1);
      PageExact(Answer(fetch, sent, n - 1));
    }
  }

  // ------------------------------------------------- what is listed

  lemma {:induction false} OrderIsFirst(received: seq<Thread>, i: nat, j: nat)
    requires i < j < |FirstSeen(received)|
    ensures exists p :: 0 <= p < |received| && IdOf(received[p]) == FirstSeen(received)[i]
                        && forall q :: 0 <= q <= p ==> IdOf(received[q]) != FirstSeen(received)[j]
  {
    hide IdOf;
    var n := |received| - 1;
    var before := FirstSeen(received[..n]);
    if j < |before| {
      OrderIsFirst(received[..n], i, j);
      var p :| 0 <= p < n && IdOf(received[..n][p]) == before[i]
               && forall q :: 0 <= q <= p ==> IdOf(received[..n][q]) != before[j];
      assert IdOf(received[p]) == FirstSeen(received)[i];
      forall q | 0 <= q <= p ensures IdOf(received[q]) != FirstSeen(received)[j] { assert received[..n][q] == received[q]; }
    } else {
      assert before[i] in before;
      var p :| 0 <= p < n && IdOf(received[..n][p]) == before[i];
      assert IdOf(received[p]) == FirstSeen(received)[i];
      forall q | 0 <= q <= p ensures IdOf(received[q]) != FirstSeen(received)[j] {
        assert received[..n][q] == received[q];
        assert IdOf(received[..n][q]) in before;
      }
    }
  }

  lemma KeptIds(arrived: seq<Thread>, i: nat)
    requires i < |FirstSeen(arrived)|
    ensures Collected(arrived)[i].id == Val(FirstSeen(arrived)[i]) || !Collected(arrived)[i].id.Val?
    ensures Collected(arrived)[i] in arrived && IdOf(Collected(arrived)[i]) == FirstSeen(arrived)[i]
  {
    hide FirstSeen, LastRecord;
    RecordsAreReceived(arrived);
    assert FirstSeen(arrived)[i] in FirstSeen(arrived);
  }

  lemma KeptIsLast(arrived: seq<Thread>, i: nat)
    requires i < |Collected(arrived)| && forall p :: 0 <= p < |arrived| ==> arrived[p].id.Val?
    ensures LastUnderId(arrived, Collected(arrived)[i])
  {
    hide FirstSeen, LastRecord;
    var order := FirstSeen(arrived);
    assert order[i] in order;
    var p := LastUnder(arrived, order[i]);
    LastRecordIsLast(arrived, p);
    forall q | p < q < |arrived| ensures arrived[q].id != arrived[p].id {
      assert IdOf(arrived[q]) != IdOf(arrived[p]);
    }
  }

  lemma KeptInOrder(arrived: seq<Thread>, i: nat, j: nat)
    requires i < j < |Collected(arrived)| && forall p :: 0 <= p < |arrived| ==> arrived[p].id.Val?
    ensures ArrivedBefore(arrived, Collected(arrived)[i].id, Collected(arrived)[j].id)
  {
    hide FirstSeen, LastRecord, Collected, Distinct;
    var order := FirstSeen(arrived);
    assert |Collected(arrived)| == |order| by { CollectedMeans(arrived); }
    KeptIds(arrived, i);
    KeptIds(arrived, j);
    OrderIsFirst(arrived, i, j);
    var p :| 0 <= p < |arrived| && IdOf(arrived[p]) == order[i] && forall q :: 0 <= q <= p ==> IdOf(arrived[q]) != order[j];
    assert arrived[p].id == Collected(arrived)[i].id;
    forall q | 0 <= q <= p ensures arrived[q].id != Collected(arrived)[j].id {
      assert IdOf(arrived[q]) != order[j];
    }
  }

  lemma KeptMeans(arrived: seq<Thread>)
    requires forall p :: 0 <= p < |arrived| ==> arrived[p].id.Val?
    ensures LastOfEach(arrived, Collected(arrived))
  {
    hide FirstSeen, LastRecord, Collected, LastUnderId, HasOne, ArrivedBefore;
    var kept := Collected(arrived);
    forall i: nat | i < |kept| ensures LastUnderId(arrived, kept[i]) {
      KeptIsLast(arrived, i);
    }
    forall p: nat | p < |arrived| ensures HasOne(kept, arrived[p].id) {
      KeptOfEach(arrived, p);
    }
    forall i: nat, j: nat | i < j < |kept| ensures ArrivedBefore(arrived, kept[i].id, kept[j].id) {
      KeptInOrder(arrived, i, j);
    }
  }

  lemma KeptOfEach(arrived: seq<Thread>, p: nat)
    requires p < |arrived| && forall q :: 0 <= q < |arrived| ==> arrived[q].id.Val?
    ensures HasOne(Collected(arrived), arrived[p].id)
  {
    hide FirstSeen, LastRecord, Collected, Distinct;
    var order := FirstSeen(arrived);
    assert |Collected(arrived)| == |order| by { CollectedMeans(arrived); }
    assert IdOf(arrived[p]) in order;
    var i: nat :| i < |order| && order[i] == IdOf(arrived[p]);
    KeptIds(arrived, i);
    assert Collected(arrived)[i].id == arrived[p].id;
  }

  lemma {:induction false} LastUnder(arrived: seq<Thread>, id: string) returns (p: nat)
    requires exists q :: 0 <= q < |arrived| && IdOf(arrived[q]) == id
    ensures p < |arrived| && IdOf(arrived[p]) == id && IsLast(arrived, p)
  {
    hide IdOf;
    var n := |arrived| - 1;
    if IdOf(arrived[n]) == id { return n; }
    var q :| 0 <= q < |arrived| && IdOf(arrived[q]) == id;
    assert IdOf(arrived[..n][q]) == id;
    p := LastUnder(arrived[..n], id);
    forall j | p < j < |arrived| ensures IdOf(arrived[j]) != IdOf(arrived[p]) {
      if j < n { assert arrived[..n][j] == arrived[j]; }
    }
  }

  // ------------------------------------------------- the theorems

  /** What a reading makes the loop return. */
  ghost predicate Lists(fetch: Source, sent: seq<string>, terminal: bool, r: Result<Listing, ArchiveError>)
    requires forall i: nat :: i < Pages(sent, terminal) ==> Readable(Answer(fetch, sent, i), i < |sent|)
  {
    && r.Ok?
    && r.value.pages == Pages(sent, terminal)
    && r.value.terminalReached == terminal
    && r.value.terminalCursor == (if sent == [] then None else Some(sent[|sent| - 1]))
    && LastOfEach(Arrived(fetch, sent, Pages(sent, terminal)), r.value.threads)
  }

  /**
   * Against any source whatever the loop succeeds exactly when there is a complete reading of
   * its responses, field by field, and then it returns what that reading lists.
   */
  lemma EnumerateByFields(scope: ArchiveScope, fetch: Source, maxPages: nat)
    requires !scope.UnknownScope? && maxPages >= 1
    ensures Enumerate(scope, fetch, maxPages).Ok? <==> exists sent, terminal :: Complete(scope, fetch, maxPages, sent, terminal)
    ensures forall sent, terminal :: Complete(scope, fetch, maxPages, sent, terminal) ==>
              && (forall i: nat :: i < Pages(sent, terminal) ==> Readable(Answer(fetch, sent, i), i < |sent|))
              && Lists(fetch, sent, terminal, Enumerate(scope, fetch, maxPages))
  {
    hide Enumerate, Reading, Complete, Readable, Answer, LastOfEach, Collected, Received, Arrived;
    EnumerateExact(scope, fetch, maxPages);
    if Enumerate(scope, fetch, maxPages).Ok? {
      var sent, terminal :| Reading(scope, fetch, maxPages, sent, terminal);
      CompleteExact(scope, fetch, maxPages, sent, terminal);
    }
    forall sent, terminal | Complete(scope, fetch, maxPages, sent, terminal)
      ensures Reading(scope, fetch, maxPages, sent, terminal)
      ensures forall i: nat :: i < Pages(sent, terminal) ==> Readable(Answer(fetch, sent, i), i < |sent|)
      ensures Lists(fetch, sent, terminal, Enumerate(scope, fetch, maxPages))
    {
      CompleteExact(scope, fetch, maxPages, sent, terminal);
      AllRead(scope, fetch, maxPages, sent, terminal);
      ArrivedExact(fetch, sent, Pages(sent, terminal));
      KeptMeans(Arrived(fetch, sent, Pages(sent, terminal)));
    }
  }

  /** Why the loop must stop at the response behind the cursors `sent`. */
  ghost predicate Breaks(scope: ArchiveScope, answer: Option<Payload>, sent: seq<string>, error: ArchiveError) {
    match error
    case ResponseInvalid => answer.None?
    case ThreadsInvalid => answer.Some? && !answer.value.threads.Val?
    case HasMoreInvalid => answer.Some? && answer.value.threads.Val? && !answer.value.hasMore.Val?
    case ThreadInvalid =>
      && answer.Some? && answer.value.threads.Val? && answer.value.hasMore.Val?
      && var items := answer.value.threads.v;
         exists k :: 0 <= k < |items| && AllSound(items[..k]) && items[k].None?
    case ThreadIdMissing =>
      && answer.Some? && answer.value.threads.Val? && answer.value.hasMore.Val?
      && var items := answer.value.threads.v;
         exists k :: 0 <= k < |items| && AllSound(items[..k]) && items[k].Some? && (!items[k].value.id.Val? || items[k].value.id.v == "")
    case EmptyPage => Readable(answer, true) && answer.value.threads.v == []
    case CursorMissing => Readable(answer, true) && answer.value.threads.v != [] && forall c :: !LeadsTo(scope, answer.value, c)
    case CursorLoop => Readable(answer, true) && exists c :: c in sent && LeadsTo(scope, answer.value, c)
    case _ => false
  }

  lemma {:induction false} ItemErrors(items: seq<Item>)
    ensures ReadItems(items) == Err(ThreadInvalid) <==> exists k :: 0 <= k < |items| && AllSound(items[..k]) && items[k].None?
    ensures ReadItems(items) == Err(ThreadIdMissing) <==>
              exists k :: 0 <= k < |items| && AllSound(items[..k]) && items[k].Some? && (!items[k].value.id.Val? || items[k].value.id.v == "")
    ensures ReadItems(items).Err? ==> ReadItems(items).error in {ThreadInvalid, ThreadIdMissing}
  {
    hide AllSound;
    if items != [] {
      var n := |items| - 1;
      ItemErrors(items[..n]);
      ItemsExact(items[..n]);
      forall k | 0 <= k < n ensures items[..n][..k] == items[..k] && items[..n][k] == items[k] {
      }
      forall k | 0 <= k < n && AllSound(items[..n]) ensures items[k].Some? && items[k].value.id.Val? && items[k].value.id.v != "" {
        SoundAt(items[..n], k);
      }
    }
  }

  lemma SoundAt(items: seq<Item>, k: nat)
    requires k < |items| && AllSound(items)
    ensures items[k].Some? && items[k].value.id.Val? && items[k].value.id.v != ""
  {
  }

  lemma BreakExact(scope: ArchiveScope, answer: Option<Payload>, sent: seq<string>, error: ArchiveError)
    ensures (ReadPage(answer) == Err(error)
             || (ReadPage(answer).Ok? && ReadPage(answer).value.more
                 && (NextCursor(scope, ReadPage(answer).value) == Err(error)
                     || (error == CursorLoop && NextCursor(scope, ReadPage(answer).value).Ok?
                         && NextCursor(scope, ReadPage(answer).value).value in sent))))
            <==> Breaks(scope, answer, sent, error)
  {
    hide ReadItems, AllSound, CursorFor, PagesBy;
    PageExact(answer);
    if answer.Some? && answer.value.threads.Val? && answer.value.hasMore.Val? { ItemErrors(answer.value.threads.v); }
    if Readable(answer, true) {
      forall c ensures NextCursor(scope, ReadPage(answer).value) == Ok(c) <==> LeadsTo(scope, answer.value, c) {
        NextExact(scope, answer, c);
      }
      var items := answer.value.threads.v;
      if items != [] {
        SoundAt(items, |items| - 1);
        CursorExact(scope, items[|items| - 1].value, "");
      }
    }
  }

  lemma {:induction false} WalkBreaks(scope: ArchiveScope, fetch: Source, maxPages: nat, sent: seq<string>, error: ArchiveError)
    returns (all: seq<string>)
    requires Chained(scope, fetch, sent) && |sent| <= maxPages
    requires Walk(scope, fetch, maxPages, sent, Received(fetch, sent, |sent|)) == Err(error)
    ensures |all| < maxPages && Chained(scope, fetch, all) && Breaks(scope, Answer(fetch, all, |all|), all, error)
    decreases maxPages - |sent|
  {
    hide ReadPage, NextCursor, Collected, Walk, Chained, Received, Breaks;
    WalkStep(scope, fetch, maxPages, sent, Received(fetch, sent, |sent|));
    BreakExact(scope, Answer(fetch, sent, |sent|), sent, error);
    var page := PageAt(fetch, sent, |sent|);
    if page.Err? || NextCursor(scope, page.value).Err? || NextCursor(scope, page.value).value in sent { return sent; }
    var next := NextCursor(scope, page.value).value;
    ChainedGrows(scope, fetch, sent, next);
    ReceivedGrows(fetch, sent, next);
    all := WalkBreaks(scope, fetch, maxPages, sent + [next], error);
  }

  lemma {:induction false} WalkAlong(scope: ArchiveScope, fetch: Source, maxPages: nat, all: seq<string>, k: nat)
    requires Chained(scope, fetch, all) && k <= |all| <= maxPages
    ensures Walk(scope, fetch, maxPages, all[..k], Received(fetch, all, k)) == Walk(scope, fetch, maxPages, all, Received(fetch, all, |all|))
    decreases |all| - k
  {
    hide PageAt, NextCursor, Collected, Walk;
    if k == |all| {
      assert all[..k] == all;
    } else {
      WalkStep(scope, fetch, maxPages, all[..k], Received(fetch, all, k));
      SamePage(fetch, all, k);
      WalkAlong(scope, fetch, maxPages, all, k + 1);
      assert all[..k + 1] == all[..k] + [all[k]];
      assert all[k] !in all[..k];
    }
  }

  /** Which error the loop ends with: the one of the response at which its reading breaks. */
  lemma ErrorByFields(scope: ArchiveScope, fetch: Source, maxPages: nat, error: ArchiveError)
    requires !scope.UnknownScope? && maxPages >= 1
    ensures Enumerate(scope, fetch, maxPages) == Err(error) <==>
              exists sent :: |sent| < maxPages && Linked(scope, fetch, sent) && Breaks(scope, Answer(fetch, sent, |sent|), sent, error)
  {
    hide Walk, Chained, Linked, Breaks, ReadPage, NextCursor, Collected;
    if Enumerate(scope, fetch, maxPages) == Err(error) {
      NothingChained(scope, fetch);
      var all := WalkBreaks(scope, fetch, maxPages, [], error);
      LinkedExact(scope, fetch, all);
    }
    forall sent | |sent| < maxPages && Linked(scope, fetch, sent) && Breaks(scope, Answer(fetch, sent, |sent|), sent, error)
      ensures Enumerate(scope, fetch, maxPages) == Err(error)
    {
      LinkedExact(scope, fetch, sent);
      WalkAlong(scope, fetch, maxPages, sent, 0);
      assert sent[..0] == [];
      WalkStep(scope, fetch, maxPages, sent, Received(fetch, sent, |sent|));
      BreakExact(scope, Answer(fetch, sent, |sent|), sent, error);
    }
  }

  lemma NothingChained(scope: ArchiveScope, fetch: Source)
    ensures Chained(scope, fetch, [])
  {
  }
}
