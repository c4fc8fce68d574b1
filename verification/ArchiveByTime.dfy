/**
 * The archive loop against a server that goes by time: a page holds the threads archived
 * strictly before the cursor. Threads that share the time of the last thread of a page are
 * then passed over, and a reading to the end is complete exactly when no page ends in a tie.
 */
module ArchiveByTime {
  import opened Text
  import opened Paging
  import opened Receipts
  import opened ArchiveInventory

  /** Time of a cursor text. */
  type Clock = string -> int

  function TimeOf(scope: ArchiveScope, clock: Clock, thread: Thread): int {
    clock(CursorText(scope, thread))
  }

  /** Newest first; threads may share a time, but not an id. */
  ghost predicate Archive(scope: ArchiveScope, clock: Clock, all: seq<Thread>) {
    && (forall i :: 0 <= i < |all| ==> HasId(all[i]) && CursorFor(scope, all[i]).Ok?)
    && (forall i, j :: 0 <= i < j < |all| ==> IdOf(all[i]) != IdOf(all[j]) && TimeOf(scope, clock, all[i]) >= TimeOf(scope, clock, all[j]))
  }

  /** Where the threads begin that are older than `time`. */
  function OlderThan(scope: ArchiveScope, clock: Clock, all: seq<Thread>, time: int): (i: nat)
    ensures i <= |all|
    ensures i < |all| ==> TimeOf(scope, clock, all[i]) < time
    ensures forall k :: 0 <= k < i ==> TimeOf(scope, clock, all[k]) >= time
  {
    if all == [] || TimeOf(scope, clock, all[0]) < time then 0 else 1 + OlderThan(scope, clock, all[1..], time)
  }

  function StartByTime(scope: ArchiveScope, clock: Clock, all: seq<Thread>, cursor: Option<string>): (i: nat)
    ensures i <= |all|
  {
    match cursor
    case None => 0
    case Some(c) => OlderThan(scope, clock, all, clock(c))
  }

  function PageFrom(all: seq<Thread>, size: nat, start: nat): Payload
    requires start <= |all|
  {
    var stop := Min(start + size, |all|);
    Payload(Val(seq(stop - start, i requires 0 <= i < stop - start => Some(all[start + i]))), Val(start + size < |all|))
  }

  function ByTime(scope: ArchiveScope, clock: Clock, all: seq<Thread>, size: nat): ArchiveInventory.Source {
    (n: nat, cursor: Option<string>) => Some(PageFrom(all, size, StartByTime(scope, clock, all, cursor)))
  }

  // ------------------------------------------------- what a reading to the end returns

  /** Where the page behind the one that ends at `stop` begins: past all threads of the time it ends with. */
  function NextStart(scope: ArchiveScope, clock: Clock, all: seq<Thread>, stop: nat): (i: nat)
    requires 0 < stop <= |all|
    ensures i <= |all|
  {
    OlderThan(scope, clock, all, TimeOf(scope, clock, all[stop - 1]))
  }

  lemma NextStartIsBehind(scope: ArchiveScope, clock: Clock, all: seq<Thread>, stop: nat)
    requires Archive(scope, clock, all) && 0 < stop <= |all|
    ensures stop <= NextStart(scope, clock, all, stop)
    ensures stop < |all| ==>
              (NextStart(scope, clock, all, stop) == stop <==> TimeOf(scope, clock, all[stop - 1]) != TimeOf(scope, clock, all[stop]))
  {
    hide TimeOf, OlderThan, CursorFor, HasId, IdOf;
    var i := NextStart(scope, clock, all, stop);
    var last := all[stop - 1];
    assert forall k :: 0 <= k < stop ==> TimeOf(scope, clock, all[k]) >= TimeOf(scope, clock, last);
    assert forall k :: 0 <= k < i ==> TimeOf(scope, clock, all[k]) >= TimeOf(scope, clock, last);
    assert i < |all| ==> TimeOf(scope, clock, all[i]) < TimeOf(scope, clock, last);
    if stop < |all| { assert TimeOf(scope, clock, last) >= TimeOf(scope, clock, all[stop]); }
  }

  /** The threads that a reading from `start` to the end returns. */
  ghost function ReadFrom(scope: ArchiveScope, clock: Clock, all: seq<Thread>, size: nat, start: nat): seq<Thread>
    requires Archive(scope, clock, all) && size >= 1 && start <= |all|
    decreases |all| - start
  {
    var stop := Min(start + size, |all|);
    if stop == |all| then all[start..]
    else
      NextStartIsBehind(scope, clock, all, stop);
      all[start..stop] + ReadFrom(scope, clock, all, size, NextStart(scope, clock, all, stop))
  }

  ghost function PagesFrom(scope: ArchiveScope, clock: Clock, all: seq<Thread>, size: nat, start: nat): nat
    requires Archive(scope, clock, all) && size >= 1 && start <= |all|
    decreases |all| - start
  {
    var stop := Min(start + size, |all|);
    if stop == |all| then 1
    else
      NextStartIsBehind(scope, clock, all, stop);
      1 + PagesFrom(scope, clock, all, size, NextStart(scope, clock, all, stop))
  }

  /** No page from `start` on ends between two threads of one time. */
  ghost predicate NoTieFrom(scope: ArchiveScope, clock: Clock, all: seq<Thread>, size: nat, start: nat)
    requires size >= 1 && start <= |all|
    decreases |all| - start
  {
    var stop := Min(start + size, |all|);
    stop == |all|
    || (TimeOf(scope, clock, all[stop - 1]) != TimeOf(scope, clock, all[stop]) && NoTieFrom(scope, clock, all, size, stop))
  }

  /** Ties are passed over, so no more pages are needed than without them. */
  lemma {:induction false} PagesSuffice(scope: ArchiveScope, clock: Clock, all: seq<Thread>, size: nat, start: nat)
    requires Archive(scope, clock, all) && size >= 1 && start <= |all|
    ensures 1 <= PagesFrom(scope, clock, all, size, start) <= PagesNeeded(|all| - start, size)
    decreases |all| - start
  {
    hide Archive, NextStart;
    if start + size < |all| {
      NextStartIsBehind(scope, clock, all, start + size);
      var next := NextStart(scope, clock, all, start + size);
      PagesSuffice(scope, clock, all, size, next);
      FewerPages(|all| - next, |all| - start - size, size);
    }
  }

  lemma {:induction false} FewerPages(a: nat, b: nat, size: nat)
    requires a <= b && size >= 1
    ensures PagesNeeded(a, size) <= PagesNeeded(b, size)
    decreases a
  {
    if a > size { FewerPages(a - size, b - size, size); }
  }

  lemma PartIsWhole(all: seq<Thread>, start: nat, stop: nat, rest: seq<Thread>)
    requires start <= stop <= |all|
    ensures all[start..stop] + rest == all[start..] <==> rest == all[stop..]
    ensures forall t :: t in all[start..stop] ==> t in all
  {
    assert all[start..] == all[start..stop] + all[stop..];
    if all[start..stop] + rest == all[start..] { assert rest == (all[start..stop] + rest)[stop - start..]; }
  }

  /** What is returned is part of what is there, and all of it exactly without a tie at a page end. */
  lemma {:induction false} CompleteExact(scope: ArchiveScope, clock: Clock, all: seq<Thread>, size: nat, start: nat)
    requires Archive(scope, clock, all) && size >= 1 && start <= |all|
    ensures |ReadFrom(scope, clock, all, size, start)| <= |all| - start
    ensures forall t :: t in ReadFrom(scope, clock, all, size, start) ==> t in all
    ensures NoTieFrom(scope, clock, all, size, start) <==> ReadFrom(scope, clock, all, size, start) == all[start..]
    decreases |all| - start
  {
    hide Archive, NextStart, TimeOf;
    if start + size < |all| {
      var stop := start + size;
      NextStartIsBehind(scope, clock, all, stop);
      var next := NextStart(scope, clock, all, stop);
      CompleteExact(scope, clock, all, size, next);
      PartIsWhole(all, start, stop, ReadFrom(scope, clock, all, size, next));
    }
  }

  // ------------------------------------------------- the loop returns it

  /** Every cursor sent is newer than what is still to come. */
  ghost predicate NewerThanRest(scope: ArchiveScope, clock: Clock, all: seq<Thread>, sent: seq<string>, start: nat) {
    forall c, j :: c in sent && start <= j < |all| ==> clock(c) > TimeOf(scope, clock, all[j])
  }

  predicate DistinctIds(threads: seq<Thread>) {
    forall i, j :: 0 <= i < j < |threads| ==> IdOf(threads[i]) != IdOf(threads[j])
  }

  /** The loop stands at `start`, with `received` behind it. */
  ghost predicate Standing(scope: ArchiveScope, clock: Clock, all: seq<Thread>, sent: seq<string>, received: seq<Thread>, start: nat) {
    && start <= |all| && StartByTime(scope, clock, all, LastOf(sent)) == start
    && NewerThanRest(scope, clock, all, sent, start) && DistinctIds(received + all[start..])
  }

  lemma PageIs(scope: ArchiveScope, clock: Clock, all: seq<Thread>, size: nat, sent: seq<string>, received: seq<Thread>, start: nat)
    requires Archive(scope, clock, all) && Standing(scope, clock, all, sent, received, start)
    ensures PageAt(ByTime(scope, clock, all, size), sent, |sent|) == Ok(Page(all[start..Min(start + size, |all|)], start + size < |all|))
  {
    hide StartByTime, ReadItems, HasId, CursorFor, IdOf, NewerThanRest, DistinctIds;
    var stop := Min(start + size, |all|);
    assert ArchiveInventory.CursorAt(sent, |sent|) == LastOf(sent);
    ItemsRead(all[start..stop], seq(stop - start, i requires 0 <= i < stop - start => Some(all[start + i])));
  }

  lemma CursorIs(scope: ArchiveScope, clock: Clock, all: seq<Thread>, start: nat, stop: nat)
    requires Archive(scope, clock, all) && start < stop <= |all|
    ensures NextCursor(scope, Page(all[start..stop], true)) == Ok(CursorText(scope, all[stop - 1]))
  {
    hide TimeOf;
  }

  /** What is newer than the rest before a page, and the cursor the page leads to, are newer than what is left behind it. */
  lemma NewerNext(scope: ArchiveScope, clock: Clock, all: seq<Thread>, sent: seq<string>, start: nat, stop: nat)
    requires Archive(scope, clock, all) && NewerThanRest(scope, clock, all, sent, start) && start < stop <= |all|
    ensures CursorText(scope, all[stop - 1]) !in sent
    ensures NewerThanRest(scope, clock, all, sent + [CursorText(scope, all[stop - 1])], NextStart(scope, clock, all, stop))
  {
    hide CursorText, HasId, CursorFor, IdOf, OlderThan;
    var c, next := CursorText(scope, all[stop - 1]), NextStart(scope, clock, all, stop);
    NextStartIsBehind(scope, clock, all, stop);
    assert clock(c) == TimeOf(scope, clock, all[stop - 1]);
    forall j | next <= j < |all| ensures clock(c) > TimeOf(scope, clock, all[j]) {
      assert TimeOf(scope, clock, all[next]) < clock(c);
      if next < j { assert TimeOf(scope, clock, all[next]) >= TimeOf(scope, clock, all[j]); }
    }
  }

  lemma RestStaysDistinct(all: seq<Thread>, received: seq<Thread>, start: nat, stop: nat, next: nat)
    requires start <= stop <= next <= |all| && DistinctIds(received + all[start..])
    ensures DistinctIds(received + all[start..stop] + all[next..])
  {
    hide DistinctIds;
    assert received + all[start..] == received + all[start..stop] + all[stop..];
    SkippingKeepsDistinct(received + all[start..stop], all[stop..], next - stop);
    assert all[stop..][next - stop..] == all[next..];
  }

  lemma StandsNext(scope: ArchiveScope, clock: Clock, all: seq<Thread>, sent: seq<string>, received: seq<Thread>, start: nat, stop: nat)
    requires Archive(scope, clock, all) && Standing(scope, clock, all, sent, received, start) && start < stop <= |all|
    ensures CursorText(scope, all[stop - 1]) !in sent
    ensures Standing(scope, clock, all, sent + [CursorText(scope, all[stop - 1])], received + all[start..stop], NextStart(scope, clock, all, stop))
  {
    hide CursorText, Archive, DistinctIds, NewerThanRest, OlderThan;
    NextStartIsBehind(scope, clock, all, stop);
    NewerNext(scope, clock, all, sent, start, stop);
    RestStaysDistinct(all, received, start, stop, NextStart(scope, clock, all, stop));
  }

  lemma SkippingKeepsDistinct(a: seq<Thread>, b: seq<Thread>, k: nat)
    requires DistinctIds(a + b) && k <= |b|
    ensures DistinctIds(a + b[k..]) && DistinctIds(a)
  {
    hide IdOf;
    var all, less := a + b, a + b[k..];
    assert forall i :: 0 <= i < |a| ==> all[i] == a[i];
    forall i, j | 0 <= i < j < |less| ensures IdOf(less[i]) != IdOf(less[j]) {
      var i', j' := if i < |a| then i else i + k, if j < |a| then j else j + k;
      assert all[i'] == less[i] && all[j'] == less[j];
    }
  }

  lemma KeptAsReceived(received: seq<Thread>, rest: seq<Thread>)
    requires DistinctIds(received + rest)
    ensures Collected(received + rest) == received + rest
  {
    hide Collected;
    DistinctAreKept(received + rest);
  }

  lemma LastStep(scope: ArchiveScope, clock: Clock, all: seq<Thread>, size: nat, maxPages: nat, sent: seq<string>, received: seq<Thread>, start: nat)
    requires Archive(scope, clock, all) && size >= 1 && Standing(scope, clock, all, sent, received, start)
    requires start + size >= |all| && |sent| < maxPages
    ensures Walk(scope, ByTime(scope, clock, all, size), maxPages, sent, received)
            == Ok(Listing(|sent| + 1, received + all[start..], true, LastOf(sent)))
  {
    hide Walk, ByTime, Archive, NewerThanRest, StartByTime, Collected, ArchiveInventory.PageAt, NextCursor;
    WalkStep(scope, ByTime(scope, clock, all, size), maxPages, sent, received);
    PageIs(scope, clock, all, size, sent, received, start);
    KeptAsReceived(received, all[start..]);
    assert all[start..|all|] == all[start..];
  }

  lemma OneStep(scope: ArchiveScope, clock: Clock, all: seq<Thread>, size: nat, maxPages: nat, sent: seq<string>, received: seq<Thread>, start: nat)
    requires Archive(scope, clock, all) && size >= 1 && Standing(scope, clock, all, sent, received, start)
    requires start + size < |all| && |sent| < maxPages
    ensures var stop := start + size;
            var sent', received' := sent + [CursorText(scope, all[stop - 1])], received + all[start..stop];
            && Walk(scope, ByTime(scope, clock, all, size), maxPages, sent, received)
               == Walk(scope, ByTime(scope, clock, all, size), maxPages, sent', received')
            && Standing(scope, clock, all, sent', received', NextStart(scope, clock, all, stop))
  {
    hide Walk, ByTime, Archive, Standing, Collected, ArchiveInventory.PageAt, NextCursor, CursorText, NextStart;
    WalkStep(scope, ByTime(scope, clock, all, size), maxPages, sent, received);
    PageIs(scope, clock, all, size, sent, received, start);
    CursorIs(scope, clock, all, start, start + size);
    StandsNext(scope, clock, all, sent, received, start, start + size);
  }

  lemma {:induction false} WalkByTime(scope: ArchiveScope, clock: Clock, all: seq<Thread>, size: nat, maxPages: nat,
                                      sent: seq<string>, received: seq<Thread>, start: nat)
    requires Archive(scope, clock, all) && size >= 1 && Standing(scope, clock, all, sent, received, start)
    requires |sent| + PagesFrom(scope, clock, all, size, start) <= maxPages
    ensures var r := Walk(scope, ByTime(scope, clock, all, size), maxPages, sent, received);
            && r.Ok? && r.value.terminalReached && r.value.pages == |sent| + PagesFrom(scope, clock, all, size, start)
            && r.value.threads == received + ReadFrom(scope, clock, all, size, start)
    decreases |all| - start
  {
    hide Walk, ByTime, Archive, Standing, NextStart;
    if start + size >= |all| {
      LastStep(scope, clock, all, size, maxPages, sent, received, start);
    } else {
      var stop := start + size;
      var next := NextStart(scope, clock, all, stop);
      NextStartIsBehind(scope, clock, all, stop);
      OneStep(scope, clock, all, size, maxPages, sent, received, start);
      WalkByTime(scope, clock, all, size, maxPages, sent + [CursorText(scope, all[stop - 1])], received + all[start..stop], next);
      assert received + all[start..stop] + ReadFrom(scope, clock, all, size, next)
             == received + (all[start..stop] + ReadFrom(scope, clock, all, size, next));
    }
  }

  /**
   * Against a server that goes by time the loop always reaches the end within
   * `max(1, ceil(k / size))` pages and says so; it has returned every thread exactly when no
   * page ended between two threads of one time, and otherwise fewer.
   */
  lemma CompleteIffNoTie(scope: ArchiveScope, clock: Clock, all: seq<Thread>, size: nat, maxPages: nat)
    requires !scope.UnknownScope? && Archive(scope, clock, all) && size >= 1 && maxPages >= PagesNeeded(|all|, size)
    ensures var r := Enumerate(scope, ByTime(scope, clock, all, size), maxPages);
            && r.Ok? && r.value.terminalReached && r.value.pages <= PagesNeeded(|all|, size)
            && (forall t :: t in r.value.threads ==> t in all) && |r.value.threads| <= |all|
            && (r.value.threads == all <==> NoTieFrom(scope, clock, all, size, 0))
  {
    hide Walk, ByTime, NextStart;
    PagesSuffice(scope, clock, all, size, 0);
    assert all[0..] == all && [] + all == all;
    assert Standing(scope, clock, all, [], [], 0);
    WalkByTime(scope, clock, all, size, maxPages, [], [], 0);
    CompleteExact(scope, clock, all, size, 0);
    assert [] + ReadFrom(scope, clock, all, size, 0) == ReadFrom(scope, clock, all, size, 0);
  }

  /** The smallest loss: two threads archived at one time, read one by one. The end is reached, and one is missing. */
  lemma TieLosesThread(scope: ArchiveScope, clock: Clock, a: Thread, b: Thread)
    requires !scope.UnknownScope? && HasId(a) && HasId(b) && IdOf(a) != IdOf(b)
    requires CursorFor(scope, a).Ok? && CursorFor(scope, b).Ok? && TimeOf(scope, clock, a) == TimeOf(scope, clock, b)
    ensures var r := Enumerate(scope, ByTime(scope, clock, [a, b], 1), 2);
            r.Ok? && r.value.terminalReached && r.value.threads != [a, b]
  {
    hide Enumerate, CursorFor, TimeOf;
    assert PagesNeeded(2, 1) == 2;
    CompleteIffNoTie(scope, clock, [a, b], 1, 2);
  }
}
