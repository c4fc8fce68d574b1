/**
 * Thread inventory of one parent channel: the cursor loop over archive pages
 * (`enumerate_archive_pages`) against any page source and against a faithful server.
 */
module ArchiveInventory {
  import opened Text
  import opened Paging
  import opened Receipts

  datatype ArchiveScope = Public | Private | JoinedPrivate | UnknownScope(name: string)

  datatype Metadata = Metadata(archiveTimestamp: Raw<string>, locked: Raw<bool>)

  /** A thread object of a response; `Mistyped` covers every value of another type. */
  datatype Thread = Thread(id: Raw<string>, parentId: Raw<string>, metadata: Raw<Metadata>, rest: string)

  /** An element of a list of threads: `None` when it is no object. */
  type Item = Option<Thread>

  /** One response; the list is `Mistyped` unless it is a sequence. */
  datatype Payload = Payload(threads: Raw<seq<Item>>, hasMore: Raw<bool>)

  /** Request number and cursor to response; `None` when the response is no object. */
  type Source = (nat, Option<string>) -> Option<Payload>

  datatype ArchiveError =
    | ScopeInvalid | MaxPagesInvalid | ResponseInvalid | ThreadsInvalid | HasMoreInvalid | ThreadInvalid
    | ThreadIdMissing | EmptyPage | CursorMissing | CursorLoop

  datatype Listing = Listing(pages: nat, threads: seq<Thread>, terminalReached: bool, terminalCursor: Option<string>)

  // ------------------------------------------------- one response

  predicate HasId(thread: Thread) {
    thread.id.Val? && thread.id.v != ""
  }

  function IdOf(thread: Thread): string {
    if thread.id.Val? then thread.id.v else ""
  }

  datatype Page = Page(threads: seq<Thread>, more: bool)

  /** The items of a page, first bad one first. */
  function ReadItems(items: seq<Item>): Result<seq<Thread>, ArchiveError> {
    if items == [] then Ok([])
    else
      var n := |items| - 1;
      match ReadItems(items[..n])
      case Err(e) => Err(e)
      case Ok(done) =>
        if items[n].None? then Err(ThreadInvalid)
        else if !HasId(items[n].value) then Err(ThreadIdMissing)
        else Ok(done + [items[n].value])
  }

  function ReadPage(payload: Option<Payload>): Result<Page, ArchiveError> {
    if payload.None? then Err(ResponseInvalid)
    else if !payload.value.threads.Val? then Err(ThreadsInvalid)
    else if !payload.value.hasMore.Val? then Err(HasMoreInvalid)
    else
      match ReadItems(payload.value.threads.v)
      case Err(e) => Err(e)
      case Ok(threads) => Ok(Page(threads, payload.value.hasMore.v))
  }

  /** `_cursor_for`. */
  function CursorFor(scope: ArchiveScope, thread: Thread): Result<string, ArchiveError> {
    var value := if scope == JoinedPrivate then thread.id
                 else if thread.metadata.Val? then thread.metadata.v.archiveTimestamp else Null;
    if value.Val? && value.v != "" then Ok(value.v) else Err(CursorMissing)
  }

  /** The cursor a page with more behind it leads to. */
  function NextCursor(scope: ArchiveScope, page: Page): Result<string, ArchiveError> {
    if page.threads == [] then Err(EmptyPage) else CursorFor(scope, page.threads[|page.threads| - 1])
  }

  // ------------------------------------------------- the records kept

  /** Distinct ids in the order they first appeared. */
  function FirstSeen(received: seq<Thread>): (r: seq<string>)
    ensures Distinct(r)
    ensures forall id :: id in r <==> exists i :: 0 <= i < |received| && IdOf(received[i]) == id
  {
    if received == [] then []
    else
      var n := |received| - 1;
      var r := FirstSeen(received[..n]);
      assert forall i :: 0 <= i < n ==> received[..n][i] == received[i];
      if IdOf(received[n]) in r then r else r + [IdOf(received[n])]
  }

  /** The last record received under each id. */
  function LastRecord(received: seq<Thread>): (r: map<string, Thread>)
    ensures forall id :: id in r <==> id in FirstSeen(received)
  {
    if received == [] then map[]
    else
      var n := |received| - 1;
      LastRecord(received[..n])[IdOf(received[n]) := received[n]]
  }

  /** `list(threads.values())` after all of `received` went into the dictionary. */
  function Collected(received: seq<Thread>): seq<Thread> {
    Lookup(FirstSeen(received), LastRecord(received))
  }

  function Lookup(order: seq<string>, table: map<string, Thread>): seq<Thread>
    requires forall id :: id in order ==> id in table
  {
    seq(|order|, i requires 0 <= i < |order| => table[order[i]])
  }

  // ------------------------------------------------- the loop, over the history

  function LastOf(sent: seq<string>): Option<string> {
    if sent == [] then None else Some(sent[|sent| - 1])
  }

  /** The loop once the cursors `sent` have been used (one per page) and `received` has come back. */
  function Walk(scope: ArchiveScope, fetch: Source, maxPages: nat, sent: seq<string>, received: seq<Thread>): Result<Listing, ArchiveError>
    decreases maxPages - |sent|
  {
    if |sent| >= maxPages then Ok(Listing(|sent|, Collected(received), false, LastOf(sent)))
    else
      match ReadPage(fetch(|sent|, LastOf(sent)))
      case Err(e) => Err(e)
      case Ok(page) =>
        if !page.more then Ok(Listing(|sent| + 1, Collected(received + page.threads), true, LastOf(sent)))
        else
          match NextCursor(scope, page)
          case Err(e) => Err(e)
          case Ok(next) =>
            if next in sent then Err(CursorLoop) else Walk(scope, fetch, maxPages, sent + [next], received + page.threads)
  }

  function Enumerate(scope: ArchiveScope, fetch: Source, maxPages: int): Result<Listing, ArchiveError> {
    if scope.UnknownScope? then Err(ScopeInvalid)
    else if maxPages < 1 then Err(MaxPagesInvalid)
    else Walk(scope, fetch, maxPages, [], [])
  }

  // ------------------------------------------------- the program

  /** Python dictionary assignment: a new key goes to the end, an old key keeps its place. */
  method StoreOne(order: seq<string>, table: map<string, Thread>, ghost received: seq<Thread>, thread: Thread)
    returns (order': seq<string>, table': map<string, Thread>)
    requires order == FirstSeen(received) && table == LastRecord(received)
    ensures order' == FirstSeen(received + [thread]) && table' == LastRecord(received + [thread])
  {
    assert (received + [thread])[..|received|] == received;
    order' := if IdOf(thread) in table then order else order + [IdOf(thread)];
    table' := table[IdOf(thread) := thread];
  }

  /** The inner loop: every item of one page goes into the dictionary, up to the first bad one. */
  method StorePage(items: seq<Item>, order: seq<string>, table: map<string, Thread>, ghost received: seq<Thread>)
    returns (r: Result<seq<Thread>, ArchiveError>, order': seq<string>, table': map<string, Thread>)
    requires order == FirstSeen(received) && table == LastRecord(received)
    ensures r == ReadItems(items)
    ensures r.Ok? ==> order' == FirstSeen(received + r.value) && table' == LastRecord(received + r.value)
  {
    hide FirstSeen, LastRecord;
    var normalized: seq<Thread> := [];
    order', table' := order, table;
    assert items[..0] == [] && received + normalized == received;
    for i := 0 to |items|
      invariant ReadItems(items[..i]) == Ok(normalized)
      invariant order' == FirstSeen(received + normalized) && table' == LastRecord(received + normalized)
    {
      assert items[..i + 1][..i] == items[..i];
      if items[i].None? || !HasId(items[i].value) {
        FirstBadItem(items, i + 1);
        return Err(if items[i].None? then ThreadInvalid else ThreadIdMissing), order', table';
      }
      order', table' := StoreOne(order', table', received + normalized, items[i].value);
      assert received + normalized + [items[i].value] == received + (normalized + [items[i].value]);
      normalized := normalized + [items[i].value];
    }
    assert items[..|items|] == items;
    return Ok(normalized), order', table';
  }

  lemma {:induction false} FirstBadItem(items: seq<Item>, k: nat)
    requires k <= |items| && ReadItems(items[..k]).Err?
    ensures ReadItems(items) == ReadItems(items[..k])
  {
    if k == |items| {
      assert items[..k] == items;
    } else {
      var n := |items| - 1;
      assert items[..n][..k] == items[..k];
      FirstBadItem(items[..n], k);
    }
  }

  /** The cursor sent with request `i`. */
  function CursorAt(sent: seq<string>, i: nat): Option<string>
    requires i <= |sent|
  {
    if i == 0 then None else Some(sent[i - 1])
  }

  ghost function CursorsUsed(sent: seq<string>, n: nat): seq<Option<string>>
    requires n <= |sent| + 1
  {
    seq(n, i requires 0 <= i < n => CursorAt(sent, i))
  }

  // ------------------------------------------------- any page source

  /** The page that request `i` returns, when `sent` are the cursors the earlier pages led to. */
  function PageAt(fetch: Source, sent: seq<string>, i: nat): Result<Page, ArchiveError>
    requires i <= |sent|
  {
    ReadPage(fetch(i, CursorAt(sent, i)))
  }

  /** Everything the first `n` pages returned. */
  function Received(fetch: Source, sent: seq<string>, n: nat): seq<Thread>
    requires n <= |sent| + 1
  {
    if n == 0 then []
    else
      match PageAt(fetch, sent, n - 1)
      case Err(_) => Received(fetch, sent, n - 1)
      case Ok(page) => Received(fetch, sent, n - 1) + page.threads
  }

  /** Each cursor came from the last thread of the page before, which said that there was more. */
  ghost predicate Chained(scope: ArchiveScope, fetch: Source, sent: seq<string>) {
    && Distinct(sent)
    && forall i: nat :: i < |sent| ==>
         && PageAt(fetch, sent, i).Ok? && PageAt(fetch, sent, i).value.more
         && NextCursor(scope, PageAt(fetch, sent, i).value) == Ok(sent[i])
  }

  /** A complete reading: it stopped at a page that said there was no more, or at the page limit. */
  ghost predicate Reading(scope: ArchiveScope, fetch: Source, maxPages: nat, sent: seq<string>, terminal: bool) {
    && Chained(scope, fetch, sent)
    && if terminal then |sent| < maxPages && PageAt(fetch, sent, |sent|).Ok? && !PageAt(fetch, sent, |sent|).value.more
       else |sent| == maxPages
  }

  ghost function ListingOf(fetch: Source, sent: seq<string>, terminal: bool): Listing {
    var pages := |sent| + if terminal then 1 else 0;
    Listing(pages, Collected(Received(fetch, sent, pages)), terminal, LastOf(sent))
  }

  lemma {:induction false} ReceivedPrefix(fetch: Source, sent: seq<string>, k: nat, n: nat)
    requires n <= k + 1 && k <= |sent|
    ensures Received(fetch, sent[..k], n) == Received(fetch, sent, n)
  {
    hide ReadPage;
    if n > 0 { ReceivedPrefix(fetch, sent, k, n - 1); }
  }

  lemma PageAtGrows(fetch: Source, sent: seq<string>, next: string, i: nat)
    requires i <= |sent|
    ensures PageAt(fetch, sent + [next], i) == PageAt(fetch, sent, i)
  {
    assert CursorAt(sent + [next], i) == CursorAt(sent, i);
  }

  lemma ChainedGrows(scope: ArchiveScope, fetch: Source, sent: seq<string>, next: string)
    requires Chained(scope, fetch, sent) && next !in sent
    requires PageAt(fetch, sent, |sent|).Ok? && PageAt(fetch, sent, |sent|).value.more
    requires NextCursor(scope, PageAt(fetch, sent, |sent|).value) == Ok(next)
    ensures Chained(scope, fetch, sent + [next])
  {
    hide PageAt, NextCursor;
    forall i: nat | i <= |sent| ensures PageAt(fetch, sent + [next], i) == PageAt(fetch, sent, i) {
      PageAtGrows(fetch, sent, next, i);
    }
  }

  lemma ReceivedGrows(fetch: Source, sent: seq<string>, next: string)
    requires PageAt(fetch, sent, |sent|).Ok?
    ensures Received(fetch, sent + [next], |sent| + 1) == Received(fetch, sent, |sent|) + PageAt(fetch, sent, |sent|).value.threads
  {
    hide PageAt;
    assert (sent + [next])[..|sent|] == sent;
    ReceivedPrefix(fetch, sent + [next], |sent|, |sent|);
    PageAtGrows(fetch, sent, next, |sent|);
  }

  /** One turn of the loop. */
  lemma WalkStep(scope: ArchiveScope, fetch: Source, maxPages: nat, sent: seq<string>, received: seq<Thread>)
    ensures |sent| >= maxPages ==>
              Walk(scope, fetch, maxPages, sent, received) == Ok(Listing(|sent|, Collected(received), false, LastOf(sent)))
    ensures |sent| < maxPages ==> TurnOf(scope, fetch, maxPages, sent, received, PageAt(fetch, sent, |sent|))
  {
    hide Collected, ReadPage, NextCursor;
    assert CursorAt(sent, |sent|) == LastOf(sent);
  }

  /** What one turn makes of the page it reads. */
  ghost predicate TurnOf(scope: ArchiveScope, fetch: Source, maxPages: nat, sent: seq<string>, received: seq<Thread>, read: Result<Page, ArchiveError>) {
    var r := Walk(scope, fetch, maxPages, sent, received);
    match read
    case Err(e) => r == Err(e)
    case Ok(page) =>
      if !page.more then r == Ok(Listing(|sent| + 1, Collected(received + page.threads), true, LastOf(sent)))
      else
        match NextCursor(scope, page)
        case Err(e) => r == Err(e)
        case Ok(next) =>
          r == if next in sent then Err(CursorLoop) else Walk(scope, fetch, maxPages, sent + [next], received + page.threads)
  }

  method NothingStored() returns (order: seq<string>, table: map<string, Thread>)
    ensures order == FirstSeen([]) && table == LastRecord([])
  {
    return [], map[];
  }

  /** Checks one response and stores its threads. */
  method StoreResponse(payload: Option<Payload>, order: seq<string>, table: map<string, Thread>, ghost received: seq<Thread>)
    returns (r: Result<Page, ArchiveError>, order': seq<string>, table': map<string, Thread>)
    requires order == FirstSeen(received) && table == LastRecord(received)
    ensures r == ReadPage(payload)
    ensures r.Ok? ==> order' == FirstSeen(received + r.value.threads) && table' == LastRecord(received + r.value.threads)
  {
    hide FirstSeen, LastRecord, ReadItems;
    order', table' := order, table;
    if payload.None? { return Err(ResponseInvalid), order, table; }
    if !payload.value.threads.Val? { return Err(ThreadsInvalid), order, table; }
    if !payload.value.hasMore.Val? { return Err(HasMoreInvalid), order, table; }
    var normalized;
    normalized, order', table' := StorePage(payload.value.threads.v, order, table, received);
    if normalized.Err? { return Err(normalized.error), order', table'; }
    return Ok(Page(normalized.value, payload.value.hasMore.v)), order', table';
  }

  lemma NextCursorUsed(sent: seq<string>, next: string)
    ensures CursorsUsed(sent + [next], |sent| + 1) == CursorsUsed(sent, |sent| + 1)
    ensures CursorsUsed(sent, |sent| + 1) == CursorsUsed(sent, |sent|) + [LastOf(sent)]
    ensures Elements(sent + [next]) == Elements(sent) + {next}
    ensures next in Elements(sent) <==> next in sent
  {
  }

  lemma CursorsDistinct(sent: seq<string>, n: nat)
    requires Distinct(sent) && n <= |sent| + 1
    ensures Distinct(CursorsUsed(sent, n)) && |CursorsUsed(sent, n)| == n
  {
  }

  /**
   * The program. `asked` lists the cursor of every request made, whether or not the
   * call succeeds: at most `maxPages` requests, and no cursor goes out twice.
   */
  method EnumerateArchivePages(scope: ArchiveScope, fetch: Source, maxPages: int)
    returns (r: Result<Listing, ArchiveError>, ghost asked: seq<Option<string>>)
    ensures r == Enumerate(scope, fetch, maxPages)
    ensures asked == [] || |asked| <= maxPages
    ensures Distinct(asked)
    ensures r.Ok? ==> |asked| == r.value.pages
  {
    hide FirstSeen, LastRecord, Lookup, ReadPage, Walk, CursorsUsed, Distinct, Elements;
    asked := CursorsUsed([], 0);
    CursorsDistinct([], 0);
    if scope.UnknownScope? { return Err(ScopeInvalid), asked; }
    if maxPages < 1 { return Err(MaxPagesInvalid), asked; }
    NothingSent();
    var cursor: Option<string> := None;
    var seenCursors: set<string> := {};
    var order, table := NothingStored();
    var pages := 0;
    ghost var sent: seq<string>, received: seq<Thread> := [], [];
    while pages < maxPages
      invariant pages == |sent| <= maxPages && Distinct(sent)
      invariant cursor == LastOf(sent) && seenCursors == Elements(sent)
      invariant order == FirstSeen(received) && table == LastRecord(received)
      invariant Enumerate(scope, fetch, maxPages) == Walk(scope, fetch, maxPages, sent, received)
    {
      asked := CursorsUsed(sent, pages + 1);
      CursorsDistinct(sent, pages + 1);
      WalkStep(scope, fetch, maxPages, sent, received);
      var page;
      page, order, table := StoreResponse(fetch(pages, cursor), order, table, received);
      if page.Err? { return Err(page.error), asked; }
      pages := pages + 1;
      if !page.value.more { return Ok(Listing(pages, Lookup(order, table), true, cursor)), asked; }
      if page.value.threads == [] { return Err(EmptyPage), asked; }
      var nextCursor := CursorFor(scope, page.value.threads[|page.value.threads| - 1]);
      if nextCursor.Err? { return Err(nextCursor.error), asked; }
      NextCursorUsed(sent, nextCursor.value);
      if cursor == Some(nextCursor.value) || nextCursor.value in seenCursors { return Err(CursorLoop), asked; }
      DistinctGrows(sent, nextCursor.value);
      seenCursors := seenCursors + {nextCursor.value};
      cursor := Some(nextCursor.value);
      received := received + page.value.threads;
      sent := sent + [nextCursor.value];
    }
    WalkStep(scope, fetch, maxPages, sent, received);
    CursorsDistinct(sent, pages);
    return Ok(Listing(pages, Lookup(order, table), false, cursor)), CursorsUsed(sent, pages);
  }

  lemma NothingSent()
    ensures Distinct<string>([]) && Elements<string>([]) == {}
  {
  }

  lemma DistinctGrows(sent: seq<string>, next: string)
    requires Distinct(sent) && next !in Elements(sent)
    ensures Distinct(sent + [next])
  {
  }

  lemma {:induction false} WalkReads(scope: ArchiveScope, fetch: Source, maxPages: nat, sent: seq<string>)
    returns (all: seq<string>, terminal: bool)
    requires Chained(scope, fetch, sent) && |sent| <= maxPages
    requires Walk(scope, fetch, maxPages, sent, Received(fetch, sent, |sent|)).Ok?
    ensures Reading(scope, fetch, maxPages, all, terminal)
    decreases maxPages - |sent|
  {
    hide PageAt, NextCursor, Collected, Walk, Chained, Received;
    if |sent| == maxPages { return sent, false; }
    WalkStep(scope, fetch, maxPages, sent, Received(fetch, sent, |sent|));
    var page := PageAt(fetch, sent, |sent|).value;
    if !page.more { return sent, true; }
    var next := NextCursor(scope, page).value;
    ChainedGrows(scope, fetch, sent, next);
    ReceivedGrows(fetch, sent, next);
    all, terminal := WalkReads(scope, fetch, maxPages, sent + [next]);
  }

  lemma {:induction false} ReadingWalks(scope: ArchiveScope, fetch: Source, maxPages: nat, all: seq<string>, terminal: bool, k: nat)
    requires Reading(scope, fetch, maxPages, all, terminal) && k <= |all|
    ensures Walk(scope, fetch, maxPages, all[..k], Received(fetch, all, k)) == Ok(ListingOf(fetch, all, terminal))
    decreases |all| - k
  {
    hide PageAt, NextCursor, Collected, Walk;
    var sent := all[..k];
    WalkStep(scope, fetch, maxPages, sent, Received(fetch, all, k));
    SamePage(fetch, all, k);
    if k == |all| {
      assert sent == all;
    } else {
      ReadingWalks(scope, fetch, maxPages, all, terminal, k + 1);
      assert all[..k + 1] == sent + [all[k]];
      assert all[k] !in sent;
    }
  }

  lemma SamePage(fetch: Source, all: seq<string>, k: nat)
    requires k <= |all|
    ensures PageAt(fetch, all[..k], k) == PageAt(fetch, all, k)
  {
  }

  /**
   * Against any source whatever, the loop succeeds exactly when a reading exists, and then
   * returns that reading: every page's threads, and `terminal_reached` only on the word of
   * the last page.
   */
  lemma EnumerateExact(scope: ArchiveScope, fetch: Source, maxPages: nat)
    requires !scope.UnknownScope? && maxPages >= 1
    ensures Enumerate(scope, fetch, maxPages).Ok? <==> exists sent, terminal :: Reading(scope, fetch, maxPages, sent, terminal)
    ensures forall sent, terminal :: Reading(scope, fetch, maxPages, sent, terminal) ==>
              Enumerate(scope, fetch, maxPages) == Ok(ListingOf(fetch, sent, terminal))
  {
    hide Reading, Walk, Collected;
    if Enumerate(scope, fetch, maxPages).Ok? {
      var sent, terminal := WalkReads(scope, fetch, maxPages, []);
      assert Reading(scope, fetch, maxPages, sent, terminal);
    }
    forall sent, terminal | Reading(scope, fetch, maxPages, sent, terminal)
      ensures Enumerate(scope, fetch, maxPages) == Ok(ListingOf(fetch, sent, terminal))
    {
      ReadingWalks(scope, fetch, maxPages, sent, terminal, 0);
      assert sent[..0] == [];
    }
  }

  // ------------------------------------------------- what the records mean

  /** No later record has the id of record `i`. */
  predicate IsLast(received: seq<Thread>, i: nat)
    requires i < |received|
  {
    forall j :: i < j < |received| ==> IdOf(received[j]) != IdOf(received[i])
  }

  lemma {:induction false} LastRecordIsLast(received: seq<Thread>, i: nat)
    requires i < |received| && IsLast(received, i)
    ensures IdOf(received[i]) in LastRecord(received) && LastRecord(received)[IdOf(received[i])] == received[i]
  {
    hide FirstSeen, IdOf, IsLast;
    var n := |received| - 1;
    if i < n {
      var init := received[..n];
      assert IsLast(init, i) && IdOf(received[n]) != IdOf(received[i]) by { LastOfPrefix(received, i); }
      LastRecordIsLast(init, i);
    }
  }

  lemma LastOfPrefix(received: seq<Thread>, i: nat)
    requires i < |received| - 1 && IsLast(received, i)
    ensures IsLast(received[..|received| - 1], i) && IdOf(received[|received| - 1]) != IdOf(received[i])
  {
  }

  /** Records with distinct ids are returned as they came. */
  lemma {:induction false} DistinctAreKept(received: seq<Thread>)
    requires forall i, j :: 0 <= i < j < |received| ==> IdOf(received[i]) != IdOf(received[j])
    ensures Collected(received) == received
  {
    DistinctOrder(received);
    forall i | 0 <= i < |received| ensures Collected(received)[i] == received[i] {
      LastRecordIsLast(received, i);
    }
  }

  lemma {:induction false} DistinctOrder(received: seq<Thread>)
    requires forall i, j :: 0 <= i < j < |received| ==> IdOf(received[i]) != IdOf(received[j])
    ensures |FirstSeen(received)| == |received|
    ensures forall i :: 0 <= i < |received| ==> FirstSeen(received)[i] == IdOf(received[i])
  {
    if received != [] {
      var n := |received| - 1;
      DistinctOrder(received[..n]);
    }
  }

  /** One record per id that was received: the last one that came under it, at the place of the first. */
  lemma CollectedMeans(received: seq<Thread>)
    ensures var kept := Collected(received);
            && |kept| == |FirstSeen(received)|
            && (forall i :: 0 <= i < |kept| ==> kept[i] in received && IdOf(kept[i]) == FirstSeen(received)[i])
            && (forall i: nat :: i < |received| && IsLast(received, i) ==> received[i] in kept)
  {
    hide FirstSeen;
    var kept := Collected(received);
    RecordsAreReceived(received);
    forall i: nat | i < |received| && IsLast(received, i)
      ensures received[i] in kept
    {
      LastRecordIsLast(received, i);
      var k :| 0 <= k < |FirstSeen(received)| && FirstSeen(received)[k] == IdOf(received[i]);
      assert kept[k] == received[i];
    }
  }

  lemma {:induction false} RecordsAreReceived(received: seq<Thread>)
    ensures forall id :: id in LastRecord(received) ==> LastRecord(received)[id] in received && IdOf(LastRecord(received)[id]) == id
  {
    hide FirstSeen;
    if received != [] { RecordsAreReceived(received[..|received| - 1]); }
  }

  // ------------------------------------------------- a faithful server

  function CursorText(scope: ArchiveScope, thread: Thread): string {
    match CursorFor(scope, thread)
    case Ok(c) => c
    case Err(_) => ""
  }

  /** Where the thread with this cursor stands; the end when there is none. */
  function Position(scope: ArchiveScope, all: seq<Thread>, cursor: string): (i: nat)
    ensures i <= |all|
  {
    if all == [] || CursorText(scope, all[0]) == cursor then 0 else 1 + Position(scope, all[1..], cursor)
  }

  function StartOf(scope: ArchiveScope, all: seq<Thread>, cursor: Option<string>): nat {
    match cursor
    case None => 0
    case Some(c) => var i := Position(scope, all, c); if i < |all| then i + 1 else i
  }

  /** A server that answers with the next `size` threads behind the cursor. */
  function ServerPage(scope: ArchiveScope, all: seq<Thread>, size: nat, cursor: Option<string>): Payload {
    var start := StartOf(scope, all, cursor);
    var stop := Min(start + size, |all|);
    if start > stop then Payload(Val([]), Val(false))
    else Payload(Val(seq(stop - start, i requires 0 <= i < stop - start => Some(all[start + i]))), Val(start + size < |all|))
  }

  function Server(scope: ArchiveScope, all: seq<Thread>, size: nat): Source {
    (n: nat, cursor: Option<string>) => Some(ServerPage(scope, all, size, cursor))
  }

  /** Threads with ids, and with pairwise distinct ids and cursors. */
  ghost predicate Listable(scope: ArchiveScope, all: seq<Thread>) {
    && (forall i :: 0 <= i < |all| ==> HasId(all[i]) && CursorFor(scope, all[i]).Ok?)
    && (forall i, j :: 0 <= i < j < |all| ==>
          IdOf(all[i]) != IdOf(all[j]) && CursorText(scope, all[i]) != CursorText(scope, all[j]))
  }

  lemma {:induction false} PositionOf(scope: ArchiveScope, all: seq<Thread>, j: nat)
    requires j < |all| && forall i, k :: 0 <= i < k < |all| ==> CursorText(scope, all[i]) != CursorText(scope, all[k])
    ensures Position(scope, all, CursorText(scope, all[j])) == j
  {
    hide CursorText;
    if j > 0 { PositionOf(scope, all[1..], j - 1); }
  }

  lemma {:induction false} ItemsRead(threads: seq<Thread>, items: seq<Item>)
    requires |items| == |threads| && forall i :: 0 <= i < |threads| ==> items[i] == Some(threads[i]) && HasId(threads[i])
    ensures ReadItems(items) == Ok(threads)
  {
    if items != [] {
      var n := |items| - 1;
      ItemsRead(threads[..n], items[..n]);
      assert threads == threads[..n] + [threads[n]];
    }
  }

  /** `max(1, ceil(k / size))`. */
  function PagesNeeded(k: nat, size: nat): (n: nat)
    requires size >= 1
    decreases k
  {
    if k <= size then 1 else 1 + PagesNeeded(k - size, size)
  }

  lemma {:induction false} PagesNeededIsCeiling(k: nat, size: nat)
    requires size >= 1
    ensures var n := PagesNeeded(k, size);
            n >= 1 && k <= n * size && (k > 0 ==> (n - 1) * size < k) && (k == 0 ==> n == 1)
    decreases k
  {
    if k > size { PagesNeededIsCeiling(k - size, size); }
  }

  /** Where the server goes on after the cursor of the thread in front of position `start`. */
  lemma StartBehind(scope: ArchiveScope, all: seq<Thread>, start: nat)
    requires Listable(scope, all) && start <= |all|
    ensures StartOf(scope, all, CursorBefore(scope, all, start)) == start
  {
    hide CursorText, HasId;
    if start > 0 { PositionOf(scope, all, start - 1); }
  }

  /** The server's page behind position `start`. */
  lemma PageBehind(scope: ArchiveScope, all: seq<Thread>, size: nat, start: nat)
    requires Listable(scope, all) && size >= 1 && start <= |all|
    ensures ReadPage(Some(ServerPage(scope, all, size, CursorBefore(scope, all, start))))
            == Ok(Page(all[start..Min(start + size, |all|)], start + size < |all|))
  {
    hide CursorText, ReadItems, HasId, CursorFor, StartOf, CursorBefore;
    StartBehind(scope, all, start);
    var stop := Min(start + size, |all|);
    ItemsRead(all[start..stop], seq(stop - start, i requires 0 <= i < stop - start => Some(all[start + i])));
  }

  ghost predicate SentBefore(scope: ArchiveScope, all: seq<Thread>, sent: seq<string>, start: nat)
    requires start <= |all|
  {
    && (forall c :: c in sent ==> exists j :: 0 <= j < start && CursorText(scope, all[j]) == c)
    && LastOf(sent) == if start == 0 then None else Some(CursorText(scope, all[start - 1]))
  }

  /** The listing the loop must return. */
  ghost function ServerListing(scope: ArchiveScope, all: seq<Thread>, size: nat, maxPages: nat): Listing
    requires size >= 1
  {
    var needed := PagesNeeded(|all|, size);
    if maxPages < needed then Listing(maxPages, all[..Min(Reach(maxPages, size), |all|)], false, CursorBefore(scope, all, Reach(maxPages, size)))
    else Listing(needed, all, true, CursorBefore(scope, all, Reach(needed - 1, size)))
  }

  /** The cursor of the thread in front of position `start`. */
  function CursorBefore(scope: ArchiveScope, all: seq<Thread>, start: nat): Option<string> {
    if start == 0 || start > |all| then None else Some(CursorText(scope, all[start - 1]))
  }

  /** The loop behind position `start` of a faithful server. */
  ghost function WalkFrom(scope: ArchiveScope, all: seq<Thread>, size: nat, maxPages: nat, sent: seq<string>, start: nat): Result<Listing, ArchiveError>
    requires start <= |all|
  {
    Walk(scope, Server(scope, all, size), maxPages, sent, all[..start])
  }

  ghost predicate AtPosition(scope: ArchiveScope, all: seq<Thread>, size: nat, sent: seq<string>, start: nat)
    requires size >= 1
  {
    && (start < |all| || start == 0) && SentBefore(scope, all, sent, start)
    && start == Reach(|sent|, size)
    && |sent| + PagesNeeded(|all| - start, size) == PagesNeeded(|all|, size)
  }

  lemma ServerGoesOn(scope: ArchiveScope, all: seq<Thread>, size: nat, maxPages: nat, sent: seq<string>, start: nat)
    requires Listable(scope, all) && size >= 1 && |sent| < maxPages
    requires AtPosition(scope, all, size, sent, start) && start + size < |all|
    ensures var sent' := sent + [CursorText(scope, all[start + size - 1])];
            && AtPosition(scope, all, size, sent', start + size)
            && WalkFrom(scope, all, size, maxPages, sent, start) == WalkFrom(scope, all, size, maxPages, sent', start + size)
  {
    hide CursorText, Collected, ReadPage, Server, Listable, Walk, NextCursor, SentBefore;
    var stop := start + size;
    WalkStep(scope, Server(scope, all, size), maxPages, sent, all[..start]);
    ServerPageAt(scope, all, size, sent, start);
    KeptSoFar(scope, all, start, stop);
    NextIsFresh(scope, all, sent, start, stop - 1);
    LastCursor(scope, all, start, stop);
  }

  lemma ServerStops(scope: ArchiveScope, all: seq<Thread>, size: nat, maxPages: nat, sent: seq<string>, start: nat)
    requires Listable(scope, all) && size >= 1 && |sent| <= maxPages
    requires AtPosition(scope, all, size, sent, start)
    requires |sent| == maxPages || start + size >= |all|
    ensures WalkFrom(scope, all, size, maxPages, sent, start) == Ok(ServerListing(scope, all, size, maxPages))
  {
    hide CursorText, Collected, ReadPage, Server, Listable, Walk, NextCursor, SentBefore, CursorBefore;
    WalkStep(scope, Server(scope, all, size), maxPages, sent, all[..start]);
    LastSent(scope, all, sent, start);
    if |sent| == maxPages {
      KeptPrefix(scope, all, start);
    } else {
      ServerPageAt(scope, all, size, sent, start);
      KeptSoFar(scope, all, start, |all|);
    }
  }

  lemma {:induction false} WalkOfServer(scope: ArchiveScope, all: seq<Thread>, size: nat, maxPages: nat, sent: seq<string>, start: nat)
    requires Listable(scope, all) && size >= 1 && |sent| <= maxPages
    requires AtPosition(scope, all, size, sent, start)
    ensures WalkFrom(scope, all, size, maxPages, sent, start) == Ok(ServerListing(scope, all, size, maxPages))
    decreases maxPages - |sent|
  {
    hide CursorText, Listable, WalkFrom, ServerListing, PagesNeeded, Reach, SentBefore;
    if |sent| == maxPages || start + size >= |all| {
      ServerStops(scope, all, size, maxPages, sent, start);
    } else {
      ServerGoesOn(scope, all, size, maxPages, sent, start);
      WalkOfServer(scope, all, size, maxPages, sent + [CursorText(scope, all[start + size - 1])], start + size);
    }
  }

  lemma KeptSoFar(scope: ArchiveScope, all: seq<Thread>, start: nat, stop: nat)
    requires Listable(scope, all) && start <= stop <= |all|
    ensures all[..start] + all[start..stop] == all[..stop] && Collected(all[..stop]) == all[..stop]
    ensures stop == |all| ==> all[..stop] == all
  {
    hide Collected, Listable;
    KeptPrefix(scope, all, stop);
  }

  lemma ServerPageAt(scope: ArchiveScope, all: seq<Thread>, size: nat, sent: seq<string>, start: nat)
    requires Listable(scope, all) && size >= 1 && (start < |all| || start == 0) && SentBefore(scope, all, sent, start)
    ensures PageAt(Server(scope, all, size), sent, |sent|) == Ok(Page(all[start..Min(start + size, |all|)], start + size < |all|))
  {
    hide ReadPage, Listable, ServerPage, CursorText;
    PageBehind(scope, all, size, start);
    LastSent(scope, all, sent, start);
  }

  lemma LastSent(scope: ArchiveScope, all: seq<Thread>, sent: seq<string>, start: nat)
    requires start <= |all| && SentBefore(scope, all, sent, start)
    ensures LastOf(sent) == CursorBefore(scope, all, start)
  {
  }

  lemma KeptPrefix(scope: ArchiveScope, all: seq<Thread>, n: nat)
    requires Listable(scope, all) && n <= |all|
    ensures Collected(all[..n]) == all[..n]
  {
    hide Collected;
    DistinctAreKept(all[..n]);
  }

  lemma LastCursor(scope: ArchiveScope, all: seq<Thread>, start: nat, stop: nat)
    requires Listable(scope, all) && start < stop <= |all|
    ensures NextCursor(scope, Page(all[start..stop], true)) == Ok(CursorText(scope, all[stop - 1]))
  {
  }

  lemma NextIsFresh(scope: ArchiveScope, all: seq<Thread>, sent: seq<string>, start: nat, k: nat)
    requires Listable(scope, all) && start <= k < |all| && SentBefore(scope, all, sent, start)
    ensures CursorText(scope, all[k]) !in sent
    ensures SentBefore(scope, all, sent + [CursorText(scope, all[k])], k + 1)
  {
    hide CursorText;
  }

  /**
   * Against a faithful server the loop never raises, makes exactly
   * `min(maxPages, max(1, ceil(k / size)))` requests, and when it says that it reached the
   * end it returns exactly the threads of the server.
   */
  lemma PaginationComplete(scope: ArchiveScope, all: seq<Thread>, size: nat, maxPages: nat)
    requires !scope.UnknownScope? && Listable(scope, all) && size >= 1 && maxPages >= 1
    ensures var r := Enumerate(scope, Server(scope, all, size), maxPages);
            var needed := PagesNeeded(|all|, size);
            && r.Ok? && r.value == ServerListing(scope, all, size, maxPages)
            && r.value.pages == Min(maxPages, needed)
            && r.value.terminalReached == (maxPages >= needed)
            && r.value.threads == all[..Min(Reach(r.value.pages, size), |all|)]
            && (r.value.terminalReached ==> r.value.threads == all)
  {
    hide Walk, Listable, Server;
    assert all[..0] == [];
    WalkOfServer(scope, all, size, maxPages, [], 0);
    ReachedAll(|all|, size);
    assert all[..|all|] == all;
  }

  lemma {:induction false} ReachedAll(k: nat, size: nat)
    requires size >= 1
    ensures Reach(PagesNeeded(k, size), size) >= k
    decreases k
  {
    if k > size { ReachedAll(k - size, size); }
  }
}
