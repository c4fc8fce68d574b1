/** The cursor loop of the REST backfill (`fetch_discord_messages`), with the HTTP call as a source. */
module RestBackfill {
  import opened Text
  import opened Paging

  /** A message object; `id` is the text the cursor is made of, empty when there is none. */
  datatype Message = Message(id: string, content: string)

  datatype Problem = RateLimited | PermissionDenied | SourceNotFound | RestBackfillFailed

  /** One answer: an HTTP error, a value that is no list, or a list in which `None` is no object. */
  datatype Response = HttpError(problem: Problem) | NoList | Page(items: seq<Option<Message>>)

  /** Request number, `before` cursor (empty for none) and limit. */
  type Source = (nat, string, nat) -> Response

  /** `IndexError`: a page held items but no object, and the code takes the last of its objects. */
  datatype Outcome = Fetched(messages: seq<Message>, problem: Option<Problem>) | IndexError

  function Objects(items: seq<Option<Message>>): seq<Message> {
    if items == [] then []
    else
      var last := items[|items| - 1];
      Objects(items[..|items| - 1]) + if last.Some? then [last.value] else []
  }

  /** `min(100, max(1, page_size))`. */
  function PageSize(pageSize: int): (n: nat)
    ensures 1 <= n <= 100
  {
    Min(100, Max(1, pageSize))
  }

  datatype Run = Run(outcome: Outcome, requests: nat)

  /** The loop after `n` requests, with `got` fetched, `remaining` still wanted and `before` as cursor. */
  function Backfill(fetch: Source, size: nat, remaining: int, before: string, got: seq<Message>, n: nat): Run
    requires size >= 1
    decreases remaining
  {
    if remaining <= 0 then Run(Fetched(got, None), n)
    else
      var limit := Min(size, remaining);
      match fetch(n, before, limit)
      case HttpError(problem) => Run(Fetched(got, Some(problem)), n + 1)
      case NoList => Run(Fetched(got, None), n + 1)
      case Page(items) =>
        var objects := Objects(items);
        if items == [] then Run(Fetched(got, None), n + 1)
        else if objects == [] then Run(IndexError, n + 1)
        else
          var next := objects[|objects| - 1].id;
          if |objects| < limit || next == "" then Run(Fetched(got + objects, None), n + 1)
          else Backfill(fetch, size, remaining - |objects|, next, got + objects, n + 1)
  }

  /** `fetch_discord_messages`. */
  method FetchDiscordMessages(fetch: Source, limit: int, pageSize: int) returns (r: Outcome, ghost requests: nat)
    ensures r == Backfill(fetch, PageSize(pageSize), Max(0, limit), "", [], 0).outcome
    ensures requests == Backfill(fetch, PageSize(pageSize), Max(0, limit), "", [], 0).requests
  {
    hide PageSize, Objects;
    var messages: seq<Message> := [];
    var before := "";
    var remaining := Max(0, limit);
    var n := 0;
    requests := 0;
    while remaining > 0
      invariant requests == n
      invariant Backfill(fetch, PageSize(pageSize), Max(0, limit), "", [], 0)
                == Backfill(fetch, PageSize(pageSize), remaining, before, messages, n)
      decreases remaining
    {
      var currentLimit := Min(PageSize(pageSize), remaining);
      var page := fetch(n, before, currentLimit);
      n := n + 1;
      requests := n;
      match page {
        case HttpError(problem) => return Fetched(messages, Some(problem)), requests;
        case NoList => break;
        case Page(items) =>
          if items == [] { break; }
          var pageMessages := KeepObjects(items);
          if pageMessages == [] { return IndexError, requests; }
          messages := messages + pageMessages;
          remaining := remaining - |pageMessages|;
          before := pageMessages[|pageMessages| - 1].id;
          if |pageMessages| < currentLimit || before == "" { break; }
      }
    }
    return Fetched(messages, None), requests;
  }

  method KeepObjects(items: seq<Option<Message>>) returns (objects: seq<Message>)
    ensures objects == Objects(items)
  {
    objects := [];
    assert items[..0] == [];
    for i := 0 to |items|
      invariant objects == Objects(items[..i])
    {
      assert items[..i + 1][..i] == items[..i];
      if items[i].Some? { objects := objects + [items[i].value]; }
    }
    assert items[..|items|] == items;
  }

  // ------------------------------------------------- a faithful history

  /** Newest first, with distinct ids that are not empty. */
  ghost predicate History(all: seq<Message>) {
    && (forall i :: 0 <= i < |all| ==> all[i].id != "")
    && forall i, j :: 0 <= i < j < |all| ==> all[i].id != all[j].id
  }

  function Position(all: seq<Message>, id: string): (i: nat)
    ensures i <= |all|
  {
    if all == [] || all[0].id == id then 0 else 1 + Position(all[1..], id)
  }

  /** What stands behind the cursor. */
  function StartOf(all: seq<Message>, before: string): (i: nat)
    ensures i <= |all|
  {
    if before == "" then 0 else Min(Position(all, before) + 1, |all|)
  }

  /** The next `limit` messages from a position on. */
  function PageFrom(all: seq<Message>, start: nat, limit: nat): Response
    requires start <= |all|
  {
    var count := Min(limit, |all| - start);
    Page(seq(count, i requires 0 <= i < count => Some(all[start + i])))
  }

  /** The server's answer; from request `failsAt` on it is an HTTP error. */
  function Answer(all: seq<Message>, failsAt: nat, problem: Problem, n: nat, before: string, limit: nat): Response {
    if n >= failsAt then HttpError(problem) else PageFrom(all, StartOf(all, before), limit)
  }

  function Server(all: seq<Message>, failsAt: nat, problem: Problem): Source {
    (n: nat, before: string, limit: nat) => Answer(all, failsAt, problem, n, before, limit)
  }

  lemma {:induction false} PositionOf(all: seq<Message>, j: nat)
    requires History(all) && j < |all|
    ensures Position(all, all[j].id) == j
  {
    if j > 0 {
      assert all[0].id != all[j].id;
      PositionOf(all[1..], j - 1);
    }
  }

  lemma {:induction false} ObjectsOf(messages: seq<Message>, items: seq<Option<Message>>)
    requires |items| == |messages| && forall i :: 0 <= i < |items| ==> items[i] == Some(messages[i])
    ensures Objects(items) == messages
  {
    if items != [] {
      var k := |items| - 1;
      ObjectsOf(messages[..k], items[..k]);
      assert messages == messages[..k] + [messages[k]];
    }
  }

  /** The cursor in front of position `p`. */
  function CursorAt(all: seq<Message>, p: nat): string
    requires p <= |all|
  {
    if p == 0 then "" else all[p - 1].id
  }

  lemma StartBehind(all: seq<Message>, p: nat)
    requires History(all) && p <= |all|
    ensures StartOf(all, CursorAt(all, p)) == p
  {
    hide Position;
    if p > 0 {
      PositionOf(all, p - 1);
      assert all[p - 1].id != "";
    }
  }

  /** The page a request at position `p` gets. */
  lemma PageAt(all: seq<Message>, failsAt: nat, problem: Problem, n: nat, p: nat, limit: nat)
    requires History(all) && p <= |all| && n < failsAt
    ensures var r := Server(all, failsAt, problem)(n, CursorAt(all, p), limit);
            && r.Page? && |r.items| == Min(limit, |all| - p)
            && Objects(r.items) == all[p..p + |r.items|]
  {
    hide Objects, StartOf, CursorAt, History;
    StartBehind(all, p);
    var r := Server(all, failsAt, problem)(n, CursorAt(all, p), limit);
    ObjectsOf(all[p..p + |r.items|], r.items);
  }

  /** One turn of the loop against the server. */
  lemma ServerStep(all: seq<Message>, failsAt: nat, problem: Problem, size: nat, remaining: int, p: nat, n: nat)
    requires History(all) && p <= |all| && size >= 1 && remaining > 0
    ensures var run := Backfill(Server(all, failsAt, problem), size, remaining, CursorAt(all, p), all[..p], n);
            var limit := Min(size, remaining);
            if n >= failsAt then run == Run(Fetched(all[..p], Some(problem)), n + 1)
            else if p + limit > |all| then run == Run(Fetched(all, None), n + 1)
            else run == Backfill(Server(all, failsAt, problem), size, remaining - limit, CursorAt(all, p + limit), all[..p + limit], n + 1)
  {
    hide Objects, StartOf;
    var limit := Min(size, remaining);
    if n < failsAt {
      PageAt(all, failsAt, problem, n, p, limit);
      var got := Min(limit, |all| - p);
      assert all[..p] + all[p..p + got] == all[..p + got];
      assert all[..|all|] == all;
    }
  }

  /** What a run must come to: an exact prefix, few requests, an error only at request `failsAt`. */
  ghost predicate Takes(all: seq<Message>, failsAt: nat, problem: Problem, size: nat, wanted: nat, run: Run) {
    && run.outcome.Fetched? && run.requests <= failsAt + 1
    && (run.outcome.problem.Some? <==> run.requests == failsAt + 1)
    && (run.outcome.problem.Some? ==> run.outcome.problem.value == problem)
    && run.outcome.messages == all[..Min(if run.requests == failsAt + 1 then Reach(failsAt, size) else wanted, |all|)]
    && (run.requests > 0 ==> Reach(run.requests - 1, size) < wanted)
  }

  lemma {:induction false} BackfillTakes(all: seq<Message>, failsAt: nat, problem: Problem, size: nat, wanted: nat, p: nat, n: nat)
    requires History(all) && size >= 1 && p <= |all| && p <= wanted && n <= failsAt
    requires Reach(n, size) == p || (p == wanted && p < Reach(n, size) < p + size)
    ensures Takes(all, failsAt, problem, size, wanted, Backfill(Server(all, failsAt, problem), size, wanted - p, CursorAt(all, p), all[..p], n))
    decreases wanted - p
  {
    hide Backfill, History, Server, CursorAt;
    if p == wanted {
      StopsAtOnce(all, failsAt, problem, size, p, n);
    } else {
      ServerStep(all, failsAt, problem, size, wanted - p, p, n);
      var limit := Min(size, wanted - p);
      if n < failsAt && p + limit <= |all| {
        BackfillTakes(all, failsAt, problem, size, wanted, p + limit, n + 1);
      } else {
        assert all[..|all|] == all;
      }
    }
  }

  lemma StopsAtOnce(all: seq<Message>, failsAt: nat, problem: Problem, size: nat, p: nat, n: nat)
    requires size >= 1 && p <= |all|
    ensures Backfill(Server(all, failsAt, problem), size, 0, CursorAt(all, p), all[..p], n) == Run(Fetched(all[..p], None), n)
  {
  }

  /**
   * Backfill is `take`: for every page size the result is the first
   * `min(max(0, limit), n)` messages of the history, in at most `ceil(limit / size)` requests;
   * and an HTTP error at any request leaves exactly the full pages before it.
   */
  lemma BackfillIsTake(all: seq<Message>, failsAt: nat, problem: Problem, limit: int, pageSize: int)
    requires History(all)
    ensures Takes(all, failsAt, problem, PageSize(pageSize), Max(0, limit),
                  Backfill(Server(all, failsAt, problem), PageSize(pageSize), Max(0, limit), "", [], 0))
    ensures var requests := Backfill(Server(all, failsAt, problem), PageSize(pageSize), Max(0, limit), "", [], 0).requests;
            requests > 0 ==> (requests - 1) * PageSize(pageSize) < Max(0, limit)
  {
    hide Backfill, Server, History, PageSize;
    BackfillTakes(all, failsAt, problem, PageSize(pageSize), Max(0, limit), 0, 0);
    assert all[..0] == [];
    var requests := Backfill(Server(all, failsAt, problem), PageSize(pageSize), Max(0, limit), "", [], 0).requests;
    if requests > 0 { ReachIsProduct(requests - 1, PageSize(pageSize)); }
  }

  // ------------------------------------------------- a server that goes by age

  /** Where the messages begin that are older than the cursor, by any age of ids. */
  function OlderThan(all: seq<Message>, age: string -> int, before: string): (i: nat)
    ensures i <= |all|
  {
    if all == [] || age(all[0].id) < age(before) then 0 else 1 + OlderThan(all[1..], age, before)
  }

  /** `before=<id>` as a filter on age, whether or not the cursor names a message. */
  function ByAge(all: seq<Message>, age: string -> int, failsAt: nat, problem: Problem): Source {
    (n: nat, before: string, limit: nat) =>
      if n >= failsAt then HttpError(problem) else PageFrom(all, if before == "" then 0 else OlderThan(all, age, before), limit)
  }

  /** Newest first by age, with ids that are not empty: no two messages share an age. */
  ghost predicate Descending(all: seq<Message>, age: string -> int) {
    && (forall i :: 0 <= i < |all| ==> all[i].id != "")
    && forall i, j :: 0 <= i < j < |all| ==> age(all[i].id) > age(all[j].id)
  }

  lemma {:induction false} OlderThanAt(all: seq<Message>, age: string -> int, p: nat)
    requires Descending(all, age) && p < |all|
    ensures OlderThan(all, age, all[p].id) == p + 1
  {
    if p > 0 {
      assert age(all[0].id) > age(all[p].id);
      OlderThanAt(all[1..], age, p - 1);
    } else if |all| > 1 {
      assert age(all[1..][0].id) < age(all[0].id);
    }
  }

  /** On the cursors the loop sends, going by age is going by place. */
  lemma SameAnswer(all: seq<Message>, age: string -> int, failsAt: nat, problem: Problem, n: nat, p: nat, limit: nat)
    requires Descending(all, age) && p <= |all|
    ensures ByAge(all, age, failsAt, problem)(n, CursorAt(all, p), limit) == Server(all, failsAt, problem)(n, CursorAt(all, p), limit)
  {
    hide StartOf, OlderThan, CursorAt, PageFrom;
    assert History(all) by { DescendingIsHistory(all, age); }
    StartBehind(all, p);
    StartByAge(all, age, p);
  }

  lemma StartByAge(all: seq<Message>, age: string -> int, p: nat)
    requires Descending(all, age) && p <= |all|
    ensures (if CursorAt(all, p) == "" then 0 else OlderThan(all, age, CursorAt(all, p))) == p
  {
    hide OlderThan;
    if p > 0 { OlderThanAt(all, age, p - 1); }
  }

  lemma {:induction false} SameRun(all: seq<Message>, age: string -> int, failsAt: nat, problem: Problem, size: nat, remaining: int, p: nat, n: nat)
    requires Descending(all, age) && p <= |all| && size >= 1
    ensures Backfill(ByAge(all, age, failsAt, problem), size, remaining, CursorAt(all, p), all[..p], n)
            == Backfill(Server(all, failsAt, problem), size, remaining, CursorAt(all, p), all[..p], n)
    decreases remaining
  {
    hide ByAge, Server, CursorAt, Objects, Descending;
    if remaining > 0 {
      var limit := Min(size, remaining);
      SameAnswer(all, age, failsAt, problem, n, p, limit);
      assert History(all) by { DescendingIsHistory(all, age); }
      if n < failsAt {
        PageAt(all, failsAt, problem, n, p, limit);
        var items := Server(all, failsAt, problem)(n, CursorAt(all, p), limit).items;
        if |items| == limit {
          assert all[..p] + all[p..p + limit] == all[..p + limit];
          CursorOf(all, p + limit);
          SameRun(all, age, failsAt, problem, size, remaining - limit, p + limit, n + 1);
        }
      } else {
        Failing(all, failsAt, problem, n, CursorAt(all, p), limit);
      }
    }
  }

  lemma CursorOf(all: seq<Message>, p: nat)
    requires 0 < p <= |all|
    ensures CursorAt(all, p) == all[p - 1].id
  {
  }

  lemma Failing(all: seq<Message>, failsAt: nat, problem: Problem, n: nat, before: string, limit: nat)
    requires n >= failsAt
    ensures Server(all, failsAt, problem)(n, before, limit) == HttpError(problem)
  {
  }

  lemma DescendingIsHistory(all: seq<Message>, age: string -> int)
    requires Descending(all, age)
    ensures History(all)
  {
    forall i, j | 0 <= i < j < |all| ensures all[i].id != all[j].id { assert age(all[i].id) > age(all[j].id); }
  }

  /** So backfill is `take` against such a server too. */
  lemma BackfillByAgeIsTake(all: seq<Message>, age: string -> int, failsAt: nat, problem: Problem, limit: int, pageSize: int)
    requires Descending(all, age)
    ensures Takes(all, failsAt, problem, PageSize(pageSize), Max(0, limit),
                  Backfill(ByAge(all, age, failsAt, problem), PageSize(pageSize), Max(0, limit), "", [], 0))
  {
    hide Backfill, Server, ByAge, History, PageSize, Takes;
    DescendingIsHistory(all, age);
    BackfillIsTake(all, failsAt, problem, limit, pageSize);
    SameRun(all, age, failsAt, problem, PageSize(pageSize), Max(0, limit), 0, 0);
    assert all[..0] == [];
  }

  // ------------------------------------------------- when the call raises

  /** Everything a chain of pages brought. */
  function Got(chain: seq<seq<Message>>): seq<Message> {
    if chain == [] then [] else Got(chain[..|chain| - 1]) + chain[|chain| - 1]
  }

  /** The cursor a chain of pages leads to: the id of its last message. */
  function Cursor(chain: seq<seq<Message>>): string {
    if chain == [] || chain[|chain| - 1] == [] then "" else chain[|chain| - 1][|chain[|chain| - 1]| - 1].id
  }

  function Remaining(wanted: nat, chain: seq<seq<Message>>): int {
    wanted - |Got(chain)|
  }

  function LimitNow(size: nat, wanted: nat, chain: seq<seq<Message>>): nat {
    Max(0, Min(size, Remaining(wanted, chain)))
  }

  /** The answer to the request that follows a chain of pages. */
  function AnswerTo(fetch: Source, size: nat, wanted: nat, chain: seq<seq<Message>>): Response {
    fetch(|chain|, Cursor(chain), LimitNow(size, wanted, chain))
  }

  /** The loop asks again after the chain: more is wanted, and the last page was full and had a cursor. */
  predicate GoesOn(fetch: Source, size: nat, wanted: nat, chain: seq<seq<Message>>, page: seq<Message>) {
    && Remaining(wanted, chain) > 0 && AnswerTo(fetch, size, wanted, chain).Page?
    && page == Objects(AnswerTo(fetch, size, wanted, chain).items)
    && page != [] && |page| >= LimitNow(size, wanted, chain) && page[|page| - 1].id != ""
  }

  /** The pages of a run so far: each was asked for with the cursor and limit that the ones before it led to. */
  ghost predicate Asked(fetch: Source, size: nat, wanted: nat, chain: seq<seq<Message>>) {
    forall k: nat :: k < |chain| ==> GoesOn(fetch, size, wanted, chain[..k], chain[k])
  }

  /** The next request of the run is answered with items among which there is no object. */
  predicate NoObjectNext(fetch: Source, size: nat, wanted: nat, chain: seq<seq<Message>>) {
    && Remaining(wanted, chain) > 0 && AnswerTo(fetch, size, wanted, chain).Page?
    && AnswerTo(fetch, size, wanted, chain).items != [] && Objects(AnswerTo(fetch, size, wanted, chain).items) == []
  }

  /** The loop once the pages of the chain have come in. */
  function After(fetch: Source, size: nat, wanted: nat, chain: seq<seq<Message>>): Run
    requires size >= 1
  {
    Backfill(fetch, size, Remaining(wanted, chain), Cursor(chain), Got(chain), |chain|)
  }

  lemma NoObjectsWithoutItems()
    ensures Objects([]) == []
  {
  }

  /** One turn of the loop behind a chain. */
  lemma AfterStep(fetch: Source, size: nat, wanted: nat, chain: seq<seq<Message>>)
    requires size >= 1
    ensures NoObjectNext(fetch, size, wanted, chain) ==> After(fetch, size, wanted, chain) == Run(IndexError, |chain| + 1)
    ensures forall page :: GoesOn(fetch, size, wanted, chain, page) ==>
              After(fetch, size, wanted, chain) == After(fetch, size, wanted, chain + [page])
    ensures After(fetch, size, wanted, chain).outcome == IndexError && !NoObjectNext(fetch, size, wanted, chain) ==>
              AnswerTo(fetch, size, wanted, chain).Page?
              && GoesOn(fetch, size, wanted, chain, Objects(AnswerTo(fetch, size, wanted, chain).items))
  {
    hide Objects;
    NoObjectsWithoutItems();
    forall page ensures (chain + [page])[..|chain|] == chain { }
  }

  lemma AskedGrows(fetch: Source, size: nat, wanted: nat, chain: seq<seq<Message>>, page: seq<Message>)
    requires Asked(fetch, size, wanted, chain) && GoesOn(fetch, size, wanted, chain, page)
    ensures Asked(fetch, size, wanted, chain + [page])
    ensures Remaining(wanted, chain + [page]) < Remaining(wanted, chain)
  {
    hide GoesOn;
    var more := chain + [page];
    assert more[..|chain|] == chain;
    forall k: nat | k < |more| ensures GoesOn(fetch, size, wanted, more[..k], more[k]) {
      if k < |chain| { assert more[..k] == chain[..k]; }
    }
    assert page != [] by { PageIsSome(fetch, size, wanted, chain, page); }
  }

  lemma PageIsSome(fetch: Source, size: nat, wanted: nat, chain: seq<seq<Message>>, page: seq<Message>)
    requires GoesOn(fetch, size, wanted, chain, page)
    ensures page != [] && Remaining(wanted, chain) > 0
  {
  }

  /** A run that raises has asked for such a page. */
  lemma {:induction false} RaiseHasCause(fetch: Source, size: nat, wanted: nat, chain: seq<seq<Message>>) returns (all: seq<seq<Message>>)
    requires size >= 1 && Asked(fetch, size, wanted, chain) && After(fetch, size, wanted, chain).outcome == IndexError
    ensures Asked(fetch, size, wanted, all) && NoObjectNext(fetch, size, wanted, all)
    decreases Remaining(wanted, chain)
  {
    hide After, GoesOn, Asked, NoObjectNext, Remaining, AnswerTo;
    AfterStep(fetch, size, wanted, chain);
    if NoObjectNext(fetch, size, wanted, chain) { return chain; }
    var page := Objects(AnswerTo(fetch, size, wanted, chain).items);
    AskedGrows(fetch, size, wanted, chain, page);
    PageIsSome(fetch, size, wanted, chain, page);
    all := RaiseHasCause(fetch, size, wanted, chain + [page]);
  }

  /** A page that holds items but no object raises, at whatever request of the run it comes. */
  lemma {:induction false} PageWithoutObjectsRaises(fetch: Source, size: nat, wanted: nat, all: seq<seq<Message>>, k: nat)
    requires size >= 1 && k <= |all| && Asked(fetch, size, wanted, all) && NoObjectNext(fetch, size, wanted, all)
    ensures After(fetch, size, wanted, all[..k]) == Run(IndexError, |all| + 1)
    decreases |all| - k
  {
    hide After, GoesOn, NoObjectNext;
    AfterStep(fetch, size, wanted, all[..k]);
    if k == |all| {
      assert all[..k] == all;
    } else {
      assert all[..k + 1] == all[..k] + [all[k]];
      PageWithoutObjectsRaises(fetch, size, wanted, all, k + 1);
    }
  }

  /**
   * The call raises exactly when its run comes to a page that holds items but no object, at
   * any request; and it raises right there. In every other run it returns.
   */
  lemma RaisesExact(fetch: Source, limit: int, pageSize: int)
    ensures var size, wanted := PageSize(pageSize), Max(0, limit);
            var run := Backfill(fetch, size, wanted, "", [], 0);
            && (run.outcome == IndexError <==> exists chain :: Asked(fetch, size, wanted, chain) && NoObjectNext(fetch, size, wanted, chain))
            && (forall chain :: Asked(fetch, size, wanted, chain) && NoObjectNext(fetch, size, wanted, chain) ==>
                  run == Run(IndexError, |chain| + 1))
  {
    hide Backfill, Asked, NoObjectNext, PageSize;
    var size, wanted := PageSize(pageSize), Max(0, limit);
    var run := Backfill(fetch, size, wanted, "", [], 0);
    assert After(fetch, size, wanted, []) == run;
    if run.outcome == IndexError {
      NothingAsked(fetch, size, wanted);
      var chain := RaiseHasCause(fetch, size, wanted, []);
    }
    forall chain | Asked(fetch, size, wanted, chain) && NoObjectNext(fetch, size, wanted, chain) ensures run == Run(IndexError, |chain| + 1) {
      PageWithoutObjectsRaises(fetch, size, wanted, chain, 0);
      assert chain[..0] == [];
    }
  }

  lemma NothingAsked(fetch: Source, size: nat, wanted: nat)
    ensures Asked(fetch, size, wanted, [])
  {
  }

  /** A source none of whose pages is like that never makes it raise, and what was fetched stays. */
  lemma {:induction false} NeverRaises(fetch: Source, size: nat, remaining: int, before: string, got: seq<Message>, n: nat)
    requires size >= 1
    requires forall k, b, l :: fetch(k, b, l).Page? && fetch(k, b, l).items != [] ==> Objects(fetch(k, b, l).items) != []
    ensures Backfill(fetch, size, remaining, before, got, n).outcome.Fetched?
    ensures got <= Backfill(fetch, size, remaining, before, got, n).outcome.messages
    decreases remaining
  {
    hide Objects;
    if remaining > 0 {
      var r := fetch(n, before, Min(size, remaining));
      if r.Page? && r.items != [] {
        var objects := Objects(r.items);
        NeverRaises(fetch, size, remaining - |objects|, objects[|objects| - 1].id, got + objects, n + 1);
      }
    }
  }

  // ------------------------------------------------- the page size

  /** What is asked for is brought into the range from 1 to 100. */
  lemma PageSizeExact(pageSize: int)
    ensures 1 <= pageSize <= 100 ==> PageSize(pageSize) == pageSize
    ensures pageSize > 100 ==> PageSize(pageSize) == 100
    ensures pageSize < 1 ==> PageSize(pageSize) == 1
  {
  }
}
