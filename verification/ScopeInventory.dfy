/**
 * From enumerated threads to scope receipts (`build_active_filtered_result`,
 * `build_scope_receipts_inventory`): which threads count, and what the totals are.
 */
module ScopeInventory {
  import opened Text
  import opened Times
  import opened Receipts
  import opened ArchiveInventory

  datatype BuildError =
    | NoThreadId | ForeignParent | LockedNotBoolean | ActiveThreadsNotList | ActiveThreadNotObject
    | KindUnknown | BindingMissing | ObservedAtRefused | ScopeMissing
    | ThreadsNotList | ThreadNotObject | RepeatedThread | ScopesOverlap

  datatype Trusted = Foreign | Own(id: string, locked: bool)

  /** `_trusted_thread_fields`. */
  function TrustedFields(thread: Thread, parent: string, requireMatch: bool): Result<Trusted, BuildError> {
    if !HasId(thread) then Err(NoThreadId)
    else if requireMatch && thread.parentId != Val(parent) then Ok(Foreign)
    else if (thread.parentId.Val? || thread.parentId.Mistyped?) && thread.parentId != Val(parent) then Err(ForeignParent)
    else if !thread.metadata.Val? || !thread.metadata.v.locked.Val? then Err(LockedNotBoolean)
    else Ok(Own(thread.id.v, thread.metadata.v.locked.v))
  }

  /** The result of enumerating one scope, as it is handed over. */
  datatype ScopeResult = ScopeResult(threads: Raw<seq<Item>>, pages: int, terminalReached: bool, terminalCursor: Raw<string>)

  // ------------------------------------------------- active threads of the guild

  /** The items of the parent, first bad item first. */
  function ActiveItems(items: seq<Item>, parent: string): Result<seq<Item>, BuildError> {
    if items == [] then Ok([])
    else
      var n := |items| - 1;
      match ActiveItems(items[..n], parent)
      case Err(e) => Err(e)
      case Ok(done) =>
        if items[n].None? then Err(ActiveThreadNotObject)
        else
          match TrustedFields(items[n].value, parent, true)
          case Err(e) => Err(e)
          case Ok(Foreign) => Ok(done)
          case Ok(Own(_, _)) => Ok(done + [items[n]])
  }

  function ActiveResult(threads: Raw<seq<Item>>, parent: string): Result<(ScopeResult, nat), BuildError> {
    if !threads.Val? then Err(ActiveThreadsNotList)
    else
      match ActiveItems(threads.v, parent)
      case Err(e) => Err(e)
      case Ok(items) =>
        ActiveItemsCount(threads.v, parent);
        Ok((ScopeResult(Val(items), 1, true, Null), |threads.v| - |items|))
  }

  lemma {:induction false} ActiveItemsCount(items: seq<Item>, parent: string)
    ensures ActiveItems(items, parent).Ok? ==> |ActiveItems(items, parent).value| <= |items|
  {
    if items != [] { ActiveItemsCount(items[..|items| - 1], parent); }
  }

  method BuildActiveFilteredResult(rawThreads: Raw<seq<Item>>, parent: string)
    returns (r: Result<(ScopeResult, nat), BuildError>)
    ensures r == ActiveResult(rawThreads, parent)
  {
    hide TrustedFields;
    if !rawThreads.Val? { return Err(ActiveThreadsNotList); }
    var items := rawThreads.v;
    var threads: seq<Item> := [];
    var filteredOut := 0;
    assert items[..0] == [];
    for i := 0 to |items|
      invariant ActiveItems(items[..i], parent) == Ok(threads)
      invariant filteredOut == i - |threads|
    {
      assert items[..i + 1][..i] == items[..i];
      if items[i].None? {
        FirstBadActive(items, parent, i + 1);
        return Err(ActiveThreadNotObject);
      }
      var trusted := TrustedFields(items[i].value, parent, true);
      if trusted.Err? {
        FirstBadActive(items, parent, i + 1);
        return Err(trusted.error);
      }
      if trusted.value == Foreign {
        filteredOut := filteredOut + 1;
      } else {
        threads := threads + [items[i]];
      }
    }
    assert items[..|items|] == items;
    ActiveItemsCount(items, parent);
    return Ok((ScopeResult(Val(threads), 1, true, Null), filteredOut));
  }

  lemma {:induction false} FirstBadActive(items: seq<Item>, parent: string, k: nat)
    requires k <= |items| && ActiveItems(items[..k], parent).Err?
    ensures ActiveItems(items, parent) == ActiveItems(items[..k], parent)
  {
    hide TrustedFields;
    if k == |items| {
      assert items[..k] == items;
    } else {
      assert items[..|items| - 1][..k] == items[..k];
      FirstBadActive(items[..|items| - 1], parent, k);
    }
  }

  // ------------------------------------------------- one scope

  /** Every item is a thread with an id and, unless it belongs to another parent, a boolean `locked`. */
  predicate AllTrusted(items: seq<Item>, parent: string, requireMatch: bool) {
    forall i :: 0 <= i < |items| ==> items[i].Some? && TrustedFields(items[i].value, parent, requireMatch).Ok?
  }

  /** The ids of the parent's own threads, in order. */
  function OwnIds(items: seq<Item>, parent: string, requireMatch: bool): seq<string> {
    if items == [] then []
    else OwnIds(items[..|items| - 1], parent, requireMatch) + OwnId(items[|items| - 1], parent, requireMatch)
  }

  function OwnId(item: Item, parent: string, requireMatch: bool): seq<string> {
    if item.Some? && TrustedFields(item.value, parent, requireMatch).Ok?
       && TrustedFields(item.value, parent, requireMatch).value.Own?
    then [TrustedFields(item.value, parent, requireMatch).value.id] else []
  }

  /** The locked ones among them. */
  function LockedIds(items: seq<Item>, parent: string, requireMatch: bool): seq<string> {
    if items == [] then []
    else
      var last := items[|items| - 1];
      LockedIds(items[..|items| - 1], parent, requireMatch)
      + if last.Some? && TrustedFields(last.value, parent, requireMatch).Ok?
           && TrustedFields(last.value, parent, requireMatch).value.Own?
           && TrustedFields(last.value, parent, requireMatch).value.locked
        then OwnId(last, parent, requireMatch) else []
  }

  datatype Tally = Tally(ids: seq<string>, locked: seq<string>)

  /** The inner loop as a fold. */
  function TallyOf(items: seq<Item>, parent: string, requireMatch: bool): Result<Tally, BuildError> {
    if items == [] then Ok(Tally([], []))
    else
      var n := |items| - 1;
      match TallyOf(items[..n], parent, requireMatch)
      case Err(e) => Err(e)
      case Ok(t) =>
        if items[n].None? then Err(ThreadNotObject)
        else
          match TrustedFields(items[n].value, parent, requireMatch)
          case Err(e) => Err(e)
          case Ok(Foreign) => Ok(t)
          case Ok(Own(id, locked)) =>
            if id in t.ids then Err(RepeatedThread)
            else Ok(Tally(t.ids + [id], if locked then t.locked + [id] else t.locked))
  }

  method TallyScope(items: seq<Item>, parent: string, requireMatch: bool) returns (r: Result<Tally, BuildError>, scopeLocked: nat)
    ensures r == TallyOf(items, parent, requireMatch)
    ensures r.Ok? ==> scopeLocked == |r.value.locked|
  {
    hide TrustedFields;
    var scopeIds: seq<string>, lockedIds: seq<string> := [], [];
    scopeLocked := 0;
    assert items[..0] == [];
    for i := 0 to |items|
      invariant TallyOf(items[..i], parent, requireMatch) == Ok(Tally(scopeIds, lockedIds))
      invariant scopeLocked == |lockedIds|
    {
      assert items[..i + 1][..i] == items[..i];
      if items[i].None? {
        FirstBadTally(items, parent, requireMatch, i + 1);
        return Err(ThreadNotObject), 0;
      }
      var trusted := TrustedFields(items[i].value, parent, requireMatch);
      if trusted.Err? {
        FirstBadTally(items, parent, requireMatch, i + 1);
        return Err(trusted.error), 0;
      }
      if trusted.value.Own? {
        if trusted.value.id in scopeIds {
          FirstBadTally(items, parent, requireMatch, i + 1);
          return Err(RepeatedThread), 0;
        }
        scopeIds := scopeIds + [trusted.value.id];
        if trusted.value.locked {
          scopeLocked := scopeLocked + 1;
          lockedIds := lockedIds + [trusted.value.id];
        }
      }
    }
    assert items[..|items|] == items;
    return Ok(Tally(scopeIds, lockedIds)), scopeLocked;
  }

  lemma {:induction false} FirstBadTally(items: seq<Item>, parent: string, requireMatch: bool, k: nat)
    requires k <= |items| && TallyOf(items[..k], parent, requireMatch).Err?
    ensures TallyOf(items, parent, requireMatch) == TallyOf(items[..k], parent, requireMatch)
  {
    hide TrustedFields;
    if k == |items| {
      assert items[..k] == items;
    } else {
      assert items[..|items| - 1][..k] == items[..k];
      FirstBadTally(items[..|items| - 1], parent, requireMatch, k);
    }
  }

  lemma NothingRepeats()
    ensures Distinct<string>([])
  {
  }

  lemma AppendDistinct(s: seq<string>, x: string)
    ensures Distinct(s + [x]) <==> Distinct(s) && x !in s
  {
    var t := s + [x];
    if Distinct(t) {
      assert forall i :: 0 <= i < |s| ==> t[i] == s[i] && t[i] != t[|s|];
    }
  }

  /** A scope is taken exactly when all its items are trusted and no own thread comes twice. */
  lemma {:induction false} TallyMeans(items: seq<Item>, parent: string, requireMatch: bool)
    ensures TallyOf(items, parent, requireMatch).Ok? <==>
              AllTrusted(items, parent, requireMatch) && Distinct(OwnIds(items, parent, requireMatch))
    ensures TallyOf(items, parent, requireMatch).Ok? ==>
              TallyOf(items, parent, requireMatch).value
              == Tally(OwnIds(items, parent, requireMatch), LockedIds(items, parent, requireMatch))
  {
    hide TrustedFields, Distinct;
    if items == [] {
      NothingRepeats();
    } else {
      var n := |items| - 1;
      TallyMeans(items[..n], parent, requireMatch);
      assert OwnIds(items[..n], parent, requireMatch) + [] == OwnIds(items[..n], parent, requireMatch);
      assert LockedIds(items[..n], parent, requireMatch) + [] == LockedIds(items[..n], parent, requireMatch);
      assert AllTrusted(items, parent, requireMatch) <==>
               AllTrusted(items[..n], parent, requireMatch) && items[n].Some? && TrustedFields(items[n].value, parent, requireMatch).Ok?;
      if items[n].Some? && TrustedFields(items[n].value, parent, requireMatch).Ok?
         && TrustedFields(items[n].value, parent, requireMatch).value.Own? {
        AppendDistinct(OwnIds(items[..n], parent, requireMatch), TrustedFields(items[n].value, parent, requireMatch).value.id);
      }
    }
  }

  /** Locked threads are own threads, once each. */
  lemma {:induction false} LockedAreOwn(items: seq<Item>, parent: string, requireMatch: bool)
    ensures forall id :: id in LockedIds(items, parent, requireMatch) ==> id in OwnIds(items, parent, requireMatch)
    ensures |LockedIds(items, parent, requireMatch)| <= |OwnIds(items, parent, requireMatch)|
    ensures Distinct(OwnIds(items, parent, requireMatch)) ==> Distinct(LockedIds(items, parent, requireMatch))
  {
    hide TrustedFields, Distinct;
    if items == [] {
      NothingRepeats();
    } else {
      var n := |items| - 1;
      LockedAreOwn(items[..n], parent, requireMatch);
      assert OwnIds(items[..n], parent, requireMatch) + [] == OwnIds(items[..n], parent, requireMatch);
      assert LockedIds(items[..n], parent, requireMatch) + [] == LockedIds(items[..n], parent, requireMatch);
      var own, id := OwnIds(items[..n], parent, requireMatch), OwnId(items[n], parent, requireMatch);
      if id != [] {
        AppendDistinct(own, id[0]);
        AppendDistinct(LockedIds(items[..n], parent, requireMatch), id[0]);
      }
    }
  }

  /** `kept` are the parent's own threads among `items`, all of them and nothing else. */
  ghost predicate KeepsOwn(items: seq<Item>, kept: seq<Item>, parent: string) {
    && AllTrusted(kept, parent, true)
    && (forall item :: item in kept ==> item.Some? && item.value.parentId == Val(parent))
    && OwnIds(kept, parent, true) == OwnIds(items, parent, true)
    && LockedIds(kept, parent, true) == LockedIds(items, parent, true)
  }

  /** Filtering the guild's active threads keeps exactly the parent's own threads. */
  lemma {:induction false} ActiveKeepsOwn(items: seq<Item>, parent: string)
    ensures ActiveItems(items, parent).Ok? <==> AllTrusted(items, parent, true)
    ensures ActiveItems(items, parent).Ok? ==> KeepsOwn(items, ActiveItems(items, parent).value, parent)
  {
    hide KeepsOwn, AllTrusted, TrustedFields;
    if items == [] {
      assert KeepsOwn([], [], parent) && AllTrusted([], parent, true) by { NothingKept(parent); }
    } else {
      var n := |items| - 1;
      ActiveKeepsOwn(items[..n], parent);
      AllTrustedSplits(items, parent);
      if AllTrusted(items, parent, true) {
        KeepsOwnGrows(items[..n], ActiveItems(items[..n], parent).value, items[n], parent);
        assert items[..n] + [items[n]] == items;
      }
    }
  }

  lemma NothingKept(parent: string)
    ensures KeepsOwn([], [], parent) && AllTrusted([], parent, true)
  {
  }

  lemma AllTrustedSplits(items: seq<Item>, parent: string)
    requires items != []
    ensures var last := items[|items| - 1];
            AllTrusted(items, parent, true) <==>
              AllTrusted(items[..|items| - 1], parent, true) && last.Some? && TrustedFields(last.value, parent, true).Ok?
  {
    hide TrustedFields;
  }

  lemma KeepsOwnGrows(items: seq<Item>, kept: seq<Item>, last: Item, parent: string)
    requires KeepsOwn(items, kept, parent) && last.Some? && TrustedFields(last.value, parent, true).Ok?
    ensures KeepsOwn(items + [last], if TrustedFields(last.value, parent, true).value.Own? then kept + [last] else kept, parent)
  {
    hide TrustedFields;
    assert (items + [last])[..|items|] == items && (kept + [last])[..|kept|] == kept;
    assert OwnIds(items, parent, true) + [] == OwnIds(items, parent, true);
    assert LockedIds(items, parent, true) + [] == LockedIds(items, parent, true);
    if TrustedFields(last.value, parent, true).value.Own? { OwnHasParent(last.value, parent); }
  }

  lemma OwnHasParent(thread: Thread, parent: string)
    requires TrustedFields(thread, parent, true).Ok? && TrustedFields(thread, parent, true).value.Own?
    ensures thread.parentId == Val(parent)
  {
  }

  // ------------------------------------------------- all scopes

  datatype BuildCall = BuildCall(
    parent: string, kind: Kind, scanId: string,
    observedAt: Option<ObservedTime>,   // `None` for the empty text
    active: ScopeResult,
    archived: seq<(ArchiveScope, ScopeResult)>,
    confirmed: bool)

  /** The flags that older readers of an inventory look at. */
  datatype ScopeFlags = ScopeFlags(active: bool, archivedPublic: bool, archivedPrivate: bool)

  datatype Inventory = Inventory(
    parent: string, kind: Kind, scanId: string, observedAt: string,
    entries: seq<ScopeEntry>, threadIds: seq<string>, scopes: ScopeFlags, paginationExhausted: bool, lockedCount: nat)

  /** `archived[scope]`: the last result given for the scope. */
  function ArchivedFor(archived: seq<(ArchiveScope, ScopeResult)>, scope: ArchiveScope): Option<ScopeResult> {
    if archived == [] then None
    else if archived[|archived| - 1].0 == scope then Some(archived[|archived| - 1].1)
    else ArchivedFor(archived[..|archived| - 1], scope)
  }

  function ResultFor(call: BuildCall, scope: Scope): Option<ScopeResult> {
    match scope
    case ActiveFiltered => Some(call.active)
    case ArchivedPublic => ArchivedFor(call.archived, Public)
    case ArchivedPrivate => ArchivedFor(call.archived, Private)
    case OtherScope(_) => None
  }

  function ReceiptFor(call: BuildCall, scope: Scope, result: ScopeResult, tally: Tally): RawReceipt {
    RawReceipt(
      Val(RouteOf(scope)), Val(call.parent), Val(scope == ActiveFiltered), Val(result.pages), Val(result.terminalReached),
      if result.terminalCursor.Absent? then Null else result.terminalCursor,
      Val(tally.ids), Val(|tally.locked|),
      if scope == ArchivedPrivate then Val(RawAuthorization(Val(ManageThreads), Val(call.confirmed))) else Absent)
  }

  datatype Gathered = Gathered(entries: seq<ScopeEntry>, allIds: seq<string>, lockedIds: seq<string>)

  function TallyFor(call: BuildCall, scope: Scope): Result<Tally, BuildError> {
    var result := ResultFor(call, scope);
    if result.None? then Err(ScopeMissing)
    else if !result.value.threads.Val? then Err(ThreadsNotList)
    else TallyOf(result.value.threads.v, call.parent, scope == ActiveFiltered)
  }

  predicate Overlaps(a: seq<string>, b: seq<string>) {
    exists id :: id in b && id in a
  }

  /** The outer loop as a fold over the scopes in order. */
  function Gather(call: BuildCall, scopes: seq<Scope>): Result<Gathered, BuildError> {
    if scopes == [] then Ok(Gathered([], [], []))
    else
      var n := |scopes| - 1;
      match Gather(call, scopes[..n])
      case Err(e) => Err(e)
      case Ok(g) =>
        match TallyFor(call, scopes[n])
        case Err(e) => Err(e)
        case Ok(tally) =>
          if ResultFor(call, scopes[n]).None? then Err(ScopeMissing)
          else if Overlaps(g.allIds, tally.ids) then Err(ScopesOverlap)
          else
            var receipt := ReceiptFor(call, scopes[n], ResultFor(call, scopes[n]).value, tally);
            Ok(Gathered(g.entries + [ScopeEntry(scopes[n], Val(receipt))], g.allIds + tally.ids, g.lockedIds + tally.locked))
  }

  predicate ScopesGiven(call: BuildCall) {
    forall s :: s in RequiredScopes(call.kind) ==> ResultFor(call, s).Some?
  }

  predicate AllReadToTheEnd(entries: seq<ScopeEntry>) {
    forall i :: 0 <= i < |entries| ==> entries[i].receipt.Val? && entries[i].receipt.v.terminalReached == Val(true)
  }

  /** Whether the receipt of the scope says that its pages were read to the end; `absent` when there is none. */
  function ReachedEnd(entries: seq<ScopeEntry>, scope: Scope, absent: bool): bool {
    if entries == [] then absent
    else
      var last := entries[|entries| - 1];
      if last.scope == scope then last.receipt.Val? && last.receipt.v.terminalReached == Val(true)
      else ReachedEnd(entries[..|entries| - 1], scope, absent)
  }

  function Assemble(call: BuildCall, observedAt: string, g: Gathered): Inventory {
    Inventory(call.parent, call.kind, call.scanId, observedAt, g.entries, SortedSet(g.allIds),
              ScopeFlags(ReachedEnd(g.entries, ActiveFiltered, false), ReachedEnd(g.entries, ArchivedPublic, false),
                         ReachedEnd(g.entries, ArchivedPrivate, true)),
              AllReadToTheEnd(g.entries) && (call.kind != TextChannel || call.confirmed), |Elements(g.lockedIds)|)
  }

  function Build(call: BuildCall): Result<Inventory, BuildError> {
    if RequiredScopes(call.kind) == [] then Err(KindUnknown)
    else if call.parent == "" || call.scanId == "" || call.observedAt.None? then Err(BindingMissing)
    else if NormalizedTime(call.observedAt.value).Err? then Err(ObservedAtRefused)
    else if !ScopesGiven(call) then Err(ScopeMissing)
    else
      match Gather(call, RequiredScopes(call.kind))
      case Err(e) => Err(e)
      case Ok(g) => Ok(Assemble(call, NormalizedTime(call.observedAt.value).value, g))
  }

  /** The outer loop of the program. */
  method GatherScopes(call: BuildCall, scopes: seq<Scope>) returns (r: Result<Gathered, BuildError>)
    requires forall s :: s in scopes ==> ResultFor(call, s).Some?
    ensures r == Gather(call, scopes)
  {
    hide TallyOf, ReceiptFor, ResultFor;
    var receipts: seq<ScopeEntry>, allIds: seq<string>, lockedIds: seq<string> := [], [], [];
    assert scopes[..0] == [];
    for i := 0 to |scopes|
      invariant Gather(call, scopes[..i]) == Ok(Gathered(receipts, allIds, lockedIds))
    {
      assert scopes[..i + 1][..i] == scopes[..i];
      var result := ResultFor(call, scopes[i]).value;
      if !result.threads.Val? {
        FirstBadScope(call, scopes, i + 1);
        return Err(ThreadsNotList);
      }
      var tally, scopeLocked := TallyScope(result.threads.v, call.parent, scopes[i] == ActiveFiltered);
      if tally.Err? {
        FirstBadScope(call, scopes, i + 1);
        return Err(tally.error);
      }
      if exists k :: 0 <= k < |tally.value.ids| && tally.value.ids[k] in allIds {
        FirstBadScope(call, scopes, i + 1);
        return Err(ScopesOverlap);
      }
      allIds := allIds + tally.value.ids;
      lockedIds := lockedIds + tally.value.locked;
      receipts := receipts + [ScopeEntry(scopes[i], Val(ReceiptFor(call, scopes[i], result, tally.value)))];
    }
    assert scopes[..|scopes|] == scopes;
    return Ok(Gathered(receipts, allIds, lockedIds));
  }

  lemma {:induction false} FirstBadScope(call: BuildCall, scopes: seq<Scope>, k: nat)
    requires k <= |scopes| && Gather(call, scopes[..k]).Err?
    ensures Gather(call, scopes) == Gather(call, scopes[..k])
  {
    hide TallyFor, ReceiptFor, ResultFor;
    if k == |scopes| {
      assert scopes[..k] == scopes;
    } else {
      assert scopes[..|scopes| - 1][..k] == scopes[..k];
      FirstBadScope(call, scopes[..|scopes| - 1], k);
    }
  }

  /** The program: `build_scope_receipts_inventory`. */
  method BuildScopeReceiptsInventory(call: BuildCall) returns (r: Result<Inventory, BuildError>)
    ensures r == Build(call)
  {
    hide Gather, ResultFor, NormalizedTime, SortedSet;
    var required := RequiredScopes(call.kind);
    if required == [] { return Err(KindUnknown); }
    if call.parent == "" || call.scanId == "" || call.observedAt.None? { return Err(BindingMissing); }
    var normalizedObservedAt := NormalizedTime(call.observedAt.value);
    if normalizedObservedAt.Err? { return Err(ObservedAtRefused); }
    if exists i :: 0 <= i < |required| && ResultFor(call, required[i]).None? { return Err(ScopeMissing); }
    var gathered := GatherScopes(call, required);
    if gathered.Err? { return Err(gathered.error); }
    return Ok(Assemble(call, normalizedObservedAt.value, gathered.value));
  }

  // ------------------------------------------------- what an inventory holds

  /** The parent's own threads that a call offers for one scope. */
  function OfferedIds(call: BuildCall, scope: Scope): seq<string> {
    var result := ResultFor(call, scope);
    if result.Some? && result.value.threads.Val? then OwnIds(result.value.threads.v, call.parent, scope == ActiveFiltered) else []
  }

  function OfferedLocked(call: BuildCall, scope: Scope): seq<string> {
    var result := ResultFor(call, scope);
    if result.Some? && result.value.threads.Val? then LockedIds(result.value.threads.v, call.parent, scope == ActiveFiltered) else []
  }

  function AllOffered(call: BuildCall, scopes: seq<Scope>): seq<string> {
    if scopes == [] then [] else AllOffered(call, scopes[..|scopes| - 1]) + OfferedIds(call, scopes[|scopes| - 1])
  }

  function AllOfferedLocked(call: BuildCall, scopes: seq<Scope>): seq<string> {
    if scopes == [] then [] else AllOfferedLocked(call, scopes[..|scopes| - 1]) + OfferedLocked(call, scopes[|scopes| - 1])
  }

  predicate ScopeOffered(call: BuildCall, scope: Scope) {
    && ResultFor(call, scope).Some? && ResultFor(call, scope).value.threads.Val?
    && AllTrusted(ResultFor(call, scope).value.threads.v, call.parent, scope == ActiveFiltered)
  }

  lemma ConcatDistinct(a: seq<string>, b: seq<string>)
    ensures Distinct(a + b) <==> Distinct(a) && Distinct(b) && !Overlaps(a, b)
  {
    var c := a + b;
    if Distinct(c) {
      assert forall i :: 0 <= i < |a| ==> c[i] == a[i];
      assert forall j :: 0 <= j < |b| ==> c[|a| + j] == b[j];
    }
    if Overlaps(a, b) { OverlapRepeats(a, b); }
    if Distinct(a) && Distinct(b) && !Overlaps(a, b) {
      forall i, j | 0 <= i < j < |c| ensures c[i] != c[j] {
        if i < |a| <= j { assert a[i] in a && b[j - |a|] in b; }
      }
    }
  }

  lemma OverlapRepeats(a: seq<string>, b: seq<string>)
    requires Overlaps(a, b)
    ensures !Distinct(a + b)
  {
    var id :| id in b && id in a;
    var i :| 0 <= i < |a| && a[i] == id;
    var j :| 0 <= j < |b| && b[j] == id;
    assert (a + b)[i] == (a + b)[|a| + j];
  }

  lemma TallyForMeans(call: BuildCall, scope: Scope)
    ensures TallyFor(call, scope).Ok? <==> ScopeOffered(call, scope) && Distinct(OfferedIds(call, scope))
    ensures TallyFor(call, scope).Ok? ==>
              TallyFor(call, scope).value == Tally(OfferedIds(call, scope), OfferedLocked(call, scope))
    ensures TallyFor(call, scope).Ok? ==>
              |OfferedLocked(call, scope)| <= |OfferedIds(call, scope)| && Distinct(OfferedLocked(call, scope))
              && forall id :: id in OfferedLocked(call, scope) ==> id in OfferedIds(call, scope)
  {
    hide AllTrusted, OwnIds, LockedIds, TallyOf, Distinct, ResultFor;
    var result := ResultFor(call, scope);
    if result.Some? && result.value.threads.Val? {
      TallyMeans(result.value.threads.v, call.parent, scope == ActiveFiltered);
      LockedAreOwn(result.value.threads.v, call.parent, scope == ActiveFiltered);
    }
  }

  /** The receipt an inventory holds for a scope. */
  function EntryFor(call: BuildCall, scope: Scope): ScopeEntry {
    var result := ResultFor(call, scope);
    ScopeEntry(scope, if result.None? then Absent
                      else Val(ReceiptFor(call, scope, result.value, Tally(OfferedIds(call, scope), OfferedLocked(call, scope)))))
  }

  ghost predicate GatheredAs(call: BuildCall, scopes: seq<Scope>, g: Gathered) {
    && g.allIds == AllOffered(call, scopes) && g.lockedIds == AllOfferedLocked(call, scopes)
    && |g.entries| == |scopes| && (forall i :: 0 <= i < |scopes| ==> g.entries[i] == EntryFor(call, scopes[i]))
    && Distinct(g.lockedIds) && forall id :: id in g.lockedIds ==> id in g.allIds
  }

  lemma {:induction false} GatherMeans(call: BuildCall, scopes: seq<Scope>)
    ensures Gather(call, scopes).Ok? <==>
              (forall s :: s in scopes ==> ScopeOffered(call, s)) && Distinct(AllOffered(call, scopes))
    ensures Gather(call, scopes).Ok? ==> GatheredAs(call, scopes, Gather(call, scopes).value)
  {
    hide ScopeOffered, TallyFor, OfferedIds, OfferedLocked, Distinct, ReceiptFor, ResultFor, Overlaps, GatheredAs;
    if scopes == [] {
      assert Gather(call, scopes).Ok? && GatheredAs(call, [], Gather(call, []).value) by { NothingGathered(call); }
      NothingRepeats();
    } else {
      var n := |scopes| - 1;
      var s := scopes[n];
      GatherMeans(call, scopes[..n]);
      TallyForMeans(call, s);
      OfferedAreGiven(call);
      ConcatDistinct(AllOffered(call, scopes[..n]), OfferedIds(call, s));
      if Gather(call, scopes[..n]).Ok? {
        assert Gather(call, scopes[..n]).value.allIds == AllOffered(call, scopes[..n]) by { GatheredIds(call, scopes[..n]); }
      }
      if Gather(call, scopes).Ok? { GatheredGrows(call, scopes); }
    }
  }

  lemma NothingGathered(call: BuildCall)
    ensures Gather(call, []).Ok? && GatheredAs(call, [], Gather(call, []).value)
  {
  }

  lemma GatheredIds(call: BuildCall, scopes: seq<Scope>)
    requires Gather(call, scopes).Ok? && GatheredAs(call, scopes, Gather(call, scopes).value)
    ensures Gather(call, scopes).value.allIds == AllOffered(call, scopes)
  {
    hide Gather, AllOffered;
  }

  /** One turn of the outer loop. */
  lemma GatherStep(call: BuildCall, scopes: seq<Scope>)
    requires scopes != [] && Gather(call, scopes).Ok?
    ensures var s, before := scopes[|scopes| - 1], Gather(call, scopes[..|scopes| - 1]);
            && before.Ok? && TallyFor(call, s).Ok? && !Overlaps(before.value.allIds, OfferedIds(call, s))
            && Gather(call, scopes).value
               == Gathered(before.value.entries + [EntryFor(call, s)],
                           before.value.allIds + OfferedIds(call, s), before.value.lockedIds + OfferedLocked(call, s))
  {
    hide TallyFor, OfferedIds, OfferedLocked, ReceiptFor, ResultFor, Overlaps, Distinct, ScopeOffered;
    TallyForMeans(call, scopes[|scopes| - 1]);
  }

  lemma GatheredGrows(call: BuildCall, scopes: seq<Scope>)
    requires scopes != [] && Gather(call, scopes).Ok?
    requires Gather(call, scopes[..|scopes| - 1]).Ok?
    requires GatheredAs(call, scopes[..|scopes| - 1], Gather(call, scopes[..|scopes| - 1]).value)
    ensures GatheredAs(call, scopes, Gather(call, scopes).value)
  {
    hide ScopeOffered, TallyFor, OfferedIds, OfferedLocked, Distinct, EntryFor, Overlaps, Gather;
    var n := |scopes| - 1;
    var s := scopes[n];
    GatherStep(call, scopes);
    var before := Gather(call, scopes[..n]).value;
    TallyForMeans(call, s);
    ConcatDistinct(before.lockedIds, OfferedLocked(call, s));
    LockedDoNotOverlap(before.allIds, OfferedIds(call, s), before.lockedIds, OfferedLocked(call, s));
  }

  lemma LockedDoNotOverlap(a: seq<string>, b: seq<string>, a': seq<string>, b': seq<string>)
    requires (forall id :: id in a' ==> id in a) && (forall id :: id in b' ==> id in b)
    ensures !Overlaps(a, b) ==> !Overlaps(a', b')
  {
  }

  /** Exactly which calls yield an inventory. */
  ghost predicate Buildable(call: BuildCall) {
    && RequiredScopes(call.kind) != [] && call.parent != "" && call.scanId != ""
    && call.observedAt.Some? && NormalizedTime(call.observedAt.value).Ok?
    && (forall s :: s in RequiredScopes(call.kind) ==> ScopeOffered(call, s))
    && Distinct(AllOffered(call, RequiredScopes(call.kind)))
  }

  function LockedTotal(entries: seq<ScopeEntry>): int {
    if entries == [] then 0
    else
      var r := entries[|entries| - 1].receipt;
      LockedTotal(entries[..|entries| - 1]) + if r.Val? && r.v.lockedCount.Val? then r.v.lockedCount.v else 0
  }

  lemma {:induction false} EntriesTotals(call: BuildCall, scopes: seq<Scope>, entries: seq<ScopeEntry>)
    requires |entries| == |scopes| && forall i :: 0 <= i < |scopes| ==> entries[i] == EntryFor(call, scopes[i]) && ResultFor(call, scopes[i]).Some?
    ensures AllSubmitted(entries) == AllOffered(call, scopes)
    ensures LockedTotal(entries) == |AllOfferedLocked(call, scopes)|
  {
    hide OfferedIds, OfferedLocked, ResultFor;
    if scopes != [] {
      var n := |scopes| - 1;
      EntriesTotals(call, scopes[..n], entries[..n]);
    }
  }

  /**
   * An inventory is built exactly from well-formed, duplicate-free offers; its threads are
   * those offered, each in one scope only, and both totals are sums over the scopes.
   */
  lemma InventoryExact(call: BuildCall)
    ensures Build(call).Ok? <==> Buildable(call)
    ensures Build(call).Ok? ==>
              var inv := Build(call).value;
              && inv.entries == seq(|RequiredScopes(call.kind)|, i requires 0 <= i < |RequiredScopes(call.kind)| => EntryFor(call, RequiredScopes(call.kind)[i]))
              && AllSubmitted(inv.entries) == AllOffered(call, RequiredScopes(call.kind))
              && Distinct(AllSubmitted(inv.entries))
              && Ascending(inv.threadIds) && Elements(inv.threadIds) == Elements(AllSubmitted(inv.entries))
              && |inv.threadIds| == |AllSubmitted(inv.entries)|
              && inv.lockedCount == LockedTotal(inv.entries)
  {
    hide ScopeOffered, Distinct, NormalizedTime, EntryFor, SortedSet;
    hide AllOffered, AllOfferedLocked, Gather, RequiredScopes, AllReadToTheEnd, Ascending;
    var scopes := RequiredScopes(call.kind);
    GatherMeans(call, scopes);
    OfferedAreGiven(call);
    if Build(call).Ok? {
      var g := Gather(call, scopes).value;
      EntriesTotals(call, scopes, g.entries);
      DistinctIffCardinality(g.lockedIds);
      SortedIdsCount(g.allIds);
    }
  }

  lemma {:induction false} ReachedAt(entries: seq<ScopeEntry>, i: nat, absent: bool)
    requires i < |entries| && forall j :: i < j < |entries| ==> entries[j].scope != entries[i].scope
    ensures ReachedEnd(entries, entries[i].scope, absent) == (entries[i].receipt.Val? && entries[i].receipt.v.terminalReached == Val(true))
  {
    var n := |entries| - 1;
    if i < n { ReachedAt(entries[..n], i, absent); }
  }

  lemma {:induction false} ReachedNowhere(entries: seq<ScopeEntry>, scope: Scope, absent: bool)
    requires forall i :: 0 <= i < |entries| ==> entries[i].scope != scope
    ensures ReachedEnd(entries, scope, absent) == absent
  {
    if entries != [] { ReachedNowhere(entries[..|entries| - 1], scope, absent); }
  }

  lemma EntrySays(call: BuildCall, scope: Scope)
    requires ResultFor(call, scope).Some?
    ensures EntryFor(call, scope).scope == scope && EntryFor(call, scope).receipt.Val?
    ensures EntryFor(call, scope).receipt.v.terminalReached == Val(ResultFor(call, scope).value.terminalReached)
  {
    hide OfferedIds, OfferedLocked, ResultFor;
  }

  /** The flag of a required scope, and of one that is not required. */
  lemma FlagOf(call: BuildCall, scopes: seq<Scope>, entries: seq<ScopeEntry>, scope: Scope, absent: bool)
    requires forall i, j :: 0 <= i < j < |scopes| ==> scopes[i] != scopes[j]
    requires |entries| == |scopes| && forall i :: 0 <= i < |scopes| ==> entries[i] == EntryFor(call, scopes[i]) && ResultFor(call, scopes[i]).Some?
    ensures scope in scopes ==> ResultFor(call, scope).Some? && ReachedEnd(entries, scope, absent) == ResultFor(call, scope).value.terminalReached
    ensures scope !in scopes ==> ReachedEnd(entries, scope, absent) == absent
  {
    hide EntryFor, ResultFor, ReachedEnd;
    forall i | 0 <= i < |scopes| ensures entries[i].scope == scopes[i] { EntrySays(call, scopes[i]); }
    if scope in scopes {
      var i :| 0 <= i < |scopes| && scopes[i] == scope;
      ReachedAt(entries, i, absent);
      EntrySays(call, scope);
    } else {
      ReachedNowhere(entries, scope, absent);
    }
  }

  lemma AllReadIs(call: BuildCall, scopes: seq<Scope>, entries: seq<ScopeEntry>)
    requires |entries| == |scopes| && forall i :: 0 <= i < |scopes| ==> entries[i] == EntryFor(call, scopes[i]) && ResultFor(call, scopes[i]).Some?
    ensures AllReadToTheEnd(entries) <==> forall s :: s in scopes ==> ResultFor(call, s).Some? && ResultFor(call, s).value.terminalReached
  {
    hide EntryFor, ResultFor;
    forall i | 0 <= i < |scopes|
      ensures scopes[i] in scopes
      ensures entries[i].receipt.Val? && entries[i].receipt.v.terminalReached == Val(ResultFor(call, scopes[i]).value.terminalReached)
    {
      EntrySays(call, scopes[i]);
    }
  }

  /** The flags repeat what the enumerations said; the inventory is exhausted when all do and a text channel was authorised. */
  lemma InventoryFlags(call: BuildCall)
    requires Build(call).Ok?
    ensures ResultFor(call, ArchivedPublic).Some? && (call.kind == TextChannel ==> ResultFor(call, ArchivedPrivate).Some?)
    ensures var inv, private := Build(call).value, ResultFor(call, ArchivedPrivate);
            && inv.scopes == ScopeFlags(call.active.terminalReached, ResultFor(call, ArchivedPublic).value.terminalReached,
                                        call.kind == TextChannel ==> private.value.terminalReached)
            && (inv.paginationExhausted <==>
                  inv.scopes == ScopeFlags(true, true, true) && (call.kind == TextChannel ==> call.confirmed))
  {
    hide ScopeOffered, Distinct, NormalizedTime, EntryFor, SortedSet;
    hide AllOffered, AllOfferedLocked, Gather, AllReadToTheEnd, ReachedEnd, ArchivedFor;
    var scopes := RequiredScopes(call.kind);
    GatherMeans(call, scopes);
    OfferedAreGiven(call);
    var g := Gather(call, scopes).value;
    assert forall s :: s in scopes <==> s == ActiveFiltered || s == ArchivedPublic || (s == ArchivedPrivate && call.kind == TextChannel);
    assert ResultFor(call, ActiveFiltered) == Some(call.active);
    FlagOf(call, scopes, g.entries, ActiveFiltered, false);
    FlagOf(call, scopes, g.entries, ArchivedPublic, false);
    FlagOf(call, scopes, g.entries, ArchivedPrivate, true);
    AllReadIs(call, scopes, g.entries);
  }

  lemma OfferedAreGiven(call: BuildCall)
    ensures forall s :: ScopeOffered(call, s) ==> ResultFor(call, s).Some?
  {
  }

  lemma SortedIdsCount(ids: seq<string>)
    requires Distinct(ids)
    ensures |SortedSet(ids)| == |ids| && Elements(SortedSet(ids)) == Elements(ids)
  {
    hide SortedSet;
    var sorted := SortedSet(ids);
    assert Elements(sorted) == Elements(ids);
    forall i, j | 0 <= i < j < |sorted| ensures sorted[i] != sorted[j] {
      LessIrreflexive(sorted[i]);
    }
    DistinctIffCardinality(ids);
    DistinctIffCardinality(sorted);
  }
}
