/**
 * Inventories, field by field: which thread objects are accepted for a parent, which of them
 * count as its threads and as locked, and what the receipt of a scope then says.
 */
module InventoryFields {
  import opened Text
  import opened Times
  import opened Receipts
  import opened ArchiveInventory
  import opened ScopeInventory

  // ------------------------------------------------- one thread object

  predicate Identified(thread: Thread) {
    thread.id.Val? && thread.id.v != ""
  }

  predicate LockKnown(thread: Thread) {
    thread.metadata.Val? && thread.metadata.v.locked.Val?
  }

  predicate IsLocked(thread: Thread) {
    thread.metadata.Val? && thread.metadata.v.locked == Val(true)
  }

  /** An active thread of the guild: any parent goes, but an own thread says whether it is locked. */
  predicate ActiveSound(thread: Thread, parent: string) {
    Identified(thread) && (thread.parentId == Val(parent) ==> LockKnown(thread))
  }

  /** A thread of the parent's own archive: it names the parent or none, and says whether it is locked. */
  predicate ArchivedSound(thread: Thread, parent: string) {
    Identified(thread) && thread.parentId in {Absent, Null, Val(parent)} && LockKnown(thread)
  }

  predicate ItemSound(item: Item, parent: string, active: bool) {
    item.Some? && if active then ActiveSound(item.value, parent) else ArchivedSound(item.value, parent)
  }

  /** Whether the item is a thread of the parent: of the guild's threads those that name it, of its archive all. */
  predicate IsOwn(item: Item, parent: string, active: bool) {
    item.Some? && (active ==> item.value.parentId == Val(parent))
  }

  /** The ids of the parent's threads, in order. */
  function IdsOf(items: seq<Item>, parent: string, active: bool): seq<string> {
    if items == [] then []
    else
      var last := items[|items| - 1];
      IdsOf(items[..|items| - 1], parent, active)
      + if IsOwn(last, parent, active) && last.value.id.Val? then [last.value.id.v] else []
  }

  function LockedOf(items: seq<Item>, parent: string, active: bool): nat {
    if items == [] then 0
    else
      var last := items[|items| - 1];
      LockedOf(items[..|items| - 1], parent, active) + if IsOwn(last, parent, active) && IsLocked(last.value) then 1 else 0
  }

  lemma TrustedIsSound(item: Item, parent: string, active: bool)
    ensures item.Some? && TrustedFields(item.value, parent, active).Ok? <==> ItemSound(item, parent, active)
    ensures ItemSound(item, parent, active) ==>
              TrustedFields(item.value, parent, active).value
              == if IsOwn(item, parent, active) then Own(item.value.id.v, IsLocked(item.value)) else Foreign
  {
  }

  lemma AllTrustedIsSound(items: seq<Item>, parent: string, active: bool)
    ensures AllTrusted(items, parent, active) <==> forall i :: 0 <= i < |items| ==> ItemSound(items[i], parent, active)
  {
    hide TrustedFields, ItemSound;
    forall i | 0 <= i < |items| { TrustedIsSound(items[i], parent, active); }
  }

  lemma {:induction false} SoundIds(items: seq<Item>, parent: string, active: bool)
    requires forall i :: 0 <= i < |items| ==> ItemSound(items[i], parent, active)
    ensures OwnIds(items, parent, active) == IdsOf(items, parent, active)
    ensures |LockedIds(items, parent, active)| == LockedOf(items, parent, active)
  {
    hide TrustedFields, ItemSound;
    if items != [] {
      var n := |items| - 1;
      SoundIds(items[..n], parent, active);
      TrustedIsSound(items[n], parent, active);
      SoundHasId(items[n], parent, active);
    }
  }

  lemma SoundHasId(item: Item, parent: string, active: bool)
    requires ItemSound(item, parent, active)
    ensures item.value.id.Val?
  {
  }

  // ------------------------------------------------- the filtered guild list

  /** The items that name the parent, in order. */
  function Naming(items: seq<Item>, parent: string): seq<Item> {
    if items == [] then []
    else Naming(items[..|items| - 1], parent) + if IsOwn(items[|items| - 1], parent, true) then [items[|items| - 1]] else []
  }

  lemma {:induction false} ActiveItemsAre(items: seq<Item>, parent: string)
    ensures ActiveItems(items, parent).Ok? <==> forall i :: 0 <= i < |items| ==> ItemSound(items[i], parent, true)
    ensures ActiveItems(items, parent).Ok? ==> ActiveItems(items, parent).value == Naming(items, parent)
  {
    hide TrustedFields, ItemSound, IsOwn;
    if items != [] {
      var n := |items| - 1;
      ActiveItemsAre(items[..n], parent);
      TrustedIsSound(items[n], parent, true);
      assert Naming(items[..n], parent) + [] == Naming(items[..n], parent);
    }
  }

  /** The filter takes a list of sound threads and keeps those that name the parent; the rest is counted. */
  lemma FilterByFields(threads: Raw<seq<Item>>, parent: string)
    ensures ActiveResult(threads, parent).Ok? <==>
              threads.Val? && forall i :: 0 <= i < |threads.v| ==> ItemSound(threads.v[i], parent, true)
    ensures ActiveResult(threads, parent).Ok? ==>
              ActiveResult(threads, parent).value
              == (ScopeResult(Val(Naming(threads.v, parent)), 1, true, Null), |threads.v| - |Naming(threads.v, parent)|)
  {
    hide ActiveItems, ItemSound, Naming;
    if threads.Val? { ActiveItemsAre(threads.v, parent); }
  }

  // ------------------------------------------------- a whole inventory

  predicate ScopeSound(call: BuildCall, scope: Scope, result: Option<ScopeResult>) {
    && result.Some? && result.value.threads.Val?
    && forall i :: 0 <= i < |result.value.threads.v| ==> ItemSound(result.value.threads.v[i], call.parent, scope == ActiveFiltered)
  }

  function IdsIn(call: BuildCall, scope: Scope): seq<string> {
    var result := ResultFor(call, scope);
    if result.Some? && result.value.threads.Val? then IdsOf(result.value.threads.v, call.parent, scope == ActiveFiltered) else []
  }

  lemma OfferedIsSound(call: BuildCall, scope: Scope)
    ensures ScopeOffered(call, scope) <==> ScopeSound(call, scope, ResultFor(call, scope))
    ensures ScopeOffered(call, scope) ==> OfferedIds(call, scope) == IdsIn(call, scope)
    ensures ScopeOffered(call, scope) ==>
              |OfferedLocked(call, scope)| == LockedOf(ResultFor(call, scope).value.threads.v, call.parent, scope == ActiveFiltered)
  {
    hide ItemSound, AllTrusted, OwnIds, LockedIds, IdsOf, LockedOf, ResultFor;
    var result := ResultFor(call, scope);
    if result.Some? && result.value.threads.Val? {
      AllTrustedIsSound(result.value.threads.v, call.parent, scope == ActiveFiltered);
      if AllTrusted(result.value.threads.v, call.parent, scope == ActiveFiltered) {
        SoundIds(result.value.threads.v, call.parent, scope == ActiveFiltered);
      }
    }
  }

  /** The ids of several scopes, one list behind the other. */
  function AllIds(call: BuildCall, scopes: seq<Scope>): seq<string> {
    if scopes == [] then [] else AllIds(call, scopes[..|scopes| - 1]) + IdsIn(call, scopes[|scopes| - 1])
  }

  lemma {:induction false} AllIdsAre(call: BuildCall, scopes: seq<Scope>)
    requires forall s :: s in scopes ==> ScopeOffered(call, s)
    ensures AllOffered(call, scopes) == AllIds(call, scopes)
  {
    hide ScopeOffered, OfferedIds, IdsIn;
    if scopes != [] {
      AllIdsAre(call, scopes[..|scopes| - 1]);
      OfferedIsSound(call, scopes[|scopes| - 1]);
    }
  }

  /** The scopes a parent kind is inventoried in. */
  function ScopesOf(kind: Kind): seq<Scope> {
    if kind.OtherKind? then []
    else [ActiveFiltered, ArchivedPublic] + if kind.TextChannel? then [ArchivedPrivate] else []
  }

  /** The last result given for the scope. */
  predicate GivenFor(call: BuildCall, scope: Scope, result: Option<ScopeResult>) {
    match scope
    case ActiveFiltered => result == Some(call.active)
    case ArchivedPublic => LastGiven(call.archived, Public, result)
    case ArchivedPrivate => LastGiven(call.archived, Private, result)
    case OtherScope(_) => result == None
  }

  predicate LastGiven(archived: seq<(ArchiveScope, ScopeResult)>, scope: ArchiveScope, result: Option<ScopeResult>) {
    match result
    case None => forall i :: 0 <= i < |archived| ==> archived[i].0 != scope
    case Some(given) =>
      exists i :: 0 <= i < |archived| && archived[i] == (scope, given) && forall j :: i < j < |archived| ==> archived[j].0 != scope
  }

  lemma {:induction false} ArchivedForIs(archived: seq<(ArchiveScope, ScopeResult)>, scope: ArchiveScope)
    ensures LastGiven(archived, scope, ArchivedFor(archived, scope))
  {
    if archived != [] {
      var n := |archived| - 1;
      if archived[n].0 == scope {
        assert archived[n] == (scope, ArchivedFor(archived, scope).value);
      } else {
        ArchivedForIs(archived[..n], scope);
        var r := ArchivedFor(archived[..n], scope);
        if r.Some? {
          var i :| 0 <= i < n && archived[..n][i] == (scope, r.value) && forall j :: i < j < n ==> archived[..n][j].0 != scope;
          assert archived[i] == (scope, r.value);
          assert forall j :: i < j < n ==> archived[j] == archived[..n][j];
        } else {
          assert forall j :: 0 <= j < n ==> archived[j] == archived[..n][j];
        }
      }
    }
  }

  lemma GivenIs(call: BuildCall, scope: Scope)
    ensures GivenFor(call, scope, ResultFor(call, scope))
  {
    hide ArchivedFor, LastGiven;
    ArchivedForIs(call.archived, Public);
    ArchivedForIs(call.archived, Private);
  }

  /** Exactly which calls yield an inventory, on the fields of what was fetched. */
  lemma BuildByFields(call: BuildCall)
    ensures Build(call).Ok? <==>
              && !call.kind.OtherKind? && call.parent != "" && call.scanId != ""
              && call.observedAt.Some? && NormalizedTime(call.observedAt.value).Ok?
              && (forall s :: s in ScopesOf(call.kind) ==> ScopeSound(call, s, ResultFor(call, s)))
              && Distinct(AllIds(call, ScopesOf(call.kind)))
    ensures forall s :: GivenFor(call, s, ResultFor(call, s))
  {
    hide Build, ScopeOffered, ScopeSound, AllIds, AllOffered, NormalizedTime, Distinct, ResultFor, GivenFor;
    InventoryExact(call);
    assert ScopesOf(call.kind) == RequiredScopes(call.kind);
    assert RequiredScopes(call.kind) == [] <==> call.kind.OtherKind?;
    forall s ensures ScopeOffered(call, s) <==> ScopeSound(call, s, ResultFor(call, s)) { OfferedIsSound(call, s); }
    if forall s :: s in RequiredScopes(call.kind) ==> ScopeOffered(call, s) { AllIdsAre(call, RequiredScopes(call.kind)); }
    forall s ensures GivenFor(call, s, ResultFor(call, s)) { GivenIs(call, s); }
  }

  /** The receipt of a scope, field by field. */
  function ReceiptOf(call: BuildCall, scope: Scope, result: ScopeResult): RawReceipt {
    var items := if result.threads.Val? then result.threads.v else [];
    RawReceipt(
      Val(RouteOf(scope)), Val(call.parent), Val(scope == ActiveFiltered),
      Val(result.pages), Val(result.terminalReached), if result.terminalCursor == Absent then Null else result.terminalCursor,
      Val(IdsOf(items, call.parent, scope == ActiveFiltered)), Val(LockedOf(items, call.parent, scope == ActiveFiltered)),
      if scope == ArchivedPrivate then Val(RawAuthorization(Val(ManageThreads), Val(call.confirmed))) else Absent)
  }

  function LockedIn(call: BuildCall, scopes: seq<Scope>): nat {
    if scopes == [] then 0
    else
      var scope := scopes[|scopes| - 1];
      var result := ResultFor(call, scope);
      LockedIn(call, scopes[..|scopes| - 1])
      + if result.Some? && result.value.threads.Val? then LockedOf(result.value.threads.v, call.parent, scope == ActiveFiltered) else 0
  }

  lemma EntryByFields(call: BuildCall, scope: Scope)
    requires ScopeOffered(call, scope)
    ensures ResultFor(call, scope).Some?
    ensures EntryFor(call, scope) == ScopeEntry(scope, Val(ReceiptOf(call, scope, ResultFor(call, scope).value)))
  {
    hide OfferedIds, OfferedLocked, ResultFor, IdsOf, LockedOf, AllTrusted;
    OfferedIsSound(call, scope);
  }

  lemma {:induction false} LockedTotalIs(call: BuildCall, scopes: seq<Scope>, entries: seq<ScopeEntry>)
    requires |entries| == |scopes| && forall i :: 0 <= i < |scopes| ==> entries[i] == EntryFor(call, scopes[i]) && ScopeOffered(call, scopes[i])
    ensures LockedTotal(entries) == LockedIn(call, scopes)
  {
    hide EntryFor, ScopeOffered, ResultFor, LockedOf;
    if scopes != [] {
      var n := |scopes| - 1;
      LockedTotalIs(call, scopes[..n], entries[..n]);
      EntryByFields(call, scopes[n]);
      ReceiptCounts(call, scopes[n]);
    }
  }

  lemma ReceiptCounts(call: BuildCall, scope: Scope)
    requires ScopeOffered(call, scope)
    ensures var result := ResultFor(call, scope);
            && result.Some? && result.value.threads.Val?
            && ReceiptOf(call, scope, result.value).lockedCount == Val(LockedOf(result.value.threads.v, call.parent, scope == ActiveFiltered))
  {
    hide ResultFor, LockedOf, AllTrusted;
  }

  /** What an inventory says: bindings, time, one receipt per scope, all ids once and sorted, and the locked ones counted. */
  lemma InventoryByFields(call: BuildCall)
    requires Build(call).Ok?
    ensures var inv, scopes := Build(call).value, ScopesOf(call.kind);
            && inv.parent == call.parent && inv.kind == call.kind && inv.scanId == call.scanId
            && Ok(inv.observedAt) == NormalizedTime(call.observedAt.value)
            && |inv.entries| == |scopes|
            && (forall i :: 0 <= i < |scopes| ==>
                  ResultFor(call, scopes[i]).Some?
                  && inv.entries[i] == ScopeEntry(scopes[i], Val(ReceiptOf(call, scopes[i], ResultFor(call, scopes[i]).value))))
            && Ascending(inv.threadIds) && Elements(inv.threadIds) == Elements(AllIds(call, scopes))
            && inv.lockedCount == LockedIn(call, scopes)
  {
    hide ScopeOffered, AllIds, AllOffered, NormalizedTime, Distinct, ResultFor, EntryFor, ReceiptOf, LockedTotal, LockedIn, Ascending, Build, AllSubmitted;
    InventoryExact(call);
    var scopes := RequiredScopes(call.kind);
    assert ScopesOf(call.kind) == scopes;
    AllIdsAre(call, scopes);
    forall i | 0 <= i < |scopes|
      ensures ResultFor(call, scopes[i]).Some?
      ensures EntryFor(call, scopes[i]) == ScopeEntry(scopes[i], Val(ReceiptOf(call, scopes[i], ResultFor(call, scopes[i]).value)))
    {
      EntryByFields(call, scopes[i]);
    }
    LockedTotalIs(call, scopes, Build(call).value.entries);
    InventoryBindings(call);
  }

  lemma InventoryBindings(call: BuildCall)
    requires Build(call).Ok?
    ensures var inv := Build(call).value;
            && inv.parent == call.parent && inv.kind == call.kind && inv.scanId == call.scanId
            && call.observedAt.Some? && Ok(inv.observedAt) == NormalizedTime(call.observedAt.value)
  {
    hide Gather, NormalizedTime, SortedSet, AllReadToTheEnd, ReachedEnd;
  }

  /** A thread that names another parent stops the inventory of its archive. */
  lemma ForeignThreadIsRefused(call: BuildCall, scope: Scope, thread: Thread, other: string)
    requires scope in ScopesOf(call.kind) && scope != ActiveFiltered && thread.parentId == Val(other) && other != call.parent
    requires ResultFor(call, scope).Some? && ResultFor(call, scope).value.threads.Val? && Some(thread) in ResultFor(call, scope).value.threads.v
    ensures Build(call).Err?
  {
    hide Build, ResultFor, AllIds, NormalizedTime, Distinct, GivenFor;
    BuildByFields(call);
    var items := ResultFor(call, scope).value.threads.v;
    var i :| 0 <= i < |items| && items[i] == Some(thread);
    assert !ItemSound(items[i], call.parent, scope == ActiveFiltered);
  }
}
