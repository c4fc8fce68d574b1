/**
 * Producer meets consumer: what `build_scope_receipts_inventory` produces is what
 * `record_inventory_scan` accepts, and two exhausted inventories of an unchanged
 * server make the audit stable.
 */
module InventoryFit {
  import opened Text
  import opened Framing
  import opened Times
  import opened Receipts
  import opened ArchiveInventory
  import opened ScopeInventory
  import opened InventoryFields
  import opened CompletenessTables
  import opened StoreRuns
  import opened AuditLog

  // ------------------------------------------------- the hand-over

  lemma EntriesHaveScopes(call: BuildCall)
    requires Build(call).Ok?
    ensures |Build(call).value.entries| == |RequiredScopes(call.kind)|
    ensures forall i :: 0 <= i < |RequiredScopes(call.kind)| ==>
              Build(call).value.entries[i] == EntryFor(call, RequiredScopes(call.kind)[i])
    ensures DistinctScopes(Build(call).value.entries)
  {
    hide Build, Buildable, EntryFor, AllOffered;
    InventoryExact(call);
    RequiredAreDistinct(call.kind);
    forall i | 0 <= i < |RequiredScopes(call.kind)|
      ensures Build(call).value.entries[i].scope == RequiredScopes(call.kind)[i]
    {
      EntryScope(call, RequiredScopes(call.kind)[i]);
    }
  }

  lemma EntryScope(call: BuildCall, scope: Scope)
    ensures EntryFor(call, scope).scope == scope
  {
  }

  /** The time that the text of an inventory stands for. */
  function Renormalized(p: ObservedTime): ObservedTime {
    if p.Aware? && FromMicros(Instant(p)).Some? then Aware(FromMicros(Instant(p)).value, 0) else p
  }

  function EntriesOf(call: BuildCall): ScopeEntries {
    if Build(call).Ok? then EntriesHaveScopes(call); Build(call).value.entries else []
  }

  /** The inventory file, handed to `record_inventory_scan`. */
  function Recorded(call: BuildCall): ScanCall {
    ScanCall(call.parent, call.scanId, Renormalized(if call.observedAt.Some? then call.observedAt.value else Unparsable),
             [], Absent, Absent, Some(call.kind), Val(EntriesOf(call)))
  }

  lemma RenormalizedText(p: ObservedTime)
    ensures NormalizedTime(p).Ok? ==> NormalizedTime(Renormalized(p)) == NormalizedTime(p)
  {
    hide IsoText, FromMicros, Instant;
    if NormalizedTime(p).Ok? { NormalizeTwice(p); }
  }

  /** What the store asks of a call beyond what the producer itself checks. */
  predicate Recordable(call: BuildCall) {
    && !Blank(call.parent) && !Blank(call.scanId)
    && forall s :: s in RequiredScopes(call.kind) && ResultFor(call, s).Some? ==>
         && ResultFor(call, s).value.pages >= 1 && !ResultFor(call, s).value.terminalCursor.Mistyped?
         && forall id :: id in OfferedIds(call, s) ==> !Blank(id)
  }

  lemma EntryAcceptable(call: BuildCall, scope: Scope)
    requires ScopeOffered(call, scope) && Distinct(OfferedIds(call, scope)) && scope in RequiredScopes(call.kind)
    ensures Acceptable(call.parent, EntryFor(call, scope)) <==>
              && ResultFor(call, scope).value.pages >= 1 && !ResultFor(call, scope).value.terminalCursor.Mistyped?
              && forall id :: id in OfferedIds(call, scope) ==> !Blank(id)
  {
    hide OfferedIds, OfferedLocked, ResultFor, Distinct, Blank, ScopeOffered;
    TallyForMeans(call, scope);
    assert ResultFor(call, scope).Some? by { OfferedAreGiven(call); }
  }

  lemma {:induction false} PartsDistinct(call: BuildCall, scopes: seq<Scope>)
    requires Distinct(AllOffered(call, scopes))
    ensures forall s :: s in scopes ==> Distinct(OfferedIds(call, s))
  {
    hide OfferedIds, Distinct;
    if scopes != [] {
      var n := |scopes| - 1;
      ConcatDistinct(AllOffered(call, scopes[..n]), OfferedIds(call, scopes[n]));
      PartsDistinct(call, scopes[..n]);
    }
  }

  lemma EntriesSubmittable(call: BuildCall)
    requires Build(call).Ok? && !Blank(call.parent) && !Blank(call.scanId)
    ensures Submittable(call.parent, call.kind, EntriesOf(call)) <==> Recordable(call)
  {
    hide Build, Distinct, AllOffered, OfferedIds, ScopeOffered, ResultFor;
    hide EntryFor, Acceptable, RequiredScopes, AllSubmitted, LockedTotal, NormalizedTime;
    InventoryExact(call);
    EntriesHaveScopes(call);
    OfferedAreGiven(call);
    var scopes, entries := RequiredScopes(call.kind), EntriesOf(call);
    PartsDistinct(call, scopes);
    forall i | 0 <= i < |scopes|
      ensures entries[i].scope == scopes[i] && ScopeOffered(call, scopes[i])
      ensures Acceptable(call.parent, entries[i]) <==>
                ResultFor(call, scopes[i]).value.pages >= 1 && !ResultFor(call, scopes[i]).value.terminalCursor.Mistyped?
                && forall id :: id in OfferedIds(call, scopes[i]) ==> !Blank(id)
    {
      assert scopes[i] in scopes;
      EntryScope(call, scopes[i]);
      EntryAcceptable(call, scopes[i]);
    }
  }

  /**
   * Every inventory the producer builds is accepted by the store, and recorded with the
   * inventory's own totals, unless an id is blank, a page count is below one, a cursor is no
   * text, or the scan id is taken; and then it is refused.
   */
  lemma ProducerFitsConsumer(sha: string -> string, db: Tables, call: BuildCall)
    requires Sha256Hex(sha) && Build(call).Ok?
    ensures RecordScan(sha, db, Recorded(call)).Ok? <==> Recordable(call) && !ScanIdTaken(db.scans, call.parent, call.scanId)
    ensures RecordScan(sha, db, Recorded(call)).Ok? ==>
              var inv, row := Build(call).value, RowOf(sha, Recorded(call));
              && RecordScan(sha, db, Recorded(call)).value.scans == db.scans + [row]
              && row.observedAt == inv.observedAt && row.threadCount == |inv.threadIds|
              && row.threadSetDigest == DigestIds(sha, inv.threadIds)
              && row.kind == Some(inv.kind)
  {
    hide Build, Recordable, NormalizeReceipts, Submittable, DigestIds, NormalizedTime, Blank;
    hide Distinct, ScopeByThread, LockedTotal, AllSubmitted, EntriesOf, Renormalized, AllOffered;
    InventoryExact(call);
    InventoryTime(call);
    RecordedNotBlank(call);
    if !Blank(call.parent) && !Blank(call.scanId) {
      EntriesSubmittable(call);
      NormalizationAccepts(sha, call.parent, call.kind, EntriesOf(call));
      assert EntriesOf(call) == Build(call).value.entries by { EntriesAre(call); }
      if NormalizeReceipts(sha, call.parent, call.kind, EntriesOf(call)).Ok? {
        NormalizationKeeps(sha, call.parent, call.kind, EntriesOf(call));
        SameDigest(sha, Build(call).value.threadIds, AllSubmitted(EntriesOf(call)));
      }
    }
  }

  lemma EntriesAre(call: BuildCall)
    requires Build(call).Ok?
    ensures EntriesOf(call) == Build(call).value.entries
  {
  }

  lemma RecordedNotBlank(call: BuildCall)
    ensures Recordable(call) ==> !Blank(call.parent) && !Blank(call.scanId)
  {
  }

  lemma InventoryTime(call: BuildCall)
    requires Build(call).Ok?
    ensures NormalizedTime(Recorded(call).observedAt) == Ok(Build(call).value.observedAt)
    ensures Build(call).value.kind == call.kind
  {
    hide Gather, NormalizedTime, Renormalized, SortedSet, AllReadToTheEnd;
    RenormalizedText(call.observedAt.value);
  }

  lemma SameDigest(sha: string -> string, xs: seq<string>, ys: seq<string>)
    requires Elements(xs) == Elements(ys)
    ensures DigestIds(sha, xs) == DigestIds(sha, ys)
  {
    hide IdsText;
    IdsTextIsSet(xs, ys);
  }

  // ------------------------------------------------- an unchanged server

  /** What a server holds: the active threads of the guild and the two archives of the parent, newest first. */
  datatype Host = Host(guild: seq<Item>, publicArchive: seq<Thread>, privateArchive: seq<Thread>)

  /** One inventory of the parent: its own page sizes and page limits. */
  datatype Tour = Tour(
    scanId: string, observedAt: ObservedTime,
    publicSize: nat, publicPages: nat, privateSize: nat, privatePages: nat, confirmed: bool)

  function AsItems(threads: seq<Thread>): seq<Item> {
    seq(|threads|, i requires 0 <= i < |threads| => Some(threads[i]))
  }

  /** An enumeration, handed to the receipt builder. */
  function Handed(r: Result<Listing, ArchiveError>): ScopeResult {
    match r
    case Err(_) => ScopeResult(Absent, 0, false, Absent)
    case Ok(l) => ScopeResult(Val(AsItems(l.threads)), l.pages, l.terminalReached,
                              if l.terminalCursor.Some? then Val(l.terminalCursor.value) else Null)
  }

  /** The filtered guild list, handed to the receipt builder. */
  function HandedThreads(r: Result<(ScopeResult, nat), BuildError>): ScopeResult {
    match r
    case Err(_) => ScopeResult(Absent, 0, false, Absent)
    case Ok(filtered) => filtered.0
  }

  function HandedActive(host: Host, parent: string): ScopeResult {
    HandedThreads(ActiveResult(Val(host.guild), parent))
  }

  function Inventoried(host: Host, parent: string, kind: Kind, tour: Tour): BuildCall {
    BuildCall(parent, kind, tour.scanId, Some(tour.observedAt), HandedActive(host, parent),
              [(Public, Handed(Enumerate(Public, Server(Public, host.publicArchive, tour.publicSize), tour.publicPages))),
               (Private, Handed(Enumerate(Private, Server(Private, host.privateArchive, tour.privateSize), tour.privatePages)))],
              tour.confirmed)
  }

  /** The page limits let every archive be read to its end, and the private archive was authorised. */
  ghost predicate Exhaustive(host: Host, kind: Kind, tour: Tour) {
    && Listable(Public, host.publicArchive) && Listable(Private, host.privateArchive)
    && tour.publicSize >= 1 && tour.privateSize >= 1
    && tour.publicPages >= PagesNeeded(|host.publicArchive|, tour.publicSize)
    && tour.privatePages >= PagesNeeded(|host.privateArchive|, tour.privateSize)
    && (kind == TextChannel ==> tour.confirmed)
  }

  /** The parent's threads on the server, by scope: no tour in sight. */
  function HostIds(host: Host, parent: string, scope: Scope): seq<string> {
    match scope
    case ActiveFiltered => IdsOf(host.guild, parent, true)
    case ArchivedPublic => IdsOf(AsItems(host.publicArchive), parent, false)
    case ArchivedPrivate => IdsOf(AsItems(host.privateArchive), parent, false)
    case OtherScope(_) => []
  }

  lemma HandedWhole(scope: ArchiveScope, all: seq<Thread>, size: nat, maxPages: nat)
    requires !scope.UnknownScope? && Listable(scope, all) && size >= 1 && maxPages >= PagesNeeded(|all|, size)
    ensures var r := Handed(Enumerate(scope, Server(scope, all, size), maxPages));
            r.threads == Val(AsItems(all)) && r.pages >= 1 && r.terminalReached && !r.terminalCursor.Mistyped?
  {
    hide Enumerate, Listable, Server, ServerListing;
    PagesNeededIsCeiling(|all|, size);
    PaginationComplete(scope, all, size, maxPages);
  }

  lemma HandedActiveWhole(host: Host, parent: string)
    requires HandedActive(host, parent).threads.Val?
    ensures OwnIds(HandedActive(host, parent).threads.v, parent, true) == IdsOf(host.guild, parent, true)
    ensures HandedActive(host, parent).pages == 1 && HandedActive(host, parent).terminalReached
            && HandedActive(host, parent).terminalCursor == Null
  {
    hide ActiveItems, OwnIds, IdsOf;
    ActiveKeepsOwn(host.guild, parent);
    SoundOwnIds(host.guild, parent, true);
  }

  lemma SoundOwnIds(items: seq<Item>, parent: string, active: bool)
    requires AllTrusted(items, parent, active)
    ensures OwnIds(items, parent, active) == IdsOf(items, parent, active)
  {
    hide AllTrusted, OwnIds, IdsOf, ItemSound;
    AllTrustedIsSound(items, parent, active);
    SoundIds(items, parent, active);
  }

  /** An exhaustive tour offers exactly what the server holds, whatever its page sizes. */
  lemma TourOffersHost(host: Host, parent: string, kind: Kind, tour: Tour, scope: Scope)
    requires Exhaustive(host, kind, tour) && scope in RequiredScopes(kind)
    requires ScopeOffered(Inventoried(host, parent, kind, tour), scope)
    ensures var call := Inventoried(host, parent, kind, tour);
            && OfferedIds(call, scope) == HostIds(host, parent, scope)
            && ResultFor(call, scope).value.terminalReached && ResultFor(call, scope).value.pages >= 1
            && !ResultFor(call, scope).value.terminalCursor.Mistyped?
  {
    hide Enumerate, Handed, HandedActive, OwnIds, AllTrusted, Listable, PagesNeeded, IdsOf;
    var call := Inventoried(host, parent, kind, tour);
    assert call.archived[..1][..0] == [] && call.archived[..1] == [call.archived[0]];
    assert ArchivedFor(call.archived, Private) == Some(call.archived[1].1);
    assert ArchivedFor(call.archived, Public) == Some(call.archived[0].1);
    HandedWhole(Public, host.publicArchive, tour.publicSize, tour.publicPages);
    HandedWhole(Private, host.privateArchive, tour.privateSize, tour.privatePages);
    if scope == ActiveFiltered {
      HandedActiveWhole(host, parent);
    } else {
      SoundOwnIds(ResultFor(call, scope).value.threads.v, parent, false);
    }
  }

  // ------------------------------------------------- two tours settle the inventory

  lemma SubmittedIsOffered(call: BuildCall, i: nat)
    requires Build(call).Ok? && i < |RequiredScopes(call.kind)|
    ensures SubmittedFor(EntriesOf(call), RequiredScopes(call.kind)[i]) == Elements(OfferedIds(call, RequiredScopes(call.kind)[i]))
  {
    hide Build, EntryFor, OfferedIds, AllOffered, Distinct, RequiredScopes, ReceiptFor, ResultFor;
    InventoryExact(call);
    EntriesHaveScopes(call);
    EntriesAre(call);
    var s := RequiredScopes(call.kind)[i];
    EntryScope(call, s);
    assert ResultFor(call, s).Some? by { BuiltIsOffered(call, s); OfferedAreGiven(call); }
    EntrySubmits(call, s);
    SubmittedForEntry(EntriesOf(call), i);
  }

  lemma EntrySubmits(call: BuildCall, s: Scope)
    requires ResultFor(call, s).Some?
    ensures EntryFor(call, s).receipt.Val? && SubmittedIds(EntryFor(call, s)) == OfferedIds(call, s)
    ensures EntryFor(call, s).receipt.v.terminalReached == Val(ResultFor(call, s).value.terminalReached)
    ensures s == ArchivedPrivate && call.confirmed ==>
              EntryFor(call, s).receipt.v.authorization == Val(RawAuthorization(Val(ManageThreads), Val(true)))
  {
    hide OfferedIds, OfferedLocked, ResultFor;
  }

  lemma BuiltIsOffered(call: BuildCall, s: Scope)
    requires Build(call).Ok? && s in RequiredScopes(call.kind)
    ensures ScopeOffered(call, s)
  {
    hide Build, ScopeOffered, AllOffered, RequiredScopes, NormalizedTime;
    InventoryExact(call);
  }

  /** An exhaustive tour submits evidence that covers everything its parent kind requires. */
  lemma TourCovers(host: Host, parent: string, kind: Kind, tour: Tour)
    requires Exhaustive(host, kind, tour) && Build(Inventoried(host, parent, kind, tour)).Ok?
    ensures Covers(Recorded(Inventoried(host, parent, kind, tour)))
  {
    hide Build, Exhaustive, ResultFor, EntryFor, Inventoried, Renormalized, EntriesOf, OfferedIds;
    var call := Inventoried(host, parent, kind, tour);
    InventoriedKind(host, parent, kind, tour);
    EntriesHaveScopes(call);
    EntriesAre(call);
    var scopes, entries := RequiredScopes(kind), EntriesOf(call);
    forall i | 0 <= i < |scopes| ensures ReadToTheEnd(entries, scopes[i]) {
      CoveredScope(host, parent, kind, tour, scopes[i]);
      assert entries[i].scope == scopes[i] && entries[i] == EntryFor(call, scopes[i]);
    }
    if kind == TextChannel {
      assert scopes[2] == ArchivedPrivate;
      CoveredScope(host, parent, kind, tour, ArchivedPrivate);
      assert entries[2] == EntryFor(call, ArchivedPrivate);
    }
  }

  lemma InventoriedKind(host: Host, parent: string, kind: Kind, tour: Tour)
    ensures Inventoried(host, parent, kind, tour).kind == kind && Inventoried(host, parent, kind, tour).confirmed == tour.confirmed
  {
  }

  lemma CoveredScope(host: Host, parent: string, kind: Kind, tour: Tour, s: Scope)
    requires Exhaustive(host, kind, tour) && Build(Inventoried(host, parent, kind, tour)).Ok? && s in RequiredScopes(kind)
    ensures var call := Inventoried(host, parent, kind, tour);
            && EntryFor(call, s).scope == s && EntryFor(call, s).receipt.Val?
            && EntryFor(call, s).receipt.v.terminalReached == Val(true)
            && (s == ArchivedPrivate ==> EntryFor(call, s).receipt.v.authorization == Val(RawAuthorization(Val(ManageThreads), Val(true))))
            && OfferedIds(call, s) == HostIds(host, parent, s)
  {
    hide Build, EntryFor, Inventoried, ResultFor, Listable, PagesNeeded, OfferedIds, HostIds, ScopeOffered;
    var call := Inventoried(host, parent, kind, tour);
    InventoriedKind(host, parent, kind, tour);
    BuiltIsOffered(call, s);
    OfferedAreGiven(call);
    TourOffersHost(host, parent, kind, tour, s);
    EntryScope(call, s);
    EntrySubmits(call, s);
  }

  /** Two exhaustive tours of one server submit the same threads, scope by scope. */
  lemma ToursAgree(host: Host, parent: string, kind: Kind, a: Tour, b: Tour)
    requires Exhaustive(host, kind, a) && Exhaustive(host, kind, b)
    requires Build(Inventoried(host, parent, kind, a)).Ok? && Build(Inventoried(host, parent, kind, b)).Ok?
    ensures SameSubmission(Recorded(Inventoried(host, parent, kind, a)), Recorded(Inventoried(host, parent, kind, b)))
  {
    hide Build, Exhaustive, Inventoried, EntriesOf, Renormalized, OfferedIds, HostIds, SubmittedFor, RequiredScopes, EntryFor;
    var x, y := Inventoried(host, parent, kind, a), Inventoried(host, parent, kind, b);
    InventoriedKind(host, parent, kind, a);
    InventoriedKind(host, parent, kind, b);
    var scopes := RequiredScopes(kind);
    forall i: nat | i < |scopes| ensures SubmittedFor(EntriesOf(x), scopes[i]) == SubmittedFor(EntriesOf(y), scopes[i]) {
      SubmittedIsOffered(x, i);
      SubmittedIsOffered(y, i);
      CoveredScope(host, parent, kind, a, scopes[i]);
      CoveredScope(host, parent, kind, b, scopes[i]);
    }
  }

  /**
   * End to end: when the two latest accepted scans of a parent are exhaustive, authorised
   * inventories of one unchanged server, the audit finds the inventory stable.
   */
  lemma UnchangedServerIsStable(sha: string -> string, log: Log, host: Host, parent: string, kind: Kind, a: Tour, b: Tour, i: nat, j: nat)
    requires Sha256Hex(sha) && CollisionFree(sha, LogTexts(sha, log))
    requires Exhaustive(host, kind, a) && Exhaustive(host, kind, b)
    requires Build(Inventoried(host, parent, kind, a)).Ok? && Build(Inventoried(host, parent, kind, b)).Ok?
    requires TwoLatest(sha, log, parent, i, j)
    requires log[i].scan == Recorded(Inventoried(host, parent, kind, a)) && log[j].scan == Recorded(Inventoried(host, parent, kind, b))
    ensures Stable(sha, LatestTwo(Run(sha, log).scans, parent))
    ensures RescanNotStable !in AuditReport(sha, Run(sha, log), parent).blockers
  {
    hide Build, Exhaustive, Inventoried, Recorded, LogTexts, LatestTwo;
    hide Run, Covers, SameSubmission, TwoLatest, Stable, LeftAfterAudit, Retired;
    TourCovers(host, parent, kind, a);
    TourCovers(host, parent, kind, b);
    ToursAgree(host, parent, kind, a, b);
    assert Settles(sha, log, parent, i, j);
    StableIsSettled(sha, log, parent);
  }
}
