/**
 * One sweep of a parent from the fetched pages to the table row: whatever the sources
 * answer, an inventory that was built is recorded unless an id is white space or the
 * scan id is taken, and then the refusal says so.
 */
module InventorySweep {
  import opened Text
  import opened Times
  import opened Receipts
  import opened ArchiveInventory
  import opened ScopeInventory
  import opened CompletenessTables
  import opened InventoryFit

  /** One archive and where its pages come from. */
  datatype ArchiveRead = ArchiveRead(scope: ArchiveScope, source: Source, maxPages: int)

  /** What the command line fetches: the active threads of the guild and some archives. */
  datatype Sweep = Sweep(
    parent: string, kind: Kind, scanId: string, observedAt: Option<ObservedTime>,
    guild: Raw<seq<Item>>, archives: seq<ArchiveRead>, confirmed: bool)

  function ReadArchive(read: ArchiveRead): (ArchiveScope, ScopeResult) {
    (read.scope, Handed(Enumerate(read.scope, read.source, read.maxPages)))
  }

  function ReadArchives(archives: seq<ArchiveRead>): seq<(ArchiveScope, ScopeResult)> {
    seq(|archives|, i requires 0 <= i < |archives| => ReadArchive(archives[i]))
  }

  function Swept(sweep: Sweep): BuildCall {
    BuildCall(sweep.parent, sweep.kind, sweep.scanId, sweep.observedAt,
              HandedThreads(ActiveResult(sweep.guild, sweep.parent)), ReadArchives(sweep.archives), sweep.confirmed)
  }

  // ------------------------------------------------- what the sources cannot break

  /** At least one page, and a cursor that is a text or null. */
  predicate WellPaged(result: ScopeResult) {
    result.pages >= 1 && (result.terminalCursor.Val? || result.terminalCursor.Null?)
  }

  lemma ArchiveIsWellPaged(read: ArchiveRead)
    ensures ReadArchive(read).1.threads.Val? ==> WellPaged(ReadArchive(read).1)
  {
    hide Walk, Reading;
    if ReadArchive(read).1.threads.Val? {
      EnumerateExact(read.scope, read.source, read.maxPages);
      var sent, terminal :| Reading(read.scope, read.source, read.maxPages, sent, terminal);
      assert terminal || |sent| == read.maxPages by { ReadingEnds(read.scope, read.source, read.maxPages, sent, terminal); }
    }
  }

  lemma ReadingEnds(scope: ArchiveScope, fetch: Source, maxPages: nat, sent: seq<string>, terminal: bool)
    requires Reading(scope, fetch, maxPages, sent, terminal)
    ensures terminal || |sent| == maxPages
  {
    hide Chained, PageAt;
  }

  lemma {:induction false} LastGivenIsGiven(archived: seq<(ArchiveScope, ScopeResult)>, scope: ArchiveScope)
    ensures ArchivedFor(archived, scope).Some? ==> (scope, ArchivedFor(archived, scope).value) in archived
  {
    if archived != [] && archived[|archived| - 1].0 != scope {
      LastGivenIsGiven(archived[..|archived| - 1], scope);
    } else if archived != [] {
      assert archived[|archived| - 1] == (scope, ArchivedFor(archived, scope).value);
    }
  }

  lemma ReadsAreWellPaged(archives: seq<ArchiveRead>, scope: ArchiveScope)
    requires ArchivedFor(ReadArchives(archives), scope).Some? && ArchivedFor(ReadArchives(archives), scope).value.threads.Val?
    ensures WellPaged(ArchivedFor(ReadArchives(archives), scope).value)
  {
    hide ArchivedFor, ReadArchive, WellPaged;
    LastGivenIsGiven(ReadArchives(archives), scope);
    var i :| 0 <= i < |archives| && ReadArchives(archives)[i] == (scope, ArchivedFor(ReadArchives(archives), scope).value);
    assert ReadArchive(archives[i]) == ReadArchives(archives)[i];
    ArchiveIsWellPaged(archives[i]);
  }

  /** Whatever the sources answer, a scope that was read at all was read in well-formed pages. */
  lemma SweepIsWellPaged(sweep: Sweep, scope: Scope)
    requires ScopeOffered(Swept(sweep), scope)
    ensures WellPaged(ResultFor(Swept(sweep), scope).value)
  {
    hide ArchivedFor, ReadArchives, AllTrusted, ActiveItems;
    match scope
    case ActiveFiltered =>
    case ArchivedPublic => ReadsAreWellPaged(sweep.archives, Public);
    case ArchivedPrivate => ReadsAreWellPaged(sweep.archives, Private);
    case OtherScope(_) =>
  }

  // ------------------------------------------------- the ids alone decide

  predicate NoneBlank(ids: seq<string>) {
    forall id :: id in ids ==> !Blank(id)
  }

  lemma {:induction false} OfferedOnce(call: BuildCall, scopes: seq<Scope>)
    ensures NoneBlank(AllOffered(call, scopes)) <==> forall s :: s in scopes ==> NoneBlank(OfferedIds(call, s))
  {
    hide OfferedIds, Blank;
    if scopes != [] {
      var n := |scopes| - 1;
      OfferedOnce(call, scopes[..n]);
      BlankInEither(AllOffered(call, scopes[..n]), OfferedIds(call, scopes[n]));
      assert scopes == scopes[..n] + [scopes[n]];
    }
  }

  lemma BlankInEither(a: seq<string>, b: seq<string>)
    ensures NoneBlank(a + b) <==> NoneBlank(a) && NoneBlank(b)
  {
    hide Blank;
    if NoneBlank(a + b) {
      forall id | id in a ensures !Blank(id) { assert id in a + b; }
      forall id | id in b ensures !Blank(id) { assert id in a + b; }
    }
  }

  lemma NoneBlankIsSet(a: seq<string>, b: seq<string>)
    requires Elements(a) == Elements(b)
    ensures NoneBlank(a) <==> NoneBlank(b)
  {
    hide Blank;
    forall id ensures id in a <==> id in b { assert id in Elements(a) <==> id in a; assert id in Elements(b) <==> id in b; }
  }

  /** No thread of the inventory has a white-space id exactly when no scope offers one. */
  lemma InventoryIds(call: BuildCall)
    requires Build(call).Ok?
    ensures NoneBlank(Build(call).value.threadIds) <==> forall s :: s in RequiredScopes(call.kind) ==> NoneBlank(OfferedIds(call, s))
  {
    hide Build, Buildable, AllOffered, OfferedIds, NoneBlank, RequiredScopes, EntryFor, Distinct, Ascending;
    InventoryExact(call);
    OfferedOnce(call, RequiredScopes(call.kind));
    NoneBlankIsSet(Build(call).value.threadIds, AllOffered(call, RequiredScopes(call.kind)));
  }

  /** The receipt of a swept scope is refused for white-space ids or not at all. */
  lemma SweptEntry(sha: string -> string, sweep: Sweep, scope: Scope)
    requires Sha256Hex(sha) && scope in RequiredScopes(sweep.kind)
    requires ScopeOffered(Swept(sweep), scope) && Distinct(OfferedIds(Swept(sweep), scope))
    ensures var one := NormalizeOne(sha, sweep.parent, EntryFor(Swept(sweep), scope));
            if NoneBlank(OfferedIds(Swept(sweep), scope)) then one.Ok? else one == Err(ThreadIdsInvalid)
  {
    hide OfferedIds, OfferedLocked, ResultFor, Distinct, Blank, ScopeOffered, ReceiptValid, Swept, NormalizeOne;
    var call := Swept(sweep);
    assert call.parent == sweep.parent && call.kind == sweep.kind by { SweptKeeps(sweep); }
    SweepIsWellPaged(sweep, scope);
    assert ResultFor(call, scope).Some? by { OfferedAreGiven(call); }
    EntryAcceptable(call, scope);
    AcceptedIffAcceptable(sha, sweep.parent, EntryFor(call, scope));
    if !NoneBlank(OfferedIds(call, scope)) { BlankIsRefused(sha, call, scope); }
  }

  lemma SweptKeeps(sweep: Sweep)
    ensures Swept(sweep).parent == sweep.parent && Swept(sweep).kind == sweep.kind && Swept(sweep).scanId == sweep.scanId
  {
  }

  lemma BlankIsRefused(sha: string -> string, call: BuildCall, scope: Scope)
    requires ResultFor(call, scope).Some? && WellPaged(ResultFor(call, scope).value) && !NoneBlank(OfferedIds(call, scope))
    ensures NormalizeOne(sha, call.parent, EntryFor(call, scope)) == Err(ThreadIdsInvalid)
  {
    hide OfferedIds, OfferedLocked, ResultFor, Distinct, Blank, ReceiptValid;
    var ids := OfferedIds(call, scope);
    var id :| id in ids && Blank(id);
    var i :| 0 <= i < |ids| && ids[i] == id;
    assert Blank(ids[i]);
  }

  /** Entries that are refused for one reason only are refused for that reason. */
  lemma {:induction false} OneReason(sha: string -> string, parent: string, entries: seq<ScopeEntry>, e: ReceiptError)
    requires forall i :: 0 <= i < |entries| ==> NormalizeOne(sha, parent, entries[i]).Ok? || NormalizeOne(sha, parent, entries[i]) == Err(e)
    ensures if (forall i :: 0 <= i < |entries| ==> NormalizeOne(sha, parent, entries[i]).Ok?) then NormalizeEntries(sha, parent, entries).Ok?
            else NormalizeEntries(sha, parent, entries) == Err(e)
  {
    hide NormalizeOne, SubmittedIds;
    if entries != [] {
      var n := |entries| - 1;
      OneReason(sha, parent, entries[..n], e);
      if forall i :: 0 <= i < n ==> NormalizeOne(sha, parent, entries[..n][i]).Ok? {
      } else {
        var i :| 0 <= i < n && !NormalizeOne(sha, parent, entries[..n][i]).Ok?;
        assert entries[..n][i] == entries[i];
      }
    }
  }

  /** One entry of the inventory file. */
  lemma SweptEntryAt(sha: string -> string, sweep: Sweep, i: nat)
    requires Sha256Hex(sha) && Build(Swept(sweep)).Ok? && i < |RequiredScopes(sweep.kind)|
    ensures var call, scope := Swept(sweep), RequiredScopes(sweep.kind)[i];
            && |EntriesOf(call)| == |RequiredScopes(sweep.kind)| && EntriesOf(call)[i].scope == scope
            && NormalizeOne(sha, sweep.parent, EntriesOf(call)[i])
               == if NoneBlank(OfferedIds(call, scope)) then Ok(NormalizedAt(sha, sweep, i)) else Err(ThreadIdsInvalid)
  {
    hide Build, Swept, NormalizeOne, NoneBlank, OfferedIds, ScopeOffered;
    hide EntryFor, AllOffered, Distinct, RequiredScopes, EntriesOf, NormalizedTime;
    var call, scope := Swept(sweep), RequiredScopes(sweep.kind)[i];
    SweptKeeps(sweep);
    InventoryExact(call);
    EntriesHaveScopes(call);
    EntriesAre(call);
    PartsDistinct(call, RequiredScopes(sweep.kind));
    assert scope in RequiredScopes(sweep.kind);
    EntryScope(call, scope);
    SweptEntry(sha, sweep, scope);
  }

  /** The normalised receipt of the entry, when there is one. */
  function NormalizedAt(sha: string -> string, sweep: Sweep, i: nat): Receipt {
    var entries := EntriesOf(Swept(sweep));
    if i < |entries| && NormalizeOne(sha, sweep.parent, entries[i]).Ok? then NormalizeOne(sha, sweep.parent, entries[i]).value
    else Receipt(Absent, Absent, Absent, Absent, Absent, Absent, Absent, Absent, Absent, Absent, Absent)
  }

  /** The receipts of a sweep are refused exactly for white-space ids. */
  lemma SweptReceipts(sha: string -> string, sweep: Sweep)
    requires Sha256Hex(sha) && Build(Swept(sweep)).Ok? && !NoneBlank(Build(Swept(sweep)).value.threadIds)
    ensures NormalizeReceipts(sha, sweep.parent, sweep.kind, EntriesOf(Swept(sweep))) == Err(ThreadIdsInvalid)
  {
    hide Build, Swept, NormalizeOne, NormalizeEntries, NoneBlank, OfferedIds, RequiredScopes, EntriesOf, NormalizedAt;
    var call := Swept(sweep);
    var scopes, entries := RequiredScopes(sweep.kind), EntriesOf(call);
    SweptKeeps(sweep);
    InventoryIds(call);
    var s :| s in scopes && !NoneBlank(OfferedIds(call, s));
    var k :| 0 <= k < |scopes| && scopes[k] == s;
    SweptEntryAt(sha, sweep, k);
    forall i | 0 <= i < |entries|
      ensures entries[i].scope in scopes
      ensures NormalizeOne(sha, sweep.parent, entries[i]).Ok? || NormalizeOne(sha, sweep.parent, entries[i]) == Err(ThreadIdsInvalid)
    {
      SweptEntryAt(sha, sweep, i);
    }
    OneReason(sha, sweep.parent, entries, ThreadIdsInvalid);
    assert !NormalizeOne(sha, sweep.parent, entries[k]).Ok?;
  }

  /**
   * Any sources, any pages: an inventory that was built is recorded exactly when the parent,
   * the scan id and the thread ids are more than white space and the scan id is new. With a
   * white-space thread id the store refuses what the producer has just built.
   */
  lemma SweepIsRecorded(sha: string -> string, db: Tables, sweep: Sweep)
    requires Sha256Hex(sha) && Build(Swept(sweep)).Ok?
    ensures var ids := Build(Swept(sweep)).value.threadIds;
            && (RecordScan(sha, db, Recorded(Swept(sweep))).Ok? <==>
                  !Blank(sweep.parent) && !Blank(sweep.scanId) && NoneBlank(ids) && !ScanIdTaken(db.scans, sweep.parent, sweep.scanId))
            && (!Blank(sweep.parent) && !Blank(sweep.scanId) && !NoneBlank(ids) ==>
                  RecordScan(sha, db, Recorded(Swept(sweep))) == Err(ReceiptRefused(ThreadIdsInvalid)))
  {
    hide Build, Swept, Recordable, NormalizeReceipts, Blank, NoneBlank, EntriesOf, Recorded, ScanIdTaken, RequiredScopes, NormalizedTime;
    var call := Swept(sweep);
    SweptKeeps(sweep);
    ProducerFitsConsumer(sha, db, call);
    SweptRecordable(sweep);
    if !NoneBlank(Build(call).value.threadIds) { SweptReceipts(sha, sweep); }
    SweptForm(sweep);
  }

  lemma SweptForm(sweep: Sweep)
    requires Build(Swept(sweep)).Ok?
    ensures var scan := Recorded(Swept(sweep));
            && scan.parent == sweep.parent && scan.scanId == sweep.scanId && scan.kind == Some(sweep.kind)
            && scan.receipts == Val(EntriesOf(Swept(sweep)))
  {
    hide EntriesOf, Renormalized;
  }

  lemma SweptRecordable(sweep: Sweep)
    requires Build(Swept(sweep)).Ok?
    ensures Recordable(Swept(sweep)) <==> !Blank(sweep.parent) && !Blank(sweep.scanId) && NoneBlank(Build(Swept(sweep)).value.threadIds)
  {
    hide Build, Swept, Blank, OfferedIds, RequiredScopes, ResultFor, ScopeOffered;
    var call := Swept(sweep);
    SweptKeeps(sweep);
    InventoryIds(call);
    OfferedAreGiven(call);
    forall s | s in RequiredScopes(call.kind)
      ensures ResultFor(call, s).Some? && WellPaged(ResultFor(call, s).value)
    {
      BuiltIsOffered(call, s);
      SweepIsWellPaged(sweep, s);
    }
  }

  // ------------------------------------------------- inputs that are built and refused

  /** One active thread of the forum, and an empty public archive. */
  function OneThread(parent: string, id: string, scanId: string, at: ObservedTime): Sweep {
    Sweep(parent, Forum, scanId, Some(at),
          Val([Some(Thread(Val(id), Val(parent), Val(Metadata(Absent, Val(false))), ""))]),
          [ArchiveRead(Public, (n, cursor) => Some(Payload(Val([]), Val(false))), 1)], false)
  }

  lemma OneThreadActive(parent: string, id: string)
    requires id != ""
    ensures var items := [Some(Thread(Val(id), Val(parent), Val(Metadata(Absent, Val(false))), ""))];
            && ActiveResult(Val(items), parent) == Ok((ScopeResult(Val(items), 1, true, Null), 0))
            && AllTrusted(items, parent, true) && OwnIds(items, parent, true) == [id]
  {
    var items := [Some(Thread(Val(id), Val(parent), Val(Metadata(Absent, Val(false))), ""))];
    assert items[..0] == [] && ActiveItems([], parent) == Ok([]) && [] + [items[0]] == items;
    assert OwnIds([], parent, true) == [] && OwnId(items[0], parent, true) == [id];
  }

  lemma EmptyArchive(fetch: Source, parent: string)
    requires fetch(0, None) == Some(Payload(Val([]), Val(false)))
    ensures Handed(Enumerate(Public, fetch, 1)) == ScopeResult(Val([]), 1, true, Null)
    ensures AllTrusted([], parent, false) && OwnIds([], parent, false) == []
  {
    hide NextCursor;
    WalkStep(Public, fetch, 1, [], []);
    assert ReadPage(fetch(0, None)) == Ok(Page([], false));
    assert Collected([]) == [] && AsItems([]) == [];
  }

  lemma OneThreadOffers(parent: string, id: string, scanId: string, at: ObservedTime)
    requires id != ""
    ensures var call := Swept(OneThread(parent, id, scanId, at));
            && ScopeOffered(call, ActiveFiltered) && OfferedIds(call, ActiveFiltered) == [id]
            && ScopeOffered(call, ArchivedPublic) && OfferedIds(call, ArchivedPublic) == []
  {
    hide Enumerate, Handed, ActiveResult, AllTrusted, OwnIds;
    var sweep := OneThread(parent, id, scanId, at);
    OneThreadActive(parent, id);
    EmptyArchive(sweep.archives[0].source, parent);
    assert Swept(sweep).archived == [ReadArchive(sweep.archives[0])];
  }

  lemma OneThreadIsBuilt(parent: string, id: string, scanId: string, at: ObservedTime)
    requires parent != "" && id != "" && scanId != "" && NormalizedTime(at).Ok?
    ensures Build(Swept(OneThread(parent, id, scanId, at))).Ok?
    ensures id in Build(Swept(OneThread(parent, id, scanId, at))).value.threadIds
  {
    hide Build, ScopeOffered, OfferedIds, NormalizedTime, EntryFor, Ascending, Enumerate, Handed, ActiveResult;
    var call := Swept(OneThread(parent, id, scanId, at));
    OneThreadOffers(parent, id, scanId, at);
    var scopes := RequiredScopes(Forum);
    assert scopes == [ActiveFiltered, ArchivedPublic] && scopes[..1] == [ActiveFiltered] && scopes[..1][..0] == [];
    assert AllOffered(call, scopes[..1]) == [] + [id];
    assert AllOffered(call, scopes) == [id] + [];
    InventoryExact(call);
    assert id in Elements(Build(call).value.threadIds);
  }

  /** The concrete failure: a thread whose id is white space passes the producer and stops the store. */
  lemma BlankIdIsBuiltAndRefused(sha: string -> string, db: Tables, parent: string, scanId: string, at: ObservedTime)
    requires Sha256Hex(sha) && !Blank(parent) && !Blank(scanId) && NormalizedTime(at).Ok?
    ensures Build(Swept(OneThread(parent, "   ", scanId, at))).Ok?
    ensures RecordScan(sha, db, Recorded(Swept(OneThread(parent, "   ", scanId, at)))) == Err(ReceiptRefused(ThreadIdsInvalid))
  {
    hide Build, Swept, RecordScan, Recorded, NormalizedTime;
    assert Blank("   ") by { assert StripLeft("   ") == StripLeft("  ") == StripLeft(" ") == StripLeft("") == ""; }
    assert Strip("") == "";
    OneThreadIsBuilt(parent, "   ", scanId, at);
    SweepIsRecorded(sha, db, OneThread(parent, "   ", scanId, at));
  }
}
