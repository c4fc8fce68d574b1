/**
 * The report of an audit, field by field: when each blocker is raised and what each count
 * counts, on the columns of the two latest rows and of the certificates.
 */
module AuditReports {
  import opened Text
  import opened Framing
  import opened Receipts
  import opened ScopeInventory
  import opened InventoryFields
  import opened CompletenessTables
  import opened AuditTheorems
  import opened StoreRuns
  import opened AuditRows

  /** The saved receipts and the membership rows agree. */
  ghost predicate SavedWell(sha: string -> string, scan: Scan) {
    ReceiptsUsable(sha, scan) && ColumnsAgree(sha, scan)
  }

  /** The row holds receipts, sound or not. */
  predicate HoldsReceipts(latest: seq<Scan>) {
    latest != [] && !latest[0].stored.NoReceipts?
  }

  /** The scopes that the kind of the latest row asks for. */
  function Asked(latest: seq<Scan>): seq<Scope> {
    if !HoldsReceipts(latest) || latest[0].kind.None? then [] else ScopesOf(latest[0].kind.value)
  }

  /** The latest row has a sound receipt for the scope, and this holds of it. */
  predicate HasReceipt(sha: string -> string, latest: seq<Scan>, s: Scope) {
    latest != [] && ReceiptsUsable(sha, latest[0]) && s in latest[0].stored.receipts
  }

  predicate ReadToEnd(sha: string -> string, latest: seq<Scan>) {
    latest != [] && ReceiptsUsable(sha, latest[0])
    && forall s :: s in ScopesOf(latest[0].kind.value) ==> HasReceipt(sha, latest, s) && latest[0].stored.receipts[s].terminalReached == Val(true)
  }

  predicate MayReadPrivate(sha: string -> string, latest: seq<Scan>) {
    && HasReceipt(sha, latest, ArchivedPrivate)
    && latest[0].stored.receipts[ArchivedPrivate].authorizationConfirmed == Val(true)
  }

  ghost predicate BothProve(sha: string -> string, latest: seq<Scan>) {
    |latest| == 2 && ScanProves(sha, latest[0]) && ScanProves(sha, latest[1])
  }

  /** Two rows that prove themselves give the same totals, and the same for every scope. */
  predicate SameTotals(a: Scan, b: Scan)
    requires a.stored.Table? && b.stored.Table? && a.kind.Some?
  {
    && a.threadSetDigest == b.threadSetDigest && a.threadCount == b.threadCount && a.kind == b.kind
    && forall s :: s in ScopesOf(a.kind.value) && s in a.stored.receipts && s in b.stored.receipts ==>
         && a.stored.receipts[s].threadSetDigest == b.stored.receipts[s].threadSetDigest
         && a.stored.receipts[s].threadCount == b.stored.receipts[s].threadCount
  }

  ghost predicate Steady(sha: string -> string, latest: seq<Scan>) {
    BothProve(sha, latest) && SameTotals(latest[0], latest[1])
  }

  // ------------------------------------------------- the parts

  lemma ProvesHasScopes(sha: string -> string, scan: Scan)
    requires ScanProves(sha, scan)
    ensures scan.stored.Table? && scan.kind.Some? && ReceiptsUsable(sha, scan)
    ensures forall s :: s in ScopesOf(scan.kind.value) ==> s in scan.stored.receipts
    ensures UsableOf(sha, scan) == scan.stored.receipts && RequiredFor(scan.kind) == ScopesOf(scan.kind.value) != []
  {
    hide ReceiptSound, ColumnsAgree, UsableReceipts;
    UsableIs(sha, scan);
    KindHasScopes(sha, scan);
  }

  lemma SteadyIs(sha: string -> string, latest: seq<Scan>)
    ensures BothComplete(sha, latest) <==> BothProve(sha, latest)
    ensures Stable(sha, latest) <==> Steady(sha, latest)
  {
    hide Complete, ScanProves, UsableReceipts, ReceiptsUsable;
    if |latest| == 2 {
      CompleteByFields(sha, latest[0]);
      CompleteByFields(sha, latest[1]);
      if BothProve(sha, latest) {
        ProvesHasScopes(sha, latest[0]);
        ProvesHasScopes(sha, latest[1]);
      }
    }
  }

  lemma NotUsableIsEmpty(sha: string -> string, scan: Scan)
    ensures !ReceiptsUsable(sha, scan) ==> UsableOf(sha, scan) == map[]
    ensures ReceiptsUsable(sha, scan) ==> UsableOf(sha, scan) == scan.stored.receipts
  {
    hide ReceiptsUsable, ReceiptValid;
    UsableIs(sha, scan);
  }

  lemma AskedIs(latest: seq<Scan>)
    ensures RequiredNow(latest) == Asked(latest)
  {
  }

  lemma ReadToEndIs(sha: string -> string, latest: seq<Scan>)
    ensures Exhausted(sha, latest) <==> ReadToEnd(sha, latest)
  {
    hide ReceiptsUsable, UsableReceipts;
    AskedIs(latest);
    if latest != [] {
      NotUsableIsEmpty(sha, latest[0]);
      UsableIs(sha, latest[0]);
      if ReceiptsUsable(sha, latest[0]) {
        UsableHasTable(sha, latest[0]);
        KindHasScopes(sha, latest[0]);
      } else if RequiredNow(latest) != [] {
        assert RequiredNow(latest)[0] in RequiredNow(latest) && RequiredNow(latest)[0] !in ReceiptsNow(sha, latest);
      }
    }
  }

  lemma PrivateIs(sha: string -> string, latest: seq<Scan>)
    requires HoldsReceipts(latest)
    ensures PrivateAuthorized(latest[0].kind, ReceiptsNow(sha, latest)) <==> (latest[0].kind == Some(TextChannel) ==> MayReadPrivate(sha, latest))
  {
    hide ReceiptsUsable, UsableReceipts;
    NotUsableIsEmpty(sha, latest[0]);
  }

  /** When each blocker is raised, on the columns. */
  ghost predicate RaisedBy(sha: string -> string, latest: seq<Scan>, left: map<string, Certificate>, b: Blocker) {
    match b
    case StableScanCountInsufficient => |latest| < 2
    case SavedEvidenceMismatch => exists k :: 0 <= k < |latest| && !SavedWell(sha, latest[k])
    case RescanIncomplete => |latest| == 2 && !(ScanProves(sha, latest[0]) && ScanProves(sha, latest[1]))
    case RescanNotStable => BothProve(sha, latest) && !SameTotals(latest[0], latest[1])
    case ParentInventoryMissing => latest == []
    case ScopeReceiptsInvalid => HoldsReceipts(latest) && !SavedWell(sha, latest[0])
    case ScopeIncomplete => exists s :: s in Asked(latest) && !HasReceipt(sha, latest, s)
    case PrivateAuthorizationMissing => HoldsReceipts(latest) && latest[0].kind == Some(TextChannel) && !MayReadPrivate(sha, latest)
    case ScopeReceiptsMissing => latest != [] && latest[0].stored.NoReceipts?
    case PaginationNotExhausted => latest != [] && !ReadToEnd(sha, latest)
    case ChildCertificateMissing => latest != [] && exists t :: t in latest[0].members && t !in left
    case ChildCertificateNotInLatest => exists t :: t in left && (latest == [] || t !in latest[0].members)
    case ChildPendingWork => exists t :: t in LeftThreads(latest, left) && left[t].pendingRetries != 0
    case ChildAttachmentFailed =>
      exists t :: t in LeftThreads(latest, left)
                  && !(left[t].attachmentsConsistent && left[t].discovered == left[t].saved == left[t].manifested)
    case ChildStrictFullFailed => exists t :: t in LeftThreads(latest, left) && !ProvesFull(left[t])
  }

  /** The threads of the latest row that have a certificate. */
  function LeftThreads(latest: seq<Scan>, left: map<string, Certificate>): (r: set<string>)
    ensures forall t :: t in r ==> t in left
  {
    if latest == [] then {} else set t | t in latest[0].members && t in left
  }

  lemma ScanBlockIs(sha: string -> string, latest: seq<Scan>, b: Blocker)
    requires |latest| <= 2
    ensures ScanBlocks(sha, latest, b) <==>
              b in {StableScanCountInsufficient, SavedEvidenceMismatch, RescanIncomplete, RescanNotStable} && RaisedBy(sha, latest, map[], b)
  {
    hide Reconciled, SavedWell, BothComplete, BothProve, Stable, SameTotals;
    SteadyIs(sha, latest);
    forall k | 0 <= k < |latest| ensures Reconciled(sha, latest[k]) <==> SavedWell(sha, latest[k]) { SavedIs(sha, latest[k]); }
    BothProveMeans(sha, latest);
  }

  lemma BothProveMeans(sha: string -> string, latest: seq<Scan>)
    ensures BothProve(sha, latest) <==> |latest| == 2 && ScanProves(sha, latest[0]) && ScanProves(sha, latest[1])
  {
  }

  lemma SavedIs(sha: string -> string, scan: Scan)
    ensures Reconciled(sha, scan) <==> SavedWell(sha, scan)
  {
    hide Reconciled, ReceiptsUsable, ColumnsAgree;
    ReconciledByFields(sha, scan);
  }

  lemma LatestBlockIs(sha: string -> string, latest: seq<Scan>, b: Blocker)
    ensures LatestBlocks(sha, latest, b) <==>
              b in {ParentInventoryMissing, ScopeReceiptsInvalid, ScopeIncomplete, PrivateAuthorizationMissing, ScopeReceiptsMissing, PaginationNotExhausted}
              && RaisedBy(sha, latest, map[], b)
  {
    hide Reconciled, SavedWell, Exhausted, ReadToEnd, UsableOf, PrivateAuthorized, MayReadPrivate, ReceiptsUsable;
    AskedIs(latest);
    ReadToEndIs(sha, latest);
    if latest != [] { SavedIs(sha, latest[0]); NotUsableIsEmpty(sha, latest[0]); }
    if HoldsReceipts(latest) { PrivateIs(sha, latest); }
    forall s | s in Asked(latest) ensures s in ReceiptsNow(sha, latest) <==> HasReceipt(sha, latest, s) { }
  }

  lemma CertificateBlockIs(sha: string -> string, latest: seq<Scan>, left: map<string, Certificate>, b: Blocker)
    ensures CertificateBlocks(LatestThreads(latest), left, b) <==>
              b in {ChildPendingWork, ChildAttachmentFailed, ChildStrictFullFailed} && RaisedBy(sha, latest, left, b)
  {
    hide ProvesFull;
    var threads := LatestThreads(latest);
    forall t ensures t in LeftThreads(latest, left) <==> t in threads && t in left { }
  }

  /** One of the first is missing among the second. */
  lemma MissingIs(a: set<string>, b: set<string>)
    ensures a - b != {} <==> exists t :: t in a && t !in b
  {
    if a - b != {} { var t :| t in a - b; }
    if t :| t in a && t !in b { assert t in a - b; }
  }

  lemma ChildBlockIs(sha: string -> string, latest: seq<Scan>, left: map<string, Certificate>, b: Blocker)
    ensures ChildBlocks(LatestThreads(latest), left, b) <==>
              b in {ChildCertificateMissing, ChildCertificateNotInLatest, ChildPendingWork, ChildAttachmentFailed, ChildStrictFullFailed}
              && RaisedBy(sha, latest, left, b)
  {
    hide CertificateBlocks, LeftThreads;
    var threads := LatestThreads(latest);
    assert latest != [] ==> threads == latest[0].members.Keys;
    CertificateBlockIs(sha, latest, left, b);
    MissingIs(threads, left.Keys);
    MissingIs(left.Keys, threads);
  }

  /** The blockers of a report, each with the condition on the columns that raises it. */
  lemma BlockersByRows(sha: string -> string, latest: seq<Scan>, left: map<string, Certificate>, retired: nat, b: Blocker)
    requires |latest| <= 2
    ensures b in ReportOf(sha, latest, left, retired).blockers <==> RaisedBy(sha, latest, left, b)
  {
    hide ScanBlocks, LatestBlocks, ChildBlocks, SavedWell, ReadToEnd, BothProve, SameTotals, ProvesFull, Stable, BothComplete, Exhausted, Reconciled;
    ScanBlockIs(sha, latest, b);
    LatestBlockIs(sha, latest, b);
    ChildBlockIs(sha, latest, left, b);
  }

  function LockedIn(receipts: map<Scope, Receipt>, s: Scope): int {
    if s in receipts && receipts[s].lockedCount.Val? then receipts[s].lockedCount.v else 0
  }

  /** The locked threads of the scopes that a kind of parent has. */
  function LockedOf(receipts: map<Scope, Receipt>, kind: Kind): int {
    if kind.OtherKind? then 0
    else LockedIn(receipts, ActiveFiltered) + LockedIn(receipts, ArchivedPublic)
         + if kind.TextChannel? then LockedIn(receipts, ArchivedPrivate) else 0
  }

  lemma LockedSumIs(receipts: map<Scope, Receipt>, kind: Kind)
    ensures LockedSum(receipts, ScopesOf(kind)) == LockedOf(receipts, kind)
  {
    var two := [ActiveFiltered, ArchivedPublic];
    assert two[..1] == [ActiveFiltered] && [ActiveFiltered][..0] == [];
    assert LockedSum(receipts, two[..1]) == LockedIn(receipts, ActiveFiltered);
    if kind.TextChannel? { assert ScopesOf(kind)[..2] == two; }
  }

  /** The fields of a report beside its blockers. */
  ghost predicate Says(sha: string -> string, latest: seq<Scan>, left: map<string, Certificate>, retired: nat, r: Report) {
    var proved := set t | t in LeftThreads(latest, left) && ProvesFull(left[t]);
    var threads := if latest == [] then 0 else |latest[0].members|;
    && (r.status == Full <==> r.blockers == {}) && (r.status == Blocked <==> latest == [])
    && r.stableScanCount == (if Steady(sha, latest) then 2 else |latest|)
    && r.paginationExhausted == ReadToEnd(sha, latest)
    && r.requiredScopes == Asked(latest)
    && r.requiredScopesComplete == (latest != [] && ScanProves(sha, latest[0]))
    && r.bothLatestComplete == BothProve(sha, latest)
    && r.evidenceModel == (if latest == [] then MissingEvidence else if latest[0].stored.NoReceipts? then LegacyAggregate else ScopeReceiptsV1)
    && r.inventoryThreads == threads && r.childCertificates == |left|
    && r.fullChildren == |proved| && r.pendingChildren == threads - |proved| && r.retired == retired
    && r.lockedThreads == if latest == [] || !ReceiptsUsable(sha, latest[0]) then 0
                          else LockedOf(latest[0].stored.receipts, latest[0].kind.value)
  }

  lemma ReportByRows(sha: string -> string, latest: seq<Scan>, left: map<string, Certificate>, retired: nat)
    requires |latest| <= 2
    ensures Says(sha, latest, left, retired, ReportOf(sha, latest, left, retired))
  {
    hide SavedWell, ReadToEnd, BothProve, ScanProves, SameTotals, ProvesFull, Stable, BothComplete, Exhausted, Reconciled;
    hide UsableOf, ReceiptsUsable;
    SteadyIs(sha, latest);
    ReadToEndIs(sha, latest);
    AskedIs(latest);
    BlockersByRows(sha, latest, left, retired, ParentInventoryMissing);
    assert FullChildren(LatestThreads(latest), left) == set t | t in LeftThreads(latest, left) && ProvesFull(left[t]);
    if latest != [] {
      assert |latest[0].members| == |latest[0].members.Keys|;
      NotUsableIsEmpty(sha, latest[0]);
      LatestCompleteIs(sha, latest);
      if ReceiptsUsable(sha, latest[0]) {
        UsableHasTable(sha, latest[0]);
        LockedSumIs(latest[0].stored.receipts, latest[0].kind.value);
      }
      NothingLocked(Asked(latest));
    }
  }

  lemma {:induction false} NothingLocked(scopes: seq<Scope>)
    ensures LockedSum(map[], scopes) == 0
  {
    if scopes != [] { NothingLocked(scopes[..|scopes| - 1]); }
  }

  lemma LatestCompleteIs(sha: string -> string, latest: seq<Scan>)
    requires latest != []
    ensures (ModelOf(latest) == ScopeReceiptsV1 && Reconciled(sha, latest[0]) && Exhausted(sha, latest)
             && PrivateAuthorized(latest[0].kind, ReceiptsNow(sha, latest)))
            <==> ScanProves(sha, latest[0])
  {
    hide Reconciled, ReceiptsUsable, ColumnsAgree, UsableOf;
    SavedIs(sha, latest[0]);
    ReadToEndIs(sha, latest);
    if HoldsReceipts(latest) { PrivateIs(sha, latest); }
    if ReceiptsUsable(sha, latest[0]) { UsableHasTable(sha, latest[0]); }
  }

  // ------------------------------------------------- the whole audit

  /** The report of an audit, on arbitrary tables: from its two newest rows, and the certificates of its threads that it does not retire. */
  lemma AuditByRows(sha: string -> string, db: Tables, parent: string)
    ensures var latest, left, report := LatestTwo(db.scans, parent), LeftAfterAudit(sha, db, parent), AuditReport(sha, db, parent);
            && |latest| <= 2
            && (forall b :: b in report.blockers <==> RaisedBy(sha, latest, left, b))
            && Says(sha, latest, left, |Retired(sha, db, parent)|, report)
    ensures forall t :: t in LeftAfterAudit(sha, db, parent) <==>
              (parent, t) in db.certificates && t !in Retired(sha, db, parent)
    ensures forall t :: t in LeftAfterAudit(sha, db, parent) ==> LeftAfterAudit(sha, db, parent)[t] == db.certificates[(parent, t)]
    ensures forall t :: t in Retired(sha, db, parent) <==>
              var latest := LatestTwo(db.scans, parent);
              (parent, t) in db.certificates && Steady(sha, latest) && t !in latest[0].members
  {
    hide LatestTwo, ReportOf, RaisedBy, Says, Stable, Steady;
    var latest, left := LatestTwo(db.scans, parent), LeftAfterAudit(sha, db, parent);
    forall b ensures b in AuditReport(sha, db, parent).blockers <==> RaisedBy(sha, latest, left, b) {
      BlockersByRows(sha, latest, left, |Retired(sha, db, parent)|, b);
    }
    ReportByRows(sha, latest, left, |Retired(sha, db, parent)|);
    SteadyIs(sha, latest);
    if Steady(sha, latest) { SteadyHasTwo(sha, latest); }
    RetiredAreCertified(sha, db, parent);
  }

  lemma SteadyHasTwo(sha: string -> string, latest: seq<Scan>)
    requires Steady(sha, latest)
    ensures |latest| == 2
  {
  }
}
