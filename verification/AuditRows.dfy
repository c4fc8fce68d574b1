/**
 * The verdict on the columns of the database, whoever wrote them: which stored receipts
 * count as evidence, when a scan row is complete, and what `full` then means.
 */
module AuditRows {
  import opened Text
  import opened Framing
  import opened Receipts
  import opened ScopeInventory
  import opened InventoryFields
  import opened CompletenessTables
  import opened AuditTheorems
  import opened StoreRuns

  predicate IsDigest(field: Raw<string>) {
    && field.Val? && |field.v| == 64
    && forall i :: 0 <= i < 64 ==> '0' <= field.v[i] <= '9' || 'a' <= field.v[i] <= 'f'
  }

  /** A stored receipt that counts as evidence for its scope. */
  predicate ReceiptSound(sha: string -> string, scope: Scope, r: Receipt) {
    && r.route == Val(RouteOf(scope))
    && r.parentBound == Val(true)
    && r.activeParentFilterApplied.Val? && (scope == ActiveFiltered ==> r.activeParentFilterApplied == Val(true))
    && r.pageCount.Val? && r.pageCount.v >= 1
    && r.terminalReached.Val?
    && IsDigest(r.terminalCursorDigest) && IsDigest(r.threadSetDigest)
    && r.threadCount.Val? && r.lockedCount.Val? && 0 <= r.lockedCount.v <= r.threadCount.v
    && (r.threadCount == Val(0) ==> r.threadSetDigest == Val(sha("")))
    && (scope == ArchivedPrivate || r.authorizationConfirmed == Null)
    && (r.authorizationConfirmed == Null || r.authorizationConfirmed.Val?)
    && (r.authorizationConfirmed == Val(true) ==> r.authorizationCapability == Val(ManageThreads))
    && (r.authorizationConfirmed != Val(true) ==> r.authorizationCapability == Null)
  }

  lemma ReceiptSoundIs(sha: string -> string, scope: Scope, r: Receipt)
    ensures ReceiptValid(sha, scope, r) <==> ReceiptSound(sha, scope, r)
  {
    NothingFramed();
    DigestIs(r.terminalCursorDigest);
    DigestIs(r.threadSetDigest);
  }

  lemma DigestIs(field: Raw<string>)
    ensures HexField(field) <==> IsDigest(field)
  {
  }

  lemma NothingFramed()
    ensures IdsText([]) == ""
  {
  }

  /** A column of receipts of which every one is sound and belongs to a scope of the kind. */
  predicate ReceiptsUsable(sha: string -> string, scan: Scan) {
    && scan.stored.Table? && scan.kind.Some? && !scan.kind.value.OtherKind?
    && forall s :: s in scan.stored.receipts ==> s in ScopesOf(scan.kind.value) && ReceiptSound(sha, s, scan.stored.receipts[s])
  }

  /** The columns agree with the membership rows: in all, and scope by scope. */
  ghost predicate ColumnsAgree(sha: string -> string, scan: Scan)
    requires scan.stored.Table?
  {
    && scan.threadCount == |scan.members| && scan.threadSetDigest == sha(SetText(scan.members.Keys))
    && (forall t :: t in scan.members ==> scan.members[t].Some? && scan.members[t].value in scan.stored.receipts)
    && forall s :: s in scan.stored.receipts ==>
         var members := set t | t in scan.members && scan.members[t] == Some(s);
         scan.stored.receipts[s].threadCount == Val(|members|) && scan.stored.receipts[s].threadSetDigest == Val(sha(SetText(members)))
  }

  /** A scan row that proves its parent's threads: usable receipts that agree, every scope read to the end, the private archive authorised. */
  ghost predicate ScanProves(sha: string -> string, scan: Scan) {
    && ReceiptsUsable(sha, scan) && ColumnsAgree(sha, scan)
    && (forall s :: s in ScopesOf(scan.kind.value) ==> s in scan.stored.receipts && scan.stored.receipts[s].terminalReached == Val(true))
    && (scan.kind.value.TextChannel? ==>
          ArchivedPrivate in scan.stored.receipts && scan.stored.receipts[ArchivedPrivate].authorizationConfirmed == Val(true))
  }

  lemma UsableIs(sha: string -> string, scan: Scan)
    ensures UsableReceipts(sha, scan.stored, scan.kind).1 <==> ReceiptsUsable(sha, scan)
    ensures ReceiptsUsable(sha, scan) ==> UsableOf(sha, scan) == scan.stored.receipts && RequiredFor(scan.kind) == ScopesOf(scan.kind.value)
  {
    hide ReceiptValid, ReceiptSound;
    if scan.stored.Table? {
      forall s | s in scan.stored.receipts ensures ReceiptValid(sha, s, scan.stored.receipts[s]) <==> ReceiptSound(sha, s, scan.stored.receipts[s]) {
        ReceiptSoundIs(sha, s, scan.stored.receipts[s]);
      }
    }
    if scan.kind.Some? { assert ScopesOf(scan.kind.value) == RequiredScopes(scan.kind.value); }
  }

  /** Saved evidence agrees exactly when receipts are usable and the columns agree; the sum of counts then agrees by itself. */
  lemma ReconciledByFields(sha: string -> string, scan: Scan)
    ensures Reconciled(sha, scan) <==> ReceiptsUsable(sha, scan) && ColumnsAgree(sha, scan)
  {
    hide UsableReceipts, ReceiptsUsable, SetText, CountSum;
    UsableIs(sha, scan);
    if ReceiptsUsable(sha, scan) {
      UsableHasTable(sha, scan);
      AgreeIs(sha, scan);
      if ColumnsAgree(sha, scan) { CountsAddUp(sha, scan); }
    }
  }

  lemma UsableHasTable(sha: string -> string, scan: Scan)
    requires ReceiptsUsable(sha, scan)
    ensures scan.stored.Table? && scan.kind.Some?
  {
    hide ReceiptSound;
  }

  lemma AgreeIs(sha: string -> string, scan: Scan)
    requires scan.stored.Table?
    ensures ColumnsAgree(sha, scan) <==>
              && |Threads(scan)| == scan.threadCount && SetDigest(sha, Threads(scan)) == scan.threadSetDigest
              && (forall t :: t in scan.members ==> scan.members[t].Some? && scan.members[t].value in scan.stored.receipts)
              && (forall s :: s in scan.stored.receipts ==>
                    && scan.stored.receipts[s].threadCount == Val(|ScopeThreads(scan, Some(s))|)
                    && scan.stored.receipts[s].threadSetDigest == Val(SetDigest(sha, ScopeThreads(scan, Some(s)))))
  {
    hide SetText;
    assert |scan.members| == |scan.members.Keys|;
    forall s ensures ScopeThreads(scan, Some(s)) == set t | t in scan.members && scan.members[t] == Some(s) { }
  }

  lemma CountsAddUp(sha: string -> string, scan: Scan)
    requires ReceiptsUsable(sha, scan) && scan.stored.Table? && ColumnsAgree(sha, scan)
    ensures CountSum(scan.stored.receipts, RequiredFor(scan.kind)) == |Threads(scan)|
  {
    hide SetText, ReceiptSound;
    UsableIs(sha, scan);
    var scopes := RequiredFor(scan.kind);
    RequiredAreDistinct(scan.kind.value);
    forall s | s in scan.stored.receipts ensures scan.stored.receipts[s].threadCount == Val(|ScopeThreads(scan, Some(s))|) {
      assert ScopeThreads(scan, Some(s)) == set t | t in scan.members && scan.members[t] == Some(s);
    }
    CountSumIsUnion(scan, scan.stored.receipts, scopes);
    assert (set t | t in scan.members && scan.members[t].value in scopes) == Threads(scan);
  }

  lemma CompleteByFields(sha: string -> string, scan: Scan)
    ensures Complete(sha, scan) <==> ScanProves(sha, scan)
  {
    hide Reconciled, ReceiptsUsable, ColumnsAgree, UsableReceipts;
    ReconciledByFields(sha, scan);
    UsableIs(sha, scan);
    if ReceiptsUsable(sha, scan) { UsableHasTable(sha, scan); KindHasScopes(sha, scan); }
  }

  lemma KindHasScopes(sha: string -> string, scan: Scan)
    requires ReceiptsUsable(sha, scan)
    ensures scan.kind.Some? && ScopesOf(scan.kind.value) != []
  {
    hide ReceiptSound;
  }

  /** Two scans name one kind of parent and put the same threads under each of its scopes. */
  ghost predicate SameThreads(a: Scan, b: Scan) {
    && a.kind == b.kind && a.kind.Some?
    && forall s, t :: s in ScopesOf(a.kind.value) ==>
         (t in a.members && a.members[t] == Some(s) <==> t in b.members && b.members[t] == Some(s))
  }

  lemma SameThreadsIs(a: Scan, b: Scan)
    requires a.kind.Some? && !a.kind.value.OtherKind?
    ensures SameThreads(a, b) <==> SameThreadSets(a, b)
  {
    assert ScopesOf(a.kind.value) == RequiredFor(a.kind);
    forall s, scan ensures forall t :: t in ScopeThreads(scan, Some(s)) <==> t in scan.members && scan.members[t] == Some(s) { }
    if SameThreads(a, b) {
      forall s | s in RequiredFor(a.kind) ensures ScopeThreads(a, Some(s)) == ScopeThreads(b, Some(s)) {
        forall t ensures t in ScopeThreads(a, Some(s)) <==> t in ScopeThreads(b, Some(s)) { }
      }
    }
  }

  /**
   * For arbitrary tables: the audit of a parent says `full` exactly when its two latest rows
   * prove the same threads, and every one of these threads has a certificate that proves a
   * full capture.
   */
  lemma FullByRows(sha: string -> string, db: Tables, parent: string)
    requires forall i: nat, j: nat :: AreLatestTwo(db.scans, parent, i, j) ==>
               CollisionFree(sha, EvidenceTexts(db.scans[i]) + EvidenceTexts(db.scans[j]))
    ensures AuditReport(sha, db, parent).status == Full <==>
              exists i: nat, j: nat ::
                && AreLatestTwo(db.scans, parent, i, j)
                && ScanProves(sha, db.scans[i]) && ScanProves(sha, db.scans[j]) && SameThreads(db.scans[i], db.scans[j])
                && forall t :: t in db.scans[i].members ==> (parent, t) in db.certificates && ProvesFull(db.certificates[(parent, t)])
  {
    hide LatestTwo, Complete, SameThreadSets, AuditReport, ScanProves, SameThreads, ProvesFull, EvidenceTexts, Newer;
    var latest := LatestTwo(db.scans, parent);
    LatestTwoExact(db.scans, parent);
    if |latest| == 2 {
      var i: nat, j: nat :| AreLatestTwo(db.scans, parent, i, j);
      assert CollisionFree(sha, EvidenceTexts(db.scans[i]) + EvidenceTexts(db.scans[j]));
    }
    FullExact(sha, db, parent);
    forall i: nat, j: nat | AreLatestTwo(db.scans, parent, i, j)
      ensures latest == [db.scans[i], db.scans[j]]
      ensures Complete(sha, db.scans[i]) <==> ScanProves(sha, db.scans[i])
      ensures Complete(sha, db.scans[j]) <==> ScanProves(sha, db.scans[j])
      ensures ScanProves(sha, db.scans[i]) ==> (SameThreadSets(db.scans[i], db.scans[j]) <==> SameThreads(db.scans[i], db.scans[j]))
    {
      CompleteByFields(sha, db.scans[i]);
      CompleteByFields(sha, db.scans[j]);
      if ScanProves(sha, db.scans[i]) { ProvesHasKind(sha, db.scans[i]); SameThreadsIs(db.scans[i], db.scans[j]); }
    }
  }

  lemma ProvesHasKind(sha: string -> string, scan: Scan)
    requires ScanProves(sha, scan)
    ensures scan.kind.Some? && !scan.kind.value.OtherKind?
  {
    hide ReceiptSound, ColumnsAgree;
  }
}
