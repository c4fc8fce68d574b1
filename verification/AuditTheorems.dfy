/**
 * What the audit verdict means, for every content of the database: the rows
 * may have been written by this program or tampered with.
 */
module AuditTheorems {
  import opened Text
  import opened Framing
  import opened Receipts
  import opened CompletenessTables

  // ------------------------------------------------- the two latest rows

  lemma {:induction false} NewestIsNewest(scans: seq<Scan>, parent: string, skip: int, n: nat)
    requires n <= |scans|
    ensures Newest(scans, parent, skip, n).None? ==>
              forall k :: 0 <= k < n && k != skip ==> scans[k].parent != parent
    ensures Newest(scans, parent, skip, n).Some? ==>
              forall k :: 0 <= k < n && k != skip && k != Newest(scans, parent, skip, n).value && scans[k].parent == parent
                ==> Newer(scans, Newest(scans, parent, skip, n).value, k)
  {
    if n > 0 {
      NewestIsNewest(scans, parent, skip, n - 1);
      var before, now := Newest(scans, parent, skip, n - 1), Newest(scans, parent, skip, n);
      if before.Some? {
        LessTotal(scans[before.value].observedAt, scans[n - 1].observedAt);
        if now == Some(n - 1) {
          forall k | 0 <= k < n - 1 && k != skip && k != before.value && scans[k].parent == parent
            ensures Newer(scans, n - 1, k)
          {
            NewerTransitive(scans, n - 1, before.value, k);
          }
        }
      }
    }
  }

  lemma NewerTransitive(scans: seq<Scan>, i: nat, j: nat, k: nat)
    requires i < |scans| && j < |scans| && k < |scans| && Newer(scans, i, j) && Newer(scans, j, k)
    ensures Newer(scans, i, k)
  {
    if Less(scans[k].observedAt, scans[j].observedAt) && Less(scans[j].observedAt, scans[i].observedAt) {
      LessTransitive(scans[k].observedAt, scans[j].observedAt, scans[i].observedAt);
    }
  }

  lemma NewerAsymmetric(scans: seq<Scan>, i: nat, j: nat)
    requires i < |scans| && j < |scans| && Newer(scans, i, j)
    ensures i != j && !Newer(scans, j, i)
  {
    LessIrreflexive(scans[i].observedAt);
    if Less(scans[j].observedAt, scans[i].observedAt) { LessAsymmetric(scans[j].observedAt, scans[i].observedAt); }
  }

  /** Rows `i` and `j` are the newest and the second newest of the parent. */
  ghost predicate AreLatestTwo(scans: seq<Scan>, parent: string, i: nat, j: nat) {
    && i < |scans| && j < |scans| && scans[i].parent == parent && scans[j].parent == parent
    && Newer(scans, i, j)
    && forall k :: 0 <= k < |scans| && scans[k].parent == parent && k != i && k != j ==> Newer(scans, j, k)
  }

  /** The query finds the two newest rows, and finds two whenever there are two. */
  lemma LatestTwoExact(scans: seq<Scan>, parent: string)
    ensures |LatestTwo(scans, parent)| == 2 <==> exists i: nat, j: nat :: AreLatestTwo(scans, parent, i, j)
    ensures forall i: nat, j: nat :: AreLatestTwo(scans, parent, i, j) ==> LatestTwo(scans, parent) == [scans[i], scans[j]]
  {
    var n := |scans|;
    NewestIsNewest(scans, parent, -1, n);
    var first := Newest(scans, parent, -1, n);
    if first.Some? {
      NewestIsNewest(scans, parent, first.value, n);
      var second := Newest(scans, parent, first.value, n);
      if second.Some? {
        assert AreLatestTwo(scans, parent, first.value, second.value);
      }
    }
    forall i: nat, j: nat | AreLatestTwo(scans, parent, i, j) ensures LatestTwo(scans, parent) == [scans[i], scans[j]] {
      LatestTwoUnique(scans, parent, i, j);
    }
  }

  lemma LatestTwoUnique(scans: seq<Scan>, parent: string, i: nat, j: nat)
    requires AreLatestTwo(scans, parent, i, j)
    ensures LatestTwo(scans, parent) == [scans[i], scans[j]]
  {
    var n := |scans|;
    NewestIsNewest(scans, parent, -1, n);
    var first := Newest(scans, parent, -1, n);
    NewerAsymmetric(scans, i, j);
    if first.value != i {
      assert Newer(scans, first.value, i);
      if first.value == j {
      } else {
        NewerTransitive(scans, i, j, first.value);
        NewerAsymmetric(scans, i, first.value);
      }
    }
    NewestIsNewest(scans, parent, i, n);
    var second := Newest(scans, parent, i, n);
    if second.value != j {
      assert Newer(scans, second.value, j) && Newer(scans, j, second.value);
      NewerAsymmetric(scans, j, second.value);
    }
  }

  // ------------------------------------------------- `full` against rows

  /** The texts whose digests the audit of a scan compares. */
  ghost function EvidenceTexts(scan: Scan): set<string> {
    {SetText(Threads(scan))} + set s | s in RequiredFor(scan.kind) :: SetText(ScopeThreads(scan, Some(s)))
  }

  /** Two scans name one kind of parent and, scope by scope, the same threads. */
  ghost predicate SameThreadSets(a: Scan, b: Scan) {
    && a.kind == b.kind
    && forall s :: s in RequiredFor(a.kind) ==> ScopeThreads(a, Some(s)) == ScopeThreads(b, Some(s))
  }

  lemma UsableFacts(sha: string -> string, scan: Scan)
    ensures forall s :: s in UsableOf(sha, scan) ==>
              s in RequiredFor(scan.kind) && ReceiptValid(sha, s, UsableOf(sha, scan)[s])
    ensures UsableReceipts(sha, scan.stored, scan.kind).1 ==> scan.stored.Table? && RequiredFor(scan.kind) != []
  {
  }

  /** The threads of a complete scan are those of its required scopes. */
  lemma CompleteScanIsCovered(sha: string -> string, scan: Scan)
    requires Complete(sha, scan)
    ensures forall t :: t in Threads(scan) <==> exists s :: s in RequiredFor(scan.kind) && t in ScopeThreads(scan, Some(s))
  {
    hide UsableOf, CountSum, SetDigest, AllTerminal, PrivateAuthorized;
    UsableFacts(sha, scan);
    forall t | t in Threads(scan) ensures exists s :: s in RequiredFor(scan.kind) && t in ScopeThreads(scan, Some(s)) {
      var s := scan.members[t].value;
      assert s in RequiredFor(scan.kind) && t in ScopeThreads(scan, Some(s));
    }
  }

  lemma SameScopesSameThreads(sha: string -> string, a: Scan, b: Scan)
    requires Complete(sha, a) && Complete(sha, b) && SameThreadSets(a, b)
    ensures Threads(a) == Threads(b)
  {
    hide Complete, RequiredFor, ScopeThreads;
    CompleteScanIsCovered(sha, a);
    CompleteScanIsCovered(sha, b);
    forall t ensures t in Threads(a) <==> t in Threads(b) {
    }
  }

  /** For one scope of two complete scans, equal evidence is equal thread sets. */
  lemma ScopeEvidenceIsSet(sha: string -> string, a: Scan, b: Scan, s: Scope)
    requires Complete(sha, a) && Complete(sha, b) && s in RequiredFor(a.kind) && s in RequiredFor(b.kind)
    ensures ScopeThreads(a, Some(s)) == ScopeThreads(b, Some(s)) ==> SameScopeEvidence(UsableOf(sha, a), UsableOf(sha, b), s)
    ensures SameScopeEvidence(UsableOf(sha, a), UsableOf(sha, b), s)
            && CollisionFree(sha, {SetText(ScopeThreads(a, Some(s))), SetText(ScopeThreads(b, Some(s)))}) ==>
              ScopeThreads(a, Some(s)) == ScopeThreads(b, Some(s))
  {
    hide UsableOf, CountSum, SetText, ScopeThreads, RequiredFor, PrivateAuthorized;
    SetTextInjective(ScopeThreads(a, Some(s)), ScopeThreads(b, Some(s)));
  }

  /** Two complete scans are the same inventory exactly when their thread sets agree scope by scope. */
  lemma SameInventoryIsSets(sha: string -> string, a: Scan, b: Scan)
    requires Complete(sha, a) && Complete(sha, b)
    requires CollisionFree(sha, EvidenceTexts(a) + EvidenceTexts(b))
    ensures SameInventory(sha, a, b) <==> SameThreadSets(a, b)
  {
    hide UsableOf, SameScopeEvidence, ScopeThreads, SetText, CountSum;
    if a.kind == b.kind {
      forall s | s in RequiredFor(a.kind)
        ensures SameScopeEvidence(UsableOf(sha, a), UsableOf(sha, b), s)
                <==> ScopeThreads(a, Some(s)) == ScopeThreads(b, Some(s))
      {
        assert SetText(ScopeThreads(a, Some(s))) in EvidenceTexts(a) && SetText(ScopeThreads(b, Some(s))) in EvidenceTexts(b);
        ScopeEvidenceIsSet(sha, a, b, s);
      }
      if SameThreadSets(a, b) { SameScopesSameThreads(sha, a, b); }
    }
  }

  /** Every thread of the latest scan holds a strict-full certificate. */
  ghost predicate ChildrenFull(db: Tables, parent: string, threads: set<string>) {
    forall t :: t in threads ==> (parent, t) in db.certificates && ProvesFull(db.certificates[(parent, t)])
  }

  /** An audit leaves the certificates of the latest inventory alone. */
  lemma LatestCertificatesStay(sha: string -> string, db: Tables, parent: string, at: string)
    ensures var latest := LatestTwo(db.scans, parent);
            var left := CertificatesOf(AfterAudit(sha, db, parent, at).certificates, parent);
            && (forall t :: t in left ==> (parent, t) in db.certificates && left[t] == db.certificates[(parent, t)])
            && (forall t :: t in LatestThreads(latest) ==> (t in left <==> (parent, t) in db.certificates))
            && (Stable(sha, latest) ==> left.Keys <= LatestThreads(latest))
  {
    hide Stable, LatestTwo, LatestThreads, RetirementRows;
    var latest := LatestTwo(db.scans, parent);
    var after := AfterAudit(sha, db, parent, at).certificates;
    var left := CertificatesOf(after, parent);
    forall t | t in LatestThreads(latest) ensures t in left <==> (parent, t) in db.certificates {
      if (parent, t) in db.certificates {
        assert (parent, t) in after;
        assert t in CertifiedThreads(after, parent);
      }
    }
    if Stable(sha, latest) {
      forall t | t in left ensures t in LatestThreads(latest) {
        assert (parent, t) in after;
        assert t in CertifiedThreads(db.certificates, parent);
      }
    }
  }

  lemma CompleteHasReceipts(sha: string -> string, scan: Scan)
    requires Complete(sha, scan)
    ensures scan.stored.Table?
  {
    UsableFacts(sha, scan);
  }

  lemma CompleteHasNoLatestBlocker(sha: string -> string, latest: seq<Scan>, b: Blocker)
    requires latest != [] && Complete(sha, latest[0])
    ensures !LatestBlocks(sha, latest, b)
  {
    hide Reconciled, UsableOf, RequiredFor;
    CompleteHasReceipts(sha, latest[0]);
    assert ModelOf(latest) == ScopeReceiptsV1;
  }

  lemma StableHasNoInventoryBlocker(sha: string -> string, latest: seq<Scan>, b: Blocker)
    requires Stable(sha, latest)
    ensures !ScanBlocks(sha, latest, b) && !LatestBlocks(sha, latest, b)
  {
    hide Reconciled, UsableOf, SameInventory, LatestBlocks;
    CompleteHasNoLatestBlocker(sha, latest, b);
  }

  /** The verdict is `full` exactly for a stable inventory whose threads all hold strict-full certificates. */
  lemma FullIsStableAndCertified(sha: string -> string, db: Tables, parent: string)
    ensures AuditReport(sha, db, parent).status == Full <==>
              var latest := LatestTwo(db.scans, parent);
              Stable(sha, latest) && ChildrenFull(db, parent, LatestThreads(latest))
  {
    hide Stable, AfterAudit, LatestTwo, ScanBlocks, LatestBlocks, ProvesFull, CertificatesOf;
    var latest := LatestTwo(db.scans, parent);
    var left := LeftAfterAudit(sha, db, parent);
    var threads := LatestThreads(latest);
    LatestCertificatesStay(sha, db, parent, "");
    var blockers := BlockersFor(sha, latest, left);
    if Stable(sha, latest) {
      forall b ensures !ScanBlocks(sha, latest, b) && !LatestBlocks(sha, latest, b) { StableHasNoInventoryBlocker(sha, latest, b); }
      ChildrenFullMeansNoBlocker(db, parent, threads, left);
      assert forall b :: b in blockers <==> ChildBlocks(threads, left, b);
      assert blockers == {} <==> forall b :: b !in blockers;
    } else {
      UnstableIsBlocked(sha, latest);
      var b :| ScanBlocks(sha, latest, b);
      assert b in blockers;
    }
  }

  lemma UnstableIsBlocked(sha: string -> string, latest: seq<Scan>)
    requires !Stable(sha, latest) && |latest| <= 2
    ensures exists b :: ScanBlocks(sha, latest, b)
  {
    if |latest| < 2 { assert ScanBlocks(sha, latest, StableScanCountInsufficient); }
    else if !BothComplete(sha, latest) { assert ScanBlocks(sha, latest, RescanIncomplete); }
    else { assert ScanBlocks(sha, latest, RescanNotStable); }
  }

  lemma ChildrenFullMeansNoBlocker(db: Tables, parent: string, threads: set<string>, left: map<string, Certificate>)
    requires forall t :: t in left ==> (parent, t) in db.certificates && left[t] == db.certificates[(parent, t)]
    requires forall t :: t in threads ==> (t in left <==> (parent, t) in db.certificates)
    requires left.Keys <= threads
    ensures ChildrenFull(db, parent, threads) <==> forall b :: !ChildBlocks(threads, left, b)
  {
    if ChildrenFull(db, parent, threads) {
      forall b ensures !ChildBlocks(threads, left, b) {
      }
    }
    if forall b :: !ChildBlocks(threads, left, b) {
      assert !ChildBlocks(threads, left, ChildCertificateMissing) && !ChildBlocks(threads, left, ChildStrictFullFailed);
      forall t | t in threads ensures (parent, t) in db.certificates && ProvesFull(db.certificates[(parent, t)]) {
        assert t !in threads - left.Keys;
      }
    }
  }

  /** Soundness and completeness of `full` over arbitrary database contents, in terms of thread sets. */
  lemma FullExact(sha: string -> string, db: Tables, parent: string)
    requires var latest := LatestTwo(db.scans, parent);
             |latest| == 2 ==> CollisionFree(sha, EvidenceTexts(latest[0]) + EvidenceTexts(latest[1]))
    ensures AuditReport(sha, db, parent).status == Full <==>
              var latest := LatestTwo(db.scans, parent);
              && |latest| == 2 && Complete(sha, latest[0]) && Complete(sha, latest[1])
              && SameThreadSets(latest[0], latest[1])
              && ChildrenFull(db, parent, Threads(latest[0]))
  {
    hide LatestTwo, Complete, SameInventory, SameThreadSets, ChildrenFull, AuditReport;
    FullIsStableAndCertified(sha, db, parent);
    var latest := LatestTwo(db.scans, parent);
    if |latest| == 2 && Complete(sha, latest[0]) && Complete(sha, latest[1]) {
      SameInventoryIsSets(sha, latest[0], latest[1]);
    }
  }

  // ------------------------------------------------- retirement

  /** Certificates before = certificates after + retired; every other certificate stays as it is. */
  lemma RetirementConserves(sha: string -> string, db: Tables, parent: string, at: string)
    ensures var after := AfterAudit(sha, db, parent, at);
            var retired := Retired(sha, db, parent);
            && |db.certificates| == |after.certificates| + |retired|
            && (forall t :: t in retired ==> (parent, t) in db.certificates && (parent, t) !in after.certificates)
            && (forall k :: k in db.certificates && !(k.0 == parent && k.1 in retired) ==>
                  k in after.certificates && after.certificates[k] == db.certificates[k])
            && after.certificates.Keys <= db.certificates.Keys
            && after.scans == db.scans && after.parents == db.parents
            && (!Stable(sha, LatestTwo(db.scans, parent)) ==> after == db)
  {
    hide Stable, LatestTwo, Retired, RetirementRows;
    var after := AfterAudit(sha, db, parent, at);
    var retired := Retired(sha, db, parent);
    RetiredAreCertified(sha, db, parent);
    var gone := set t | t in retired :: (parent, t);
    assert after.certificates.Keys == db.certificates.Keys - gone;
    assert gone <= db.certificates.Keys;
    PairsOf(parent, retired);
    if !Stable(sha, LatestTwo(db.scans, parent)) {
      UnstableRetiresNothing(sha, db, parent);
      RetiringNothing(sha, db, parent, at);
    }
  }

  /** Each retired certificate leaves exactly one row in the log. */
  lemma RetirementIsLogged(sha: string -> string, db: Tables, parent: string, at: string)
    ensures var after := AfterAudit(sha, db, parent, at);
            var retired := Retired(sha, db, parent);
            && |after.retirements| == |db.retirements| + |retired|
            && db.retirements <= after.retirements
            && (forall t :: t in retired ==>
                  && (parent, t) in db.certificates
                  && Retirement(parent, t, db.certificates[(parent, t)].captureId, at) in after.retirements)
  {
    hide Stable, LatestTwo, Retired;
    var retired := Retired(sha, db, parent);
    RetiredAreCertified(sha, db, parent);
    RowsOf(db, parent, retired, at);
    var rows := set t | t in retired :: Retirement(parent, t, db.certificates[(parent, t)].captureId, at);
    assert AfterAudit(sha, db, parent, at).retirements == db.retirements + multiset(rows);
    assert |multiset(rows)| == |rows|;
    forall t | t in retired
      ensures Retirement(parent, t, db.certificates[(parent, t)].captureId, at) in AfterAudit(sha, db, parent, at).retirements
    {
      assert Retirement(parent, t, db.certificates[(parent, t)].captureId, at) in rows;
    }
  }

  lemma UnstableRetiresNothing(sha: string -> string, db: Tables, parent: string)
    requires !Stable(sha, LatestTwo(db.scans, parent))
    ensures Retired(sha, db, parent) == {}
  {
  }

  lemma {:induction false} PairsOf(parent: string, threads: set<string>)
    ensures |set t | t in threads :: (parent, t)| == |threads|
  {
    if threads != {} {
      var t :| t in threads;
      PairsOf(parent, threads - {t});
      assert (set u | u in threads :: (parent, u)) == (set u | u in threads - {t} :: (parent, u)) + {(parent, t)};
    }
  }

  lemma {:induction false} RowsOf(db: Tables, parent: string, threads: set<string>, at: string)
    requires forall t :: t in threads ==> (parent, t) in db.certificates
    ensures |set t | t in threads :: Retirement(parent, t, db.certificates[(parent, t)].captureId, at)| == |threads|
  {
    if threads != {} {
      var t :| t in threads;
      RowsOf(db, parent, threads - {t}, at);
      var rest := set u | u in threads - {t} :: Retirement(parent, u, db.certificates[(parent, u)].captureId, at);
      var row := Retirement(parent, t, db.certificates[(parent, t)].captureId, at);
      assert row !in rest;
      assert (set u | u in threads :: Retirement(parent, u, db.certificates[(parent, u)].captureId, at)) == rest + {row};
    }
  }

  lemma NothingMoreToRetire(sha: string -> string, db: Tables, parent: string, at: string)
    ensures Retired(sha, AfterAudit(sha, db, parent, at), parent) == {}
  {
    hide Stable, LatestTwo, LatestThreads, RetirementRows;
    var after := AfterAudit(sha, db, parent, at);
    var latest := LatestTwo(db.scans, parent);
    if Stable(sha, latest) {
      forall t | t in CertifiedThreads(after.certificates, parent) ensures t in LatestThreads(latest) {
        assert (parent, t) in after.certificates;
        assert t in CertifiedThreads(db.certificates, parent);
      }
    }
  }

  lemma RetiringNothing(sha: string -> string, db: Tables, parent: string, at: string)
    requires Retired(sha, db, parent) == {}
    ensures AfterAudit(sha, db, parent, at) == db
  {
    hide Retired;
    assert RetirementRows(db, parent, {}, at) == multiset{};
  }

  /** Auditing again at once changes nothing and repeats the verdict, with nothing left to retire. */
  lemma {:induction false} AuditSettles(sha: string -> string, db: Tables, parent: string, at: string, again: string)
    ensures var after := AfterAudit(sha, db, parent, at);
            && AfterAudit(sha, after, parent, again) == after
            && AuditReport(sha, after, parent) == AuditReport(sha, db, parent).(retired := 0)
  {
    var after := AfterAudit(sha, db, parent, at);
    NothingMoreToRetire(sha, db, parent, at);
    RetiringNothing(sha, after, parent, again);
    RetiringNothing(sha, after, parent, "");
    assert LeftAfterAudit(sha, after, parent) == LeftAfterAudit(sha, db, parent) by {
      hide Retired, RetirementRows;
      assert AfterAudit(sha, db, parent, "").certificates == after.certificates;
    }
    SameReport(sha, db, after, parent);
  }

  /** The report depends on the latest scans, the certificates left and the number retired. */
  lemma SameReport(sha: string -> string, a: Tables, b: Tables, parent: string)
    requires LatestTwo(a.scans, parent) == LatestTwo(b.scans, parent)
    requires LeftAfterAudit(sha, a, parent) == LeftAfterAudit(sha, b, parent)
    ensures AuditReport(sha, b, parent) == AuditReport(sha, a, parent).(retired := |Retired(sha, b, parent)|)
  {
    hide LatestTwo, LeftAfterAudit, Retired, Stable, BothComplete, Exhausted, ModelOf, RequiredNow, ReceiptsNow, LockedSum,
         FullChildren, BlockersFor, LatestThreads, Reconciled, PrivateAuthorized;
  }

  // ------------------------------------------------- back-dated scans

  /** A scan older than both latest scans cannot change the verdict of any parent. */
  lemma BackdatedScanIsIgnored(sha: string -> string, db: Tables, late: Scan, parent: string)
    requires |LatestTwo(db.scans, late.parent)| == 2
    requires Less(late.observedAt, LatestTwo(db.scans, late.parent)[1].observedAt)
    ensures AuditReport(sha, db.(scans := db.scans + [late]), parent) == AuditReport(sha, db, parent)
  {
    var db' := db.(scans := db.scans + [late]);
    LatestTwoUnmoved(db.scans, late, parent);
    assert Retired(sha, db', parent) == Retired(sha, db, parent) by { hide LatestTwo, Stable; }
    assert LeftAfterAudit(sha, db', parent) == LeftAfterAudit(sha, db, parent) by { hide LatestTwo, Retired, RetirementRows; }
    SameReport(sha, db, db', parent);
  }

  lemma LatestTwoUnmoved(scans: seq<Scan>, late: Scan, parent: string)
    requires |LatestTwo(scans, late.parent)| == 2
    requires Less(late.observedAt, LatestTwo(scans, late.parent)[1].observedAt)
    ensures LatestTwo(scans + [late], parent) == LatestTwo(scans, parent)
  {
    var more := scans + [late];
    if parent == late.parent {
      hide LatestTwo;
      LatestTwoExact(scans, parent);
      var i: nat, j: nat :| AreLatestTwo(scans, parent, i, j);
      BackdatedNotLatest(scans, late, parent, i, j);
      LatestTwoUnique(more, parent, i, j);
    } else {
      hide Newest;
      OtherParentsIgnored(scans, late, parent, -1, |scans|);
      var first := Newest(scans, parent, -1, |scans|);
      if first.Some? { OtherParentsIgnored(scans, late, parent, first.value, |scans|); }
    }
  }

  lemma BackdatedNotLatest(scans: seq<Scan>, late: Scan, parent: string, i: nat, j: nat)
    requires AreLatestTwo(scans, parent, i, j) && Less(late.observedAt, scans[j].observedAt)
    ensures AreLatestTwo(scans + [late], parent, i, j)
  {
    var more := scans + [late];
    forall k | 0 <= k < |more| && more[k].parent == parent && k != i && k != j ensures Newer(more, j, k) {
      if k < |scans| { assert Newer(scans, j, k); }
    }
  }

  lemma {:induction false} OtherParentsIgnored(scans: seq<Scan>, late: Scan, parent: string, skip: int, n: nat)
    requires n <= |scans| && late.parent != parent
    ensures Newest(scans + [late], parent, skip, n) == Newest(scans, parent, skip, n)
    ensures n == |scans| ==> Newest(scans + [late], parent, skip, n + 1) == Newest(scans, parent, skip, n)
  {
    if n > 0 { OtherParentsIgnored(scans, late, parent, skip, n - 1); }
  }
}
