/**
 * `CompletenessStore`: the operations as the program performs them, on mutable
 * tables. Each method is tied to the function on tables that specifies it.
 */
module CompletenessStore {
  import opened Text
  import opened Framing
  import opened Times
  import opened Receipts
  import opened CompletenessTables

  /** `xs` lists the members of `s`, each once. */
  ghost predicate Lists(xs: seq<string>, s: set<string>) {
    Elements(xs) == s && |xs| == |s|
  }

  lemma ListsAppend(xs: seq<string>, s: set<string>, t: string)
    requires Lists(xs, s) && t !in s
    ensures Lists(xs + [t], s + {t})
  {
    assert Elements(xs + [t]) == Elements(xs) + {t};
  }

  lemma ListsNothing()
    ensures Lists([], {})
  {
  }

  /** The rows of one scope among those already seen. */
  ghost function SeenIn(scan: Scan, done: set<string>, s: Option<Scope>): set<string> {
    ScopeThreads(scan, s) * done
  }

  /** The rows in `done` are listed in `ids` and grouped by scope in `groups`. */
  ghost predicate Grouped(scan: Scan, done: set<string>, ids: seq<string>, groups: map<Option<Scope>, seq<string>>) {
    && Lists(ids, done)
    && (forall s :: s in groups ==> Lists(groups[s], SeenIn(scan, done, s)))
    && (forall s :: s in groups <==> SeenIn(scan, done, s) != {})
  }

  function Group(groups: map<Option<Scope>, seq<string>>, s: Option<Scope>): seq<string> {
    if s in groups then groups[s] else []
  }

  lemma SeenStep(scan: Scan, done: set<string>, t: string, s: Option<Scope>)
    requires t in scan.members
    ensures SeenIn(scan, done + {t}, s) == if s == scan.members[t] then SeenIn(scan, done, s) + {t} else SeenIn(scan, done, s)
    ensures SeenIn(scan, done, s) <= done
  {
  }

  lemma GroupedStep(scan: Scan, done: set<string>, ids: seq<string>, groups: map<Option<Scope>, seq<string>>, t: string)
    requires Grouped(scan, done, ids, groups) && t in scan.members && t !in done
    ensures var s := scan.members[t];
            Grouped(scan, done + {t}, ids + [t], groups[s := Group(groups, s) + [t]])
  {
    hide Lists, SeenIn;
    var s := scan.members[t];
    var now := groups[s := Group(groups, s) + [t]];
    ListsAppend(ids, done, t);
    SeenStep(scan, done, t, s);
    ListsNothing();
    ListsAppend(Group(groups, s), SeenIn(scan, done, s), t);
    forall r | r != s ensures SeenIn(scan, done + {t}, r) == SeenIn(scan, done, r) {
      SeenStep(scan, done, t, r);
    }
  }

  /** The finished lists have the sizes and digests of the sets they list. */
  lemma GroupedDecides(sha: string -> string, scan: Scan, ids: seq<string>, groups: map<Option<Scope>, seq<string>>)
    requires Grouped(scan, Threads(scan), ids, groups)
    ensures |ids| == |Threads(scan)| && DigestIds(sha, ids) == SetDigest(sha, Threads(scan))
    ensures forall s :: |Group(groups, s)| == |ScopeThreads(scan, s)|
    ensures forall s :: DigestIds(sha, Group(groups, s)) == SetDigest(sha, ScopeThreads(scan, s))
    ensures forall s :: s in groups <==> exists t :: t in scan.members && scan.members[t] == s
  {
    hide IdsText, SetText;
    IdsTextOfSet(ids);
    forall s ensures |Group(groups, s)| == |ScopeThreads(scan, s)|
             ensures DigestIds(sha, Group(groups, s)) == SetDigest(sha, ScopeThreads(scan, s))
             ensures s in groups <==> ScopeThreads(scan, s) != {} {
      assert SeenIn(scan, Threads(scan), s) == ScopeThreads(scan, s);
      ListsNothing();
      IdsTextOfSet(Group(groups, s));
    }
    forall s ensures ScopeThreads(scan, s) != {} <==> exists t :: t in scan.members && scan.members[t] == s {
      if ScopeThreads(scan, s) != {} {
        var t :| t in ScopeThreads(scan, s);
        assert scan.members[t] == s;
      }
      if t :| t in scan.members && scan.members[t] == s {
        assert t in ScopeThreads(scan, s);
      }
    }
  }

  /** The loop over the membership rows of a scan. */
  method GroupMembership(scan: Scan) returns (ids: seq<string>, groups: map<Option<Scope>, seq<string>>)
    ensures Grouped(scan, Threads(scan), ids, groups)
  {
    hide Grouped;
    ids, groups := [], map[];
    var rest := scan.members.Keys;
    GroupedStart(scan);
    while rest != {}
      invariant rest <= scan.members.Keys
      invariant Grouped(scan, scan.members.Keys - rest, ids, groups)
      decreases rest
    {
      var t :| t in rest;
      ghost var done := scan.members.Keys - rest;
      GroupedStep(scan, done, ids, groups, t);
      rest := rest - {t};
      ids, groups := ids + [t], groups[scan.members[t] := Group(groups, scan.members[t]) + [t]];
      assert scan.members.Keys - rest == done + {t};
    }
    assert scan.members.Keys - rest == Threads(scan);
  }

  /** The comparison of the stored receipts with the listed rows. */
  predicate SavedAgree(sha: string -> string, scan: Scan, receipts: map<Scope, Receipt>, ids: seq<string>,
                       groups: map<Option<Scope>, seq<string>>) {
    && |ids| == scan.threadCount && DigestIds(sha, ids) == scan.threadSetDigest
    && (forall s :: s in groups ==> s.Some? && s.value in receipts)
    && (forall s :: s in receipts ==>
          && receipts[s].threadCount == Val(|Group(groups, Some(s))|)
          && receipts[s].threadSetDigest == Val(DigestIds(sha, Group(groups, Some(s)))))
    && CountSum(receipts, RequiredFor(scan.kind)) == |ids|
  }

  /** Rows and groups name the same scopes. */
  lemma ScopesOfGroups(scan: Scan, groups: map<Option<Scope>, seq<string>>, receipts: map<Scope, Receipt>)
    requires forall s :: s in groups <==> exists t :: t in scan.members && scan.members[t] == s
    ensures (forall s :: s in groups ==> s.Some? && s.value in receipts)
      <==> (forall t :: t in scan.members ==> scan.members[t].Some? && scan.members[t].value in receipts)
  {
    if forall s :: s in groups ==> s.Some? && s.value in receipts {
      forall t | t in scan.members ensures scan.members[t].Some? && scan.members[t].value in receipts {
        assert scan.members[t] in groups;
      }
    }
  }

  lemma SavedAgreeIsReconciled(sha: string -> string, scan: Scan, ids: seq<string>, groups: map<Option<Scope>, seq<string>>)
    requires Grouped(scan, Threads(scan), ids, groups) && UsableReceipts(sha, scan.stored, scan.kind).1
    ensures SavedAgree(sha, scan, UsableOf(sha, scan), ids, groups) <==> Reconciled(sha, scan)
  {
    hide Grouped, UsableOf, UsableReceipts, CountSum, DigestIds, SetDigest, Group, ScopeThreads, RequiredFor;
    var receipts := UsableOf(sha, scan);
    GroupedDecides(sha, scan, ids, groups);
    ScopesOfGroups(scan, groups, receipts);
  }

  /** Re-reads one saved scan: its usable receipts, and whether they reconcile with the rows. */
  method VerifySaved(sha: string -> string, scan: Scan) returns (receipts: map<Scope, Receipt>, ok: bool)
    ensures receipts == UsableOf(sha, scan) && ok == Reconciled(sha, scan)
  {
    hide Grouped, SavedAgree, UsableReceipts;
    var usable := UsableReceipts(sha, scan.stored, scan.kind);
    receipts := usable.0;
    var ids, groups := GroupMembership(scan);
    ok := usable.1 && SavedAgree(sha, scan, receipts, ids, groups);
    if usable.1 { SavedAgreeIsReconciled(sha, scan, ids, groups); }
  }

  lemma GroupedStart(scan: Scan)
    ensures Grouped(scan, scan.members.Keys - scan.members.Keys, [], map[])
  {
    assert scan.members.Keys - scan.members.Keys == {};
    forall s ensures SeenIn(scan, {}, s) == {} {
    }
  }

  // -------------------------------------------------- parts of the audit

  /** The comparison of the two latest scans. */
  method ReviewScans(sha: string -> string, latest: seq<Scan>)
    returns (blockers: seq<Blocker>, bothComplete: bool, stable: bool, latestOk: bool)
    requires |latest| <= 2
    ensures forall b :: b in blockers <==> ScanBlocks(sha, latest, b)
    ensures bothComplete == BothComplete(sha, latest) && stable == Stable(sha, latest)
    ensures latest != [] ==> latestOk == Reconciled(sha, latest[0])
  {
    hide Reconciled, UsableOf, AllTerminal, PrivateAuthorized, SameInventory, RequiredFor;
    blockers, bothComplete, stable, latestOk := [], |latest| == 2, false, false;
    if |latest| < 2 { blockers := [StableScanCountInsufficient]; }
    for k := 0 to |latest|
      invariant forall b :: b in blockers <==>
                  (b == StableScanCountInsufficient && |latest| < 2)
                  || (b == SavedEvidenceMismatch && exists m :: 0 <= m < k && !Reconciled(sha, latest[m]))
      invariant bothComplete <==> |latest| == 2 && forall m :: 0 <= m < k ==> Complete(sha, latest[m])
      invariant k > 0 ==> latestOk == Reconciled(sha, latest[0])
    {
      var receipts, ok := VerifySaved(sha, latest[k]);
      if !ok { blockers := blockers + [SavedEvidenceMismatch]; }
      if k == 0 { latestOk := ok; }
      var required := RequiredFor(latest[k].kind);
      var complete := ok && required != [] && AllTerminal(receipts, required) && PrivateAuthorized(latest[k].kind, receipts);
      bothComplete := bothComplete && complete;
    }
    if |latest| == 2 {
      assert BothComplete(sha, latest) == bothComplete;
      if !bothComplete { blockers := blockers + [RescanIncomplete]; }
      var digestMatch := SameInventory(sha, latest[0], latest[1]);
      stable := bothComplete && digestMatch;
      if bothComplete && !digestMatch { blockers := blockers + [RescanNotStable]; }
    }
  }

  /** The review of the latest scan on its own. */
  method ReviewLatest(sha: string -> string, latest: seq<Scan>, latestOk: bool)
    returns (blockers: seq<Blocker>, exhausted: bool, complete: bool)
    requires latest != [] ==> latestOk == Reconciled(sha, latest[0])
    ensures forall b :: b in blockers <==> LatestBlocks(sha, latest, b)
    ensures exhausted == Exhausted(sha, latest)
    ensures complete <==> ModelOf(latest) == ScopeReceiptsV1 && Reconciled(sha, latest[0]) && Exhausted(sha, latest)
                          && PrivateAuthorized(latest[0].kind, ReceiptsNow(sha, latest))
  {
    hide Reconciled, UsableOf, PrivateAuthorized, RequiredFor;
    blockers, exhausted, complete := [], false, false;
    if latest == [] { return [ParentInventoryMissing], false, false; }
    if latest[0].stored.NoReceipts? {
      blockers := [ScopeReceiptsMissing];
    } else {
      var receipts := UsableOf(sha, latest[0]);
      var required := RequiredFor(latest[0].kind);
      assert receipts == ReceiptsNow(sha, latest) && required == RequiredNow(latest);
      if !latestOk { blockers := blockers + [ScopeReceiptsInvalid]; }
      exhausted := required != [] && AllTerminal(receipts, required);
      complete := latestOk && exhausted;
      if exists s :: s in required && s !in receipts { blockers := blockers + [ScopeIncomplete]; }
      if !PrivateAuthorized(latest[0].kind, receipts) {
        blockers := blockers + [PrivateAuthorizationMissing];
        complete := false;
      }
    }
    if !exhausted { blockers := blockers + [PaginationNotExhausted]; }
  }

  /** Both reviews of the inventory scans. */
  method ReviewInventory(sha: string -> string, latest: seq<Scan>)
    returns (blockers: seq<Blocker>, bothComplete: bool, stable: bool, exhausted: bool, complete: bool)
    requires |latest| <= 2
    ensures forall b :: b in blockers <==> ScanBlocks(sha, latest, b) || LatestBlocks(sha, latest, b)
    ensures bothComplete == BothComplete(sha, latest) && stable == Stable(sha, latest)
    ensures exhausted == Exhausted(sha, latest)
    ensures complete <==> ModelOf(latest) == ScopeReceiptsV1 && Reconciled(sha, latest[0]) && Exhausted(sha, latest)
                          && PrivateAuthorized(latest[0].kind, ReceiptsNow(sha, latest))
  {
    hide ScanBlocks, LatestBlocks, BothComplete, Stable, Exhausted, Reconciled, PrivateAuthorized;
    var ofScans, ofLatest: seq<Blocker>, latestOk;
    ofScans, bothComplete, stable, latestOk := ReviewScans(sha, latest);
    ofLatest, exhausted, complete := ReviewLatest(sha, latest, latestOk);
    blockers := ofScans + ofLatest;
  }

  /** What the loop appends for one certificate. */
  function Findings(c: Certificate): seq<Blocker> {
    if StrictFull(c) then []
    else (if c.pendingRetries != 0 then [ChildPendingWork] else [])
         + (if !c.attachmentsConsistent || !AttachmentCountsEqual(c) then [ChildAttachmentFailed] else [])
         + [ChildStrictFullFailed]
  }

  lemma FindingsBlock(threads: set<string>, certificates: map<string, Certificate>, t: string, b: Blocker)
    ensures CertificateBlocks(threads + {t}, certificates, b) <==>
              CertificateBlocks(threads, certificates, b) || (t in certificates && b in Findings(certificates[t]))
  {
    var f := if t in certificates then Findings(certificates[t]) else [];
    assert t in certificates ==> (ChildPendingWork in f <==> certificates[t].pendingRetries != 0);
  }

  lemma FullChildrenStep(threads: set<string>, certificates: map<string, Certificate>, t: string)
    requires t !in threads
    ensures |FullChildren(threads + {t}, certificates)| ==
            |FullChildren(threads, certificates)| + if t in certificates && ProvesFull(certificates[t]) then 1 else 0
  {
    if t in certificates && ProvesFull(certificates[t]) {
      assert FullChildren(threads + {t}, certificates) == FullChildren(threads, certificates) + {t};
    } else {
      assert FullChildren(threads + {t}, certificates) == FullChildren(threads, certificates);
    }
  }

  lemma NothingReviewed(certificates: map<string, Certificate>)
    ensures FullChildren({}, certificates) == {}
    ensures forall b :: !CertificateBlocks({}, certificates, b)
  {
  }

  lemma CertificateBlockKinds(threads: set<string>, certificates: map<string, Certificate>)
    ensures forall b :: CertificateBlocks(threads, certificates, b) ==>
                          b in {ChildPendingWork, ChildAttachmentFailed, ChildStrictFullFailed}
  {
  }

  /** The loop over the threads of the latest scan. */
  method ReviewCertificates(threads: set<string>, certificates: map<string, Certificate>)
    returns (blockers: seq<Blocker>, fullChildren: nat)
    ensures forall b :: b in blockers <==> CertificateBlocks(threads, certificates, b)
    ensures fullChildren == |FullChildren(threads, certificates)|
  {
    hide Findings, StrictFull, ProvesFull, CertificateBlocks, FullChildren;
    blockers, fullChildren := [], 0;
    var rest := threads;
    NothingReviewed(certificates);
    assert threads - rest == {};
    while rest != {}
      invariant rest <= threads
      invariant forall b :: b in blockers <==> CertificateBlocks(threads - rest, certificates, b)
      invariant fullChildren == |FullChildren(threads - rest, certificates)|
      decreases rest
    {
      var t :| t in rest;
      ghost var done := threads - rest;
      rest := rest - {t};
      assert threads - rest == done + {t};
      forall b { FindingsBlock(done, certificates, t, b); }
      FullChildrenStep(done, certificates, t);
      if t in certificates {
        StrictFullIs(certificates[t]);
        if StrictFull(certificates[t]) { fullChildren := fullChildren + 1; }
        blockers := blockers + Findings(certificates[t]);
      }
    }
    assert threads - rest == threads;
  }

  /** The review of the children. */
  method ReviewChildren(threads: set<string>, certificates: map<string, Certificate>)
    returns (blockers: seq<Blocker>, fullChildren: nat)
    ensures forall b :: b in blockers <==> ChildBlocks(threads, certificates, b)
    ensures fullChildren == |FullChildren(threads, certificates)|
  {
    hide CertificateBlocks, FullChildren;
    var missing, extra := threads - certificates.Keys, certificates.Keys - threads;
    var first := (if missing != {} then [ChildCertificateMissing] else [])
      + (if extra != {} then [ChildCertificateNotInLatest] else []);
    var each, full := ReviewCertificates(threads, certificates);
    blockers, fullChildren := first + each, full;
    CertificateBlockKinds(threads, certificates);
    forall b ensures b in blockers <==> ChildBlocks(threads, certificates, b) {
      assert b in blockers <==> b in first || b in each;
    }
  }

  // -------------------------------------------------- retirement

  lemma RowsStep(db: Tables, parent: string, gone: set<string>, t: string, at: string)
    requires t !in gone && forall u :: u in gone + {t} ==> (parent, u) in db.certificates
    ensures RetirementRows(db, parent, gone + {t}, at) ==
            RetirementRows(db, parent, gone, at)
            + multiset{Retirement(parent, t, db.certificates[(parent, t)].captureId, at)}
  {
    var row := Retirement(parent, t, db.certificates[(parent, t)].captureId, at);
    var rows := set u | u in gone :: Retirement(parent, u, db.certificates[(parent, u)].captureId, at);
    assert (set u | u in gone + {t} :: Retirement(parent, u, db.certificates[(parent, u)].captureId, at)) == rows + {row};
    assert row !in rows;
  }

  lemma NothingRetired(db: Tables, parent: string, at: string)
    ensures AfterRetiring(db, parent, {}, at) == db
  {
    assert RetirementRows(db, parent, {}, at) == multiset{};
  }

  /** Moving one more certificate into the log. */
  lemma RetireStep(db: Tables, parent: string, gone: set<string>, t: string, at: string)
    requires t !in gone && forall u :: u in gone + {t} ==> (parent, u) in db.certificates
    ensures var before := AfterRetiring(db, parent, gone, at);
            && (parent, t) in before.certificates
            && AfterRetiring(db, parent, gone + {t}, at) ==
               before.(certificates := before.certificates - {(parent, t)},
                       retirements := before.retirements
                         + multiset{Retirement(parent, t, before.certificates[(parent, t)].captureId, at)})
  {
    hide RetirementRows;
    RowsStep(db, parent, gone, t, at);
  }

  // -------------------------------------------------- dict.fromkeys

  function FromKeys(xs: seq<Blocker>): (r: seq<Blocker>)
    ensures Distinct(r) && forall b :: b in r <==> b in xs
  {
    if xs == [] then []
    else
      var n := |xs| - 1;
      var r := FromKeys(xs[..n]);
      if xs[n] in r then r else r + [xs[n]]
  }

  // -------------------------------------------------- the store

  class CompletenessStore {
    const sha: string -> string
    var parents: set<string>
    var scans: seq<Scan>
    var certificates: map<Child, Certificate>
    var retirements: multiset<Retirement>

    ghost function Db(): Tables
      reads this
    {
      Tables(parents, scans, certificates, retirements)
    }

    /** `initialize` creates the tables that are missing and leaves what is there: a new file opens as `EMPTY`. */
    constructor (sha: string -> string, found: Tables)
      ensures this.sha == sha && Db() == found
    {
      this.sha := sha;
      parents, scans, certificates, retirements := found.parents, found.scans, found.certificates, found.retirements;
    }

    /** All-or-nothing: a refused call leaves every table as it was. */
    method RecordInventoryScan(call: ScanCall) returns (r: Result<(), StoreError>)
      modifies this
      ensures match RecordScan(sha, old(Db()), call)
              case Ok(db) => r == Ok(()) && Db() == db
              case Err(e) => r == Err(e) && Db() == old(Db())
    {
      hide NewRow, ScanIdTaken;
      var row := NewRow(sha, call);
      if row.Err? { return Err(row.error); }
      if ScanIdTaken(scans, call.parent, call.scanId) { return Err(IntegrityError); }
      parents := parents + {call.parent};
      scans := scans + [row.value];
      return Ok(());
    }

    method RecordChildCertificate(call: CertificateCall) returns (r: Result<(), StoreError>)
      modifies this
      ensures match RecordCertificate(old(Db()), call)
              case Ok(db) => r == Ok(()) && Db() == db
              case Err(e) => r == Err(e) && Db() == old(Db())
    {
      hide NewCertificate;
      var c := NewCertificate(call);
      if c.Err? && c.error != IntegrityError { return Err(c.error); }
      if call.parent !in parents { return Err(ParentMissing); }
      if CaptureIdTaken(certificates, call.parent, call.thread, Strip(call.captureId)) { return Err(CaptureIdBound); }
      if c.Err? { return Err(IntegrityError); }
      certificates := certificates[(call.parent, call.thread) := c.value];
      return Ok(());
    }

    /** Moves one certificate into the log. */
    method RetireOne(parent: string, t: string, at: string)
      requires (parent, t) in certificates
      modifies this
      ensures Db() == old(Db()).(certificates := old(certificates) - {(parent, t)},
                                 retirements := old(retirements)
                                   + multiset{Retirement(parent, t, old(certificates)[(parent, t)].captureId, at)})
    {
      retirements := retirements + multiset{Retirement(parent, t, certificates[(parent, t)].captureId, at)};
      certificates := certificates - {(parent, t)};
    }

    /** `_retire_absent_certificates`: the loop over the parent's certificates. */
    method RetireAbsentCertificates(parent: string, latestThreads: set<string>, stable: bool, at: string) returns (retired: nat)
      modifies this
      ensures var gone := if stable then CertifiedThreads(old(certificates), parent) - latestThreads else {};
              && (forall t :: t in gone ==> (parent, t) in old(certificates))
              && retired == |gone| && Db() == AfterRetiring(old(Db()), parent, gone, at)
    {
      hide AfterRetiring, CertifiedThreads;
      retired := 0;
      NothingRetired(Db(), parent, at);
      if !stable { return; }
      ghost var db := Db();
      var absent := CertifiedThreads(certificates, parent) - latestThreads;
      CertifiedHaveRows(certificates, parent);
      var rest := absent;
      ghost var gone: set<string> := {};
      while rest != {}
        invariant rest <= absent && gone == absent - rest && retired == |gone|
        invariant Db() == AfterRetiring(db, parent, gone, at)
        decreases rest
      {
        var t :| t in rest;
        RetireStep(db, parent, gone, t, at);
        RetireOne(parent, t, at);
        rest, gone, retired := rest - {t}, gone + {t}, retired + 1;
      }
      assert gone == absent;
    }

    method AuditParent(parent: string, now: string) returns (report: Report, blockers: seq<Blocker>)
      modifies this
      ensures report == AuditReport(sha, old(Db()), parent)
      ensures Db() == AfterAudit(sha, old(Db()), parent, now)
      ensures Distinct(blockers) && forall b :: b in blockers <==> b in report.blockers
    {
      hide Stable, BothComplete, Exhausted, PrivateAuthorized, LockedSum, LatestTwo, Reconciled, ScanBlocks, LatestBlocks,
           ChildBlocks, FullChildren, RequiredNow, ReceiptsNow, ModelOf, AfterRetiring, CertificatesOf, BlockersFor, ReportOf;
      ghost var db := Db();
      var latest := LatestTwo(scans, parent);
      var inventoryBlockers, both, stable, exhausted, complete := ReviewInventory(sha, latest);
      var threads := LatestThreads(latest);
      var retired := RetireAbsentCertificates(parent, threads, stable, now);
      assert Db() == AfterAudit(sha, db, parent, now) && retired == |Retired(sha, db, parent)|;
      var left := CertificatesOf(certificates, parent);
      TimeOfAuditIsNoMatter(sha, db, parent, now);
      var childBlockers, full := ReviewChildren(threads, left);
      blockers := FromKeys(inventoryBlockers + childBlockers);
      assert forall b :: b in blockers <==> b in inventoryBlockers || b in childBlockers;
      hide Retired, AfterAudit;
      report := Report(
        if blockers == [] then Full else if latest == [] then Blocked else Partial,
        set b | b in blockers,
        if stable then 2 else |latest|,
        exhausted, RequiredNow(latest), complete, both, ModelOf(latest),
        |threads|, |left|, full, |threads| - full, retired,
        LockedSum(ReceiptsNow(sha, latest), RequiredNow(latest)));
      ReportAssembled(sha, latest, left, blockers, full, retired, report);
    }
  }

  lemma CertifiedHaveRows(certificates: map<Child, Certificate>, parent: string)
    ensures forall t :: t in CertifiedThreads(certificates, parent) ==> (parent, t) in certificates
  {
  }

  lemma TimeOfAuditIsNoMatter(sha: string -> string, db: Tables, parent: string, now: string)
    ensures AfterAudit(sha, db, parent, now).certificates == AfterAudit(sha, db, parent, "").certificates
  {
    hide Retired, RetirementRows;
  }

  /** Blockers collected from the reviews, and counts taken along the way, make the report. */
  lemma ReportAssembled(sha: string -> string, latest: seq<Scan>, left: map<string, Certificate>,
                        blockers: seq<Blocker>, full: nat, retired: nat, r: Report)
    requires forall b :: b in blockers <==> Blocks(sha, latest, left, b)
    requires full == |FullChildren(LatestThreads(latest), left)|
    requires r.status == (if blockers == [] then Full else if latest == [] then Blocked else Partial)
    requires r.blockers == set b | b in blockers
    requires r.stableScanCount == if Stable(sha, latest) then 2 else |latest|
    requires r.paginationExhausted == Exhausted(sha, latest) && r.requiredScopes == RequiredNow(latest)
    requires r.requiredScopesComplete <==> ModelOf(latest) == ScopeReceiptsV1 && Reconciled(sha, latest[0])
                                           && Exhausted(sha, latest)
                                           && PrivateAuthorized(latest[0].kind, ReceiptsNow(sha, latest))
    requires r.bothLatestComplete == BothComplete(sha, latest) && r.evidenceModel == ModelOf(latest)
    requires r.inventoryThreads == |LatestThreads(latest)| && r.childCertificates == |left|
    requires r.fullChildren == full && r.pendingChildren == |LatestThreads(latest)| - full && r.retired == retired
    requires r.lockedThreads == LockedSum(ReceiptsNow(sha, latest), RequiredNow(latest))
    ensures r == ReportOf(sha, latest, left, retired)
  {
    hide Blocks, Reconciled, Stable, BothComplete, Exhausted, FullChildren, PrivateAuthorized, ReceiptsNow, RequiredNow, LockedSum;
    assert r.blockers == BlockersFor(sha, latest, left);
    assert blockers == [] <==> BlockersFor(sha, latest, left) == {} by {
      if blockers != [] { assert blockers[0] in BlockersFor(sha, latest, left); }
    }
  }
}
