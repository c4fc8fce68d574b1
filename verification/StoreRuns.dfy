/**
 * Whole runs of the store: what every reachable database satisfies, and what a
 * `full` verdict says about the log of calls that led to it.
 */
module StoreRuns {
  import opened Text
  import opened Framing
  import opened Times
  import opened Receipts
  import opened CompletenessTables
  import opened AuditTheorems

  datatype Op =
    | ScanOp(scan: ScanCall)
    | CertificateOp(certificate: CertificateCall)
    | AuditOp(parent: string, at: string)

  /** One call; a refused call changes nothing. */
  ghost function Apply(sha: string -> string, db: Tables, op: Op): Tables {
    match op
    case ScanOp(call) => (match RecordScan(sha, db, call) case Ok(after) => after case Err(_) => db)
    case CertificateOp(call) => (match RecordCertificate(db, call) case Ok(after) => after case Err(_) => db)
    case AuditOp(parent, at) => AfterAudit(sha, db, parent, at)
  }

  /** The database after a sequence of calls on an empty store. */
  ghost function Run(sha: string -> string, ops: seq<Op>): Tables {
    if ops == [] then EMPTY else Apply(sha, Run(sha, ops[..|ops| - 1]), ops[|ops| - 1])
  }

  // ------------------------------------------------- what one canonical call stores

  /** The threads a call submits for one scope. */
  function SubmittedFor(entries: seq<ScopeEntry>, s: Scope): set<string> {
    if entries == [] then {}
    else
      var e := entries[|entries| - 1];
      SubmittedFor(entries[..|entries| - 1], s) + (if e.scope == s then Elements(SubmittedIds(e)) else {})
  }

  lemma DistinctConcat(a: seq<string>, b: seq<string>)
    requires Distinct(a + b)
    ensures Distinct(a) && Distinct(b) && Elements(a) !! Elements(b)
  {
    var c := a + b;
    forall i, j | 0 <= i < j < |a| ensures a[i] != a[j] { assert c[i] != c[j]; }
    forall i, j | 0 <= i < j < |b| ensures b[i] != b[j] { assert c[|a| + i] != c[|a| + j]; }
    forall i, j | 0 <= i < |a| && 0 <= j < |b| ensures a[i] != b[j] { assert c[i] != c[|a| + j]; }
  }

  /** Membership rows carry exactly the submitted scopes. */
  lemma {:induction false} MembershipOfEntries(entries: seq<ScopeEntry>)
    requires Distinct(AllSubmitted(entries))
    ensures ScopeByThread(entries).Keys == Elements(AllSubmitted(entries))
    ensures forall t :: t in ScopeByThread(entries) ==>
              ScopeByThread(entries)[t].Some? && t in SubmittedFor(entries, ScopeByThread(entries)[t].value)
    ensures forall s, t :: t in SubmittedFor(entries, s) ==>
              t in ScopeByThread(entries) && ScopeByThread(entries)[t] == Some(s)
  {
    if entries != [] {
      var n := |entries| - 1;
      var rest, e := entries[..n], entries[n];
      DistinctConcat(AllSubmitted(rest), SubmittedIds(e));
      MembershipOfEntries(rest);
      assert Elements(AllSubmitted(entries)) == Elements(AllSubmitted(rest)) + Elements(SubmittedIds(e));
    }
  }

  lemma {:induction false} SubmittedForEntry(entries: seq<ScopeEntry>, i: nat)
    requires i < |entries| && DistinctScopes(entries) && Distinct(AllSubmitted(entries))
    ensures SubmittedFor(entries, entries[i].scope) == Elements(SubmittedIds(entries[i]))
    ensures Distinct(SubmittedIds(entries[i]))
  {
    var n := |entries| - 1;
    DistinctConcat(AllSubmitted(entries[..n]), SubmittedIds(entries[n]));
    if i < n {
      SubmittedForEntry(entries[..n], i);
    } else {
      NoOtherEntry(entries[..n], entries[n].scope);
    }
  }

  lemma {:induction false} NoOtherEntry(entries: seq<ScopeEntry>, s: Scope)
    requires forall i :: 0 <= i < |entries| ==> entries[i].scope != s
    ensures SubmittedFor(entries, s) == {}
  {
    if entries != [] { NoOtherEntry(entries[..|entries| - 1], s); }
  }

  predicate DistinctList(scopes: seq<Scope>) {
    forall i, j :: 0 <= i < j < |scopes| ==> scopes[i] != scopes[j]
  }

  /** Per-scope counts add up to the number of rows with one of those scopes. */
  lemma {:induction false} CountSumIsUnion(scan: Scan, receipts: map<Scope, Receipt>, scopes: seq<Scope>)
    requires forall s :: s in receipts ==> receipts[s].threadCount == Val(|ScopeThreads(scan, Some(s))|)
    requires forall t :: t in scan.members ==> scan.members[t].Some? && scan.members[t].value in receipts
    requires DistinctList(scopes)
    ensures CountSum(receipts, scopes) == |set t | t in scan.members && scan.members[t].value in scopes|
  {
    var all := set t | t in scan.members && scan.members[t].value in scopes;
    if scopes == [] {
      assert all == {};
    } else {
      var n := |scopes| - 1;
      var s := scopes[n];
      CountSumIsUnion(scan, receipts, scopes[..n]);
      var before := set t | t in scan.members && scan.members[t].value in scopes[..n];
      assert all == before + ScopeThreads(scan, Some(s));
      assert before !! ScopeThreads(scan, Some(s));
      if s !in receipts { assert ScopeThreads(scan, Some(s)) == {}; }
    }
  }

  /** The row an accepted submission is stored as. */
  ghost predicate Stores(sha: string -> string, row: Scan, parent: string, kind: Kind, entries: ScopeEntries) {
    && NormalizeReceipts(sha, parent, kind, entries).Ok?
    && var n := NormalizeReceipts(sha, parent, kind, entries).value;
    && row.kind == Some(kind) && row.stored == Table(n.receipts) && row.members == ScopeByThread(entries)
    && row.threadCount == |n.ids| && row.threadSetDigest == DigestIds(sha, n.ids)
  }

  /** The stored scope rows of a submission are the submitted ones. */
  lemma StoredScopes(sha: string -> string, row: Scan, parent: string, kind: Kind, entries: ScopeEntries)
    requires Sha256Hex(sha) && Stores(sha, row, parent, kind, entries)
    ensures Threads(row) == Elements(AllSubmitted(entries)) && Distinct(AllSubmitted(entries))
    ensures row.threadCount == |AllSubmitted(entries)| && row.threadSetDigest == DigestIds(sha, AllSubmitted(entries))
    ensures forall s :: ScopeThreads(row, Some(s)) == SubmittedFor(entries, s)
  {
    hide AllSubmitted, ScopeByThread, SubmittedFor, DigestIds, KeptAs;
    NormalizationKeeps(sha, parent, kind, entries);
    MembershipOfEntries(entries);
    forall s ensures ScopeThreads(row, Some(s)) == SubmittedFor(entries, s) {
      forall t ensures t in ScopeThreads(row, Some(s)) <==> t in SubmittedFor(entries, s) {
      }
    }
  }

  /** The receipts of a stored row are all usable, one per submitted entry. */
  lemma StoredReceiptsUsable(sha: string -> string, row: Scan, parent: string, kind: Kind, entries: ScopeEntries)
    requires Sha256Hex(sha) && Stores(sha, row, parent, kind, entries)
    ensures UsableReceipts(sha, row.stored, row.kind).1
    ensures forall i :: 0 <= i < |entries| ==>
              entries[i].scope in RequiredScopes(kind) && KeptAs(sha, parent, entries[i], UsableOf(sha, row))
    ensures forall s :: s in UsableOf(sha, row) ==> exists i :: 0 <= i < |entries| && entries[i].scope == s
    ensures RequiredScopes(kind) != []
  {
    hide NormalizeReceipts, AllSubmitted, ScopeByThread, Acceptable, NormalReceipt, ReceiptValid, DigestIds, Distinct, RequiredScopes;
    NormalizationKeeps(sha, parent, kind, entries);
    NormalizationAccepts(sha, parent, kind, entries);
    var n := NormalizeReceipts(sha, parent, kind, entries).value;
    forall s | s in n.receipts ensures s in RequiredScopes(kind) && ReceiptValid(sha, s, n.receipts[s]) {
      var i :| 0 <= i < |entries| && entries[i].scope == s;
      assert KeptAs(sha, parent, entries[i], n.receipts);
    }
  }

  /** A stored receipt agrees with the membership rows of its scope. */
  ghost predicate AgreesWithRows(sha: string -> string, row: Scan, s: Scope) {
    && s in UsableOf(sha, row)
    && UsableOf(sha, row)[s].threadCount == Val(|ScopeThreads(row, Some(s))|)
    && UsableOf(sha, row)[s].threadSetDigest == Val(SetDigest(sha, ScopeThreads(row, Some(s))))
  }

  lemma StoredReceiptAgrees(sha: string -> string, row: Scan, parent: string, kind: Kind, entries: ScopeEntries, i: nat)
    requires Sha256Hex(sha) && Stores(sha, row, parent, kind, entries) && i < |entries|
    ensures AgreesWithRows(sha, row, entries[i].scope)
  {
    hide Stores, AllSubmitted, SubmittedFor, ScopeThreads, UsableReceipts;
    hide UsableOf, Distinct, DigestIds, SetDigest, RequiredScopes, Sha256Hex;
    StoredReceiptsUsable(sha, row, parent, kind, entries);
    StoredScopes(sha, row, parent, kind, entries);
    SubmittedForEntry(entries, i);
    assert KeptAs(sha, parent, entries[i], UsableOf(sha, row));
    TotalsOfIds(sha, SubmittedIds(entries[i]));
  }

  lemma TotalsOfIds(sha: string -> string, ids: seq<string>)
    requires Distinct(ids)
    ensures |ids| == |Elements(ids)| && DigestIds(sha, ids) == SetDigest(sha, Elements(ids))
  {
    DistinctIffCardinality(ids);
    IdsTextOfSet(ids);
  }

  lemma StoredScopesHaveReceipts(sha: string -> string, row: Scan, parent: string, kind: Kind, entries: ScopeEntries)
    requires Sha256Hex(sha) && Stores(sha, row, parent, kind, entries)
    ensures forall t :: t in row.members ==> row.members[t].Some? && row.members[t].value in UsableOf(sha, row)
  {
    hide AllSubmitted, ScopeByThread, UsableReceipts, UsableOf, Distinct;
    hide SubmittedFor, RequiredScopes, Sha256Hex, NormalizeReceipts, DigestIds;
    StoredReceiptsUsable(sha, row, parent, kind, entries);
    StoredScopes(sha, row, parent, kind, entries);
    MembershipOfEntries(entries);
    forall t | t in row.members ensures row.members[t].Some? && row.members[t].value in UsableOf(sha, row) {
      var i := EntryOf(entries, row.members[t].value, t);
      assert KeptAs(sha, parent, entries[i], UsableOf(sha, row));
    }
  }

  /** The stored totals, receipts and membership rows of an accepted submission agree. */
  lemma StoredRowReconciles(sha: string -> string, row: Scan, parent: string, kind: Kind, entries: ScopeEntries)
    requires Sha256Hex(sha) && Stores(sha, row, parent, kind, entries)
    ensures Reconciled(sha, row)
  {
    hide AllSubmitted, SubmittedFor, UsableReceipts, UsableOf, KeptAs, Distinct, CountSum, RequiredScopes, Sha256Hex,
         NormalizeReceipts, SetDigest, DigestIds, ScopeThreads, ScopeByThread;
    var receipts := UsableOf(sha, row);
    StoredReceiptsUsable(sha, row, parent, kind, entries);
    StoredScopes(sha, row, parent, kind, entries);
    TotalsOfIds(sha, AllSubmitted(entries));
    forall s | s in receipts ensures AgreesWithRows(sha, row, s) && s in RequiredScopes(kind) {
      var i :| 0 <= i < |entries| && entries[i].scope == s;
      StoredReceiptAgrees(sha, row, parent, kind, entries, i);
    }
    StoredScopesHaveReceipts(sha, row, parent, kind, entries);
    RequiredAreDistinct(kind);
    CountSumIsUnion(row, receipts, RequiredScopes(kind));
    assert (set t | t in row.members && row.members[t].value in RequiredScopes(kind)) == Threads(row);
  }

  lemma RequiredAreDistinct(kind: Kind)
    ensures DistinctList(RequiredScopes(kind))
  {
  }

  /** The entry that submitted a thread for a scope. */
  lemma {:induction false} EntryOf(entries: seq<ScopeEntry>, s: Scope, t: string) returns (i: nat)
    requires t in SubmittedFor(entries, s)
    ensures i < |entries| && entries[i].scope == s && t in SubmittedIds(entries[i])
  {
    var n := |entries| - 1;
    if entries[n].scope == s && t in SubmittedIds(entries[n]) { i := n; }
    else { i := EntryOf(entries[..n], s, t); }
  }

  // ------------------------------------------------- from calls to rows

  const NO_ROW := Scan("", "", "", 0, "", None, NoReceipts, map[], None, false)

  /** The row a call is stored as, once accepted. */
  function RowOf(sha: string -> string, call: ScanCall): Scan {
    match NewRow(sha, call)
    case Ok(row) => row
    case Err(_) => NO_ROW
  }

  /** Accepted calls come in two forms: scope receipts, stored as such, or a legacy aggregate. */
  lemma AcceptedForms(sha: string -> string, call: ScanCall)
    requires NewRow(sha, call).Ok?
    ensures NormalizedTime(call.observedAt).Ok? && RowOf(sha, call).observedAt == NormalizedTime(call.observedAt).value
    ensures RowOf(sha, call).parent == call.parent
    ensures IsCanonical(call) ==> call.receipts.Val? && call.kind.Some?
                                  && Stores(sha, RowOf(sha, call), call.parent, call.kind.value, call.receipts.v)
    ensures !IsCanonical(call) ==> RowOf(sha, call).stored == NoReceipts && RowOf(sha, call).kind == None
  {
    hide NormalizeReceipts, ScopeByThread, DigestIds, Distinct;
  }

  // ------------------------------------------------- invariants of every reachable database

  /** A legacy scan carries no receipts and no kind; any other scan reconciles with its rows. */
  ghost predicate GoodScan(sha: string -> string, scan: Scan) {
    if scan.stored.NoReceipts? then scan.kind == None else Reconciled(sha, scan)
  }

  /** No two threads of one parent hold the same capture id. */
  predicate UniqueCaptureIds(certificates: map<Child, Certificate>) {
    forall j, k :: (j in certificates && k in certificates && j.0 == k.0
                    && certificates[j].captureId == certificates[k].captureId) ==> j == k
  }

  ghost predicate Good(sha: string -> string, db: Tables) {
    && (forall i :: 0 <= i < |db.scans| ==> GoodScan(sha, db.scans[i]))
    && UniqueCaptureIds(db.certificates)
    && (forall k :: k in db.certificates ==> k.0 in db.parents && db.certificates[k].captureId != "")
  }

  lemma AcceptedRowIsGood(sha: string -> string, call: ScanCall)
    requires Sha256Hex(sha) && NewRow(sha, call).Ok?
    ensures GoodScan(sha, RowOf(sha, call))
  {
    hide NewRow, RowOf, Reconciled;
    AcceptedForms(sha, call);
    if IsCanonical(call) { StoredRowReconciles(sha, RowOf(sha, call), call.parent, call.kind.value, call.receipts.v); }
  }

  lemma ScanKeepsGood(sha: string -> string, db: Tables, call: ScanCall)
    requires Sha256Hex(sha) && Good(sha, db) && RecordScan(sha, db, call).Ok?
    ensures Good(sha, RecordScan(sha, db, call).value)
  {
    hide NewRow, GoodScan, ScanIdTaken;
    AcceptedRowIsGood(sha, call);
    var after := RecordScan(sha, db, call).value;
    forall i | 0 <= i < |after.scans| ensures GoodScan(sha, after.scans[i]) {
      if i < |db.scans| { assert GoodScan(sha, db.scans[i]); } else { assert after.scans[i] == RowOf(sha, call); }
    }
  }

  lemma CertificateKeepsGood(sha: string -> string, db: Tables, call: CertificateCall)
    requires Good(sha, db) && RecordCertificate(db, call).Ok?
    ensures Good(sha, RecordCertificate(db, call).value)
  {
    hide GoodScan;
    var after := RecordCertificate(db, call).value;
    var mine := (call.parent, call.thread);
    assert forall k :: k in db.certificates && k.0 == call.parent && k.1 != call.thread ==>
                         db.certificates[k].captureId != Strip(call.captureId);
    forall j, k | j in after.certificates && k in after.certificates && j.0 == k.0
                  && after.certificates[j].captureId == after.certificates[k].captureId
      ensures j == k
    {
      if j != mine && k != mine { assert j in db.certificates && k in db.certificates; }
    }
  }

  lemma AuditKeepsGood(sha: string -> string, db: Tables, parent: string, at: string)
    requires Good(sha, db)
    ensures Good(sha, AfterAudit(sha, db, parent, at))
  {
    hide Reconciled, Retired, RetirementRows;
  }

  /** The invariants hold after every sequence of calls. */
  lemma {:induction false} ReachableGood(sha: string -> string, ops: seq<Op>)
    requires Sha256Hex(sha)
    ensures Good(sha, Run(sha, ops))
  {
    hide Good, RecordScan, RecordCertificate, AfterAudit;
    if ops == [] {
      assert Good(sha, EMPTY) by { EmptyIsGood(sha); }
    } else {
      var n := |ops| - 1;
      var db := Run(sha, ops[..n]);
      ReachableGood(sha, ops[..n]);
      match ops[n]
      case ScanOp(call) => if RecordScan(sha, db, call).Ok? { ScanKeepsGood(sha, db, call); }
      case CertificateOp(call) => if RecordCertificate(db, call).Ok? { CertificateKeepsGood(sha, db, call); }
      case AuditOp(parent, at) => AuditKeepsGood(sha, db, parent, at);
    }
  }

  lemma EmptyIsGood(sha: string -> string)
    ensures Good(sha, EMPTY)
  {
  }

  lemma LatestTwoAreRows(scans: seq<Scan>, parent: string)
    ensures forall k :: 0 <= k < |LatestTwo(scans, parent)| ==> LatestTwo(scans, parent)[k] in scans
  {
  }

  /** In a reachable database saved evidence is reported as mismatched only for a legacy scan. */
  lemma MismatchMeansLegacy(sha: string -> string, ops: seq<Op>, parent: string)
    requires Sha256Hex(sha)
    ensures SavedEvidenceMismatch in AuditReport(sha, Run(sha, ops), parent).blockers <==>
              exists k :: 0 <= k < |LatestTwo(Run(sha, ops).scans, parent)|
                          && LatestTwo(Run(sha, ops).scans, parent)[k].stored == NoReceipts
  {
    hide Run, LatestTwo, LatestBlocks, ChildBlocks, LeftAfterAudit, CountSum, ScopeThreads;
    ReachableGood(sha, ops);
    var scans := Run(sha, ops).scans;
    var latest := LatestTwo(scans, parent);
    LatestTwoAreRows(scans, parent);
    forall k | 0 <= k < |latest| ensures Reconciled(sha, latest[k]) <==> latest[k].stored != NoReceipts {
      assert latest[k] in scans;
      var i :| 0 <= i < |scans| && scans[i] == latest[k];
      assert GoodScan(sha, scans[i]);
    }
    assert SavedEvidenceMismatch in AuditReport(sha, Run(sha, ops), parent).blockers
      <==> ScanBlocks(sha, latest, SavedEvidenceMismatch) by { NotALaterBlocker(sha, latest, LeftAfterAudit(sha, Run(sha, ops), parent)); }
  }

  lemma NotALaterBlocker(sha: string -> string, latest: seq<Scan>, left: map<string, Certificate>)
    ensures !LatestBlocks(sha, latest, SavedEvidenceMismatch)
    ensures !ChildBlocks(LatestThreads(latest), left, SavedEvidenceMismatch)
  {
  }
}
