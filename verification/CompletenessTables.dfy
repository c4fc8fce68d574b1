/**
 * The parent completeness store: tables, the three operations on them, and the
 * audit verdict. The class below is the program; the functions say what each
 * operation must do to the tables.
 */
module CompletenessTables {
  import opened Text
  import opened Framing
  import opened Times
  import opened Receipts

  // -------------------------------------------------------------- tables

  /** A row of `inventory_scans` with its rows of `inventory_threads`; the row id is its position. */
  datatype Scan = Scan(
    parent: string,
    scanId: string,
    observedAt: string,
    threadCount: int,
    threadSetDigest: string,
    kind: Option<Kind>,
    stored: StoredReceipts,
    members: map<string, Option<Scope>>,
    scopes: Option<LegacyScopes>,   // `scopes_json`; `None` for the empty object of a scan with receipts
    exhausted: bool)

  /** A row of `child_capture_certificates`. */
  datatype Certificate = Certificate(
    captureId: string, schema: string, status: string, fullCaptureConfirmed: bool,
    messages: nat, discovered: nat, saved: nat, manifested: nat, attachmentsConsistent: bool,
    unresolvedGaps: nat, pendingRetries: nat, blockers: seq<string>)

  datatype Retirement = Retirement(parent: string, thread: string, captureId: string, at: string)

  type Child = (string, string)   // (parent_target_key, thread_id)

  datatype Tables = Tables(
    parents: set<string>,
    scans: seq<Scan>,
    certificates: map<Child, Certificate>,
    retirements: multiset<Retirement>)

  const EMPTY := Tables({}, [], map[], multiset{})

  datatype StoreError =
    | BindingRequired | CanonicalEvidenceRequired | ReceiptRefused(receipt: ReceiptError)
    | ExhaustedBooleanRequired | ScopeBooleanRequired | DuplicateThread | TimeRefused(time: TimeError)
    | IntegrityError
    | ThreadIdRequired | CaptureIdRequired | ThreadBindingMismatch | FullConfirmedBooleanRequired
    | ConsistentBooleanRequired | ParentMissing | CaptureIdBound

  // ------------------------------------------------- record_inventory_scan

  /** The scope flags of the older form of evidence; `rest` stands for other keys. */
  datatype LegacyScopes = LegacyScopes(active: Raw<bool>, archivedPublic: Raw<bool>, archivedPrivate: Raw<bool>, rest: string)

  datatype ScanCall = ScanCall(
    parent: string,
    scanId: string,
    observedAt: ObservedTime,
    threadIds: seq<string>,
    scopes: Raw<LegacyScopes>,
    paginationExhausted: Raw<bool>,
    kind: Option<Kind>,
    receipts: Raw<ScopeEntries>)

  predicate Given<T>(field: Raw<T>) {
    field.Val? || field.Mistyped?
  }

  /** The caller chose the scope-receipt form of evidence. */
  predicate IsCanonical(call: ScanCall) {
    Given(call.receipts) || call.kind.Some?
  }

  function ScopeByThread(entries: seq<ScopeEntry>): map<string, Option<Scope>> {
    if entries == [] then map[]
    else
      var e := entries[|entries| - 1];
      ScopeByThread(entries[..|entries| - 1]) + (map t | t in SubmittedIds(e) :: Some(e.scope))
  }

  datatype Evidence = Evidence(
    ids: seq<string>, kind: Option<Kind>, stored: StoredReceipts, members: map<string, Option<Scope>>,
    scopes: Option<LegacyScopes>, exhausted: bool)

  function LegacyEvidence(call: ScanCall): Result<Evidence, StoreError> {
    if !call.paginationExhausted.Val? then Err(ExhaustedBooleanRequired)
    else if !(call.scopes.Val? && call.scopes.v.active.Val? && call.scopes.v.archivedPublic.Val?
              && call.scopes.v.archivedPrivate.Val?) then Err(ScopeBooleanRequired)
    else Ok(Evidence(call.threadIds, None, NoReceipts, map t | t in call.threadIds :: None,
                     Some(call.scopes.v), call.paginationExhausted.v))
  }

  function CanonicalEvidence(sha: string -> string, call: ScanCall): Result<Evidence, StoreError> {
    if !call.receipts.Val? || call.kind.None? then Err(CanonicalEvidenceRequired)
    else
      match NormalizeReceipts(sha, call.parent, call.kind.value, call.receipts.v)
      case Err(e) => Err(ReceiptRefused(e))
      case Ok(n) => Ok(Evidence(n.ids, call.kind, Table(n.receipts), ScopeByThread(call.receipts.v), None, false))
  }

  /** The row a call asks for, after every check that needs no database. */
  function NewRow(sha: string -> string, call: ScanCall): Result<Scan, StoreError> {
    if Blank(call.parent) || Blank(call.scanId) then Err(BindingRequired)
    else
      match if IsCanonical(call) then CanonicalEvidence(sha, call) else LegacyEvidence(call)
      case Err(e) => Err(e)
      case Ok(evidence) =>
        if !Distinct(evidence.ids) then Err(DuplicateThread)
        else
          match NormalizedTime(call.observedAt)
          case Err(e) => Err(TimeRefused(e))
          case Ok(at) =>
            Ok(Scan(call.parent, call.scanId, at, |evidence.ids|, DigestIds(sha, evidence.ids),
                    evidence.kind, evidence.stored, evidence.members, evidence.scopes, evidence.exhausted))
  }

  predicate ScanIdTaken(scans: seq<Scan>, parent: string, scanId: string) {
    exists i :: 0 <= i < |scans| && scans[i].parent == parent && scans[i].scanId == scanId
  }

  function RecordScan(sha: string -> string, db: Tables, call: ScanCall): Result<Tables, StoreError>
  {
    match NewRow(sha, call)
    case Err(e) => Err(e)
    case Ok(row) =>
      if ScanIdTaken(db.scans, call.parent, call.scanId) then Err(IntegrityError)
      else Ok(db.(parents := db.parents + {call.parent}, scans := db.scans + [row]))
  }

  // ------------------------------------------------ record_child_certificate

  datatype CertificateCall = CertificateCall(
    parent: string, thread: string,
    captureId: string,
    boundThread: Option<string>, boundTargetThread: Option<string>,
    fullCaptureConfirmed: Raw<bool>, attachmentsConsistent: Raw<bool>,
    schema: string, status: string,
    messages: int, discovered: int, saved: int, manifested: int,
    unresolvedGaps: int, pendingRetries: int, blockers: seq<string>)

  /** Python `a or b` on optional texts. */
  function Either(a: Option<string>, b: Option<string>): Option<string> {
    if a.Some? && a.value != "" then a else b
  }

  predicate CaptureIdTaken(certificates: map<Child, Certificate>, parent: string, thread: string, captureId: string) {
    exists k :: k in certificates && k.0 == parent && k.1 != thread && certificates[k].captureId == captureId
  }

  function NewCertificate(call: CertificateCall): Result<Certificate, StoreError> {
    if Blank(call.thread) then Err(ThreadIdRequired)
    else if Strip(call.captureId) == "" then Err(CaptureIdRequired)
    else if Either(call.boundThread, call.boundTargetThread) !in {None, Some(call.thread)} then Err(ThreadBindingMismatch)
    else if !call.fullCaptureConfirmed.Val? then Err(FullConfirmedBooleanRequired)
    else if !call.attachmentsConsistent.Val? then Err(ConsistentBooleanRequired)
    else if call.messages < 0 || call.discovered < 0 || call.saved < 0 || call.manifested < 0
      || call.unresolvedGaps < 0 || call.pendingRetries < 0 then Err(IntegrityError)
    else Ok(Certificate(Strip(call.captureId), call.schema, if call.status == "" then "blocked" else call.status,
                        call.fullCaptureConfirmed.v, call.messages, call.discovered, call.saved, call.manifested,
                        call.attachmentsConsistent.v, call.unresolvedGaps, call.pendingRetries, call.blockers))
  }

  /** The column checks (`IntegrityError`) fire in the insert, after the two queries. */
  function RecordCertificate(db: Tables, call: CertificateCall): Result<Tables, StoreError> {
    var c := NewCertificate(call);
    if c.Err? && c.error != IntegrityError then Err(c.error)
    else if call.parent !in db.parents then Err(ParentMissing)
    else if CaptureIdTaken(db.certificates, call.parent, call.thread, Strip(call.captureId)) then Err(CaptureIdBound)
    else if c.Err? then Err(IntegrityError)
    else Ok(db.(certificates := db.certificates[(call.parent, call.thread) := c.value]))
  }

  // ------------------------------------------------------- the latest two scans

  /** Row `i` comes before row `j` in `ORDER BY observed_at DESC, id DESC`. */
  predicate Newer(scans: seq<Scan>, i: nat, j: nat)
    requires i < |scans| && j < |scans|
  {
    Less(scans[j].observedAt, scans[i].observedAt) || (scans[i].observedAt == scans[j].observedAt && j < i)
  }

  /** The newest of the first `n` rows that belongs to `parent`, row `skip` left out. */
  function Newest(scans: seq<Scan>, parent: string, skip: int, n: nat): (r: Option<nat>)
    requires n <= |scans|
    ensures r.Some? ==> r.value < n && scans[r.value].parent == parent && r.value != skip
  {
    if n == 0 then None
    else
      var r := Newest(scans, parent, skip, n - 1);
      if scans[n - 1].parent == parent && n - 1 != skip
         && (r.None? || LessEq(scans[r.value].observedAt, scans[n - 1].observedAt))
      then Some(n - 1) else r
  }

  /** `SELECT ... ORDER BY observed_at DESC, id DESC LIMIT 2`. */
  function LatestTwo(scans: seq<Scan>, parent: string): (r: seq<Scan>)
    ensures |r| <= 2
  {
    match Newest(scans, parent, -1, |scans|)
    case None => []
    case Some(i) =>
      match Newest(scans, parent, i, |scans|)
      case None => [scans[i]]
      case Some(j) => [scans[i], scans[j]]
  }

  // ------------------------------------------------------------- audit: one scan

  function Threads(scan: Scan): set<string> {
    scan.members.Keys
  }

  function ScopeThreads(scan: Scan, scope: Option<Scope>): set<string> {
    set t | t in scan.members && scan.members[t] == scope
  }

  function UsableOf(sha: string -> string, scan: Scan): map<Scope, Receipt> {
    UsableReceipts(sha, scan.stored, scan.kind).0
  }

  /** Sum of the thread counts of the receipts, over the scopes a kind can have. */
  function CountSum(receipts: map<Scope, Receipt>, scopes: seq<Scope>): int {
    if scopes == [] then 0
    else
      var s := scopes[|scopes| - 1];
      CountSum(receipts, scopes[..|scopes| - 1])
      + (if s in receipts && receipts[s].threadCount.Val? then receipts[s].threadCount.v else 0)
  }

  /** The stored receipts, the stored totals and the membership rows of a scan agree. */
  ghost predicate Reconciled(sha: string -> string, scan: Scan) {
    && UsableReceipts(sha, scan.stored, scan.kind).1
    && var receipts := UsableOf(sha, scan);
    && |Threads(scan)| == scan.threadCount && SetDigest(sha, Threads(scan)) == scan.threadSetDigest
    && (forall t :: t in scan.members ==> scan.members[t].Some? && scan.members[t].value in receipts)
    && (forall s :: s in receipts ==>
          && receipts[s].threadCount == Val(|ScopeThreads(scan, Some(s))|)
          && receipts[s].threadSetDigest == Val(SetDigest(sha, ScopeThreads(scan, Some(s)))))
    && CountSum(receipts, RequiredFor(scan.kind)) == |Threads(scan)|
  }

  predicate AllTerminal(receipts: map<Scope, Receipt>, scopes: seq<Scope>) {
    forall s :: s in scopes ==> s in receipts && receipts[s].terminalReached == Val(true)
  }

  predicate PrivateAuthorized(kind: Option<Kind>, receipts: map<Scope, Receipt>) {
    kind == Some(TextChannel) ==>
      ArchivedPrivate in receipts && receipts[ArchivedPrivate].authorizationConfirmed == Val(true)
  }

  ghost predicate Complete(sha: string -> string, scan: Scan) {
    && Reconciled(sha, scan)
    && RequiredFor(scan.kind) != []
    && AllTerminal(UsableOf(sha, scan), RequiredFor(scan.kind))
    && PrivateAuthorized(scan.kind, UsableOf(sha, scan))
  }

  // ------------------------------------------------------------- audit: two scans

  /** `.get(scope, {}).get(field)` on both sides: two missing receipts agree. */
  predicate SameScopeEvidence(a: map<Scope, Receipt>, b: map<Scope, Receipt>, s: Scope) {
    if s in a && s in b then
      a[s].threadSetDigest == b[s].threadSetDigest && a[s].threadCount == b[s].threadCount
    else
      (s in a ==> a[s].threadSetDigest == Null && a[s].threadCount == Null)
      && (s in b ==> b[s].threadSetDigest == Null && b[s].threadCount == Null)
  }

  predicate SameInventory(sha: string -> string, a: Scan, b: Scan) {
    && a.threadSetDigest == b.threadSetDigest && a.threadCount == b.threadCount && a.kind == b.kind
    && RequiredFor(a.kind) != []
    && forall s :: s in RequiredFor(a.kind) ==> SameScopeEvidence(UsableOf(sha, a), UsableOf(sha, b), s)
  }

  ghost predicate BothComplete(sha: string -> string, latest: seq<Scan>) {
    |latest| == 2 && Complete(sha, latest[0]) && Complete(sha, latest[1])
  }

  ghost predicate Stable(sha: string -> string, latest: seq<Scan>) {
    BothComplete(sha, latest) && SameInventory(sha, latest[0], latest[1])
  }

  // ------------------------------------------------------------- retirement

  function LatestThreads(latest: seq<Scan>): set<string> {
    if latest == [] then {} else Threads(latest[0])
  }

  function CertifiedThreads(certificates: map<Child, Certificate>, parent: string): set<string> {
    set k | k in certificates && k.0 == parent :: k.1
  }

  ghost function Retired(sha: string -> string, db: Tables, parent: string): set<string> {
    var latest := LatestTwo(db.scans, parent);
    if Stable(sha, latest) then CertifiedThreads(db.certificates, parent) - LatestThreads(latest) else {}
  }

  ghost function RetirementRows(db: Tables, parent: string, threads: set<string>, at: string): multiset<Retirement>
    requires forall t :: t in threads ==> (parent, t) in db.certificates
  {
    multiset(set t | t in threads :: Retirement(parent, t, db.certificates[(parent, t)].captureId, at))
  }

  /** The tables once the certificates of `gone` have moved into the log. */
  ghost function AfterRetiring(db: Tables, parent: string, gone: set<string>, at: string): Tables
    requires forall t :: t in gone ==> (parent, t) in db.certificates
  {
    db.(certificates := map k | k in db.certificates && !(k.0 == parent && k.1 in gone) :: db.certificates[k],
        retirements := db.retirements + RetirementRows(db, parent, gone, at))
  }

  lemma RetiredAreCertified(sha: string -> string, db: Tables, parent: string)
    ensures forall t :: t in Retired(sha, db, parent) ==> (parent, t) in db.certificates
  {
  }

  /** The tables after an audit. */
  ghost function AfterAudit(sha: string -> string, db: Tables, parent: string, at: string): Tables {
    RetiredAreCertified(sha, db, parent);
    AfterRetiring(db, parent, Retired(sha, db, parent), at)
  }

  // ------------------------------------------------------------- the verdict

  datatype Blocker =
    | StableScanCountInsufficient | SavedEvidenceMismatch | RescanIncomplete | RescanNotStable
    | ParentInventoryMissing | ScopeReceiptsInvalid | ScopeIncomplete | PrivateAuthorizationMissing
    | ScopeReceiptsMissing | PaginationNotExhausted
    | ChildCertificateMissing | ChildCertificateNotInLatest
    | ChildPendingWork | ChildAttachmentFailed | ChildStrictFullFailed

  datatype Status = Full | Partial | Blocked
  datatype EvidenceModel = MissingEvidence | ScopeReceiptsV1 | LegacyAggregate

  datatype Report = Report(
    status: Status, blockers: set<Blocker>,
    stableScanCount: nat, paginationExhausted: bool, requiredScopes: seq<Scope>,
    requiredScopesComplete: bool, bothLatestComplete: bool, evidenceModel: EvidenceModel,
    inventoryThreads: nat, childCertificates: nat, fullChildren: nat, pendingChildren: int,
    retired: nat, lockedThreads: int)

  const GATE_SCHEMA := "discord_full_capture_completion_gate.v1"

  predicate AttachmentCountsEqual(c: Certificate) {
    c.discovered == c.saved == c.manifested
  }

  /** The strict-full test of one child certificate. */
  predicate StrictFull(c: Certificate) {
    && c.status == "full" && c.schema == GATE_SCHEMA && c.fullCaptureConfirmed && c.captureId != ""
    && c.messages > 0 && c.unresolvedGaps == 0 && c.attachmentsConsistent && AttachmentCountsEqual(c)
    && c.pendingRetries == 0 && c.blockers == []
  }

  /** What a certificate of a full capture says, line by line. */
  predicate ProvesFull(c: Certificate) {
    && c.status == "full"
    && c.schema == "discord_full_capture_completion_gate.v1"
    && c.captureId != ""
    && c.fullCaptureConfirmed
    && c.messages > 0
    && c.unresolvedGaps == 0
    && c.pendingRetries == 0
    && c.attachmentsConsistent
    && c.discovered == c.saved
    && c.saved == c.manifested
    && c.blockers == []
  }

  lemma StrictFullIs(c: Certificate)
    ensures StrictFull(c) <==> ProvesFull(c)
  {
  }

  /** The certificates of one parent, by thread. */
  function CertificatesOf(certificates: map<Child, Certificate>, parent: string): map<string, Certificate> {
    map t | t in CertifiedThreads(certificates, parent) :: certificates[(parent, t)]
  }

  function ModelOf(latest: seq<Scan>): EvidenceModel {
    if latest == [] then MissingEvidence
    else if latest[0].stored.NoReceipts? then LegacyAggregate else ScopeReceiptsV1
  }

  function RequiredNow(latest: seq<Scan>): seq<Scope> {
    if ModelOf(latest) == ScopeReceiptsV1 then RequiredFor(latest[0].kind) else []
  }

  function ReceiptsNow(sha: string -> string, latest: seq<Scan>): map<Scope, Receipt> {
    if latest == [] then map[] else UsableOf(sha, latest[0])
  }

  predicate Exhausted(sha: string -> string, latest: seq<Scan>) {
    RequiredNow(latest) != [] && AllTerminal(ReceiptsNow(sha, latest), RequiredNow(latest))
  }

  function LockedSum(receipts: map<Scope, Receipt>, scopes: seq<Scope>): int {
    if scopes == [] then 0
    else
      var s := scopes[|scopes| - 1];
      LockedSum(receipts, scopes[..|scopes| - 1])
      + (if s in receipts && receipts[s].lockedCount.Val? then receipts[s].lockedCount.v else 0)
  }

  /** Blockers of the two scans taken together. */
  ghost predicate ScanBlocks(sha: string -> string, latest: seq<Scan>, b: Blocker) {
    match b
    case StableScanCountInsufficient => |latest| < 2
    case SavedEvidenceMismatch => exists k :: 0 <= k < |latest| && !Reconciled(sha, latest[k])
    case RescanIncomplete => |latest| == 2 && !BothComplete(sha, latest)
    case RescanNotStable => BothComplete(sha, latest) && !Stable(sha, latest)
    case _ => false
  }

  /** Blockers of the latest scan alone. */
  ghost predicate LatestBlocks(sha: string -> string, latest: seq<Scan>, b: Blocker) {
    match b
    case ParentInventoryMissing => latest == []
    case ScopeReceiptsInvalid => ModelOf(latest) == ScopeReceiptsV1 && !Reconciled(sha, latest[0])
    case ScopeIncomplete => exists s :: s in RequiredNow(latest) && s !in ReceiptsNow(sha, latest)
    case PrivateAuthorizationMissing =>
      ModelOf(latest) == ScopeReceiptsV1 && !PrivateAuthorized(latest[0].kind, ReceiptsNow(sha, latest))
    case ScopeReceiptsMissing => ModelOf(latest) == LegacyAggregate
    case PaginationNotExhausted => latest != [] && !Exhausted(sha, latest)
    case _ => false
  }

  /** Blockers found in the certificates of single threads. */
  predicate CertificateBlocks(threads: set<string>, certificates: map<string, Certificate>, b: Blocker) {
    match b
    case ChildPendingWork => exists t :: t in threads && t in certificates && certificates[t].pendingRetries != 0
    case ChildAttachmentFailed =>
      exists t :: t in threads && t in certificates
                  && !(certificates[t].attachmentsConsistent && certificates[t].discovered == certificates[t].saved
                       && certificates[t].saved == certificates[t].manifested)
    case ChildStrictFullFailed => exists t :: t in threads && t in certificates && !ProvesFull(certificates[t])
    case _ => false
  }

  /** Blockers of the children: the threads of the latest scan against the certificates left after retirement. */
  predicate ChildBlocks(threads: set<string>, certificates: map<string, Certificate>, b: Blocker) {
    match b
    case ChildCertificateMissing => threads - certificates.Keys != {}
    case ChildCertificateNotInLatest => certificates.Keys - threads != {}
    case _ => CertificateBlocks(threads, certificates, b)
  }

  ghost predicate Blocks(sha: string -> string, latest: seq<Scan>, certificates: map<string, Certificate>, b: Blocker) {
    ScanBlocks(sha, latest, b) || LatestBlocks(sha, latest, b) || ChildBlocks(LatestThreads(latest), certificates, b)
  }

  ghost function BlockersFor(sha: string -> string, latest: seq<Scan>, certificates: map<string, Certificate>): set<Blocker> {
    set b: Blocker | Blocks(sha, latest, certificates, b)
  }

  function FullChildren(threads: set<string>, certificates: map<string, Certificate>): set<string> {
    set t | t in threads && t in certificates && ProvesFull(certificates[t])
  }

  /** The report, from the latest scans, the certificates left and the number retired. */
  ghost function ReportOf(sha: string -> string, latest: seq<Scan>, left: map<string, Certificate>, retired: nat): Report {
    var blockers := BlockersFor(sha, latest, left);
    var full := FullChildren(LatestThreads(latest), left);
    Report(
      if blockers == {} then Full else if latest == [] then Blocked else Partial,
      blockers,
      if Stable(sha, latest) then 2 else |latest|,
      Exhausted(sha, latest),
      RequiredNow(latest),
      ModelOf(latest) == ScopeReceiptsV1 && Reconciled(sha, latest[0]) && Exhausted(sha, latest)
        && PrivateAuthorized(latest[0].kind, ReceiptsNow(sha, latest)),
      BothComplete(sha, latest),
      ModelOf(latest),
      |LatestThreads(latest)|, |left|, |full|, |LatestThreads(latest)| - |full|,
      retired,
      LockedSum(ReceiptsNow(sha, latest), RequiredNow(latest)))
  }

  /** The certificates of the parent once an audit has retired what it retires. */
  ghost function LeftAfterAudit(sha: string -> string, db: Tables, parent: string): map<string, Certificate> {
    CertificatesOf(AfterAudit(sha, db, parent, "").certificates, parent)
  }

  /** The report of an audit. */
  ghost function AuditReport(sha: string -> string, db: Tables, parent: string): Report {
    ReportOf(sha, LatestTwo(db.scans, parent), LeftAfterAudit(sha, db, parent), |Retired(sha, db, parent)|)
  }
}
