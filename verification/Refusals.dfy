/**
 * Which check refuses what, where a program makes several in a row: every error means that
 * its own check fails and that all earlier ones pass.
 */
module Refusals {
  import opened Text
  import opened Framing
  import opened Times
  import opened Receipts
  import opened ArchiveInventory
  import opened ScopeInventory
  import opened CompletenessTables

  // ------------------------------------------------- one receipt

  predicate HasRoute(entry: ScopeEntry) {
    entry.receipt.Val? && entry.receipt.v.route == Val(RouteOf(entry.scope))
  }

  predicate IsBound(parent: string, entry: ScopeEntry) {
    HasRoute(entry) && entry.receipt.v.parentTargetKey == Val(parent)
  }

  predicate IsFiltered(parent: string, entry: ScopeEntry) {
    && IsBound(parent, entry) && entry.receipt.v.activeParentFilterApplied.Val?
    && (entry.scope == ActiveFiltered ==> entry.receipt.v.activeParentFilterApplied == Val(true))
  }

  predicate HasPages(parent: string, entry: ScopeEntry) {
    IsFiltered(parent, entry) && entry.receipt.v.pageCount.Val? && entry.receipt.v.pageCount.v >= 1
  }

  predicate HasEnd(parent: string, entry: ScopeEntry) {
    HasPages(parent, entry) && entry.receipt.v.terminalReached.Val? && !entry.receipt.v.terminalCursor.Absent?
  }

  predicate HasIds(parent: string, entry: ScopeEntry) {
    && HasEnd(parent, entry) && !entry.receipt.v.terminalCursor.Mistyped? && entry.receipt.v.threadIds.Val?
    && forall id :: id in entry.receipt.v.threadIds.v ==> Strip(id) != ""
  }

  predicate HasEachOnce(parent: string, entry: ScopeEntry) {
    && HasIds(parent, entry)
    && forall i, j :: 0 <= i < j < |entry.receipt.v.threadIds.v| ==> entry.receipt.v.threadIds.v[i] != entry.receipt.v.threadIds.v[j]
  }

  predicate CountsLocked(parent: string, entry: ScopeEntry) {
    && HasEachOnce(parent, entry) && entry.receipt.v.lockedCount.Val?
    && 0 <= entry.receipt.v.lockedCount.v <= |entry.receipt.v.threadIds.v|
  }

  ghost predicate ReceiptRefused(parent: string, entry: ScopeEntry, error: ReceiptError) {
    match error
    case ObjectRequired => !entry.receipt.Val?
    case RouteMismatch => entry.receipt.Val? && !HasRoute(entry)
    case ParentBindingMismatch => HasRoute(entry) && !IsBound(parent, entry)
    case FilterBooleanRequired => IsBound(parent, entry) && !entry.receipt.v.activeParentFilterApplied.Val?
    case ActiveFilterRequired => IsBound(parent, entry) && entry.receipt.v.activeParentFilterApplied.Val? && !IsFiltered(parent, entry)
    case PageCountInvalid => IsFiltered(parent, entry) && !HasPages(parent, entry)
    case TerminalEvidenceRequired => HasPages(parent, entry) && !HasEnd(parent, entry)
    case TerminalCursorInvalid => HasEnd(parent, entry) && entry.receipt.v.terminalCursor.Mistyped?
    case ThreadIdsInvalid => HasEnd(parent, entry) && !entry.receipt.v.terminalCursor.Mistyped? && !HasIds(parent, entry)
    case DuplicateThreadId => HasIds(parent, entry) && !HasEachOnce(parent, entry)
    case LockedCountInvalid => HasEachOnce(parent, entry) && !CountsLocked(parent, entry)
    case _ => false
  }

  lemma BlanksAre(ids: seq<string>)
    ensures (exists i :: 0 <= i < |ids| && Blank(ids[i])) <==> !forall id :: id in ids ==> Strip(id) != ""
  {
    hide Strip;
  }

  lemma ReceiptRefusedExact(sha: string -> string, parent: string, entry: ScopeEntry, error: ReceiptError)
    requires Sha256Hex(sha)
    ensures NormalizeOne(sha, parent, entry) == Err(error) <==> ReceiptRefused(parent, entry, error)
    ensures NormalizeOne(sha, parent, entry).Ok? <==> CountsLocked(parent, entry)
  {
    hide Strip, ReceiptValid, NormalReceipt, Sha256Hex;
    AcceptedIffAcceptable(sha, parent, entry);
    if entry.receipt.Val? && entry.receipt.v.threadIds.Val? { BlanksAre(entry.receipt.v.threadIds.v); }
  }

  // ------------------------------------------------- one thread of a listing

  predicate HasThreadId(thread: Thread) {
    thread.id.Val? && thread.id.v != ""
  }

  /** It names the parent, or nobody. */
  predicate NotForeign(thread: Thread, parent: string) {
    thread.parentId == Val(parent) || thread.parentId.Absent? || thread.parentId.Null?
  }

  predicate LockedIs(thread: Thread, locked: bool) {
    thread.metadata.Val? && thread.metadata.v.locked == Val(locked)
  }

  /** What is read from a thread: under the active scope only what names the parent counts, elsewhere others are an error. */
  lemma TrustedExact(thread: Thread, parent: string, active: bool)
    ensures var r := TrustedFields(thread, parent, active);
            var own := HasThreadId(thread) && (if active then thread.parentId == Val(parent) else NotForeign(thread, parent));
            && (r == Err(NoThreadId) <==> !HasThreadId(thread))
            && (r == Ok(Foreign) <==> HasThreadId(thread) && active && thread.parentId != Val(parent))
            && (r == Err(ForeignParent) <==> HasThreadId(thread) && !active && !NotForeign(thread, parent))
            && (r == Err(LockedNotBoolean) <==> own && !LockedIs(thread, true) && !LockedIs(thread, false))
            && (forall id, locked :: r == Ok(Own(id, locked)) <==> own && thread.id == Val(id) && LockedIs(thread, locked))
  {
  }

  // ------------------------------------------------- calls to the store

  predicate Bindings(call: ScanCall) {
    Strip(call.parent) != "" && Strip(call.scanId) != ""
  }

  /** The call chose receipts as its evidence: it gives some, or a kind of parent. */
  predicate ChoseReceipts(call: ScanCall) {
    call.receipts.Val? || call.receipts.Mistyped? || call.kind.Some?
  }

  ghost predicate EvidenceRefused(sha: string -> string, call: ScanCall, error: StoreError) {
    match error
    case CanonicalEvidenceRequired => ChoseReceipts(call) && !(call.receipts.Val? && call.kind.Some?)
    case ReceiptRefused(e) =>
      call.receipts.Val? && call.kind.Some? && NormalizeReceipts(sha, call.parent, call.kind.value, call.receipts.v) == Err(e)
    case ExhaustedBooleanRequired => !ChoseReceipts(call) && !call.paginationExhausted.Val?
    case ScopeBooleanRequired =>
      && !ChoseReceipts(call) && call.paginationExhausted.Val?
      && !(call.scopes.Val? && call.scopes.v.active.Val? && call.scopes.v.archivedPublic.Val? && call.scopes.v.archivedPrivate.Val?)
    case _ => false
  }

  lemma EvidenceRefusedExact(sha: string -> string, call: ScanCall, error: StoreError)
    ensures (if IsCanonical(call) then CanonicalEvidence(sha, call) == Err(error) else LegacyEvidence(call) == Err(error))
            <==> EvidenceRefused(sha, call, error)
  {
    hide NormalizeReceipts;
  }

  /** Which scan calls are refused before the database is asked: for their names, their evidence, a repeated id, or their time. */
  lemma ScanRefusedExact(sha: string -> string, call: ScanCall, error: StoreError)
    ensures error == BindingRequired ==> (NewRow(sha, call) == Err(error) <==> !Bindings(call))
    ensures error.CanonicalEvidenceRequired? || error.ReceiptRefused? || error.ExhaustedBooleanRequired? || error.ScopeBooleanRequired? ==>
              (NewRow(sha, call) == Err(error) <==> Bindings(call) && EvidenceRefused(sha, call, error))
    ensures error == DuplicateThread ==>
              (NewRow(sha, call) == Err(error) <==>
                 Bindings(call) && !ChoseReceipts(call) && LegacyEvidence(call).Ok?
                 && exists i, j :: 0 <= i < j < |call.threadIds| && call.threadIds[i] == call.threadIds[j])
  {
    hide NormalizedTime, NormalizeReceipts, DigestIds, Strip;
    EvidenceRefusedExact(sha, call, error);
    if call.receipts.Val? && call.kind.Some? { ReceiptsAreDistinct(sha, call); }
  }

  lemma ReceiptsAreDistinct(sha: string -> string, call: ScanCall)
    requires call.receipts.Val? && call.kind.Some?
    ensures CanonicalEvidence(sha, call).Ok? ==> Distinct(CanonicalEvidence(sha, call).value.ids)
  {
    hide NormalizeEntries;
  }

  predicate BindsOther(call: CertificateCall) {
    var bound := if call.boundThread.Some? && call.boundThread.value != "" then call.boundThread else call.boundTargetThread;
    bound.Some? && bound.value != call.thread
  }

  predicate NamesCapture(call: CertificateCall) {
    Strip(call.thread) != "" && Strip(call.captureId) != "" && !BindsOther(call)
  }

  predicate SaysWhether(call: CertificateCall) {
    NamesCapture(call) && call.fullCaptureConfirmed.Val? && call.attachmentsConsistent.Val?
  }

  predicate CountsArePossible(call: CertificateCall) {
    && call.messages >= 0 && call.discovered >= 0 && call.saved >= 0 && call.manifested >= 0
    && call.unresolvedGaps >= 0 && call.pendingRetries >= 0
  }

  /** Another thread of the parent holds a certificate under this capture id. */
  ghost predicate HeldByOther(db: Tables, call: CertificateCall) {
    exists t :: t != call.thread && (call.parent, t) in db.certificates && db.certificates[(call.parent, t)].captureId == Strip(call.captureId)
  }

  ghost predicate CertificateRefused(db: Tables, call: CertificateCall, error: StoreError) {
    match error
    case ThreadIdRequired => Strip(call.thread) == ""
    case CaptureIdRequired => Strip(call.thread) != "" && Strip(call.captureId) == ""
    case ThreadBindingMismatch => Strip(call.thread) != "" && Strip(call.captureId) != "" && BindsOther(call)
    case FullConfirmedBooleanRequired => NamesCapture(call) && !call.fullCaptureConfirmed.Val?
    case ConsistentBooleanRequired => NamesCapture(call) && call.fullCaptureConfirmed.Val? && !call.attachmentsConsistent.Val?
    case ParentMissing => SaysWhether(call) && call.parent !in db.parents
    case CaptureIdBound => SaysWhether(call) && call.parent in db.parents && HeldByOther(db, call)
    case IntegrityError => SaysWhether(call) && call.parent in db.parents && !HeldByOther(db, call) && !CountsArePossible(call)
    case _ => false
  }

  lemma HeldIs(db: Tables, call: CertificateCall)
    ensures CaptureIdTaken(db.certificates, call.parent, call.thread, Strip(call.captureId)) <==> HeldByOther(db, call)
  {
    hide Strip;
    if CaptureIdTaken(db.certificates, call.parent, call.thread, Strip(call.captureId)) {
      var k :| k in db.certificates && k.0 == call.parent && k.1 != call.thread && db.certificates[k].captureId == Strip(call.captureId);
      assert k == (call.parent, k.1);
    }
  }

  /** Which certificate calls are refused, and for what. */
  lemma CertificateRefusedExact(db: Tables, call: CertificateCall, error: StoreError)
    ensures RecordCertificate(db, call) == Err(error) <==> CertificateRefused(db, call, error)
  {
    hide Strip, CaptureIdTaken, HeldByOther;
    HeldIs(db, call);
  }
}
