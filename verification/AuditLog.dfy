/**
 * Soundness and completeness of `full` over whole runs: the verdict against the
 * log of calls, with no mention of tables, digests or stored text.
 */
module AuditLog {
  import opened Text
  import opened Framing
  import opened Times
  import opened Receipts
  import opened CompletenessTables
  import opened AuditTheorems
  import opened StoreRuns

  type Log = seq<Op>

  // ------------------------------------------------- vocabulary of the log

  /** Call `i` was a scan, and the store took it. */
  ghost predicate ScanAccepted(sha: string -> string, log: Log, i: nat) {
    i < |log| && log[i].ScanOp? && RecordScan(sha, Run(sha, log[..i]), log[i].scan).Ok?
  }

  ghost predicate CertificateAccepted(sha: string -> string, log: Log, i: nat, parent: string, thread: string) {
    && i < |log| && log[i].CertificateOp?
    && log[i].certificate.parent == parent && log[i].certificate.thread == thread
    && RecordCertificate(Run(sha, log[..i]), log[i].certificate).Ok?
  }

  /** The moment a scan observed its parent: the civil time less its offset. */
  function ObservedInstant(call: ScanCall): int {
    if call.observedAt.Aware? then Micros(call.observedAt.civil) - call.observedAt.offset else 0
  }

  /** Scan `i` counts as later than scan `j`: observed later, or at the same instant and recorded later. */
  predicate LaterScan(log: Log, i: nat, j: nat)
    requires i < |log| && j < |log| && log[i].ScanOp? && log[j].ScanOp?
  {
    var a, b := ObservedInstant(log[i].scan), ObservedInstant(log[j].scan);
    b < a || (a == b && j < i)
  }

  /** `i` and `j` are the two latest accepted scans of the parent. */
  ghost predicate TwoLatest(sha: string -> string, log: Log, parent: string, i: nat, j: nat) {
    && ScanAccepted(sha, log, i) && log[i].scan.parent == parent
    && ScanAccepted(sha, log, j) && log[j].scan.parent == parent
    && LaterScan(log, i, j)
    && forall k: nat :: ScanAccepted(sha, log, k) && log[k].scan.parent == parent && k != i && k != j ==> LaterScan(log, j, k)
  }

  /** A receipt for the scope was submitted and says that its pages were read to the end. */
  predicate ReadToTheEnd(entries: seq<ScopeEntry>, s: Scope) {
    exists i :: 0 <= i < |entries| && entries[i].scope == s
                && entries[i].receipt.Val? && entries[i].receipt.v.terminalReached == Val(true)
  }

  predicate PrivateArchiveAuthorized(entries: seq<ScopeEntry>) {
    exists i :: 0 <= i < |entries| && entries[i].scope == ArchivedPrivate && entries[i].receipt.Val?
                && entries[i].receipt.v.authorization == Val(RawAuthorization(Val(ManageThreads), Val(true)))
  }

  /** The submitted evidence covers everything its parent kind requires. */
  predicate Covers(call: ScanCall) {
    && IsCanonical(call) && call.receipts.Val? && call.kind.Some?
    && (forall s :: s in RequiredScopes(call.kind.value) ==> ReadToTheEnd(call.receipts.v, s))
    && (call.kind == Some(TextChannel) ==> PrivateArchiveAuthorized(call.receipts.v))
  }

  function SubmittedThreads(call: ScanCall): set<string> {
    if call.receipts.Val? then Elements(AllSubmitted(call.receipts.v)) else {}
  }

  predicate SameSubmission(a: ScanCall, b: ScanCall) {
    && a.kind == b.kind && a.receipts.Val? && b.receipts.Val?
    && forall s :: s in RequiredFor(a.kind) ==> SubmittedFor(a.receipts.v, s) == SubmittedFor(b.receipts.v, s)
  }

  /** Calls `i` and `j` settle the inventory of the parent. */
  ghost predicate Settles(sha: string -> string, log: Log, parent: string, i: nat, j: nat) {
    && TwoLatest(sha, log, parent, i, j)
    && Covers(log[i].scan) && Covers(log[j].scan) && SameSubmission(log[i].scan, log[j].scan)
  }

  /** Call `k` was an audit that found the thread absent from a settled inventory. */
  ghost predicate RetiredBy(sha: string -> string, log: Log, k: nat, parent: string, thread: string) {
    && k < |log| && log[k].AuditOp? && log[k].parent == parent
    && exists i: nat, j: nat :: Settles(sha, log[..k], parent, i, j) && thread !in SubmittedThreads(log[i].scan)
  }

  /** Certificate call `c` is the last one accepted for the thread, and no audit retired it since. */
  ghost predicate Standing(sha: string -> string, log: Log, parent: string, thread: string, c: nat) {
    && CertificateAccepted(sha, log, c, parent, thread)
    && forall k: nat :: c < k < |log| ==>
         !CertificateAccepted(sha, log, k, parent, thread) && !RetiredBy(sha, log, k, parent, thread)
  }

  /** The texts whose digests audits of this log can compare. */
  ghost function LogTexts(sha: string -> string, log: Log): set<string> {
    set m, x | 0 <= m < |Run(sha, log).scans| && x in EvidenceTexts(Run(sha, log).scans[m]) :: x
  }

  // ------------------------------------------------- rows and accepted calls

  /** The calls behind the scan rows, in order. */
  ghost function ScanCalls(sha: string -> string, log: Log): seq<nat> {
    if log == [] then []
    else
      var n := |log| - 1;
      ScanCalls(sha, log[..n]) + if ScanAccepted(sha, log, n) then [n] else []
  }

  ghost predicate RowMatches(sha: string -> string, log: Log, row: Scan, i: nat) {
    ScanAccepted(sha, log, i) && NewRow(sha, log[i].scan).Ok? && row == RowOf(sha, log[i].scan)
  }

  lemma AcceptedInPrefix(sha: string -> string, log: Log, n: nat, i: nat)
    requires i < n <= |log|
    ensures ScanAccepted(sha, log[..n], i) <==> ScanAccepted(sha, log, i)
    ensures forall p, t :: CertificateAccepted(sha, log[..n], i, p, t) <==> CertificateAccepted(sha, log, i, p, t)
  {
    assert log[..n][..i] == log[..i];
  }

  /** Only an accepted scan call adds a row, and only its own. */
  lemma AppliedRow(sha: string -> string, db: Tables, op: Op)
    ensures Apply(sha, db, op).scans
            == if op.ScanOp? && RecordScan(sha, db, op.scan).Ok? then db.scans + [RowOf(sha, op.scan)] else db.scans
  {
    hide NewRow, NewCertificate, Retired, RetirementRows, ScanIdTaken, CaptureIdTaken;
  }

  lemma LastScanRow(sha: string -> string, log: Log)
    requires log != []
    ensures var n := |log| - 1;
            Run(sha, log).scans ==
            Run(sha, log[..n]).scans + if ScanAccepted(sha, log, n) then [RowOf(sha, log[n].scan)] else []
  {
    hide Apply, RecordScan, RowOf;
    AppliedRow(sha, Run(sha, log[..|log| - 1]), log[|log| - 1]);
  }

  lemma RowStays(sha: string -> string, log: Log, n: nat, row: Scan, i: nat)
    requires i < n <= |log| && RowMatches(sha, log[..n], row, i)
    ensures RowMatches(sha, log, row, i)
  {
    hide RecordScan, NewRow, RowOf;
    AcceptedInPrefix(sha, log, n, i);
  }

  /** Scan rows are the rows of the accepted scan calls, in order. */
  lemma {:induction false} RowsAreCalls(sha: string -> string, log: Log)
    ensures var rows := Run(sha, log).scans; var calls := ScanCalls(sha, log);
            && |rows| == |calls|
            && (forall m :: 0 <= m < |calls| ==> calls[m] < |log| && RowMatches(sha, log, rows[m], calls[m]))
            && (forall m, q :: 0 <= m < q < |calls| ==> calls[m] < calls[q])
  {
    hide Run, RowMatches, RowOf, NewRow, RecordScan;
    if log == [] {
      NothingAccepted(sha);
    } else {
      var n := |log| - 1;
      RowsAreCalls(sha, log[..n]);
      LastScanRow(sha, log);
      var before := ScanCalls(sha, log[..n]);
      var rows := Run(sha, log).scans;
      forall m | 0 <= m < |before| ensures before[m] < n && RowMatches(sha, log, rows[m], before[m]) {
        RowStays(sha, log, n, rows[m], before[m]);
      }
      if ScanAccepted(sha, log, n) {
        LastRowMatches(sha, log);
      }
    }
  }

  lemma LastRowMatches(sha: string -> string, log: Log)
    requires log != [] && ScanAccepted(sha, log, |log| - 1)
    ensures RowMatches(sha, log, RowOf(sha, log[|log| - 1].scan), |log| - 1)
  {
    hide RowOf, NewRow, Run;
  }

  /** Every accepted scan call has a row. */
  lemma {:induction false} CallsHaveRows(sha: string -> string, log: Log, i: nat) returns (m: nat)
    requires ScanAccepted(sha, log, i)
    ensures m < |ScanCalls(sha, log)| && ScanCalls(sha, log)[m] == i
  {
    hide RecordScan, Run;
    var n := |log| - 1;
    if i == n {
      m := |ScanCalls(sha, log[..n])|;
    } else {
      AcceptedInPrefix(sha, log, n, i);
      m := CallsHaveRows(sha, log[..n], i);
    }
  }

  lemma NothingAccepted(sha: string -> string)
    ensures Run(sha, []).scans == [] && forall i: nat :: !ScanAccepted(sha, [], i)
  {
  }

  /** Rows are ordered as their calls are. */
  lemma NewerIsLater(sha: string -> string, log: Log, a: nat, b: nat)
    requires a < |ScanCalls(sha, log)| && b < |ScanCalls(sha, log)|
    ensures var rows := Run(sha, log).scans; var calls := ScanCalls(sha, log);
            && |rows| == |calls| && ScanAccepted(sha, log, calls[a]) && ScanAccepted(sha, log, calls[b])
            && rows[a].parent == log[calls[a]].scan.parent
            && (Newer(rows, a, b) <==> LaterScan(log, calls[a], calls[b]))
  {
    hide Run, RecordScan, RowOf, NewRow, ScanCalls, NormalizedTime;
    RowsAreCalls(sha, log);
    var rows, calls := Run(sha, log).scans, ScanCalls(sha, log);
    var i, j := calls[a], calls[b];
    assert RowMatches(sha, log, rows[a], i) && RowMatches(sha, log, rows[b], j);
    AcceptedForms(sha, log[i].scan);
    AcceptedForms(sha, log[j].scan);
    TimesNormalized(log[i].scan);
    TimesNormalized(log[j].scan);
    TextOrderIsTimeOrder(log[i].scan.observedAt, log[j].scan.observedAt);
    TextOrderIsTimeOrder(log[j].scan.observedAt, log[i].scan.observedAt);
  }

  lemma TimesNormalized(call: ScanCall)
    requires NormalizedTime(call.observedAt).Ok?
    ensures call.observedAt.Aware?
    ensures ObservedInstant(call) == Micros(call.observedAt.civil) - call.observedAt.offset
  {
    hide FromMicros, IsoText, Micros;
  }

  /** The two newest rows are the rows of the two latest calls. */
  lemma LatestRowsAreLatestCalls(sha: string -> string, log: Log, parent: string, a: nat, b: nat)
    requires a < |ScanCalls(sha, log)| && b < |ScanCalls(sha, log)|
    ensures AreLatestTwo(Run(sha, log).scans, parent, a, b)
            <==> TwoLatest(sha, log, parent, ScanCalls(sha, log)[a], ScanCalls(sha, log)[b])
  {
    hide Run, RecordScan, ScanCalls, Newer, LaterScan, RowMatches;
    RowsAreCalls(sha, log);
    var rows, calls := Run(sha, log).scans, ScanCalls(sha, log);
    NewerIsLater(sha, log, a, b);
    NewerIsLater(sha, log, b, a);
    if AreLatestTwo(rows, parent, a, b) {
      forall k: nat | ScanAccepted(sha, log, k) && log[k].scan.parent == parent && k != calls[a] && k != calls[b]
        ensures LaterScan(log, calls[b], k)
      {
        var m := CallsHaveRows(sha, log, k);
        NewerIsLater(sha, log, b, m);
        NewerIsLater(sha, log, m, b);
      }
    }
    if TwoLatest(sha, log, parent, calls[a], calls[b]) {
      forall m | 0 <= m < |rows| && rows[m].parent == parent && m != a && m != b ensures Newer(rows, b, m) {
        NewerIsLater(sha, log, b, m);
        NewerIsLater(sha, log, m, b);
        assert calls[m] != calls[a] && calls[m] != calls[b];
      }
    }
  }

  // ------------------------------------------------- completeness of one scan

  lemma LegacyIsIncomplete(sha: string -> string, row: Scan)
    requires row.stored == NoReceipts
    ensures !Complete(sha, row)
  {
  }

  lemma ConfirmedMeans(scope: Scope, authorization: Raw<RawAuthorization>)
    ensures AuthorizationConfirmed(scope, authorization) == Val(true) <==>
              scope == ArchivedPrivate && authorization == Val(RawAuthorization(Val(ManageThreads), Val(true)))
  {
  }

  /** One required scope: the stored receipt is terminal exactly when the submitted one said so. */
  lemma TerminalAsSubmitted(sha: string -> string, row: Scan, parent: string, kind: Kind, entries: ScopeEntries, s: Scope)
    requires Sha256Hex(sha) && Stores(sha, row, parent, kind, entries)
    ensures (s in UsableOf(sha, row) && UsableOf(sha, row)[s].terminalReached == Val(true)) <==> ReadToTheEnd(entries, s)
    ensures (ArchivedPrivate in UsableOf(sha, row) && UsableOf(sha, row)[ArchivedPrivate].authorizationConfirmed == Val(true))
            <==> PrivateArchiveAuthorized(entries)
  {
    hide Stores, UsableOf, DigestIds, RequiredScopes, ReceiptValid, Acceptable, AuthorizationConfirmed;
    StoredReceiptsUsable(sha, row, parent, kind, entries);
    var receipts := UsableOf(sha, row);
    forall i | 0 <= i < |entries|
      ensures entries[i].scope in receipts && entries[i].receipt.Val?
              && receipts[entries[i].scope].terminalReached == entries[i].receipt.v.terminalReached
              && (receipts[entries[i].scope].authorizationConfirmed == Val(true) <==>
                    entries[i].scope == ArchivedPrivate
                    && entries[i].receipt.v.authorization == Val(RawAuthorization(Val(ManageThreads), Val(true))))
    {
      if entries[i].receipt.Val? { ConfirmedMeans(entries[i].scope, entries[i].receipt.v.authorization); }
      assert KeptAs(sha, parent, entries[i], receipts);
      AcceptableIsGiven(parent, entries[i]);
    }
  }

  lemma AcceptableIsGiven(parent: string, entry: ScopeEntry)
    requires Acceptable(parent, entry)
    ensures entry.receipt.Val? && entry.receipt.v.activeParentFilterApplied.Val? && entry.receipt.v.pageCount.Val?
    ensures entry.receipt.v.terminalReached.Val? && entry.receipt.v.threadIds.Val? && entry.receipt.v.lockedCount.Val?
  {
  }

  lemma CompleteAsSubmitted(sha: string -> string, row: Scan, parent: string, kind: Kind, entries: ScopeEntries)
    requires Sha256Hex(sha) && Stores(sha, row, parent, kind, entries)
    ensures Complete(sha, row) <==>
              && (forall s :: s in RequiredScopes(kind) ==> ReadToTheEnd(entries, s))
              && (kind == TextChannel ==> PrivateArchiveAuthorized(entries))
  {
    hide UsableOf, Reconciled, ReadToTheEnd, PrivateArchiveAuthorized, NormalizeReceipts, RequiredScopes, Sha256Hex, DigestIds;
    StoredRowReconciles(sha, row, parent, kind, entries);
    StoredReceiptsUsable(sha, row, parent, kind, entries);
    forall s { TerminalAsSubmitted(sha, row, parent, kind, entries, s); }
    TerminalAsSubmitted(sha, row, parent, kind, entries, ArchivedPrivate);
  }

  /** A stored scan is complete exactly when the submitted evidence covers what its kind requires. */
  lemma CompleteIsCovered(sha: string -> string, call: ScanCall)
    requires Sha256Hex(sha) && NewRow(sha, call).Ok?
    ensures Complete(sha, RowOf(sha, call)) <==> Covers(call)
    ensures IsCanonical(call) ==>
              && call.receipts.Val? && RowOf(sha, call).kind == call.kind
              && Threads(RowOf(sha, call)) == SubmittedThreads(call)
              && (forall s :: ScopeThreads(RowOf(sha, call), Some(s)) == SubmittedFor(call.receipts.v, s))
  {
    hide NewRow, RowOf, Complete, ReadToTheEnd, PrivateArchiveAuthorized, RequiredScopes, SubmittedFor, AllSubmitted,
         NormalizeReceipts, DigestIds, ScopeByThread, ScopeThreads;
    AcceptedForms(sha, call);
    var row := RowOf(sha, call);
    if IsCanonical(call) {
      CompleteAsSubmitted(sha, row, call.parent, call.kind.value, call.receipts.v);
      StoredScopes(sha, row, call.parent, call.kind.value, call.receipts.v);
    } else {
      LegacyIsIncomplete(sha, row);
    }
  }

  // ------------------------------------------------- the inventory, by log

  lemma CollisionFreeSubset(sha: string -> string, texts: set<string>, fewer: set<string>)
    requires CollisionFree(sha, texts) && fewer <= texts
    ensures CollisionFree(sha, fewer)
  {
  }

  lemma RowTextsInLog(sha: string -> string, log: Log, m: nat)
    requires m < |Run(sha, log).scans|
    ensures EvidenceTexts(Run(sha, log).scans[m]) <= LogTexts(sha, log)
  {
    hide Run, EvidenceTexts;
  }

  /** Two rows settle the inventory exactly when their calls do. */
  lemma StableAsSubmitted(sha: string -> string, a: ScanCall, b: ScanCall)
    requires Sha256Hex(sha) && NewRow(sha, a).Ok? && NewRow(sha, b).Ok?
    requires CollisionFree(sha, EvidenceTexts(RowOf(sha, a)) + EvidenceTexts(RowOf(sha, b)))
    ensures Stable(sha, [RowOf(sha, a), RowOf(sha, b)]) <==> Covers(a) && Covers(b) && SameSubmission(a, b)
  {
    hide RowOf, NewRow, Complete, ScopeThreads, SubmittedFor, SameInventory, ReadToTheEnd, RequiredScopes, EvidenceTexts;
    CompleteIsCovered(sha, a);
    CompleteIsCovered(sha, b);
    if Covers(a) && Covers(b) {
      SameInventoryIsSets(sha, RowOf(sha, a), RowOf(sha, b));
    }
  }

  /** The audit finds the inventory stable exactly when two calls of the log settle it. */
  lemma StableIsSettled(sha: string -> string, log: Log, parent: string)
    requires Sha256Hex(sha) && CollisionFree(sha, LogTexts(sha, log))
    ensures Stable(sha, LatestTwo(Run(sha, log).scans, parent)) <==> exists i: nat, j: nat :: Settles(sha, log, parent, i, j)
    ensures forall i: nat, j: nat :: Settles(sha, log, parent, i, j) ==>
              LatestThreads(LatestTwo(Run(sha, log).scans, parent)) == SubmittedThreads(log[i].scan)
  {
    hide Run, Stable, LatestTwo, AreLatestTwo, LaterScan, ScanCalls, Covers, SameSubmission, RowOf, NewRow, LogTexts, RecordScan;
    var rows, calls := Run(sha, log).scans, ScanCalls(sha, log);
    RowsAreCalls(sha, log);
    LatestTwoExact(rows, parent);
    if Stable(sha, LatestTwo(rows, parent)) {
      StableHasTwo(sha, LatestTwo(rows, parent));
      var a: nat, b: nat :| AreLatestTwo(rows, parent, a, b);
      SettledRows(sha, log, parent, a, b);
      assert Settles(sha, log, parent, calls[a], calls[b]);
    }
    forall i: nat, j: nat | Settles(sha, log, parent, i, j)
      ensures Stable(sha, LatestTwo(rows, parent)) && LatestThreads(LatestTwo(rows, parent)) == SubmittedThreads(log[i].scan)
    {
      var a := CallsHaveRows(sha, log, i);
      var b := CallsHaveRows(sha, log, j);
      LatestRowsAreLatestCalls(sha, log, parent, a, b);
      SettledRows(sha, log, parent, a, b);
      CompleteIsCovered(sha, log[i].scan);
      CoversIsCanonical(log[i].scan);
    }
  }

  lemma StableHasTwo(sha: string -> string, latest: seq<Scan>)
    requires Stable(sha, latest)
    ensures |latest| == 2
  {
  }

  lemma CoversIsCanonical(call: ScanCall)
    requires Covers(call)
    ensures IsCanonical(call)
  {
  }

  lemma SettledRows(sha: string -> string, log: Log, parent: string, a: nat, b: nat)
    requires Sha256Hex(sha) && CollisionFree(sha, LogTexts(sha, log))
    requires AreLatestTwo(Run(sha, log).scans, parent, a, b)
    ensures a < |ScanCalls(sha, log)| && b < |ScanCalls(sha, log)|
    ensures var i, j := ScanCalls(sha, log)[a], ScanCalls(sha, log)[b];
            && TwoLatest(sha, log, parent, i, j) && NewRow(sha, log[i].scan).Ok?
            && LatestTwo(Run(sha, log).scans, parent) == [RowOf(sha, log[i].scan), RowOf(sha, log[j].scan)]
            && (Stable(sha, LatestTwo(Run(sha, log).scans, parent)) <==>
                Covers(log[i].scan) && Covers(log[j].scan) && SameSubmission(log[i].scan, log[j].scan))
  {
    hide Run, Stable, LatestTwo, TwoLatest, ScanCalls, Covers, SameSubmission;
    hide RowOf, NewRow, LogTexts, RecordScan, EvidenceTexts, CollisionFree, Newer;
    var rows, calls := Run(sha, log).scans, ScanCalls(sha, log);
    RowsAreCalls(sha, log);
    LatestRowsAreLatestCalls(sha, log, parent, a, b);
    LatestTwoUnique(rows, parent, a, b);
    assert RowMatches(sha, log, rows[a], calls[a]) && RowMatches(sha, log, rows[b], calls[b]);
    RowTextsInLog(sha, log, a);
    RowTextsInLog(sha, log, b);
    CollisionFreeSubset(sha, LogTexts(sha, log), EvidenceTexts(rows[a]) + EvidenceTexts(rows[b]));
    StableAsSubmitted(sha, log[calls[a]].scan, log[calls[b]].scan);
  }

  // ------------------------------------------------- certificates, by log

  lemma SameBefore(sha: string -> string, log: Log, n: nat, k: nat, parent: string, thread: string)
    requires k < n <= |log|
    ensures RetiredBy(sha, log[..n], k, parent, thread) <==> RetiredBy(sha, log, k, parent, thread)
    ensures CertificateAccepted(sha, log[..n], k, parent, thread) <==> CertificateAccepted(sha, log, k, parent, thread)
  {
    hide Settles, SubmittedThreads, RecordCertificate, RecordScan, Run;
    assert log[..n][..k] == log[..k];
    forall i: nat, j: nat | Settles(sha, log[..k], parent, i, j) ensures i < k && log[..n][i] == log[i] {
      SettlesInRange(sha, log[..k], parent, i, j);
    }
  }

  lemma SettlesInRange(sha: string -> string, log: Log, parent: string, i: nat, j: nat)
    requires Settles(sha, log, parent, i, j)
    ensures i < |log| && j < |log| && log[i].ScanOp?
  {
    hide RecordScan, Run, LaterScan, Covers, SameSubmission;
  }

  /** A certificate stands after one more call if it is that call, or stood before and survived it. */
  lemma StandingStep(sha: string -> string, log: Log, parent: string, thread: string, c: nat)
    requires log != []
    ensures var n := |log| - 1;
            Standing(sha, log, parent, thread, c) <==>
              (c == n && CertificateAccepted(sha, log, n, parent, thread))
              || (c < n && Standing(sha, log[..n], parent, thread, c)
                  && !CertificateAccepted(sha, log, n, parent, thread) && !RetiredBy(sha, log, n, parent, thread))
  {
    hide CertificateAccepted, RetiredBy;
    var n := |log| - 1;
    forall k: nat | k < n
      ensures RetiredBy(sha, log[..n], k, parent, thread) <==> RetiredBy(sha, log, k, parent, thread)
      ensures CertificateAccepted(sha, log[..n], k, parent, thread) <==> CertificateAccepted(sha, log, k, parent, thread)
    {
      SameBefore(sha, log, n, k, parent, thread);
    }
    if Standing(sha, log, parent, thread, c) { AcceptedInRange(sha, log, c, parent, thread); }
    if CertificateAccepted(sha, log, n, parent, thread) { AcceptedInRange(sha, log, n, parent, thread); }
    if c < n && Standing(sha, log[..n], parent, thread, c)
       && !CertificateAccepted(sha, log, n, parent, thread) && !RetiredBy(sha, log, n, parent, thread) {
      forall k: nat | c < k < |log|
        ensures !CertificateAccepted(sha, log, k, parent, thread) && !RetiredBy(sha, log, k, parent, thread)
      {
        if k < n { assert !CertificateAccepted(sha, log[..n], k, parent, thread); }
      }
    }
  }

  lemma AcceptedInRange(sha: string -> string, log: Log, c: nat, parent: string, thread: string)
    requires CertificateAccepted(sha, log, c, parent, thread)
    ensures c < |log|
  {
  }

  lemma LogTextsGrow(sha: string -> string, log: Log)
    requires log != []
    ensures LogTexts(sha, log[..|log| - 1]) <= LogTexts(sha, log)
  {
    hide Run, EvidenceTexts, ScanAccepted, RowOf;
    var n := |log| - 1;
    LastScanRow(sha, log);
    var before, now := Run(sha, log[..n]).scans, Run(sha, log).scans;
    forall x | x in LogTexts(sha, log[..n]) ensures x in LogTexts(sha, log) {
      var m :| 0 <= m < |before| && x in EvidenceTexts(before[m]);
      assert now[m] == before[m];
    }
  }

  /** What one more call does to the certificate of one thread. */
  ghost predicate StepEffect(sha: string -> string, log: Log, before: map<Child, Certificate>, now: map<Child, Certificate>,
                             parent: string, thread: string)
    requires log != []
  {
    var n := |log| - 1;
    var key := (parent, thread);
    if CertificateAccepted(sha, log, n, parent, thread) then
      log[n].CertificateOp? && key in now && NewCertificate(log[n].certificate) == Ok(now[key])
    else if RetiredBy(sha, log, n, parent, thread) then key !in now
    else (key in now <==> key in before) && (key in now ==> now[key] == before[key])
  }

  /** The last call of a log is the one applied last. */
  lemma LastApplied(sha: string -> string, log: Log)
    requires log != []
    ensures Run(sha, log) == Apply(sha, Run(sha, log[..|log| - 1]), log[|log| - 1])
  {
    hide Apply;
  }

  lemma ScanStep(sha: string -> string, log: Log, parent: string, thread: string)
    requires log != [] && log[|log| - 1].ScanOp?
    ensures StepEffect(sha, log, Run(sha, log[..|log| - 1]).certificates, Run(sha, log).certificates, parent, thread)
  {
    hide Run, NewRow, ScanIdTaken, Settles;
    LastApplied(sha, log);
  }

  lemma RecordStep(sha: string -> string, log: Log, parent: string, thread: string)
    requires log != [] && log[|log| - 1].CertificateOp?
    ensures StepEffect(sha, log, Run(sha, log[..|log| - 1]).certificates, Run(sha, log).certificates, parent, thread)
  {
    hide Run, NewCertificate, CaptureIdTaken, Settles;
    LastApplied(sha, log);
  }

  lemma AuditRun(sha: string -> string, log: Log, parent: string, thread: string)
    requires log != [] && log[|log| - 1].AuditOp?
    ensures var n := |log| - 1;
            && !CertificateAccepted(sha, log, n, parent, thread)
            && Run(sha, log) == AfterAudit(sha, Run(sha, log[..n]), log[n].parent, log[n].at)
    ensures log[|log| - 1].parent != parent ==> !RetiredBy(sha, log, |log| - 1, parent, thread)
  {
    hide Run, AfterAudit, Settles;
    LastApplied(sha, log);
  }

  lemma OtherParentsStay(sha: string -> string, db: Tables, parent: string, at: string, key: Child)
    requires key.0 != parent
    ensures var now := AfterAudit(sha, db, parent, at).certificates;
            (key in now <==> key in db.certificates) && (key in now ==> now[key] == db.certificates[key])
  {
    hide Retired, RetirementRows;
  }

  lemma AuditStep(sha: string -> string, log: Log, parent: string, thread: string)
    requires log != [] && log[|log| - 1].AuditOp? && Sha256Hex(sha) && CollisionFree(sha, LogTexts(sha, log))
    ensures StepEffect(sha, log, Run(sha, log[..|log| - 1]).certificates, Run(sha, log).certificates, parent, thread)
  {
    hide Run, LatestTwo, Stable, LatestThreads, AfterAudit, Settles, SubmittedThreads, CertificateAccepted, RetiredBy, LogTexts;
    var n := |log| - 1;
    var before := log[..n];
    var db := Run(sha, before);
    AuditRun(sha, log, parent, thread);
    if log[n].parent == parent {
      LogTextsGrow(sha, log);
      CollisionFreeSubset(sha, LogTexts(sha, log), LogTexts(sha, before));
      StableIsSettled(sha, before, parent);
      RetiredAsLogged(sha, log, before, parent, thread);
      AuditEffect(sha, db, parent, log[n].at, thread);
    } else {
      OtherParentsStay(sha, db, log[n].parent, log[n].at, (parent, thread));
    }
  }

  /** The log retires a thread exactly when the audit finds it absent from a stable inventory. */
  lemma RetiredAsLogged(sha: string -> string, log: Log, before: Log, parent: string, thread: string)
    requires log != [] && before == log[..|log| - 1] && log[|log| - 1].AuditOp? && log[|log| - 1].parent == parent
    requires var latest := LatestTwo(Run(sha, before).scans, parent);
             && (Stable(sha, latest) <==> exists i: nat, j: nat :: Settles(sha, before, parent, i, j))
             && (forall i: nat, j: nat :: Settles(sha, before, parent, i, j) ==>
                   LatestThreads(latest) == SubmittedThreads(before[i].scan))
    ensures RetiredBy(sha, log, |log| - 1, parent, thread) <==>
              var latest := LatestTwo(Run(sha, before).scans, parent);
              Stable(sha, latest) && thread !in LatestThreads(latest)
  {
    hide Settles, SubmittedThreads, LatestTwo, Stable, LatestThreads, Run;
    forall i: nat, j: nat | Settles(sha, before, parent, i, j) ensures i < |before| && before[i] == log[i] {
      SettlesInRange(sha, before, parent, i, j);
    }
  }

  /** What an audit does to the certificate of one thread of its parent. */
  lemma AuditEffect(sha: string -> string, db: Tables, parent: string, at: string, thread: string)
    ensures var latest := LatestTwo(db.scans, parent);
            var key := (parent, thread); var now := AfterAudit(sha, db, parent, at).certificates;
            if Stable(sha, latest) && thread !in LatestThreads(latest) then key !in now
            else (key in now <==> key in db.certificates) && (key in now ==> now[key] == db.certificates[key])
  {
    hide LatestTwo, Stable, LatestThreads, RetirementRows;
    var key := (parent, thread);
    assert key in db.certificates <==> thread in CertifiedThreads(db.certificates, parent) by {
      if key in db.certificates { assert key.0 == parent && key.1 == thread; }
    }
  }

  lemma CertificateStep(sha: string -> string, log: Log, parent: string, thread: string)
    requires log != [] && Sha256Hex(sha) && CollisionFree(sha, LogTexts(sha, log))
    ensures StepEffect(sha, log, Run(sha, log[..|log| - 1]).certificates, Run(sha, log).certificates, parent, thread)
  {
    hide StepEffect, Run, LogTexts;
    match log[|log| - 1]
    case ScanOp(_) => ScanStep(sha, log, parent, thread);
    case CertificateOp(_) => RecordStep(sha, log, parent, thread);
    case AuditOp(_, _) => AuditStep(sha, log, parent, thread);
  }

  /** The stored certificate of a thread is the standing one of the log, if there is one. */
  lemma {:induction false} CertificatesAreStanding(sha: string -> string, log: Log, parent: string, thread: string)
    requires Sha256Hex(sha) && CollisionFree(sha, LogTexts(sha, log))
    ensures var key := (parent, thread); var certificates := Run(sha, log).certificates;
            && (key in certificates <==> exists c: nat :: Standing(sha, log, parent, thread, c))
            && (forall c: nat :: Standing(sha, log, parent, thread, c) ==>
                  c < |log| && log[c].CertificateOp? && NewCertificate(log[c].certificate) == Ok(certificates[key]))
  {
    hide CertificateAccepted, RetiredBy, Run, Standing, LogTexts, NewCertificate;
    if log == [] {
      NothingStanding(sha, parent, thread);
    } else {
      var n := |log| - 1;
      var key := (parent, thread);
      var before, now := Run(sha, log[..n]).certificates, Run(sha, log).certificates;
      LogTextsGrow(sha, log);
      CollisionFreeSubset(sha, LogTexts(sha, log), LogTexts(sha, log[..n]));
      CertificatesAreStanding(sha, log[..n], parent, thread);
      CertificateStep(sha, log, parent, thread);
      forall c: nat
        ensures Standing(sha, log, parent, thread, c) <==>
                  (c == n && CertificateAccepted(sha, log, n, parent, thread))
                  || (c < n && Standing(sha, log[..n], parent, thread, c)
                      && !CertificateAccepted(sha, log, n, parent, thread) && !RetiredBy(sha, log, n, parent, thread))
      { StandingStep(sha, log, parent, thread, c); }
      if CertificateAccepted(sha, log, n, parent, thread) {
        AcceptedIsCertificate(sha, log, n, parent, thread);
        assert Standing(sha, log, parent, thread, n);
      } else if key in now {
        var c: nat :| Standing(sha, log[..n], parent, thread, c);
        assert Standing(sha, log, parent, thread, c);
      }
    }
  }

  lemma AcceptedIsCertificate(sha: string -> string, log: Log, c: nat, parent: string, thread: string)
    requires CertificateAccepted(sha, log, c, parent, thread)
    ensures c < |log| && log[c].CertificateOp?
  {
  }

  lemma NothingStanding(sha: string -> string, parent: string, thread: string)
    ensures Run(sha, []).certificates == map[] && forall c: nat :: !Standing(sha, [], parent, thread, c)
  {
  }

  // ------------------------------------------------- the verdict, by log

  /** The certificate that was submitted proves a full capture, field by field. */
  predicate ProvesFullCapture(call: CertificateCall) {
    && call.status == "full" && call.schema == "discord_full_capture_completion_gate.v1"
    && call.fullCaptureConfirmed == Val(true) && call.attachmentsConsistent == Val(true)
    && call.messages > 0 && call.unresolvedGaps == 0 && call.pendingRetries == 0
    && call.discovered == call.saved && call.saved == call.manifested
    && call.blockers == []
  }

  /** An accepted certificate is strict-full exactly when what was submitted proves a full capture. */
  lemma StrictIsSubmitted(call: CertificateCall)
    requires NewCertificate(call).Ok?
    ensures ProvesFull(NewCertificate(call).value) <==> ProvesFullCapture(call)
  {
    hide Strip, Blank;
  }

  /** The log holds a standing certificate call for the thread that proves a full capture. */
  ghost predicate CertifiedFull(sha: string -> string, log: Log, parent: string, thread: string) {
    exists c: nat :: c < |log| && Standing(sha, log, parent, thread, c) && log[c].CertificateOp? && ProvesFullCapture(log[c].certificate)
  }

  lemma StoredIsCertifiedFull(sha: string -> string, log: Log, parent: string, thread: string)
    requires Sha256Hex(sha) && CollisionFree(sha, LogTexts(sha, log))
    ensures CertifiedFull(sha, log, parent, thread) <==>
              (parent, thread) in Run(sha, log).certificates && ProvesFull(Run(sha, log).certificates[(parent, thread)])
  {
    hide Run, Standing, NewCertificate, ProvesFull, LogTexts, ProvesFullCapture;
    CertificatesAreStanding(sha, log, parent, thread);
    forall c: nat | c < |log| && log[c].CertificateOp? && NewCertificate(log[c].certificate).Ok?
      ensures ProvesFull(NewCertificate(log[c].certificate).value) <==> ProvesFullCapture(log[c].certificate)
    {
      StrictIsSubmitted(log[c].certificate);
    }
  }

  /**
   * After any sequence of calls on an empty store, an audit of `parent` says `full`
   * exactly when the two latest accepted scans of `parent` cover all required scopes,
   * submitted the same threads scope by scope, and every submitted thread has a
   * certificate that proves a full capture, was the last one accepted for it and has not
   * been retired since.
   */
  lemma FullOverRuns(sha: string -> string, log: Log, parent: string)
    requires Sha256Hex(sha) && CollisionFree(sha, LogTexts(sha, log))
    ensures AuditReport(sha, Run(sha, log), parent).status == Full <==>
              exists i: nat, j: nat :: Settles(sha, log, parent, i, j)
                && forall t :: t in SubmittedThreads(log[i].scan) ==> CertifiedFull(sha, log, parent, t)
  {
    hide Run, Settles, SubmittedThreads, CertifiedFull, ProvesFull, AuditReport, Stable, LatestTwo, LatestThreads, LogTexts;
    var db := Run(sha, log);
    var latest := LatestTwo(db.scans, parent);
    FullIsStableAndCertified(sha, db, parent);
    StableIsSettled(sha, log, parent);
    forall t
      ensures CertifiedFull(sha, log, parent, t) <==>
                (parent, t) in db.certificates && ProvesFull(db.certificates[(parent, t)])
    { StoredIsCertifiedFull(sha, log, parent, t); }
    forall i: nat, j: nat | Settles(sha, log, parent, i, j) ensures i < |log| && log[i].ScanOp? {
      SettlesInRange(sha, log, parent, i, j);
    }
  }

  // ------------------------------------------------- back-dated calls

  /** The row of a call that observed its parent before an accepted scan sorts below that scan's row. */
  lemma EarlierRowIsLess(sha: string -> string, early: ScanCall, late: ScanCall)
    requires NewRow(sha, early).Ok? && NewRow(sha, late).Ok? && ObservedInstant(early) < ObservedInstant(late)
    ensures Less(RowOf(sha, early).observedAt, RowOf(sha, late).observedAt)
  {
    hide NewRow, RowOf, NormalizedTime;
    AcceptedForms(sha, early);
    AcceptedForms(sha, late);
    TimesNormalized(early);
    TimesNormalized(late);
    TextOrderIsTimeOrder(early.observedAt, late.observedAt);
  }

  lemma AppendedScan(sha: string -> string, log: Log, call: ScanCall)
    ensures var db := Run(sha, log);
            if RecordScan(sha, db, call).Ok? then
              && NewRow(sha, call).Ok? && RowOf(sha, call).parent == call.parent
              && Run(sha, log + [ScanOp(call)]).scans == db.scans + [RowOf(sha, call)]
              && Run(sha, log + [ScanOp(call)]).certificates == db.certificates
              && Run(sha, log + [ScanOp(call)]).retirements == db.retirements
            else Run(sha, log + [ScanOp(call)]) == db
  {
    hide Run, NewRow, ScanIdTaken;
    var more := log + [ScanOp(call)];
    assert more[..|more| - 1] == log;
    LastApplied(sha, more);
    if NewRow(sha, call).Ok? { RowHasParent(sha, call); }
  }

  lemma RowHasParent(sha: string -> string, call: ScanCall)
    requires NewRow(sha, call).Ok?
    ensures RowOf(sha, call).parent == call.parent
  {
    hide NormalizeReceipts, DigestIds, Distinct, ScopeByThread, Blank, NormalizedTime;
  }

  /** The verdict reads the scans and the certificates and nothing else. */
  lemma ReportReadsScansAndCertificates(sha: string -> string, a: Tables, b: Tables, parent: string)
    requires a.scans == b.scans && a.certificates == b.certificates
    ensures AuditReport(sha, a, parent) == AuditReport(sha, b, parent)
  {
    hide LatestTwo, Stable;
    assert Retired(sha, a, parent) == Retired(sha, b, parent);
    assert LeftAfterAudit(sha, a, parent) == LeftAfterAudit(sha, b, parent);
    SameReport(sha, a, b, parent);
  }

  /**
   * A scan call whose observation time lies before the two latest accepted scans of its
   * parent, whatever offsets the times are written with, changes no verdict of any parent.
   */
  lemma BackdatedCallIsIgnored(sha: string -> string, log: Log, call: ScanCall, i: nat, j: nat, parent: string)
    requires TwoLatest(sha, log, call.parent, i, j)
    requires ObservedInstant(call) < ObservedInstant(log[j].scan)
    ensures AuditReport(sha, Run(sha, log + [ScanOp(call)]), parent) == AuditReport(sha, Run(sha, log), parent)
  {
    hide Run, RecordScan, NewRow, RowOf, ScanCalls, TwoLatest, LatestTwo, AuditReport, ObservedInstant, LaterScan, Newer;
    AppendedScan(sha, log, call);
    var db := Run(sha, log);
    if RecordScan(sha, db, call).Ok? {
      LatestRowIs(sha, log, call.parent, i, j);
      EarlierRowIsLess(sha, call, log[j].scan);
      var row := RowOf(sha, call);
      BackdatedScanIsIgnored(sha, db, row, parent);
      ReportReadsScansAndCertificates(sha, Run(sha, log + [ScanOp(call)]), db.(scans := db.scans + [row]), parent);
    }
  }

  lemma LatestRowIs(sha: string -> string, log: Log, parent: string, i: nat, j: nat)
    requires TwoLatest(sha, log, parent, i, j)
    ensures var latest := LatestTwo(Run(sha, log).scans, parent);
            j < |log| && log[j].ScanOp? && NewRow(sha, log[j].scan).Ok? && |latest| == 2 && latest[1] == RowOf(sha, log[j].scan)
  {
    hide Run, RecordScan, NewRow, RowOf, ScanCalls, LatestTwo, LaterScan, Newer;
    var rows := Run(sha, log).scans;
    RowsAreCalls(sha, log);
    var a := CallsHaveRows(sha, log, i);
    var b := CallsHaveRows(sha, log, j);
    LatestRowsAreLatestCalls(sha, log, parent, a, b);
    LatestTwoUnique(rows, parent, a, b);
    assert RowMatches(sha, log, rows[b], j);
  }
}
