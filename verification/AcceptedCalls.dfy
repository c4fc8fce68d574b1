/**
 * Which calls of a log the store accepts, and what it then keeps, on the fields of the calls
 * and without mention of the checks in the store.
 */
module AcceptedCalls {
  import opened Text
  import opened Framing
  import opened Times
  import opened Receipts
  import opened ScopeInventory
  import opened InventoryFields
  import opened CompletenessTables
  import opened StoreRuns
  import opened AuditLog

  // ------------------------------------------------- scans

  /** An aware time whose moment a UTC calendar date can name. */
  ghost predicate TimeNamed(time: ObservedTime) {
    time.Aware? && exists utc: Civil :: ValidCivil(utc) && Micros(utc) + time.offset == Micros(time.civil)
  }

  /** Evidence in receipts: a known kind, receipts for scopes of that kind only, and no thread twice. */
  predicate ReceiptsSound(call: ScanCall) {
    && call.kind.Some? && !call.kind.value.OtherKind? && call.receipts.Val?
    && (forall i :: 0 <= i < |call.receipts.v| ==>
          call.receipts.v[i].scope in ScopesOf(call.kind.value) && Acceptable(call.parent, call.receipts.v[i]))
    && Distinct(AllSubmitted(call.receipts.v))
  }

  /** Evidence in the older form: four booleans, and no thread twice. */
  predicate FlagsSound(call: ScanCall) {
    && call.paginationExhausted.Val? && call.scopes.Val?
    && call.scopes.v.active.Val? && call.scopes.v.archivedPublic.Val? && call.scopes.v.archivedPrivate.Val?
    && Distinct(call.threadIds)
  }

  /** The caller gives receipts, of whatever type, or names a kind. */
  predicate InReceiptForm(call: ScanCall) {
    call.receipts.Val? || call.receipts.Mistyped? || call.kind.Some?
  }

  ghost predicate ScanSound(call: ScanCall) {
    && !Blank(call.parent) && !Blank(call.scanId) && TimeNamed(call.observedAt)
    && if InReceiptForm(call) then ReceiptsSound(call) else FlagsSound(call)
  }

  lemma TimeNamedIs(time: ObservedTime)
    ensures TimeNamed(time) <==> NormalizedTime(time).Ok?
  {
    hide IsoText, FromMicros, Micros;
    if time.Aware? {
      if NormalizedTime(time).Ok? { NormalizedExact(time.civil, time.offset, NormalizedTime(time).value); }
      forall utc: Civil | ValidCivil(utc) && Micros(utc) + time.offset == Micros(time.civil) ensures NormalizedTime(time).Ok? {
        NormalizedExact(time.civil, time.offset, IsoText(utc));
      }
    }
  }

  lemma SubmittableIs(call: ScanCall)
    requires call.kind.Some? && call.receipts.Val?
    ensures Submittable(call.parent, call.kind.value, call.receipts.v) <==> ReceiptsSound(call)
  {
    hide Acceptable, AllSubmitted, Distinct;
    assert ScopesOf(call.kind.value) == RequiredScopes(call.kind.value);
  }

  lemma NewRowExact(sha: string -> string, call: ScanCall)
    requires Sha256Hex(sha)
    ensures NewRow(sha, call).Ok? <==> ScanSound(call)
  {
    hide NormalizeReceipts, Submittable, NormalizedTime, TimeNamed, DigestIds, ScopeByThread, Distinct, Blank, AllSubmitted, ReceiptsSound;
    TimeNamedIs(call.observedAt);
    if call.kind.Some? && call.receipts.Val? {
      NormalizationAccepts(sha, call.parent, call.kind.value, call.receipts.v);
      SubmittableIs(call);
      if NormalizeReceipts(sha, call.parent, call.kind.value, call.receipts.v).Ok? {
        NormalizationKeeps(sha, call.parent, call.kind.value, call.receipts.v);
        SoundIsDistinct(call);
      }
    } else {
      NotSound(call);
    }
  }

  lemma SoundIsDistinct(call: ScanCall)
    ensures ReceiptsSound(call) ==> Distinct(AllSubmitted(call.receipts.v))
  {
    hide Distinct, AllSubmitted, Acceptable;
  }

  lemma NotSound(call: ScanCall)
    requires call.kind.None? || !call.receipts.Val?
    ensures !ReceiptsSound(call)
  {
  }

  /** A scan id is taken when an earlier accepted scan of the parent has it. */
  lemma TakenIsEarlier(sha: string -> string, log: Log, parent: string, scanId: string)
    ensures ScanIdTaken(Run(sha, log).scans, parent, scanId) <==>
              exists j: nat :: ScanAccepted(sha, log, j) && log[j].scan.parent == parent && log[j].scan.scanId == scanId
  {
    hide Run, RecordScan, ScanCalls, RowMatches;
    RowsAreCalls(sha, log);
    var rows, calls := Run(sha, log).scans, ScanCalls(sha, log);
    forall m | 0 <= m < |rows|
      ensures calls[m] < |log| && ScanAccepted(sha, log, calls[m])
      ensures rows[m].parent == log[calls[m]].scan.parent && rows[m].scanId == log[calls[m]].scan.scanId
    {
      MatchingRow(sha, log, rows[m], calls[m]);
    }
    forall j: nat | ScanAccepted(sha, log, j) && log[j].scan.parent == parent && log[j].scan.scanId == scanId
      ensures ScanIdTaken(rows, parent, scanId)
    {
      var m := CallsHaveRows(sha, log, j);
      assert rows[m].parent == parent && rows[m].scanId == scanId;
    }
    if ScanIdTaken(rows, parent, scanId) {
      var m :| 0 <= m < |rows| && rows[m].parent == parent && rows[m].scanId == scanId;
      assert ScanAccepted(sha, log, calls[m]);
    }
  }

  lemma MatchingRow(sha: string -> string, log: Log, row: Scan, i: nat)
    requires RowMatches(sha, log, row, i)
    ensures i < |log| && ScanAccepted(sha, log, i) && row.parent == log[i].scan.parent && row.scanId == log[i].scan.scanId
  {
    hide RecordScan, Run, NormalizeReceipts, DigestIds, ScopeByThread, Distinct, Blank, NormalizedTime;
  }

  /** A scan call is accepted exactly when it is sound and no accepted scan of its parent has had its id. */
  lemma ScanAcceptedExact(sha: string -> string, log: Log, i: nat)
    requires Sha256Hex(sha) && i < |log| && log[i].ScanOp?
    ensures ScanAccepted(sha, log, i) <==>
              && ScanSound(log[i].scan)
              && forall j: nat :: j < i && ScanAccepted(sha, log, j) && log[j].scan.parent == log[i].scan.parent
                   ==> log[j].scan.scanId != log[i].scan.scanId
  {
    hide Run, NewRow, ScanIdTaken, ScanSound;
    var call := log[i].scan;
    NewRowExact(sha, call);
    TakenIsEarlier(sha, log[..i], call.parent, call.scanId);
    forall j: nat | j < i ensures ScanAccepted(sha, log[..i], j) <==> ScanAccepted(sha, log, j) { AcceptedInPrefix(sha, log, i, j); }
    forall j: nat | ScanAccepted(sha, log[..i], j) ensures j < i { }
  }

  /** What a row keeps of a call in the older form: its threads without scopes, its flags, and no receipts. */
  lemma FlagsRow(sha: string -> string, call: ScanCall)
    requires NewRow(sha, call).Ok? && !InReceiptForm(call)
    ensures call.scopes.Val? && call.paginationExhausted.Val?
    ensures var row := NewRow(sha, call).value;
            && row.parent == call.parent && row.scanId == call.scanId && Ok(row.observedAt) == NormalizedTime(call.observedAt)
            && row.threadCount == |call.threadIds| && row.threadSetDigest == sha(Frame(SortedSet(call.threadIds)))
            && row.kind == None && row.stored == NoReceipts && row.scopes == Some(call.scopes.v) && row.exhausted == call.paginationExhausted.v
            && (forall t :: t in row.members <==> t in call.threadIds) && (forall t :: t in row.members ==> row.members[t] == None)
  {
    hide NormalizeReceipts, ScopeByThread, Distinct, Blank, NormalizedTime, SortedSet, Frame;
  }

  /** What a stored receipt keeps of a submitted one. */
  predicate KeptReceipt(sha: string -> string, entry: ScopeEntry, kept: Receipt) {
    && entry.receipt.Val?
    && var r := entry.receipt.v;
    && r.threadIds.Val?
    && kept.route == Val(RouteOf(entry.scope)) && kept.parentBound == Val(true)
    && kept.activeParentFilterApplied == r.activeParentFilterApplied && kept.pageCount == r.pageCount
    && kept.terminalReached == r.terminalReached
    && kept.terminalCursorDigest == Val(sha(if r.terminalCursor.Val? then r.terminalCursor.v else "<none>"))
    && kept.threadCount == Val(|r.threadIds.v|) && kept.threadSetDigest == Val(sha(Frame(SortedSet(r.threadIds.v))))
    && kept.lockedCount == r.lockedCount
    && (entry.scope != ArchivedPrivate || !r.authorization.Val? ==> kept.authorizationConfirmed == Null && kept.authorizationCapability == Null)
    && (entry.scope == ArchivedPrivate && r.authorization.Val? ==>
          var confirmed := r.authorization.v == RawAuthorization(Val(ManageThreads), Val(true));
          kept.authorizationConfirmed == Val(confirmed) && kept.authorizationCapability == if confirmed then Val(ManageThreads) else Null)
  }

  lemma KeptAsFields(sha: string -> string, parent: string, entry: ScopeEntry, receipts: map<Scope, Receipt>)
    requires KeptAs(sha, parent, entry, receipts)
    ensures entry.scope in receipts && KeptReceipt(sha, entry, receipts[entry.scope])
  {
    hide ReceiptValid, SortedSet, Frame, Distinct, Blank;
  }

  /** What a row keeps of a call with receipts: every thread under the scope that submitted it, and every receipt. */
  lemma {:induction false} ReceiptsRow(sha: string -> string, call: ScanCall)
    requires Sha256Hex(sha) && NewRow(sha, call).Ok? && InReceiptForm(call)
    ensures call.kind.Some? && call.receipts.Val?
    ensures var row, ids, entries := NewRow(sha, call).value, AllSubmitted(call.receipts.v), call.receipts.v;
            && row.parent == call.parent && row.scanId == call.scanId && Ok(row.observedAt) == NormalizedTime(call.observedAt)
            && row.threadCount == |ids| && row.threadSetDigest == sha(Frame(SortedSet(ids)))
            && row.kind == call.kind && row.stored.Table? && row.scopes == None && !row.exhausted
            && (forall i :: 0 <= i < |entries| ==>
                  entries[i].scope in row.stored.receipts && KeptReceipt(sha, entries[i], row.stored.receipts[entries[i].scope]))
            && (forall s :: s in row.stored.receipts ==> exists i :: 0 <= i < |entries| && entries[i].scope == s)
            && (forall t :: t in row.members <==> t in ids)
            && (forall t, s :: t in row.members && row.members[t] == Some(s) ==> t in SubmittedFor(entries, s))
            && (forall t :: t in row.members ==> row.members[t].Some?)
  {
    hide NormalizeReceipts, ScopeByThread, Distinct, Blank, NormalizedTime, SortedSet, Frame, KeptReceipt, KeptAs, AllSubmitted, SubmittedFor;
    NormalizationKeeps(sha, call.parent, call.kind.value, call.receipts.v);
    var receipts := NormalizeReceipts(sha, call.parent, call.kind.value, call.receipts.v).value.receipts;
    forall i | 0 <= i < |call.receipts.v|
      ensures call.receipts.v[i].scope in receipts && KeptReceipt(sha, call.receipts.v[i], receipts[call.receipts.v[i].scope])
    {
      KeptAsFields(sha, call.parent, call.receipts.v[i], receipts);
    }
    MembersAreSubmitted(call.receipts.v);
  }

  lemma {:induction false} MembersAreSubmitted(entries: seq<ScopeEntry>)
    ensures forall t :: t in ScopeByThread(entries) <==> t in AllSubmitted(entries)
    ensures forall t :: t in ScopeByThread(entries) ==>
              ScopeByThread(entries)[t].Some? && t in SubmittedFor(entries, ScopeByThread(entries)[t].value)
  {
    hide SubmittedIds;
    if entries != [] {
      var n := |entries| - 1;
      MembersAreSubmitted(entries[..n]);
      assert forall t :: t in AllSubmitted(entries) <==> t in AllSubmitted(entries[..n]) || t in SubmittedIds(entries[n]);
    }
  }

  // ------------------------------------------------- certificates

  /** A certificate call in order by itself: ids that are not blank, a matching binding, two booleans, no negative count. */
  predicate CertificateSound(call: CertificateCall) {
    && !Blank(call.thread) && !Blank(call.captureId)
    && (if call.boundThread.Some? && call.boundThread != Some("") then call.boundThread == Some(call.thread)
        else call.boundTargetThread in {None, Some(call.thread)})
    && call.fullCaptureConfirmed.Val? && call.attachmentsConsistent.Val?
    && call.messages >= 0 && call.discovered >= 0 && call.saved >= 0 && call.manifested >= 0
    && call.unresolvedGaps >= 0 && call.pendingRetries >= 0
  }

  lemma NewCertificateExact(call: CertificateCall)
    ensures NewCertificate(call).Ok? <==> CertificateSound(call)
    ensures NewCertificate(call).Ok? ==>
              var c := NewCertificate(call).value;
              && c.captureId == Strip(call.captureId) && c.schema == call.schema
              && c.status == (if call.status == "" then "blocked" else call.status)
              && Val(c.fullCaptureConfirmed) == call.fullCaptureConfirmed && Val(c.attachmentsConsistent) == call.attachmentsConsistent
              && c.messages == call.messages && c.discovered == call.discovered && c.saved == call.saved && c.manifested == call.manifested
              && c.unresolvedGaps == call.unresolvedGaps && c.pendingRetries == call.pendingRetries && c.blockers == call.blockers
  {
    hide Strip;
  }

  /** The parents with rows of their own are those of accepted scans. */
  lemma {:induction false} ParentsAreScanned(sha: string -> string, log: Log, parent: string)
    ensures parent in Run(sha, log).parents <==> exists j: nat :: ScanAccepted(sha, log, j) && log[j].scan.parent == parent
  {
    hide RecordScan, RecordCertificate, AfterAudit;
    if log == [] {
      NothingAccepted(sha);
    } else {
      var n := |log| - 1;
      ParentsAreScanned(sha, log[..n], parent);
      ParentStep(sha, log, parent);
      forall j: nat | j < n ensures ScanAccepted(sha, log[..n], j) <==> ScanAccepted(sha, log, j) { AcceptedInPrefix(sha, log, n, j); }
      if parent in Run(sha, log[..n]).parents {
        var j: nat :| ScanAccepted(sha, log[..n], j) && log[..n][j].scan.parent == parent;
        assert ScanAccepted(sha, log, j);
      }
    }
  }

  lemma ParentStep(sha: string -> string, log: Log, parent: string)
    requires log != []
    ensures var n := |log| - 1;
            parent in Run(sha, log).parents <==>
              parent in Run(sha, log[..n]).parents || (ScanAccepted(sha, log, n) && log[n].scan.parent == parent)
  {
    hide Run, NewRow, NewCertificate, CaptureIdTaken, Retired, RetirementRows;
    LastApplied(sha, log);
  }

  /**
   * A certificate call is accepted exactly when it is in order by itself, a scan of its
   * parent was accepted before, and no other thread of the parent has a standing certificate
   * of the same capture.
   */
  lemma CertificateAcceptedExact(sha: string -> string, log: Log, i: nat)
    requires Sha256Hex(sha) && i < |log| && log[i].CertificateOp? && CollisionFree(sha, LogTexts(sha, log[..i]))
    ensures var call := log[i].certificate;
            CertificateAccepted(sha, log, i, call.parent, call.thread) <==>
              && CertificateSound(call)
              && (exists j: nat :: ScanAccepted(sha, log[..i], j) && log[j].scan.parent == call.parent)
              && !CaptureInUse(sha, log[..i], call.parent, call.thread, Strip(call.captureId))
  {
    hide Run, NewCertificate, CertificateSound, CaptureIdTaken, ScanAccepted, LogTexts, CaptureInUse;
    var call := log[i].certificate;
    NewCertificateExact(call);
    ParentsAreScanned(sha, log[..i], call.parent);
    TakenIsInUse(sha, log[..i], call.parent, call.thread, Strip(call.captureId));
    forall j: nat | ScanAccepted(sha, log[..i], j) ensures j < i && log[..i][j] == log[j] { AcceptedInLog(sha, log[..i], j); }
  }

  lemma AcceptedInLog(sha: string -> string, log: Log, j: nat)
    requires ScanAccepted(sha, log, j)
    ensures j < |log| && log[j].ScanOp?
  {
    hide RecordScan, Run;
  }

  /** Another thread of the parent has a standing certificate of the capture. */
  ghost predicate CaptureInUse(sha: string -> string, log: Log, parent: string, thread: string, capture: string) {
    exists other, c: nat :: other != thread && c < |log| && log[c].CertificateOp? && Standing(sha, log, parent, other, c)
                            && Strip(log[c].certificate.captureId) == capture
  }

  lemma TakenIsInUse(sha: string -> string, log: Log, parent: string, thread: string, capture: string)
    requires Sha256Hex(sha) && CollisionFree(sha, LogTexts(sha, log))
    ensures CaptureIdTaken(Run(sha, log).certificates, parent, thread, capture) <==> CaptureInUse(sha, log, parent, thread, capture)
  {
    hide Run, NewCertificate, Standing, Strip, LogTexts;
    var certificates := Run(sha, log).certificates;
    forall other
      ensures (parent, other) in certificates <==> exists c: nat :: Standing(sha, log, parent, other, c)
      ensures forall c: nat :: Standing(sha, log, parent, other, c) ==>
                c < |log| && log[c].CertificateOp? && certificates[(parent, other)].captureId == Strip(log[c].certificate.captureId)
    {
      CertificatesAreStanding(sha, log, parent, other);
      forall c: nat | Standing(sha, log, parent, other, c)
        ensures c < |log| && log[c].CertificateOp? && certificates[(parent, other)].captureId == Strip(log[c].certificate.captureId)
      {
        NewCertificateExact(log[c].certificate);
      }
    }
    if CaptureIdTaken(certificates, parent, thread, capture) {
      var k :| k in certificates && k.0 == parent && k.1 != thread && certificates[k].captureId == capture;
      assert k == (parent, k.1);
      var c: nat :| Standing(sha, log, parent, k.1, c);
    }
    if CaptureInUse(sha, log, parent, thread, capture) {
      var other, c: nat :| other != thread && c < |log| && log[c].CertificateOp? && Standing(sha, log, parent, other, c)
                           && Strip(log[c].certificate.captureId) == capture;
      assert (parent, other) in certificates;
    }
  }
}
