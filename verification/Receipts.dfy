/**
 * Scope receipts of a parent inventory: validation of what a caller submits
 * (`_normalize_scope_receipts`) and of what the database holds
 * (`_stored_scope_receipts`, `_normalized_scope_receipt_valid`).
 */
module Receipts {
  import opened Text
  import opened Framing

  /** A field of a dictionary: missing, `None`, of another type, or of the expected type. */
  datatype Raw<+T> = Absent | Null | Mistyped | Val(v: T)

  datatype Scope = ActiveFiltered | ArchivedPublic | ArchivedPrivate | OtherScope(name: string)
  datatype Kind = Announcement | Forum | Media | TextChannel | OtherKind(name: string)
  datatype Route = RouteOf(scope: Scope) | OtherRoute(text: string)
  datatype Capability = ManageThreads | OtherCapability(text: string)

  /** `REQUIRED_SCOPES_BY_PARENT_KIND.get(kind)`; an unknown kind has none. */
  function RequiredScopes(kind: Kind): seq<Scope> {
    match kind
    case OtherKind(_) => []
    case TextChannel => [ActiveFiltered, ArchivedPublic, ArchivedPrivate]
    case _ => [ActiveFiltered, ArchivedPublic]
  }

  function RequiredFor(kind: Option<Kind>): seq<Scope> {
    match kind
    case None => []
    case Some(k) => RequiredScopes(k)
  }

  // ---------------------------------------------------- submitted receipts

  datatype RawAuthorization = RawAuthorization(capability: Raw<Capability>, confirmed: Raw<bool>)

  /** A receipt as submitted. `threadIds` is mistyped unless it is a list of strings. */
  datatype RawReceipt = RawReceipt(
    route: Raw<Route>,
    parentTargetKey: Raw<string>,
    activeParentFilterApplied: Raw<bool>,
    pageCount: Raw<int>,
    terminalReached: Raw<bool>,
    terminalCursor: Raw<string>,
    threadIds: Raw<seq<string>>,
    lockedCount: Raw<int>,
    authorization: Raw<RawAuthorization>)

  datatype ScopeEntry = ScopeEntry(scope: Scope, receipt: Raw<RawReceipt>)

  predicate DistinctScopes(entries: seq<ScopeEntry>) {
    forall i, j :: 0 <= i < j < |entries| ==> entries[i].scope != entries[j].scope
  }

  /** A Python dictionary from scope to receipt, in insertion order. */
  type ScopeEntries = e: seq<ScopeEntry> | DistinctScopes(e) witness []

  datatype ReceiptError =
    | ParentKindInvalid | ScopeNotApplicable | ObjectRequired | RouteMismatch | ParentBindingMismatch
    | FilterBooleanRequired | ActiveFilterRequired | PageCountInvalid | TerminalEvidenceRequired
    | TerminalCursorInvalid | ThreadIdsInvalid | DuplicateThreadId | LockedCountInvalid
    | NormalizedInvalid | ThreadScopeOverlap

  // ---------------------------------------------------- stored receipts

  /** A receipt as the database holds it; after tampering any field may be anything. */
  datatype Receipt = Receipt(
    route: Raw<Route>,
    parentBound: Raw<bool>,
    activeParentFilterApplied: Raw<bool>,
    pageCount: Raw<int>,
    terminalReached: Raw<bool>,
    terminalCursorDigest: Raw<string>,
    threadCount: Raw<int>,
    threadSetDigest: Raw<string>,
    lockedCount: Raw<int>,
    authorizationConfirmed: Raw<bool>,
    authorizationCapability: Raw<Capability>)

  /** The `scope_receipts_json` column: NULL or empty, text that is no table of objects, or a table. */
  datatype StoredReceipts = NoReceipts | Malformed | Table(receipts: map<Scope, Receipt>)

  predicate AtLeast(field: Raw<int>, minimum: int) {
    field.Val? && field.v >= minimum
  }

  predicate HexField(field: Raw<string>) {
    field.Val? && IsHexDigest(field.v)
  }

  predicate AuthorizationShapeValid(scope: Scope, r: Receipt) {
    && (if scope == ArchivedPrivate then r.authorizationConfirmed.Null? || r.authorizationConfirmed.Val?
        else r.authorizationConfirmed.Null?)
    && r.authorizationCapability == (if r.authorizationConfirmed == Val(true) then Val(ManageThreads) else Null)
  }

  /** `_normalized_scope_receipt_valid`. */
  predicate ReceiptValid(sha: string -> string, scope: Scope, r: Receipt) {
    && r.route == Val(RouteOf(scope)) && r.parentBound == Val(true)
    && r.terminalReached.Val?
    && r.activeParentFilterApplied.Val? && (scope == ActiveFiltered ==> r.activeParentFilterApplied.v)
    && AtLeast(r.pageCount, 1) && AtLeast(r.threadCount, 0) && AtLeast(r.lockedCount, 0)
    && r.lockedCount.v <= r.threadCount.v
    && HexField(r.terminalCursorDigest) && HexField(r.threadSetDigest)
    && (r.threadCount.v == 0 ==> r.threadSetDigest.v == DigestIds(sha, []))
    && AuthorizationShapeValid(scope, r)
  }

  /** `_stored_scope_receipts`: the usable receipts, empty unless every one of them is valid. */
  function UsableReceipts(sha: string -> string, stored: StoredReceipts, kind: Option<Kind>): (map<Scope, Receipt>, bool) {
    if stored.Table? && RequiredFor(kind) != []
      && (forall s :: s in stored.receipts ==> s in RequiredFor(kind) && ReceiptValid(sha, s, stored.receipts[s]))
    then (stored.receipts, true)
    else (map[], false)
  }

  // ---------------------------------------------------- normalisation

  /** `hexdigest()` always yields 64 lower-case hexadecimal digits. */
  ghost predicate Sha256Hex(sha: string -> string) {
    forall t :: IsHexDigest(sha(t))
  }

  function DigestedCursor(cursor: Raw<string>): string {
    if cursor.Val? then cursor.v else "<none>"
  }

  function AuthorizationConfirmed(scope: Scope, authorization: Raw<RawAuthorization>): Raw<bool> {
    if scope == ArchivedPrivate && authorization.Val? then
      Val(authorization.v.capability == Val(ManageThreads) && authorization.v.confirmed == Val(true))
    else Null
  }

  function NormalReceipt(sha: string -> string, scope: Scope, r: RawReceipt): Receipt
    requires r.activeParentFilterApplied.Val? && r.pageCount.Val? && r.terminalReached.Val?
    requires r.threadIds.Val? && r.lockedCount.Val?
  {
    var confirmed := AuthorizationConfirmed(scope, r.authorization);
    Receipt(Val(RouteOf(scope)), Val(true), r.activeParentFilterApplied, r.pageCount, r.terminalReached,
            Val(sha(DigestedCursor(r.terminalCursor))), Val(|r.threadIds.v|), Val(DigestIds(sha, r.threadIds.v)),
            r.lockedCount, confirmed, if confirmed == Val(true) then Val(ManageThreads) else Null)
  }

  /** One turn of the loop of `_normalize_scope_receipts`, first failing check first. */
  function NormalizeOne(sha: string -> string, parent: string, entry: ScopeEntry): Result<Receipt, ReceiptError> {
    if !entry.receipt.Val? then Err(ObjectRequired)
    else
      var scope, r := entry.scope, entry.receipt.v;
      if r.route != Val(RouteOf(scope)) then Err(RouteMismatch)
      else if r.parentTargetKey != Val(parent) then Err(ParentBindingMismatch)
      else if !r.activeParentFilterApplied.Val? then Err(FilterBooleanRequired)
      else if scope == ActiveFiltered && !r.activeParentFilterApplied.v then Err(ActiveFilterRequired)
      else if !AtLeast(r.pageCount, 1) then Err(PageCountInvalid)
      else if !r.terminalReached.Val? || r.terminalCursor.Absent? then Err(TerminalEvidenceRequired)
      else if r.terminalCursor.Mistyped? then Err(TerminalCursorInvalid)
      else if !r.threadIds.Val? || (exists i :: 0 <= i < |r.threadIds.v| && Blank(r.threadIds.v[i])) then Err(ThreadIdsInvalid)
      else if !Distinct(r.threadIds.v) then Err(DuplicateThreadId)
      else if !AtLeast(r.lockedCount, 0) || r.lockedCount.v > |r.threadIds.v| then Err(LockedCountInvalid)
      else if !ReceiptValid(sha, scope, NormalReceipt(sha, scope, r)) then Err(NormalizedInvalid)
      else Ok(NormalReceipt(sha, scope, r))
  }

  /** The thread ids an entry submits. */
  function SubmittedIds(entry: ScopeEntry): seq<string> {
    if entry.receipt.Val? && entry.receipt.v.threadIds.Val? then entry.receipt.v.threadIds.v else []
  }

  datatype Normalized = Normalized(receipts: map<Scope, Receipt>, ids: seq<string>)

  /** The loop as a fold over the entries in order. */
  function NormalizeEntries(sha: string -> string, parent: string, entries: seq<ScopeEntry>): Result<Normalized, ReceiptError> {
    if entries == [] then Ok(Normalized(map[], []))
    else
      var n := |entries| - 1;
      match NormalizeEntries(sha, parent, entries[..n])
      case Err(e) => Err(e)
      case Ok(done) =>
        match NormalizeOne(sha, parent, entries[n])
        case Err(e) => Err(e)
        case Ok(receipt) =>
          Ok(Normalized(done.receipts[entries[n].scope := receipt], done.ids + SubmittedIds(entries[n])))
  }

  /** `_normalize_scope_receipts`. */
  function NormalizeReceipts(sha: string -> string, parent: string, kind: Kind, entries: ScopeEntries): Result<Normalized, ReceiptError> {
    if RequiredScopes(kind) == [] then Err(ParentKindInvalid)
    else if exists i :: 0 <= i < |entries| && entries[i].scope !in RequiredScopes(kind) then Err(ScopeNotApplicable)
    else
      match NormalizeEntries(sha, parent, entries)
      case Err(e) => Err(e)
      case Ok(n) => if Distinct(n.ids) then Ok(n) else Err(ThreadScopeOverlap)
  }

  /** The loop of the source, against the fold. */
  method NormalizeScopeReceipts(sha: string -> string, parent: string, kind: Kind, entries: ScopeEntries)
    returns (r: Result<Normalized, ReceiptError>)
    ensures r == NormalizeReceipts(sha, parent, kind, entries)
  {
    hide NormalizeOne;
    var required := RequiredScopes(kind);
    if required == [] { return Err(ParentKindInvalid); }
    if exists i :: 0 <= i < |entries| && entries[i].scope !in required { return Err(ScopeNotApplicable); }
    var normalized: map<Scope, Receipt> := map[];
    var allThreadIds: seq<string> := [];
    assert entries[..0] == [];
    for i := 0 to |entries|
      invariant NormalizeEntries(sha, parent, entries[..i]) == Ok(Normalized(normalized, allThreadIds))
    {
      assert entries[..i + 1][..i] == entries[..i];
      var one := NormalizeOne(sha, parent, entries[i]);
      if one.Err? {
        FirstErrorWins(sha, parent, entries, i + 1);
        return Err(one.error);
      }
      normalized := normalized[entries[i].scope := one.value];
      allThreadIds := allThreadIds + SubmittedIds(entries[i]);
    }
    assert entries[..|entries|] == entries;
    if |allThreadIds| != |Elements(allThreadIds)| {
      DistinctIffCardinality(allThreadIds);
      return Err(ThreadScopeOverlap);
    }
    DistinctIffCardinality(allThreadIds);
    return Ok(Normalized(normalized, allThreadIds));
  }

  lemma {:induction false} FirstErrorWins(sha: string -> string, parent: string, entries: seq<ScopeEntry>, k: nat)
    requires k <= |entries| && NormalizeEntries(sha, parent, entries[..k]).Err?
    ensures NormalizeEntries(sha, parent, entries) == NormalizeEntries(sha, parent, entries[..k])
  {
    if k == |entries| {
      assert entries[..k] == entries;
    } else {
      var n := |entries| - 1;
      assert entries[..n][..k] == entries[..k];
      FirstErrorWins(sha, parent, entries[..n], k);
    }
  }

  // ---------------------------------------------------- what acceptance means

  function AllSubmitted(entries: seq<ScopeEntry>): seq<string> {
    if entries == [] then [] else AllSubmitted(entries[..|entries| - 1]) + SubmittedIds(entries[|entries| - 1])
  }

  /** What a submitted receipt must be for its scope, stated without the order of the checks. */
  predicate Acceptable(parent: string, entry: ScopeEntry) {
    && entry.receipt.Val?
    && var r := entry.receipt.v;
    && r.route == Val(RouteOf(entry.scope)) && r.parentTargetKey == Val(parent)
    && r.activeParentFilterApplied.Val? && (entry.scope == ActiveFiltered ==> r.activeParentFilterApplied.v)
    && AtLeast(r.pageCount, 1) && r.terminalReached.Val? && (r.terminalCursor.Null? || r.terminalCursor.Val?)
    && r.threadIds.Val? && (forall id :: id in r.threadIds.v ==> !Blank(id)) && Distinct(r.threadIds.v)
    && AtLeast(r.lockedCount, 0) && r.lockedCount.v <= |r.threadIds.v|
  }

  /**
   * A receipt is refused only for what was submitted: the check of the normalised
   * form never fires, and an accepted receipt is always stored in valid form.
   */
  lemma {:induction false} AcceptedIffAcceptable(sha: string -> string, parent: string, entry: ScopeEntry)
    requires Sha256Hex(sha)
    ensures NormalizeOne(sha, parent, entry).Ok? <==> Acceptable(parent, entry)
    ensures NormalizeOne(sha, parent, entry) != Err(NormalizedInvalid)
    ensures NormalizeOne(sha, parent, entry).Ok? ==>
              && NormalizeOne(sha, parent, entry).value == NormalReceipt(sha, entry.scope, entry.receipt.v)
              && ReceiptValid(sha, entry.scope, NormalizeOne(sha, parent, entry).value)
  {
    hide DigestIds, IsHexDigest, Blank, Distinct;
    if entry.receipt.Val? && entry.receipt.v.threadIds.Val? {
      var ids := entry.receipt.v.threadIds.v;
      assert (forall id :: id in ids ==> !Blank(id)) <==> !(exists i :: 0 <= i < |ids| && Blank(ids[i]));
      assert IsHexDigest(DigestIds(sha, ids)) && IsHexDigest(DigestIds(sha, [])) by { DigestIsHex(sha, ids); DigestIsHex(sha, []); }
      if ids == [] { assert entry.receipt.v.threadIds == Val([]); }
    }
  }

  lemma DigestIsHex(sha: string -> string, ids: seq<string>)
    requires Sha256Hex(sha)
    ensures IsHexDigest(DigestIds(sha, ids))
  {
  }

  lemma {:induction false} EntriesContent(sha: string -> string, parent: string, entries: seq<ScopeEntry>)
    requires NormalizeEntries(sha, parent, entries).Ok? && DistinctScopes(entries)
    ensures var n := NormalizeEntries(sha, parent, entries).value;
            && n.ids == AllSubmitted(entries)
            && (forall i :: 0 <= i < |entries| ==>
                  && NormalizeOne(sha, parent, entries[i]).Ok?
                  && entries[i].scope in n.receipts
                  && n.receipts[entries[i].scope] == NormalizeOne(sha, parent, entries[i]).value)
            && (forall s :: s in n.receipts ==> exists i :: 0 <= i < |entries| && entries[i].scope == s)
  {
    hide NormalizeOne, SubmittedIds;
    if entries != [] {
      var m := |entries| - 1;
      var rest := entries[..m];
      EntriesContent(sha, parent, rest);
      var n := NormalizeEntries(sha, parent, entries).value;
      var done := NormalizeEntries(sha, parent, rest).value;
      forall s | s in n.receipts ensures exists i :: 0 <= i < |entries| && entries[i].scope == s {
        if s == entries[m].scope {
        } else {
          var i :| 0 <= i < |rest| && rest[i].scope == s;
          assert entries[i].scope == s;
        }
      }
      forall i | 0 <= i < |entries|
        ensures && NormalizeOne(sha, parent, entries[i]).Ok? && entries[i].scope in n.receipts
                && n.receipts[entries[i].scope] == NormalizeOne(sha, parent, entries[i]).value
      {
        if i < m { assert rest[i] == entries[i]; }
      }
    }
  }

  lemma {:induction false} EntriesAccepted(sha: string -> string, parent: string, entries: seq<ScopeEntry>)
    requires forall i :: 0 <= i < |entries| ==> NormalizeOne(sha, parent, entries[i]).Ok?
    ensures NormalizeEntries(sha, parent, entries).Ok?
  {
    hide NormalizeOne, SubmittedIds;
    if entries != [] { EntriesAccepted(sha, parent, entries[..|entries| - 1]); }
  }

  /** A submission as a whole: every receipt acceptable and applicable, no thread twice anywhere. */
  predicate Submittable(parent: string, kind: Kind, entries: seq<ScopeEntry>) {
    && RequiredScopes(kind) != []
    && (forall i :: 0 <= i < |entries| ==> entries[i].scope in RequiredScopes(kind) && Acceptable(parent, entries[i]))
    && Distinct(AllSubmitted(entries))
  }

  /** What the store keeps for one submitted receipt. */
  predicate KeptAs(sha: string -> string, parent: string, entry: ScopeEntry, receipts: map<Scope, Receipt>) {
    && Acceptable(parent, entry)
    && entry.scope in receipts
    && receipts[entry.scope] == NormalReceipt(sha, entry.scope, entry.receipt.v)
    && ReceiptValid(sha, entry.scope, receipts[entry.scope])
  }

  /** Exactly which submissions the store accepts. */
  lemma NormalizationAccepts(sha: string -> string, parent: string, kind: Kind, entries: ScopeEntries)
    requires Sha256Hex(sha)
    ensures NormalizeReceipts(sha, parent, kind, entries).Ok? <==> Submittable(parent, kind, entries)
  {
    hide NormalizeOne, NormalizeEntries, Acceptable, Distinct, AllSubmitted, Sha256Hex;
    forall i | 0 <= i < |entries|
      ensures NormalizeOne(sha, parent, entries[i]).Ok? <==> Acceptable(parent, entries[i])
    {
      AcceptedIffAcceptable(sha, parent, entries[i]);
    }
    if forall i :: 0 <= i < |entries| ==> Acceptable(parent, entries[i]) {
      EntriesAccepted(sha, parent, entries);
    }
    if NormalizeEntries(sha, parent, entries).Ok? {
      EntriesContent(sha, parent, entries);
    }
  }

  /** What an accepted submission leaves behind: the submitted ids and one valid receipt per scope. */
  lemma {:induction false} NormalizationKeeps(sha: string -> string, parent: string, kind: Kind, entries: ScopeEntries)
    requires Sha256Hex(sha) && NormalizeReceipts(sha, parent, kind, entries).Ok?
    ensures var n := NormalizeReceipts(sha, parent, kind, entries).value;
            && n.ids == AllSubmitted(entries)
            && (forall i :: 0 <= i < |entries| ==> KeptAs(sha, parent, entries[i], n.receipts))
            && (forall s :: s in n.receipts ==> exists i :: 0 <= i < |entries| && entries[i].scope == s)
  {
    hide NormalizeOne, NormalizeEntries, Acceptable, Distinct, AllSubmitted, Sha256Hex, ReceiptValid, NormalReceipt;
    EntriesContent(sha, parent, entries);
    forall i | 0 <= i < |entries|
      ensures KeptAs(sha, parent, entries[i], NormalizeReceipts(sha, parent, kind, entries).value.receipts)
    {
      AcceptedIffAcceptable(sha, parent, entries[i]);
    }
  }
}
