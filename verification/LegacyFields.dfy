/**
 * The legacy ingest, field by field: which input is validated, and exactly which call is
 * refused because a row comes back changed.
 */
module LegacyFields {
  import opened Text
  import opened Receipts
  import opened Ledger
  import opened LedgerBlocks
  import opened Ingest
  import opened LegacyIngest
  import opened LegacyRuns
  import opened LegacyCalls
  import opened Registry

  // ------------------------------------------------- validation

  /** A field that holds a text, and not the empty one. */
  ghost predicate Filled(field: Raw<string>) {
    exists t :: field == Val(t) && t != ""
  }

  ghost predicate RowIsSound(row: LegacyRow) {
    && Filled(row.eventId) && Filled(row.targetKey) && Filled(row.capturedAt) && Filled(row.observedAt) && Filled(row.text)
    && row.context != Mistyped
    && forall t :: row.text == Val(t) ==> |t| <= 1_000_000
  }

  /** Two rows of one target give the same stream id, as far as both give one. */
  ghost predicate StreamsAgree(a: LegacyRow, b: LegacyRow) {
    a.targetKey == b.targetKey && !Blank(a.streamId) && !Blank(b.streamId) ==> Strip(a.streamId) == Strip(b.streamId)
  }

  lemma FilledIs(field: Raw<string>)
    ensures Filled(field) <==> NonEmpty(field)
  {
    if NonEmpty(field) { assert field == Val(field.v) && field.v != ""; }
  }

  lemma SoundIs(row: LegacyRow)
    ensures RowIsSound(row) <==> RowProblem(row).None?
  {
    hide Filled;
    FilledIs(row.eventId);
    FilledIs(row.targetKey);
    FilledIs(row.capturedAt);
    FilledIs(row.observedAt);
    FilledIs(row.text);
    if row.text.Val? { assert row.text == Val(row.text.v); }
  }

  lemma {:induction false} NoProblemIsSound(rows: seq<LegacyRow>)
    ensures FirstProblem(rows).None? <==> forall r :: r in rows ==> RowIsSound(r)
  {
    hide RowIsSound, RowProblem;
    if rows != [] {
      var n := |rows| - 1;
      NoProblemIsSound(rows[..n]);
      SoundIs(rows[n]);
      assert rows == rows[..n] + [rows[n]];
    }
  }

  /** What a call must be to be worked on at all. */
  ghost predicate CallIsSound(rows: seq<LegacyRow>) {
    && |rows| <= 2_000
    && (forall r :: r in rows ==> RowIsSound(r))
    && (forall i, j :: 0 <= i < j < |rows| ==> rows[i].eventId != rows[j].eventId)
    && (forall a, b :: a in rows && b in rows ==> StreamsAgree(a, b))
  }

  lemma OneStreamIs(group: seq<LegacyRow>)
    ensures OneStream(group) <==>
              forall a, b :: a in group && b in group && !Blank(a.streamId) && !Blank(b.streamId) ==> Strip(a.streamId) == Strip(b.streamId)
  {
    hide Blank, Strip;
    var ids := seq(|group|, i requires 0 <= i < |group| => group[i].streamId);
    if OneStream(group) {
      forall a, b | a in group && b in group && !Blank(a.streamId) && !Blank(b.streamId) ensures Strip(a.streamId) == Strip(b.streamId) {
        var i :| 0 <= i < |group| && group[i] == a;
        var j :| 0 <= j < |group| && group[j] == b;
        assert ids[i] == a.streamId && ids[j] == b.streamId;
      }
    }
    if forall a, b :: a in group && b in group && !Blank(a.streamId) && !Blank(b.streamId) ==> Strip(a.streamId) == Strip(b.streamId) {
      forall i, j | 0 <= i < |ids| && 0 <= j < |ids| && !Blank(ids[i]) && !Blank(ids[j]) ensures Strip(ids[i]) == Strip(ids[j]) {
        assert group[i] in group && group[j] in group;
      }
    }
  }

  lemma StreamsAgreeIs(rows: seq<LegacyRow>)
    requires forall r :: r in rows ==> RowIsSound(r)
    ensures (forall t :: t in Targets(rows) ==> OneStream(RowsOf(rows, t))) <==> forall a, b :: a in rows && b in rows ==> StreamsAgree(a, b)
  {
    hide OneStream, RowsOf, Blank, Strip, RowIsSound;
    forall t ensures (forall r :: r in RowsOf(rows, t) <==> r in rows && TargetOfRow(r) == t) { RowsOfAre(rows, t); }
    forall t { OneStreamIs(RowsOf(rows, t)); }
    forall r | r in rows ensures r.targetKey == Val(TargetOfRow(r)) && TargetOfRow(r) in Targets(rows) {
      SoundHasTarget(r);
      var i :| 0 <= i < |rows| && rows[i] == r;
    }
    if forall t :: t in Targets(rows) ==> OneStream(RowsOf(rows, t)) {
      forall a, b | a in rows && b in rows ensures StreamsAgree(a, b) {
        if a.targetKey == b.targetKey { assert a in RowsOf(rows, TargetOfRow(a)) && b in RowsOf(rows, TargetOfRow(a)); }
      }
    }
    if forall a, b :: a in rows && b in rows ==> StreamsAgree(a, b) {
      forall t | t in Targets(rows) ensures OneStream(RowsOf(rows, t)) {
        forall a, b | a in RowsOf(rows, t) && b in RowsOf(rows, t) && !Blank(a.streamId) && !Blank(b.streamId)
          ensures Strip(a.streamId) == Strip(b.streamId)
        {
          assert StreamsAgree(a, b);
        }
      }
    }
  }

  lemma SoundHasTarget(r: LegacyRow)
    requires RowIsSound(r)
    ensures r.targetKey == Val(TargetOfRow(r)) && r.eventId == Val(IdOfRow(r)) && r.text.Val? && r.capturedAt.Val? && r.observedAt.Val?
  {
  }

  /** A call is worked on exactly when its fields are in order. */
  lemma ValidatedExact(rows: seq<LegacyRow>)
    ensures Validated(rows).None? <==> CallIsSound(rows)
  {
    hide FirstProblem, OneStream, RowsOf, RowIsSound, StreamsAgree, Targets;
    NoProblemIsSound(rows);
    if forall r :: r in rows ==> RowIsSound(r) {
      StreamsAgreeIs(rows);
      forall i | 0 <= i < |rows| ensures rows[i].eventId == Val(IdOfRow(rows[i])) {
        assert rows[i] in rows;
        SoundHasTarget(rows[i]);
      }
    }
  }

  /** The first check that a row fails. */
  ghost predicate RowRefused(row: LegacyRow, reason: Reason) {
    var named := Filled(row.eventId) && Filled(row.targetKey);
    var filled := named && Filled(row.capturedAt) && Filled(row.observedAt) && Filled(row.text);
    match reason
    case Required(EventIdField) => !Filled(row.eventId)
    case Required(TargetKeyField) => Filled(row.eventId) && !Filled(row.targetKey)
    case Required(CapturedAtField) => named && !Filled(row.capturedAt)
    case Required(ObservedAtField) => named && Filled(row.capturedAt) && !Filled(row.observedAt)
    case Required(TextField) => named && Filled(row.capturedAt) && Filled(row.observedAt) && !Filled(row.text)
    case ContextInvalid => filled && row.context == Mistyped
    case BodyLimitExceeded => filled && row.context != Mistyped && exists t :: row.text == Val(t) && |t| > 1_000_000
    case _ => false
  }

  lemma RowRefusedExact(row: LegacyRow, reason: Reason)
    ensures RowProblem(row) == Some(reason) <==> RowRefused(row, reason)
  {
    hide Filled;
    FilledIs(row.eventId);
    FilledIs(row.targetKey);
    FilledIs(row.capturedAt);
    FilledIs(row.observedAt);
    FilledIs(row.text);
    if row.text.Val? { assert row.text == Val(row.text.v); }
  }

  /** Row `k` is the first that is not sound, and this is the first check that it fails. */
  ghost predicate FirstRefused(rows: seq<LegacyRow>, k: nat, reason: Reason) {
    k < |rows| && RowRefused(rows[k], reason) && forall i :: 0 <= i < k ==> RowIsSound(rows[i])
  }

  lemma {:induction false} FirstProblemExact(rows: seq<LegacyRow>, reason: Reason)
    ensures FirstProblem(rows) == Some(reason) <==> exists k: nat :: FirstRefused(rows, k, reason)
  {
    hide RowIsSound, RowProblem, RowRefused;
    if rows != [] {
      var n := |rows| - 1;
      FirstProblemExact(rows[..n], reason);
      NoProblemIsSound(rows[..n]);
      forall i | 0 <= i < n ensures rows[i] in rows[..n] { assert rows[..n][i] == rows[i]; }
      SoundIs(rows[n]);
      RowRefusedExact(rows[n], reason);
      forall k: nat | k < n ensures FirstRefused(rows, k, reason) <==> FirstRefused(rows[..n], k, reason) {
        assert rows[..n][k] == rows[k] && forall i :: 0 <= i < k ==> rows[..n][i] == rows[i];
      }
      if k: nat :| FirstRefused(rows, k, reason) {
        SoundIs(rows[k]);
        RowRefusedExact(rows[k], reason);
        assert k < n ==> rows[k] in rows[..n];
      }
      if k: nat :| FirstRefused(rows[..n], k, reason) { assert FirstRefused(rows, k, reason); }
      if FirstProblem(rows[..n]).None? && RowRefused(rows[n], reason) { assert FirstRefused(rows, n, reason); }
    }
  }

  /** Why a call is not worked on. */
  ghost predicate CallRefused(rows: seq<LegacyRow>, reason: Reason) {
    var sound := |rows| <= 2_000 && forall r :: r in rows ==> RowIsSound(r);
    var repeats := exists i, j :: 0 <= i < j < |rows| && rows[i].eventId == rows[j].eventId;
    match reason
    case MessageLimitExceeded => |rows| > 2_000
    case DuplicateEventId => sound && repeats
    case TargetIdentityMismatch => sound && !repeats && exists a, b :: a in rows && b in rows && !StreamsAgree(a, b)
    case LegacyReplayConflict => false
    case _ => |rows| <= 2_000 && exists k: nat :: FirstRefused(rows, k, reason)
  }

  lemma {:induction false} RowReasons(rows: seq<LegacyRow>)
    ensures FirstProblem(rows).Some? ==> FirstProblem(rows).value !in {MessageLimitExceeded, DuplicateEventId, TargetIdentityMismatch, LegacyReplayConflict}
  {
    hide NonEmpty;
    if rows != [] { RowReasons(rows[..|rows| - 1]); }
  }

  lemma CallRefusedExact(rows: seq<LegacyRow>, reason: Reason)
    ensures Validated(rows) == Some(reason) <==> CallRefused(rows, reason)
  {
    hide FirstProblem, OneStream, RowsOf, RowIsSound, StreamsAgree, Targets, FirstRefused;
    NoProblemIsSound(rows);
    FirstProblemExact(rows, reason);
    RowReasons(rows);
    if forall r :: r in rows ==> RowIsSound(r) {
      StreamsAgreeIs(rows);
      forall i | 0 <= i < |rows| ensures rows[i].eventId == Val(IdOfRow(rows[i])) {
        assert rows[i] in rows;
        SoundHasTarget(rows[i]);
      }
    }
  }

  // ------------------------------------------------- replay conflicts

  /** Record `k` is the first one that was imported under the id. */
  ghost predicate FirstUnder(ledger: seq<Row>, id: string, k: nat) {
    && k < |ledger| && ledger[k].body.legacyId == id
    && forall j :: 0 <= j < k ==> ledger[j].body.legacyId != id
  }

  /** The row is not what was imported. */
  ghost predicate Differs(f: Foreign, stored: Row, row: LegacyRow) {
    || row.targetKey != Val(stored.targetKey)
    || row.capturedAt != Val(stored.body.capturedAt)
    || row.observedAt != Val(stored.body.observedAt)
    || !(exists text :: row.text == Val(text) && stored.body.contentHash == Some(f.textHash(f.redact(text))))
  }

  lemma {:induction false} FirstImportedIs(ledger: seq<Row>, id: string, k: nat)
    requires FirstUnder(ledger, id, k)
    ensures FirstImported(ledger, id) == Some(ledger[k])
  {
    var n := |ledger| - 1;
    if k < n {
      FirstImportedIs(ledger[..n], id, k);
    } else {
      assert forall j :: 0 <= j < n ==> ledger[..n][j] == ledger[j];
    }
  }

  lemma {:induction false} FirstImportedAt(ledger: seq<Row>, id: string) returns (k: nat)
    requires FirstImported(ledger, id).Some?
    ensures FirstUnder(ledger, id, k)
  {
    var n := |ledger| - 1;
    if FirstImported(ledger[..n], id).Some? {
      k := FirstImportedAt(ledger[..n], id);
      assert forall j :: 0 <= j <= k ==> ledger[..n][j] == ledger[j];
    } else {
      k := n;
      assert forall j :: 0 <= j < n ==> ledger[..n][j] == ledger[j];
    }
  }

  lemma DiffersIs(f: Foreign, stored: Row, r: LegacyRow)
    requires RowIsSound(r)
    ensures Differs(f, stored, r) <==> !Matches(f, stored, TargetOfRow(r), r)
  {
    hide Filled;
    SoundHasTarget(r);
    if Matches(f, stored, TargetOfRow(r), r) { assert r.text == Val(r.text.v) && stored.body.contentHash == Some(f.textHash(f.redact(r.text.v))); }
  }

  ghost predicate ComesBackChanged(f: Foreign, ledger: seq<Row>, rows: seq<LegacyRow>) {
    exists r, id, k: nat :: r in rows && r.eventId == Val(id) && FirstUnder(ledger, id, k) && Differs(f, ledger[k], r)
  }

  lemma ConflictIsChange(f: Foreign, ledger: seq<Row>, rows: seq<LegacyRow>)
    requires forall r :: r in rows ==> RowIsSound(r)
    ensures NoConflict(f, ledger, rows) <==> !ComesBackChanged(f, ledger, rows)
  {
    hide FirstImported, RowIsSound, Matches, Differs, FirstUnder;
    forall r | r in rows ensures r.eventId == Val(IdOfRow(r)) { SoundHasTarget(r); }
    forall r, k: nat | r in rows && FirstUnder(ledger, IdOfRow(r), k)
      ensures k < |ledger| && FirstImported(ledger, IdOfRow(r)) == Some(ledger[k])
      ensures Differs(f, ledger[k], r) <==> !Matches(f, ledger[k], TargetOfRow(r), r)
    {
      FirstImportedIs(ledger, IdOfRow(r), k);
      assert k < |ledger| by { FirstInRange(ledger, IdOfRow(r), k); }
      DiffersIs(f, ledger[k], r);
    }
    forall r | r in rows && FirstImported(ledger, IdOfRow(r)).Some? ensures exists k: nat :: FirstUnder(ledger, IdOfRow(r), k) {
      var k := FirstImportedAt(ledger, IdOfRow(r));
    }
  }

  lemma FirstInRange(ledger: seq<Row>, id: string, k: nat)
    requires FirstUnder(ledger, id, k)
    ensures k < |ledger|
  {
  }

  /**
   * A call is refused as a conflict, with ledger and registry as they were, exactly when
   * some row's id is in the ledger and the first record under it has another target, time
   * of capture, time of observation, or content.
   */
  lemma ReplayConflictExact(f: Foreign, at: string, ledger: seq<Row>, rows: seq<LegacyRow>, apply: bool)
    requires CallIsSound(rows) && Chain(f.eventHash, ledger).Ok?
    ensures CallLegacy(f, at, ledger, ledger, rows, apply) == Outcome(ledger, [], Refused(LegacyReplayConflict)) <==>
              ComesBackChanged(f, ledger, rows)
  {
    hide Chain, NoConflict, Validated, LegacyBatch, RowIsSound, StreamsAgree, Accounts, ComesBackChanged, Transaction, Registrations, Targets;
    ValidatedExact(rows);
    ValidTargets(rows);
    ConflictIsChange(f, ledger, rows);
    BatchMeans(f, at, ledger, rows);
    if NoConflict(f, ledger, rows) {
      TransactionNeverConflicts(f, at, ledger, rows);
    } else {
      ConflictRejectsWhole(f, at, ledger, ledger, rows, apply);
    }
  }

  lemma TransactionNeverConflicts(f: Foreign, at: string, ledger: seq<Row>, rows: seq<LegacyRow>)
    requires Chain(f.eventHash, ledger).Ok? && LegacyBatch(f, at, ledger, rows).Ok?
    ensures Transaction(f.eventHash, ledger, BuildFor(f, at, rows)) != Err(ReplayConflict)
  {
    hide Chain, LegacyBatch, AppendAll;
    NoReplayConflict(f.eventHash, ledger, LegacyBatch(f, at, ledger, rows).value.events);
  }

  lemma {:induction false} NoReplayConflict(h: Hash, rows: seq<Row>, candidates: seq<Row>)
    ensures AppendAll(h, rows, candidates) != Err(ReplayConflict)
  {
    hide Bound, Conflicts, Continues, EventHash;
    ChainErrorIs(h, rows);
    if candidates != [] {
      var n := |candidates| - 1;
      NoReplayConflict(h, rows, candidates[..n]);
      if AppendAll(h, rows, candidates[..n]).Ok? { ChainErrorIs(h, AppendAll(h, rows, candidates[..n]).value); }
    }
  }

  lemma {:induction false} ChainErrorIs(h: Hash, rows: seq<Row>)
    ensures Chain(h, rows).Err? ==> Chain(h, rows) == Err(Corrupt)
  {
    hide Bound, Conflicts, Continues, Repeats, NextHeads;
    if rows != [] { ChainErrorIs(h, rows[..|rows| - 1]); }
  }

  /** The edit that the check is there for: a row that comes back with another text is refused. */
  lemma ChangedTextIsRefused(f: Foreign, at: string, ledger: seq<Row>, rows: seq<LegacyRow>, r: LegacyRow, id: string, text: string, k: nat, apply: bool)
    requires CallIsSound(rows) && Chain(f.eventHash, ledger).Ok? && r in rows && r.eventId == Val(id) && r.text == Val(text)
    requires FirstUnder(ledger, id, k) && ledger[k].body.contentHash != Some(f.textHash(f.redact(text)))
    ensures CallLegacy(f, at, ledger, ledger, rows, apply) == Outcome(ledger, [], Refused(LegacyReplayConflict))
  {
    hide Chain, CallLegacy, CallIsSound;
    ReplayConflictExact(f, at, ledger, rows, apply);
    assert Differs(f, ledger[k], r);
  }
}
