/**
 * Length framing in front of SHA-256: `"".join(f"{len(v)}:{v}" for v in parts)`.
 * SHA-256 itself stays uninterpreted: `sha` maps a text to its hex digest.
 */
module Framing {
  import opened Text

  function Frame(parts: seq<string>): string {
    if parts == [] then "" else Decimal(|parts[0]|) + ":" + parts[0] + Frame(parts[1..])
  }

  /** Number of leading decimal digits. */
  function DigitRun(t: string): (k: nat)
    ensures k <= |t|
    ensures forall i :: 0 <= i < k ==> IsDigit(t[i])
    ensures k < |t| ==> !IsDigit(t[k])
  {
    if t == "" || !IsDigit(t[0]) then 0 else 1 + DigitRun(t[1..])
  }

  datatype Split = Broken | Split(part: string, rest: string)

  /** Reads one framed part off the front of a text. */
  function SplitPart(t: string): (r: Split)
    ensures r.Split? ==> |r.rest| < |t|
  {
    var k := DigitRun(t);
    if k == 0 || k == |t| || t[k] != ':' then Broken
    else
      var n, tail := ParseDecimal(t[..k]), t[k + 1..];
      if n > |tail| then Broken else Split(tail[..n], tail[n..])
  }

  /** The reader that recovers the parts of a framed text. */
  function Unframe(t: string): Option<seq<string>>
    decreases |t|
  {
    if t == "" then Some([])
    else
      match SplitPart(t)
      case Broken => None
      case Split(part, rest) =>
        match Unframe(rest)
        case None => None
        case Some(parts) => Some([part] + parts)
  }

  lemma {:induction false} DigitRunStops(d: string, rest: string)
    requires forall i :: 0 <= i < |d| ==> IsDigit(d[i])
    requires rest != "" && !IsDigit(rest[0])
    ensures DigitRun(d + rest) == |d|
  {
    if d == "" {
      assert d + rest == rest;
    } else {
      assert (d + rest)[1..] == d[1..] + rest;
      DigitRunStops(d[1..], rest);
    }
  }

  /** One framed part in front of any text is read back as that part. */
  lemma SplitOfPart(d: string, part: string, rest: string)
    requires d == Decimal(|part|)
    ensures SplitPart(d + (":" + (part + rest))) == Split(part, rest)
  {
    hide Decimal, ParseDecimal, DigitRun;
    var tail := part + rest;
    var t := d + (":" + tail);
    DigitRunStops(d, ":" + tail);
    ParseOfDecimal(|part|);
    assert t[..|d|] == d && t[|d|] == ':' && t[|d| + 1..] == tail;
  }

  lemma FrameUnfolds(parts: seq<string>)
    requires parts != []
    ensures Frame(parts) == Decimal(|parts[0]|) + (":" + (parts[0] + Frame(parts[1..])))
  {
    hide Decimal;
  }

  lemma UnframeStep(t: string, part: string, rest: string)
    requires t != "" && SplitPart(t) == Split(part, rest) && Unframe(rest).Some?
    ensures Unframe(t) == Some([part] + Unframe(rest).value)
  {
    hide SplitPart;
  }

  /** Framing loses nothing, whatever the parts are made of (digits and colons included). */
  lemma {:induction false} UnframeOfFrame(parts: seq<string>)
    ensures Unframe(Frame(parts)) == Some(parts)
  {
    hide SplitPart, Decimal, Unframe, Frame;
    if parts == [] {
      assert Unframe(Frame([])) == Some([]) by { NothingFramed(); }
    } else {
      UnframeOfFrame(parts[1..]);
      FrameUnfolds(parts);
      SplitOfPart(Decimal(|parts[0]|), parts[0], Frame(parts[1..]));
      UnframeStep(Frame(parts), parts[0], Frame(parts[1..]));
      assert parts == [parts[0]] + parts[1..];
    }
  }

  lemma NothingFramed()
    ensures Unframe(Frame([])) == Some([])
  {
  }

  lemma FrameInjective(a: seq<string>, b: seq<string>)
    ensures Frame(a) == Frame(b) <==> a == b
  {
    UnframeOfFrame(a);
    UnframeOfFrame(b);
  }

  // ------------------------------------------------ _digest_ids

  /** The text that `_digest_ids` hands to SHA-256. */
  function IdsText(ids: seq<string>): string {
    Frame(SortedSet(ids))
  }

  function DigestIds(sha: string -> string, ids: seq<string>): string {
    sha(IdsText(ids))
  }

  /** The framed text is a canonical form of the set of ids: order and repeats vanish, nothing else. */
  lemma IdsTextIsSet(xs: seq<string>, ys: seq<string>)
    ensures IdsText(xs) == IdsText(ys) <==> Elements(xs) == Elements(ys)
  {
    FrameInjective(SortedSet(xs), SortedSet(ys));
    if Elements(xs) == Elements(ys) {
      forall v ensures v in SortedSet(xs) <==> v in SortedSet(ys) {
        assert v in Elements(xs) <==> v in Elements(ys);
      }
      AscendingUnique(SortedSet(xs), SortedSet(ys));
    }
    if SortedSet(xs) == SortedSet(ys) {
      forall v ensures v in Elements(xs) <==> v in Elements(ys) {
        assert v in SortedSet(xs) <==> v in SortedSet(ys);
      }
    }
  }

  /** No two texts of `texts` share a digest. */
  ghost predicate CollisionFree(sha: string -> string, texts: set<string>) {
    forall a, b :: a in texts && b in texts && sha(a) == sha(b) ==> a == b
  }

  /** Where the two framed texts do not collide, digest equality is set equality. */
  lemma DigestIsSet(sha: string -> string, texts: set<string>, xs: seq<string>, ys: seq<string>)
    requires CollisionFree(sha, texts) && IdsText(xs) in texts && IdsText(ys) in texts
    ensures DigestIds(sha, xs) == DigestIds(sha, ys) <==> Elements(xs) == Elements(ys)
  {
    IdsTextIsSet(xs, ys);
  }

  /** The members of a set in ascending order. */
  ghost function SortedElements(s: set<string>): (r: seq<string>)
    ensures Ascending(r) && forall v :: v in r <==> v in s
  {
    if s == {} then [] else var x :| x in s; Insert(x, SortedElements(s - {x}))
  }

  ghost function SetText(s: set<string>): string {
    Frame(SortedElements(s))
  }

  ghost function SetDigest(sha: string -> string, s: set<string>): string {
    sha(SetText(s))
  }

  lemma IdsTextOfSet(ids: seq<string>)
    ensures IdsText(ids) == SetText(Elements(ids))
  {
    AscendingUnique(SortedSet(ids), SortedElements(Elements(ids)));
  }

  lemma SetTextInjective(a: set<string>, b: set<string>)
    ensures SetText(a) == SetText(b) <==> a == b
  {
    FrameInjective(SortedElements(a), SortedElements(b));
    if SetText(a) == SetText(b) {
      assert forall v :: v in a <==> v in SortedElements(a);
      assert forall v :: v in b <==> v in SortedElements(b);
    }
  }

  // ------------------------------------------------ capture_id_from_attempt_identity

  const ATTEMPT_SCHEMA := "dcb-capture-attempt-identity.v1"
  const ATTEMPT_TAG := "dcb-capture-attempt.v1"

  predicate IsHexDigest(s: string) {
    |s| == 64 && forall i :: 0 <= i < |s| ==> IsDigit(s[i]) || 'a' <= s[i] <= 'f'
  }

  predicate IsAlnum(c: char) {
    IsDigit(c) || 'A' <= c <= 'Z' || 'a' <= c <= 'z'
  }

  predicate IsAttemptId(s: string) {
    1 <= |s| <= 128 && IsAlnum(s[0])
    && forall i :: 1 <= i < |s| ==> IsAlnum(s[i]) || s[i] in {'.', '_', '-'}
  }

  /** An identity record; a field of another type is `None`. */
  datatype AttemptIdentity = AttemptIdentity(
    keys: set<string>,
    schema: Option<string>,
    baseCaptureId: Option<string>,
    attemptId: Option<string>)

  datatype AttemptError = StructureInvalid | IdentityInvalid

  function AttemptText(base: string, attempt: string): string {
    Frame([ATTEMPT_TAG, base, attempt])
  }

  function CaptureIdFromAttempt(sha: string -> string, identity: AttemptIdentity): Result<string, AttemptError> {
    if identity.keys != {"schema", "base_capture_id", "attempt_id"} then Err(StructureInvalid)
    else if identity.schema != Some(ATTEMPT_SCHEMA)
      || identity.baseCaptureId.None? || !IsHexDigest(identity.baseCaptureId.value)
      || identity.attemptId.None? || !IsAttemptId(identity.attemptId.value) then Err(IdentityInvalid)
    else Ok(sha(AttemptText(identity.baseCaptureId.value, identity.attemptId.value)))
  }

  /** Both ids can be read back from the framed text. */
  lemma AttemptRecoverable(base: string, attempt: string)
    ensures Unframe(AttemptText(base, attempt)) == Some([ATTEMPT_TAG, base, attempt])
  {
    UnframeOfFrame([ATTEMPT_TAG, base, attempt]);
  }

  /** Two accepted identities get one capture id only if they are one identity. */
  lemma AttemptIdUnique(sha: string -> string, a: AttemptIdentity, b: AttemptIdentity)
    requires CaptureIdFromAttempt(sha, a).Ok? && CaptureIdFromAttempt(sha, b).Ok?
    requires CollisionFree(sha, {AttemptText(a.baseCaptureId.value, a.attemptId.value),
                                 AttemptText(b.baseCaptureId.value, b.attemptId.value)})
    ensures CaptureIdFromAttempt(sha, a) == CaptureIdFromAttempt(sha, b) <==> a == b
  {
    AttemptRecoverable(a.baseCaptureId.value, a.attemptId.value);
    AttemptRecoverable(b.baseCaptureId.value, b.attemptId.value);
    if CaptureIdFromAttempt(sha, a) == CaptureIdFromAttempt(sha, b) {
      var x, y := [ATTEMPT_TAG, a.baseCaptureId.value, a.attemptId.value],
                  [ATTEMPT_TAG, b.baseCaptureId.value, b.attemptId.value];
      assert x == y;
      assert x[1] == y[1] && x[2] == y[2];
    }
  }

  // ------------------------------------------------ to the letter

  lemma FramedTexts(sha: string -> string)
    ensures Frame(["ab", "", "c:d"]) == "2:ab0:3:c:d"
    ensures DigestIds(sha, ["b", "a", "b"]) == sha("1:a1:b")
  {
    hide IdsText, Frame, Decimal, SortedSet;
    FramedThree("ab", "", "c:d", "2", "0", "3");
    SortedIds();
    FramedTwo("a", "b", "1", "1");
    Spelled();
  }

  lemma Spelled()
    ensures "2" + (":" + ("ab" + ("0" + (":" + ("" + ("3" + (":" + "c:d"))))))) == "2:ab0:3:c:d"
    ensures "1" + (":" + ("a" + ("1" + (":" + "b")))) == "1:a1:b"
  {
    assert "1" + (":" + "b") == "1:b" && "3" + (":" + "c:d") == "3:c:d";
    assert "0" + (":" + ("" + "3:c:d")) == "0:3:c:d";
  }

  lemma Numerals()
    ensures Decimal(0) == "0" && Decimal(1) == "1" && Decimal(2) == "2" && Decimal(3) == "3" && Decimal(4) == "4" && Decimal(5) == "5"
    ensures Decimal(22) == "22"
  {
  }

  lemma FramedOne(a: string, x: string)
    requires (|a|, x) in {(1, "1"), (3, "3"), (5, "5")}
    ensures Frame([a]) == x + (":" + a)
  {
    hide Decimal;
    Numerals();
    assert [a][1..] == [];
  }

  lemma FramedTwo(a: string, b: string, x: string, y: string)
    requires (|a|, x) in {(1, "1"), (0, "0"), (4, "4")} && (|b|, y) in {(1, "1"), (3, "3"), (5, "5")}
    ensures Frame([a, b]) == x + (":" + (a + (y + (":" + b))))
  {
    hide Decimal;
    Numerals();
    FramedOne(b, y);
    assert [a, b][1..] == [b];
  }

  lemma FramedThree(a: string, b: string, c: string, x: string, y: string, z: string)
    requires (|a|, x) in {(2, "2"), (22, "22")} && (|b|, y) in {(0, "0"), (4, "4")} && (|c|, z) in {(3, "3"), (5, "5")}
    ensures Frame([a, b, c]) == x + (":" + (a + (y + (":" + (b + (z + (":" + c)))))))
  {
    hide Decimal;
    Numerals();
    FramedTwo(b, c, y, z);
    assert [a, b, c][1..] == [b, c];
  }

  lemma SortedIds()
    ensures IdsText(["b", "a", "b"]) == Frame(["a", "b"])
  {
    hide Frame;
    AscendingUnique(SortedSet(["b", "a", "b"]), ["a", "b"]);
  }

  /** 64 digits in base 16, lower case. */
  ghost predicate HexOf64(base: string) {
    |base| == 64 && forall i :: 0 <= i < 64 ==> '0' <= base[i] <= '9' || 'a' <= base[i] <= 'f'
  }

  predicate LetterOrDigit(c: char) {
    '0' <= c <= '9' || 'A' <= c <= 'Z' || 'a' <= c <= 'z'
  }

  /** 1 to 128 letters, digits, dots, underscores and dashes, a letter or digit in front. */
  ghost predicate Labelled(attempt: string) {
    && 1 <= |attempt| <= 128 && LetterOrDigit(attempt[0])
    && forall i :: 0 < i < |attempt| ==> LetterOrDigit(attempt[i]) || attempt[i] == '.' || attempt[i] == '_' || attempt[i] == '-'
  }

  /** Which identities get a capture id, and which text it is the digest of. */
  lemma AttemptExact(sha: string -> string, identity: AttemptIdentity)
    ensures CaptureIdFromAttempt(sha, identity) == Err(StructureInvalid) <==> identity.keys != {"schema", "base_capture_id", "attempt_id"}
    ensures CaptureIdFromAttempt(sha, identity).Ok? <==>
              && identity.keys == {"schema", "base_capture_id", "attempt_id"}
              && identity.schema == Some("dcb-capture-attempt-identity.v1")
              && (exists base :: identity.baseCaptureId == Some(base) && HexOf64(base))
              && (exists attempt :: identity.attemptId == Some(attempt) && Labelled(attempt))
    ensures forall base, attempt :: identity.baseCaptureId == Some(base) && identity.attemptId == Some(attempt)
                                    && CaptureIdFromAttempt(sha, identity).Ok? ==>
              CaptureIdFromAttempt(sha, identity) == Ok(sha(Frame(["dcb-capture-attempt.v1", base, attempt])))
  {
  }
}
