/**
 * Discord ids as the exporter accepts them: the pattern `^\d{15,21}$`, tried with `match`.
 * Python's `\d` takes every Unicode decimal digit, and `$` also matches in front of a final
 * newline; `int` reads both.
 */
module Snowflake {
  import opened Text

  /** Where the blocks of ten decimal digits begin behind ASCII, in Unicode 14.0 (Python 3.11). */
  const OTHER_ZEROS: seq<int> := [
    0x660, 0x6F0, 0x7C0, 0x966, 0x9E6, 0xA66, 0xAE6, 0xB66, 0xBE6, 0xC66,
    0xCE6, 0xD66, 0xDE6, 0xE50, 0xED0, 0xF20, 0x1040, 0x1090, 0x17E0, 0x1810,
    0x1946, 0x19D0, 0x1A80, 0x1A90, 0x1B50, 0x1BB0, 0x1C40, 0x1C50, 0xA620, 0xA8D0,
    0xA900, 0xA9D0, 0xA9F0, 0xAA50, 0xABF0, 0xFF10, 0x104A0, 0x10D30, 0x11066, 0x110F0,
    0x11136, 0x111D0, 0x112F0, 0x11450, 0x114D0, 0x11650, 0x116C0, 0x11730, 0x118E0, 0x11950,
    0x11C50, 0x11D50, 0x11DA0, 0x16A60, 0x16AC0, 0x16B50, 0x1D7CE, 0x1D7D8, 0x1D7E2, 0x1D7EC,
    0x1D7F6, 0x1E140, 0x1E2F0, 0x1E950, 0x1FBF0
  ]

  function DigitAmong(n: int, zeros: seq<int>): (d: Option<nat>)
    ensures d.Some? ==> d.value < 10
  {
    if zeros == [] then None
    else if zeros[0] <= n < zeros[0] + 10 then Some(n - zeros[0])
    else DigitAmong(n, zeros[1..])
  }

  /** The value of a decimal digit. White space is none. */
  function DigitOf(c: char): (d: Option<nat>)
    ensures d.Some? ==> d.value < 10
  {
    if IsDigit(c) then Some(DigitValue(c))
    else if IsSpace(c) || c as int < 0x660 then None
    else DigitAmong(c as int, OTHER_ZEROS)
  }

  predicate AllDecimal(s: string) {
    forall i :: 0 <= i < |s| ==> DigitOf(s[i]).Some?
  }

  /** An id without the final newline that the pattern lets pass. */
  function Digits(id: string): string {
    if id != "" && id[|id| - 1] == '\n' then id[..|id| - 1] else id
  }

  predicate IsSnowflake(id: string) {
    15 <= |Digits(id)| <= 21 && AllDecimal(Digits(id))
  }

  function ValueOf(s: string): nat {
    if s == "" then 0
    else 10 * ValueOf(s[..|s| - 1]) + match DigitOf(s[|s| - 1]) case Some(d) => d case None => 0
  }

  /** `int(id)`. */
  function IdValue(id: string): nat {
    ValueOf(Digits(id))
  }

  lemma NoSlashInId(id: string)
    requires IsSnowflake(id)
    ensures forall i :: 0 <= i < |id| ==> id[i] != '/'
  {
    hide DigitAmong;
    forall i | 0 <= i < |id| ensures id[i] != '/' {
      if i < |Digits(id)| { assert DigitOf(Digits(id)[i]).Some?; }
    }
  }

  // ------------------------------------------------- ids with one value

  /** ASCII digits only, and no zero in front. */
  predicate Plain(id: string) {
    id != "" && id[0] != '0' && forall i :: 0 <= i < |id| ==> IsDigit(id[i])
  }

  lemma {:induction false} AsciiValue(s: string)
    requires forall i :: 0 <= i < |s| ==> IsDigit(s[i])
    ensures ValueOf(s) == ParseDecimal(s) && AllDecimal(s) && Digits(s) == s
  {
    hide DigitAmong;
    if s != "" { AsciiValue(s[..|s| - 1]); }
  }

  lemma {:induction false} ParseBounds(s: string)
    requires forall i :: 0 <= i < |s| ==> IsDigit(s[i])
    ensures ParseDecimal(s) < Pow10(|s|)
    ensures s != "" && s[0] != '0' ==> ParseDecimal(s) >= Pow10(|s| - 1)
  {
    if s != "" {
      var n := |s| - 1;
      ParseBounds(s[..n]);
      if n > 0 { assert s[..n][0] == s[0]; }
    }
  }

  lemma {:induction false} PowersGrow(a: nat, b: nat)
    requires a <= b
    ensures Pow10(a) <= Pow10(b)
  {
    if a < b { PowersGrow(a, b - 1); }
  }

  lemma {:induction false} SameLengthSameText(a: string, b: string)
    requires (forall i :: 0 <= i < |a| ==> IsDigit(a[i])) && (forall i :: 0 <= i < |b| ==> IsDigit(b[i]))
    requires |a| == |b| && ParseDecimal(a) == ParseDecimal(b)
    ensures a == b
  {
    if a != "" {
      var n := |a| - 1;
      SameLengthSameText(a[..n], b[..n]);
      assert a == a[..n] + [a[n]] && b == b[..n] + [b[n]];
      assert DigitValue(a[n]) == DigitValue(b[n]);
    }
  }

  /** Plain ids have one value only if they are one id. */
  lemma PlainIdsDiffer(a: string, b: string)
    requires Plain(a) && Plain(b) && IdValue(a) == IdValue(b)
    ensures a == b
  {
    hide ParseDecimal, Pow10, ValueOf;
    AsciiValue(a);
    AsciiValue(b);
    ParseBounds(a);
    ParseBounds(b);
    if |a| < |b| { PowersGrow(|a|, |b| - 1); }
    if |b| < |a| { PowersGrow(|b|, |a| - 1); }
    SameLengthSameText(a, b);
  }

  /** Two ids of the pattern share a value only if one of them is not plain. */
  lemma TiedIdsAreNotPlain(a: string, b: string)
    requires IsSnowflake(a) && IsSnowflake(b) && a != b && IdValue(a) == IdValue(b)
    ensures !Plain(a) || !Plain(b)
  {
    hide IdValue, IsSnowflake, Plain;
    if Plain(a) && Plain(b) { PlainIdsDiffer(a, b); }
  }

  // ------------------------------------------------- and there are such ids

  /** A final newline changes the id, not its value. */
  lemma NewlineTies(id: string)
    requires IsSnowflake(id) && Digits(id) == id
    ensures IsSnowflake(id + "\n") && IdValue(id + "\n") == IdValue(id) && id + "\n" != id
  {
    hide DigitAmong, ValueOf;
    assert Digits(id + "\n") == id;
  }

  lemma {:induction false} ZerosInFront(k: nat, s: string)
    ensures ValueOf(seq(k, i => '0') + s) == ValueOf(s)
  {
    hide DigitAmong;
    var t := seq(k, i => '0') + s;
    if s == "" {
      if k > 0 {
        ZerosInFront(k - 1, "");
        assert t[..|t| - 1] == seq(k - 1, i => '0') + "";
      }
    } else {
      ZerosInFront(k, s[..|s| - 1]);
      assert t[..|t| - 1] == seq(k, i => '0') + s[..|s| - 1];
    }
  }

  /** Nor does a zero in front, as long as the id does not grow too long. */
  lemma ZeroTies(id: string)
    requires IsSnowflake(id) && Digits(id) == id && |id| < 21
    ensures IsSnowflake("0" + id) && IdValue("0" + id) == IdValue(id) && "0" + id != id
  {
    hide DigitAmong, ValueOf;
    ZerosInFront(1, id);
    assert seq(1, i => '0') + id == "0" + id;
    assert Digits("0" + id) == "0" + id;
  }

  // ------------------------------------------------- which ids are taken

  /** Of texts in ASCII digits, with or without a final newline, those of 15 to 21 digits. */
  lemma AsciiIsSnowflake(digits: string)
    requires forall i :: 0 <= i < |digits| ==> '0' <= digits[i] <= '9'
    ensures IsSnowflake(digits) <==> 15 <= |digits| <= 21
    ensures IsSnowflake(digits + "\n") <==> 15 <= |digits| <= 21
    ensures IdValue(digits) == ParseDecimal(digits) == IdValue(digits + "\n")
  {
    hide DigitAmong, ValueOf;
    AsciiValue(digits);
    assert Digits(digits + "\n") == digits;
  }
}
