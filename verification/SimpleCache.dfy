/**
 * Chromium simple-cache entries (`_read_simple_cache_entry_parts`, `_read_simple_cache_key`):
 * a parser that works from both ends of the file, and the printer it undoes.
 */
module SimpleCache {
  import opened Text

  type Byte = b: int | 0 <= b < 256
  type Bytes = seq<Byte>

  // ------------------------------------------------- little-endian fields

  function Power256(k: nat): (p: nat)
    ensures p >= 1
  {
    if k == 0 then 1 else 256 * Power256(k - 1)
  }

  function Decode(s: Bytes): nat {
    if s == [] then 0 else s[0] + 256 * Decode(s[1..])
  }

  function Encode(n: nat, k: nat): (s: Bytes)
    ensures |s| == k
  {
    if k == 0 then [] else [n % 256] + Encode(n / 256, k - 1)
  }

  lemma {:induction false} DecodeOfEncode(n: nat, k: nat)
    requires n < Power256(k)
    ensures Decode(Encode(n, k)) == n
  {
    if k > 0 { DecodeOfEncode(n / 256, k - 1); }
  }

  lemma {:induction false} EncodeOfDecode(s: Bytes)
    ensures Encode(Decode(s), |s|) == s
  {
    if s != [] { EncodeOfDecode(s[1..]); }
  }

  /** `struct.unpack_from` of one little-endian field. */
  function Field(data: Bytes, at: nat, width: nat): nat
    requires at + width <= |data|
  {
    Decode(data[at..at + width])
  }

  // ------------------------------------------------- the format

  const INITIAL_MAGIC: nat := 0xFCFB6D1BA7725C30
  const FINAL_MAGIC: nat := 0xF4FA6F45970D41D8
  const VERSION: nat := 5
  const RECORD: nat := 24   // struct "<QIIII", header and EOF alike
  const SHA_SIZE: nat := 32
  const MAX_STREAMED_KEY: nat := 1024 * 1024

  datatype CacheError =
    | TooShort | UnsupportedFormat | InvalidKeyLength | InvalidFinalEof | InvalidStreamBoundaries | InvalidStreamOneEof

  datatype Parts = Parts(key: Bytes, body: Bytes, responseMetadata: Bytes)

  /** `flags & FLAG_HAS_KEY_SHA256`. */
  predicate HasKeySha(flags: nat) {
    flags / 2 % 2 == 1
  }

  function ShaSize(flags: nat): nat {
    if HasKeySha(flags) then SHA_SIZE else 0
  }

  /** `_read_simple_cache_entry_parts`, on the bytes of the file. */
  function Parse(data: Bytes): Result<Parts, CacheError> {
    var n := |data|;
    if n < 3 * RECORD then Err(TooShort)
    else if Field(data, 0, 8) != INITIAL_MAGIC || Field(data, 8, 4) != VERSION then Err(UnsupportedFormat)
    else
      var keyEnd := RECORD + Field(data, 12, 4);
      if keyEnd > n - 2 * RECORD then Err(InvalidKeyLength)
      else if Field(data, n - RECORD, 8) != FINAL_MAGIC then Err(InvalidFinalEof)
      else
        var streamZeroSize := Field(data, n - 8, 4);
        var streamZeroStart := n - RECORD - ShaSize(Field(data, n - 16, 4)) - streamZeroSize;
        var streamOneEof := streamZeroStart - RECORD;
        if streamOneEof < keyEnd then Err(InvalidStreamBoundaries)
        else if Field(data, streamOneEof, 8) != FINAL_MAGIC then Err(InvalidStreamOneEof)
        else Ok(Parts(data[RECORD..keyEnd], data[keyEnd..streamOneEof], data[streamZeroStart..streamZeroStart + streamZeroSize]))
  }

  /** `_read_simple_cache_key`: reads the header and the key from the front, nothing else. */
  function ReadKey(data: Bytes): Result<Bytes, CacheError> {
    if |data| < RECORD then Err(TooShort)
    else if Field(data, 0, 8) != INITIAL_MAGIC || Field(data, 8, 4) != VERSION then Err(UnsupportedFormat)
    else
      var keyLength := Field(data, 12, 4);
      if keyLength < 1 || keyLength > MAX_STREAMED_KEY then Err(InvalidKeyLength)
      else if RECORD + keyLength > |data| then Err(InvalidKeyLength)
      else Ok(data[RECORD..RECORD + keyLength])
  }

  // ------------------------------------------------- the printer

  /** The bytes of an entry that the parser skips. */
  datatype Skipped = Skipped(
    keyHash: Bytes, headerPadding: Bytes,
    oneFlags: Bytes, oneCrc: Bytes, oneSize: Bytes, onePadding: Bytes,
    flags: Bytes, crc: Bytes, padding: Bytes, keySha: Bytes)

  predicate WellFormed(j: Skipped) {
    && |j.keyHash| == 4 && |j.headerPadding| == 4
    && |j.oneFlags| == 4 && |j.oneCrc| == 4 && |j.oneSize| == 4 && |j.onePadding| == 4
    && |j.flags| == 4 && |j.crc| == 4 && |j.padding| == 4
    && |j.keySha| == ShaSize(Decode(j.flags))
  }

  function Header(key: Bytes, j: Skipped): Bytes {
    Encode(INITIAL_MAGIC, 8) + Encode(VERSION, 4) + Encode(|key|, 4) + j.keyHash + j.headerPadding
  }

  function StreamOneEof(j: Skipped): Bytes {
    Encode(FINAL_MAGIC, 8) + j.oneFlags + j.oneCrc + j.oneSize + j.onePadding
  }

  function FinalEof(metadata: Bytes, j: Skipped): Bytes {
    Encode(FINAL_MAGIC, 8) + j.flags + j.crc + Encode(|metadata|, 4) + j.padding
  }

  function Print(parts: Parts, j: Skipped): Bytes {
    Header(parts.key, j) + parts.key + parts.body + StreamOneEof(j) + parts.responseMetadata + j.keySha
    + FinalEof(parts.responseMetadata, j)
  }

  /** Lengths that fit the 32-bit fields. */
  predicate Printable(parts: Parts) {
    |parts.key| < 0x1_0000_0000 && |parts.responseMetadata| < 0x1_0000_0000
  }

  // ------------------------------------------------- printing, then parsing

  lemma Powers()
    ensures Power256(4) == 0x1_0000_0000
    ensures Power256(8) == 0x1_0000_0000_0000_0000
  {
    assert Power256(2) == 0x1_0000;
    assert Power256(4) == 256 * (256 * Power256(2));
    assert Power256(6) == 256 * (256 * Power256(4));
    assert Power256(8) == 256 * (256 * Power256(6));
  }

  lemma Slice(a: Bytes, b: Bytes, c: Bytes)
    ensures (a + b + c)[|a|..|a| + |b|] == b
  {
  }

  lemma FieldIs(data: Bytes, a: Bytes, b: Bytes, c: Bytes)
    requires data == a + b + c
    ensures |a| + |b| <= |data| && Field(data, |a|, |b|) == Decode(b)
  {
    hide Decode;
    Slice(a, b, c);
  }

  /** A field that was printed between other bytes is read back. */
  lemma FieldOf(data: Bytes, a: Bytes, value: nat, width: nat, c: Bytes)
    requires data == a + Encode(value, width) + c && value < Power256(width)
    ensures |a| + width <= |data| && Field(data, |a|, width) == value
  {
    hide Decode, Encode, Power256;
    Slice(a, Encode(value, width), c);
    DecodeOfEncode(value, width);
  }

  lemma HeaderReads(parts: Parts, j: Skipped, rest: Bytes)
    requires WellFormed(j) && Printable(parts)
    ensures var data := Header(parts.key, j) + rest;
            && |Header(parts.key, j)| == RECORD && |data| >= RECORD
            && Field(data, 0, 8) == INITIAL_MAGIC && Field(data, 8, 4) == VERSION && Field(data, 12, 4) == |parts.key|
  {
    hide Decode, Encode, Power256, Field;
    Powers();
    var magic, version, length := Encode(INITIAL_MAGIC, 8), Encode(VERSION, 4), Encode(|parts.key|, 4);
    var data := Header(parts.key, j) + rest;
    assert data == [] + magic + (version + length + j.keyHash + j.headerPadding + rest);
    FieldOf(data, [], INITIAL_MAGIC, 8, version + length + j.keyHash + j.headerPadding + rest);
    assert data == magic + version + (length + j.keyHash + j.headerPadding + rest);
    FieldOf(data, magic, VERSION, 4, length + j.keyHash + j.headerPadding + rest);
    assert data == (magic + version) + length + (j.keyHash + j.headerPadding + rest);
    FieldOf(data, magic + version, |parts.key|, 4, j.keyHash + j.headerPadding + rest);
  }

  lemma FinalReads(metadata: Bytes, j: Skipped, front: Bytes)
    requires WellFormed(j) && |metadata| < 0x1_0000_0000
    ensures var data := front + FinalEof(metadata, j);
            var n := |data|;
            && |FinalEof(metadata, j)| == RECORD
            && Field(data, n - RECORD, 8) == FINAL_MAGIC && Field(data, n - 8, 4) == |metadata|
            && Field(data, n - 16, 4) == Decode(j.flags)
  {
    hide Decode, Encode, Power256, Field, ShaSize;
    Powers();
    var magic, size := Encode(FINAL_MAGIC, 8), Encode(|metadata|, 4);
    var data := front + FinalEof(metadata, j);
    assert data == front + magic + (j.flags + j.crc + size + j.padding);
    FieldOf(data, front, FINAL_MAGIC, 8, j.flags + j.crc + size + j.padding);
    assert data == (front + magic + j.flags + j.crc) + size + j.padding;
    FieldOf(data, front + magic + j.flags + j.crc, |metadata|, 4, j.padding);
    assert data == (front + magic) + j.flags + (j.crc + size + j.padding);
    FieldIs(data, front + magic, j.flags, j.crc + size + j.padding);
  }

  lemma StreamOneReads(j: Skipped, front: Bytes, back: Bytes)
    requires WellFormed(j)
    ensures var data := front + StreamOneEof(j) + back;
            |StreamOneEof(j)| == RECORD && |front| + 8 <= |data| && Field(data, |front|, 8) == FINAL_MAGIC
  {
    hide Decode, Encode, Power256, Field;
    Powers();
    var magic := Encode(FINAL_MAGIC, 8);
    var rest := j.oneFlags + j.oneCrc + j.oneSize + j.onePadding + back;
    var data := front + StreamOneEof(j) + back;
    assert data == front + magic + rest;
    FieldOf(data, front, FINAL_MAGIC, 8, rest);
  }

  /** Parsing a printed entry gives back its parts, whatever the skipped bytes are. */
  lemma ParseOfPrint(parts: Parts, j: Skipped)
    requires WellFormed(j) && Printable(parts)
    ensures Parse(Print(parts, j)) == Ok(parts)
  {
    hide Decode, Encode, Field, Header, StreamOneEof, FinalEof, HasKeySha;
    var data := Print(parts, j);
    var head, one, last := Header(parts.key, j), StreamOneEof(j), FinalEof(parts.responseMetadata, j);
    var afterHead := parts.key + parts.body + one + parts.responseMetadata + j.keySha + last;
    assert data == head + afterHead;
    HeaderReads(parts, j, afterHead);
    var front := head + parts.key + parts.body + one + parts.responseMetadata + j.keySha;
    assert data == front + last;
    FinalReads(parts.responseMetadata, j, front);
    var upToOne, behindOne := head + parts.key + parts.body, parts.responseMetadata + j.keySha + last;
    assert data == upToOne + one + behindOne;
    StreamOneReads(j, upToOne, behindOne);
    PrintedSlices(parts, j);
  }

  lemma PrintedSlices(parts: Parts, j: Skipped)
    requires |Header(parts.key, j)| == RECORD && |StreamOneEof(j)| == RECORD
    ensures var data := Print(parts, j);
            var keyEnd := RECORD + |parts.key|;
            var oneEof := keyEnd + |parts.body|;
            var zero := oneEof + RECORD;
            && zero + |parts.responseMetadata| <= |data|
            && data[RECORD..keyEnd] == parts.key && data[keyEnd..oneEof] == parts.body
            && data[zero..zero + |parts.responseMetadata|] == parts.responseMetadata
  {
    hide Header, StreamOneEof, FinalEof;
    var head, one, last := Header(parts.key, j), StreamOneEof(j), FinalEof(parts.responseMetadata, j);
    var data := Print(parts, j);
    assert data == head + parts.key + (parts.body + one + parts.responseMetadata + j.keySha + last);
    Slice(head, parts.key, parts.body + one + parts.responseMetadata + j.keySha + last);
    assert data == (head + parts.key) + parts.body + (one + parts.responseMetadata + j.keySha + last);
    Slice(head + parts.key, parts.body, one + parts.responseMetadata + j.keySha + last);
    assert data == (head + parts.key + parts.body + one) + parts.responseMetadata + (j.keySha + last);
    Slice(head + parts.key + parts.body + one, parts.responseMetadata, j.keySha + last);
  }

  // ------------------------------------------------- parsing, then printing

  lemma FieldBytes(data: Bytes, at: nat, width: nat)
    requires at + width <= |data|
    ensures data[at..at + width] == Encode(Field(data, at, width), width)
  {
    hide Decode, Encode;
    EncodeOfDecode(data[at..at + width]);
  }

  lemma {:induction false} DecodeBound(s: Bytes)
    ensures Decode(s) < Power256(|s|)
  {
    if s != [] { DecodeBound(s[1..]); }
  }

  /** The skipped bytes of an entry that parses. */
  ghost function SkippedOf(data: Bytes, streamZeroSize: nat): Skipped
    requires |data| >= 3 * RECORD
  {
    var n := |data|;
    var sha := ShaSize(Field(data, n - 16, 4));
    var one := n - 2 * RECORD - sha - streamZeroSize;
    if one < 0 then Skipped([], [], [], [], [], [], [], [], [], [])
    else
      Skipped(data[16..20], data[20..24],
              data[one + 8..one + 12], data[one + 12..one + 16], data[one + 16..one + 20], data[one + 20..one + 24],
              data[n - 16..n - 12], data[n - 12..n - 8], data[n - 4..n], data[n - RECORD - sha..n - RECORD])
  }

  /** 24 bytes are five fields. */
  lemma RecordSplits(data: Bytes, at: nat)
    requires at + RECORD <= |data|
    ensures data[at..at + 24] == data[at..at + 8] + data[at + 8..at + 12] + data[at + 12..at + 16] + data[at + 16..at + 20] + data[at + 20..at + 24]
  {
  }

  lemma Tiles(data: Bytes, a: nat, b: nat, c: nat, d: nat, e: nat, f: nat)
    requires a <= b <= c <= d <= e <= f <= |data|
    ensures data == data[0..a] + data[a..b] + data[b..c] + data[c..d] + data[d..e] + data[e..f] + data[f..|data|]
  {
  }

  /**
   * The parser accepts exactly the printed entries: the slices it returns, and the bytes it
   * skips, tile the file without gap or overlap.
   */
  lemma ParseExact(data: Bytes, parts: Parts)
    ensures Parse(data) == Ok(parts) <==> exists j :: WellFormed(j) && Printable(parts) && data == Print(parts, j)
  {
    if Parse(data) == Ok(parts) {
      var size := Field(data, |data| - 8, 4);
      ParsedIsPrinted(data, parts);
      assert WellFormed(SkippedOf(data, size)) && data == Print(parts, SkippedOf(data, size));
    }
    forall j | WellFormed(j) && Printable(parts) && data == Print(parts, j) ensures Parse(data) == Ok(parts) {
      ParseOfPrint(parts, j);
    }
  }

  lemma SkippedIsWellFormed(data: Bytes, parts: Parts)
    requires Parse(data) == Ok(parts)
    ensures var size := Field(data, |data| - 8, 4);
            WellFormed(SkippedOf(data, size)) && Printable(parts) && |parts.responseMetadata| == size
  {
    hide Decode, Encode, HasKeySha;
    FieldsFit(data, |data|);
  }

  /** The boundaries the parser computed. */
  datatype Layout = Layout(keyEnd: nat, one: nat, zero: nat, metadataEnd: nat, final: nat)

  lemma ParsedLayout(data: Bytes, parts: Parts) returns (l: Layout)
    requires Parse(data) == Ok(parts)
    ensures RECORD <= l.keyEnd <= l.one <= l.zero <= l.metadataEnd <= l.final == |data| - RECORD
    ensures l.zero == l.one + RECORD
    ensures parts.key == data[RECORD..l.keyEnd] && parts.body == data[l.keyEnd..l.one] && parts.responseMetadata == data[l.zero..l.metadataEnd]
    ensures Field(data, 0, 8) == INITIAL_MAGIC && Field(data, 8, 4) == VERSION && Field(data, 12, 4) == |parts.key|
    ensures Field(data, l.one, 8) == FINAL_MAGIC && Field(data, l.final, 8) == FINAL_MAGIC
    ensures Field(data, |data| - 8, 4) == |parts.responseMetadata|
    ensures var j := SkippedOf(data, Field(data, |data| - 8, 4));
            && j.keyHash == data[16..20] && j.headerPadding == data[20..24]
            && j.oneFlags == data[l.one + 8..l.one + 12] && j.oneCrc == data[l.one + 12..l.one + 16]
            && j.oneSize == data[l.one + 16..l.one + 20] && j.onePadding == data[l.one + 20..l.one + 24]
            && j.flags == data[|data| - 16..|data| - 12] && j.crc == data[|data| - 12..|data| - 8] && j.padding == data[|data| - 4..|data|]
            && j.keySha == data[l.metadataEnd..l.final]
  {
    hide Field, ShaSize;
    var n := |data|;
    var size, sha := Field(data, n - 8, 4), ShaSize(Field(data, n - 16, 4));
    l := Layout(RECORD + Field(data, 12, 4), n - 2 * RECORD - sha - size, n - RECORD - sha - size, n - RECORD - sha, n - RECORD);
  }

  lemma ParsedIsPrinted(data: Bytes, parts: Parts)
    requires Parse(data) == Ok(parts)
    ensures var j := SkippedOf(data, Field(data, |data| - 8, 4)); WellFormed(j) && Printable(parts) && data == Print(parts, j)
  {
    hide Parse, ShaSize, Field, Header, StreamOneEof, FinalEof, WellFormed, Printable, SkippedOf;
    SkippedIsWellFormed(data, parts);
    var l := ParsedLayout(data, parts);
    var j := SkippedOf(data, Field(data, |data| - 8, 4));
    Tiles(data, RECORD, l.keyEnd, l.one, l.zero, l.metadataEnd, l.final);
    HeaderPrinted(data, parts, j);
    StreamOnePrinted(data, l.one, j);
    FinalPrinted(data, parts.responseMetadata, j);
  }

  lemma FieldsFit(data: Bytes, n: nat)
    requires n == |data| && n >= 3 * RECORD
    ensures Field(data, 12, 4) < 0x1_0000_0000 && Field(data, n - 8, 4) < 0x1_0000_0000
  {
    hide Decode, Power256;
    Powers();
    DecodeBound(data[12..16]);
    DecodeBound(data[n - 8..n - 4]);
    assert data[n - 8..n - 8 + 4] == data[n - 8..n - 4];
  }

  lemma HeaderPrinted(data: Bytes, parts: Parts, j: Skipped)
    requires |data| >= 3 * RECORD && Field(data, 0, 8) == INITIAL_MAGIC && Field(data, 8, 4) == VERSION
    requires Field(data, 12, 4) == |parts.key| && j.keyHash == data[16..20] && j.headerPadding == data[20..24]
    ensures data[0..24] == Header(parts.key, j)
  {
    hide Decode, Encode, Field;
    RecordSplits(data, 0);
    FieldBytes(data, 0, 8);
    FieldBytes(data, 8, 4);
    FieldBytes(data, 12, 4);
  }

  lemma StreamOnePrinted(data: Bytes, one: nat, j: Skipped)
    requires one + RECORD <= |data| && Field(data, one, 8) == FINAL_MAGIC
    requires j.oneFlags == data[one + 8..one + 12] && j.oneCrc == data[one + 12..one + 16]
    requires j.oneSize == data[one + 16..one + 20] && j.onePadding == data[one + 20..one + 24]
    ensures data[one..one + 24] == StreamOneEof(j)
  {
    hide Decode, Encode, Field;
    RecordSplits(data, one);
    FieldBytes(data, one, 8);
  }

  lemma FinalPrinted(data: Bytes, metadata: Bytes, j: Skipped)
    requires |data| >= 3 * RECORD && Field(data, |data| - RECORD, 8) == FINAL_MAGIC && Field(data, |data| - 8, 4) == |metadata|
    requires var n := |data|; j.flags == data[n - 16..n - 12] && j.crc == data[n - 12..n - 8] && j.padding == data[n - 4..n]
    ensures data[|data| - RECORD..|data|] == FinalEof(metadata, j)
  {
    hide Decode, Encode, Field;
    var at := |data| - RECORD;
    RecordSplits(data, at);
    FieldBytes(data, at, 8);
    FieldBytes(data, at + 16, 4);
  }

  /** No entry can be read in two ways. */
  lemma PrintInjective(a: Parts, i: Skipped, b: Parts, j: Skipped)
    requires WellFormed(i) && WellFormed(j) && Printable(a) && Printable(b) && Print(a, i) == Print(b, j)
    ensures a == b
  {
    ParseOfPrint(a, i);
    ParseOfPrint(b, j);
  }

  // ------------------------------------------------- the streaming key reader

  /** Where the parser succeeds, the key reader returns the same key, or refuses its length: empty, or over a mebibyte. */
  lemma {:induction false} KeyReaderAgrees(data: Bytes, parts: Parts)
    requires Parse(data) == Ok(parts)
    ensures ReadKey(data) == if 1 <= |parts.key| <= MAX_STREAMED_KEY then Ok(parts.key) else Err(InvalidKeyLength)
  {
    hide Field;
  }
}
