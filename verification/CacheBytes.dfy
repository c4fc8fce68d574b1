/**
 * Cache entries byte by byte: the two magic numbers, the version, the little-endian lengths
 * and the flag bit as they stand in a file.
 */
module CacheBytes {
  import opened Text
  import opened SimpleCache

  const INITIAL_BYTES: Bytes := [0x30, 0x5C, 0x72, 0xA7, 0x1B, 0x6D, 0xFB, 0xFC]
  const FINAL_BYTES: Bytes := [0xD8, 0x41, 0x0D, 0x97, 0x45, 0x6F, 0xFA, 0xF4]
  const VERSION_BYTES: Bytes := [5, 0, 0, 0]

  /** Four bytes, least significant first. */
  function FourBytes(a: int, b: int, c: int, d: int): int {
    a + 0x100 * b + 0x1_0000 * c + 0x100_0000 * d
  }

  predicate Little(field: Bytes, n: nat) {
    |field| == 4 && n == FourBytes(field[0], field[1], field[2], field[3])
  }

  /** The second lowest bit of the first byte says that a digest of the key is in the file. */
  predicate DigestBytes(flags: Bytes, digest: Bytes) {
    |flags| == 4 && |digest| == if flags[0] / 2 % 2 == 1 then 32 else 0
  }

  /** The variable and skipped fields of an entry. */
  datatype Fields = Fields(keyLength: Bytes, rest: Bytes, one: Bytes, digest: Bytes, flags: Bytes, crc: Bytes, metadataLength: Bytes, padding: Bytes)

  /** An entry, from its first byte to its last. */
  ghost predicate IsEntry(data: Bytes, parts: Parts, f: Fields) {
    && Little(f.keyLength, |parts.key|) && |f.rest| == 8 && |f.one| == 16 && DigestBytes(f.flags, f.digest)
    && |f.crc| == 4 && Little(f.metadataLength, |parts.responseMetadata|) && |f.padding| == 4
    && data == INITIAL_BYTES + VERSION_BYTES + f.keyLength + f.rest
               + parts.key + parts.body
               + FINAL_BYTES + f.one
               + parts.responseMetadata + f.digest
               + FINAL_BYTES + f.flags + f.crc + f.metadataLength + f.padding
  }

  // ------------------------------------------------- fields

  lemma LittleIs(field: Bytes, n: nat)
    requires |field| == 4
    ensures Little(field, n) <==> n == Decode(field)
    ensures Little(field, n) <==> field == Encode(n, 4) && n < 0x1_0000_0000
  {
    assert field[1..][1..] == field[2..] && field[2..][1..] == field[3..];
    assert Decode(field[3..]) == field[3] && Decode(field[2..]) == field[2] + 256 * Decode(field[3..]);
    assert Decode(field) == field[0] + 256 * (field[1] + 256 * Decode(field[2..]));
    EncodeOfDecode(field);
    Powers();
    if n < 0x1_0000_0000 { DecodeOfEncode(n, 4); }
  }

  lemma {:induction false} FlagsAre(flags: Bytes)
    requires |flags| == 4
    ensures HasKeySha(Decode(flags)) <==> flags[0] / 2 % 2 == 1
  {
    var high := Decode(flags[1..]);
    assert Decode(flags) == flags[0] + 256 * high;
    assert (flags[0] + 256 * high) / 2 == flags[0] / 2 + 128 * high;
  }

  lemma EightBytes(a: Byte, b: Byte, c: Byte, d: Byte, e: Byte, f: Byte, g: Byte, h: Byte)
    ensures Decode([a, b, c, d, e, f, g, h]) == FourBytes(a, b, c, d) + 0x1_0000_0000 * FourBytes(e, f, g, h)
  {
    assert Decode([e, f, g, h]) == FourBytes(e, f, g, h) by { LittleIs([e, f, g, h], FourBytes(e, f, g, h)); }
    assert [a, b, c, d, e, f, g, h][1..] == [b, c, d, e, f, g, h] && [b, c, d, e, f, g, h][1..] == [c, d, e, f, g, h];
    assert [c, d, e, f, g, h][1..] == [d, e, f, g, h] && [d, e, f, g, h][1..] == [e, f, g, h];
    assert Decode([d, e, f, g, h]) == d + 256 * Decode([e, f, g, h]);
    assert Decode([c, d, e, f, g, h]) == c + 256 * Decode([d, e, f, g, h]);
    assert Decode([b, c, d, e, f, g, h]) == b + 256 * Decode([c, d, e, f, g, h]);
  }

  lemma MagicBytes()
    ensures Encode(INITIAL_MAGIC, 8) == INITIAL_BYTES && Decode(INITIAL_BYTES) == INITIAL_MAGIC
    ensures Encode(FINAL_MAGIC, 8) == FINAL_BYTES && Decode(FINAL_BYTES) == FINAL_MAGIC
    ensures Encode(VERSION, 4) == VERSION_BYTES && Decode(VERSION_BYTES) == VERSION
  {
    hide Decode, Encode;
    EightBytes(0x30, 0x5C, 0x72, 0xA7, 0x1B, 0x6D, 0xFB, 0xFC);
    EightBytes(0xD8, 0x41, 0x0D, 0x97, 0x45, 0x6F, 0xFA, 0xF4);
    LittleIs(VERSION_BYTES, 5);
    EncodeOfDecode(INITIAL_BYTES);
    EncodeOfDecode(FINAL_BYTES);
  }

  // ------------------------------------------------- the parser

  lemma FieldsOf(parts: Parts, j: Skipped) returns (f: Fields)
    requires WellFormed(j) && Printable(parts)
    ensures IsEntry(Print(parts, j), parts, f)
  {
    hide Decode, Encode, HasKeySha;
    MagicBytes();
    f := Fields(Encode(|parts.key|, 4), j.keyHash + j.headerPadding, j.oneFlags + j.oneCrc + j.oneSize + j.onePadding,
                j.keySha, j.flags, j.crc, Encode(|parts.responseMetadata|, 4), j.padding);
    LittleIs(f.keyLength, |parts.key|);
    LittleIs(f.metadataLength, |parts.responseMetadata|);
    FlagsAre(j.flags);
    EntryPrints(parts, j, f);
  }

  lemma EntryPrints(parts: Parts, j: Skipped, f: Fields)
    requires f.keyLength == Encode(|parts.key|, 4) && f.metadataLength == Encode(|parts.responseMetadata|, 4)
    requires f.rest == j.keyHash + j.headerPadding && f.one == j.oneFlags + j.oneCrc + j.oneSize + j.onePadding
    requires f.digest == j.keySha && f.flags == j.flags && f.crc == j.crc && f.padding == j.padding
    ensures Print(parts, j) == INITIAL_BYTES + VERSION_BYTES + f.keyLength + f.rest + parts.key + parts.body + FINAL_BYTES + f.one
                               + parts.responseMetadata + f.digest + FINAL_BYTES + f.flags + f.crc + f.metadataLength + f.padding
  {
    hide Decode, Encode;
    MagicBytes();
    assert Header(parts.key, j) == INITIAL_BYTES + VERSION_BYTES + f.keyLength + f.rest;
    assert StreamOneEof(j) == FINAL_BYTES + f.one;
    assert FinalEof(parts.responseMetadata, j) == FINAL_BYTES + f.flags + f.crc + f.metadataLength + f.padding;
    Regrouped(Header(parts.key, j), parts.key, parts.body, FINAL_BYTES, f.one, parts.responseMetadata, f.digest,
              FINAL_BYTES, f.flags, f.crc, f.metadataLength, f.padding);
  }

  lemma Regrouped(head: Bytes, key: Bytes, body: Bytes, m: Bytes, one: Bytes, meta: Bytes, digest: Bytes,
                  n: Bytes, flags: Bytes, crc: Bytes, length: Bytes, padding: Bytes)
    ensures head + key + body + (m + one) + meta + digest + (n + flags + crc + length + padding)
            == head + key + body + m + one + meta + digest + n + flags + crc + length + padding
  {
    var front := head + key + body + (m + one) + meta + digest;
    assert front + (n + flags + crc + length + padding) == front + n + flags + crc + length + padding;
    assert head + key + body + (m + one) == head + key + body + m + one;
  }

  lemma SkippedIn(data: Bytes, parts: Parts, f: Fields) returns (j: Skipped)
    requires IsEntry(data, parts, f)
    ensures WellFormed(j) && Printable(parts) && data == Print(parts, j)
  {
    hide Decode, Encode, HasKeySha;
    j := Skipped(f.rest[..4], f.rest[4..], f.one[..4], f.one[4..8], f.one[8..12], f.one[12..], f.flags, f.crc, f.padding, f.digest);
    LittleIs(f.keyLength, |parts.key|);
    LittleIs(f.metadataLength, |parts.responseMetadata|);
    FlagsAre(f.flags);
    assert f.rest == j.keyHash + j.headerPadding && f.one == j.oneFlags + j.oneCrc + j.oneSize + j.onePadding;
    EntryPrints(parts, j, f);
  }

  /** The parser accepts a file exactly when its bytes are an entry, and returns what stands between the fields. */
  lemma ParseByBytes(data: Bytes, parts: Parts)
    ensures Parse(data) == Ok(parts) <==> exists f :: IsEntry(data, parts, f)
  {
    hide Parse, Print, IsEntry, WellFormed;
    ParseExact(data, parts);
    if Parse(data) == Ok(parts) {
      var j :| WellFormed(j) && Printable(parts) && data == Print(parts, j);
      var f := FieldsOf(parts, j);
    }
    forall f | IsEntry(data, parts, f) ensures Parse(data) == Ok(parts) {
      var j := SkippedIn(data, parts, f);
    }
  }

  lemma FieldIsBytes(data: Bytes, at: nat, bytes: Bytes, n: nat)
    requires at + |bytes| <= |data| && Decode(bytes) == n && Encode(n, |bytes|) == bytes
    ensures Field(data, at, |bytes|) == n <==> data[at..at + |bytes|] == bytes
  {
    hide Decode, Encode;
    EncodeOfDecode(data[at..at + |bytes|]);
  }

  /** The key reader: the header in front, a key of one byte to a mebibyte, and nothing asked of what follows. */
  lemma KeyByBytes(data: Bytes, key: Bytes)
    ensures ReadKey(data) == Ok(key) <==>
              && |data| >= 24 && data[..8] == INITIAL_BYTES && data[8..12] == VERSION_BYTES
              && 1 <= |key| <= 1_048_576 && Little(data[12..16], |key|)
              && 24 + |key| <= |data| && key == data[24..24 + |key|]
  {
    hide Decode, Encode, Little;
    if |data| >= 24 {
      MagicBytes();
      FieldIsBytes(data, 0, INITIAL_BYTES, INITIAL_MAGIC);
      FieldIsBytes(data, 8, VERSION_BYTES, VERSION);
      LittleIs(data[12..16], |key|);
    }
  }

  /** What is no entry is refused for what it lacks, from the outside in; `k` is the length that the header gives for the key. */
  lemma ErrorsByBytes(data: Bytes, k: nat)
    requires |data| >= 72 ==> Little(data[12..16], k)
    ensures Parse(data) == Err(TooShort) <==> |data| < 72
    ensures |data| >= 72 ==>
              var headed := data[..8] == INITIAL_BYTES && data[8..12] == VERSION_BYTES;
              && (Parse(data) == Err(UnsupportedFormat) <==> !headed)
              && (Parse(data) == Err(InvalidKeyLength) <==> headed && k > |data| - 72)
              && (Parse(data) == Err(InvalidFinalEof) <==> headed && k <= |data| - 72 && data[|data| - 24..|data| - 16] != FINAL_BYTES)
  {
    hide Decode, Encode, HasKeySha, Little;
    if |data| >= 72 {
      MagicBytes();
      FieldIsBytes(data, 0, INITIAL_BYTES, INITIAL_MAGIC);
      FieldIsBytes(data, 8, VERSION_BYTES, VERSION);
      FieldIsBytes(data, |data| - 24, FINAL_BYTES, FINAL_MAGIC);
      LittleIs(data[12..16], k);
    }
  }
}
