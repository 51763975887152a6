/** crypto/aad.go: the byte layouts that bind ciphertexts to their context. */
module Aad {
  import opened Prelude

  const TWO_32: int := 0x1_0000_0000

  /** The low `width` bytes of v, most significant first. */
  function BigEndian(v: nat, width: nat): (r: Bytes)
    ensures |r| == width
  {
    if width == 0 then [] else BigEndian(v / 256, width - 1) + [v % 256]
  }

  function Value(b: Bytes): nat {
    if b == [] then 0 else Value(b[..|b| - 1]) * 256 + b[|b| - 1]
  }

  function Power256(width: nat): (p: nat)
    ensures p > 0
  {
    if width == 0 then 1 else 256 * Power256(width - 1)
  }

  /** Fixed-width integers decode to themselves modulo the width. */
  lemma {:induction false} BigEndianValue(v: nat, width: nat)
    ensures Value(BigEndian(v, width)) == v % Power256(width)
  {
    if width > 0 {
      BigEndianValue(v / 256, width - 1);
      var b := BigEndian(v, width);
      assert b[..|b| - 1] == BigEndian(v / 256, width - 1);
      ModStep(v, Power256(width - 1));
    }
  }

  lemma ModStep(v: nat, p: nat)
    requires p > 0
    ensures (v / 256) % p * 256 + v % 256 == v % (256 * p)
  {
    var q, r := v / 256 / p, v / 256 % p;
    assert v / 256 == q * p + r;
    assert v == (q * p + r) * 256 + v % 256;
    assert v == q * (256 * p) + (r * 256 + v % 256);
    RemainderUnique(v, q, r * 256 + v % 256, 256 * p);
  }

  /** uint64(v) of an int64. */
  function Uint64(v: int): (r: nat)
    requires -TWO_63 <= v < TWO_63
    ensures r < TWO_64
  {
    if v < 0 then v + TWO_64 else v
  }

  // ================================================================ the layouts

  /** [4-byte length, modulo 2^32][bytes]. */
  function LenPrefixed(b: Bytes): Bytes {
    BigEndian(|b|, 4) + b
  }

  function ChunkAAD(fileId: Bytes, chunkIndex: int, totalChunks: int): Bytes
    requires -TWO_63 <= chunkIndex < TWO_63 && -TWO_63 <= totalChunks < TWO_63
  {
    LenPrefixed(fileId) + BigEndian(Uint64(chunkIndex), 8) + BigEndian(Uint64(totalChunks), 8)
  }

  function FekEnvelopeAAD(fileId: Bytes, keyType: Byte): Bytes {
    LenPrefixed(fileId) + [keyType]
  }

  function MetadataAAD(fileId: Bytes, fieldName: Bytes, owner: Bytes): Bytes {
    LenPrefixed(fileId) + LenPrefixed(fieldName) + LenPrefixed(owner)
  }

  // The builders grow one buffer, append by append.

  method AppendLenPrefixedString(dst: Bytes, b: Bytes) returns (out: Bytes)
    ensures out == dst + LenPrefixed(b)
  {
    var lenBuf := new Byte[4](_ => 0);
    PutBigEndian(lenBuf, |b|);
    out := dst + lenBuf[..];
    out := out + b;
    assert dst + BigEndian(|b|, 4) + b == dst + LenPrefixed(b);
  }

  method AppendUint64BE(dst: Bytes, v: nat) returns (out: Bytes)
    ensures out == dst + BigEndian(v, 8)
  {
    var buf := new Byte[8](_ => 0);
    PutBigEndian(buf, v);
    out := dst + buf[..];
  }

  /** Fills the whole buffer with v, most significant byte first. */
  method PutBigEndian(buf: array<Byte>, v: nat)
    modifies buf
    ensures buf[..] == BigEndian(v, buf.Length)
  {
    var rest := v;
    var i := buf.Length;
    while i > 0
      invariant 0 <= i <= buf.Length && rest >= 0
      invariant BigEndian(v, buf.Length) == BigEndian(rest, i) + buf[i..]
    {
      i := i - 1;
      buf[i] := rest % 256;
      assert buf[i..] == [buf[i]] + buf[i + 1..];
      rest := rest / 256;
    }
    assert buf[..] == buf[0..];
  }

  method BuildChunkAAD(fileId: Bytes, chunkIndex: int, totalChunks: int) returns (out: Bytes)
    requires -TWO_63 <= chunkIndex < TWO_63 && -TWO_63 <= totalChunks < TWO_63
    ensures out == ChunkAAD(fileId, chunkIndex, totalChunks)
  {
    out := AppendLenPrefixedString([], fileId);
    out := AppendUint64BE(out, Uint64(chunkIndex));
    out := AppendUint64BE(out, Uint64(totalChunks));
  }

  method BuildFEKEnvelopeAAD(fileId: Bytes, keyType: Byte) returns (out: Bytes)
    ensures out == FekEnvelopeAAD(fileId, keyType)
  {
    out := AppendLenPrefixedString([], fileId);
    out := out + [keyType];
  }

  method BuildMetadataFieldAAD(fileId: Bytes, fieldName: Bytes, owner: Bytes) returns (out: Bytes)
    ensures out == MetadataAAD(fileId, fieldName, owner)
  {
    out := AppendLenPrefixedString([], fileId);
    out := AppendLenPrefixedString(out, fieldName);
    out := AppendLenPrefixedString(out, owner);
  }

  /** One context of each shape, byte by byte. */
  lemma ChunkVector()
    ensures ChunkAAD([7], 1, 2) == [0, 0, 0, 1, 7] + [0, 0, 0, 0, 0, 0, 0, 1] + [0, 0, 0, 0, 0, 0, 0, 2]
  {
    SmallBigEndian(1);
    SmallBigEndian(2);
  }

  lemma NegativeChunkVector()
    ensures ChunkAAD([7], -1, 1)
         == [0, 0, 0, 1, 7] + [255, 255, 255, 255, 255, 255, 255, 255] + [0, 0, 0, 0, 0, 0, 0, 1]
  {
    SmallBigEndian(1);
    AllOnes();
  }

  lemma FekVector()
    ensures FekEnvelopeAAD([7, 8], 3) == [0, 0, 0, 2, 7, 8, 3]
  {
    SmallBigEndian(2);
  }

  lemma MetadataVector()
    ensures MetadataAAD([7], [8, 9], []) == [0, 0, 0, 1, 7] + [0, 0, 0, 2, 8, 9] + [0, 0, 0, 0]
  {
    SmallBigEndian(0);
    SmallBigEndian(1);
    SmallBigEndian(2);
  }

  lemma SmallBigEndian(v: Byte)
    ensures BigEndian(v, 4) == [0, 0, 0, v] && BigEndian(v, 8) == [0, 0, 0, 0, 0, 0, 0, v]
  {
    assert BigEndian(0, 3) == [0, 0, 0];
    assert BigEndian(0, 5) == BigEndian(0, 3) + [0] + [0];
    assert BigEndian(0, 7) == BigEndian(0, 5) + [0] + [0];
  }

  lemma AllOnes()
    ensures BigEndian(TWO_64 - 1, 8) == [255, 255, 255, 255, 255, 255, 255, 255]
  {
    assert BigEndian(0xFFFF, 2) == [255, 255];
    assert BigEndian(0xFFFF_FFFF, 4) == [255, 255, 255, 255];
    assert BigEndian(0xFFFF_FFFF_FFFF, 6) == [255, 255, 255, 255, 255, 255];
  }

  // ================================================================ decoding

  /** Splits a length-prefixed field off the front. */
  function TakeField(b: Bytes): Option<(Bytes, Bytes)> {
    if |b| < 4 then None
    else
      var n := Value(b[..4]);
      if |b| - 4 < n then None else Some((b[4..4 + n], b[4 + n..]))
  }

  lemma LengthPrefixValue(field: Bytes)
    requires |field| < TWO_32
    ensures Value(BigEndian(|field|, 4)) == |field|
  {
    BigEndianValue(|field|, 4);
    Power256Of4();
    SmallRemainder(|field|, Power256(4));
  }

  lemma SmallRemainder(n: nat, p: nat)
    requires n < p
    ensures n % p == n
  {
  }

  lemma Power256Of4()
    ensures Power256(4) == TWO_32
  {
    assert Power256(2) == 65536;
  }

  lemma TakeFieldInverse(field: Bytes, rest: Bytes)
    requires |field| < TWO_32
    ensures TakeField(LenPrefixed(field) + rest) == Some((field, rest))
  {
    var b := LenPrefixed(field) + rest;
    LengthPrefixValue(field);
    assert b[..4] == BigEndian(|field|, 4);
    assert b[4..4 + |field|] == field && b[4 + |field|..] == rest;
  }

  datatype Context =
    | Chunk(fileId: Bytes, chunkIndex: nat, totalChunks: nat)
    | Fek(fileId: Bytes, keyType: Byte)
    | Metadata(fileId: Bytes, fieldName: Bytes, owner: Bytes)

  const FILENAME_LABEL_LENGTH: int := 18   // "encrypted_filename"
  const SHA256_LABEL_LENGTH: int := 19     // "encrypted_sha256sum"

  /** The context an AAD was built for, told apart by what follows the file id. */
  function Decode(b: Bytes): Option<Context> {
    var f := TakeField(b);
    if f.None? then None
    else
      var (fileId, rest) := f.value;
      if |rest| == 1 then Some(Fek(fileId, rest[0]))
      else if |rest| == 16 then Some(Chunk(fileId, Value(rest[..8]), Value(rest[8..])))
      else
        var n := TakeField(rest);
        if n.None? then None
        else
          var o := TakeField(n.value.1);
          if o.None? || o.value.1 != [] then None else Some(Metadata(fileId, n.value.0, o.value.0))
  }

  lemma Power256Of8()
    ensures Power256(8) == TWO_64
  {
    Power256Of4();
    assert Power256(6) == 0x1_0000_0000_0000;
  }

  lemma Uint64RoundTrip(v: nat)
    requires v < TWO_64
    ensures Value(BigEndian(v, 8)) == v
  {
    BigEndianValue(v, 8);
    Power256Of8();
  }

  /** A chunk's context is recovered; its indices come back as their unsigned images. */
  lemma ChunkDecodes(fileId: Bytes, chunkIndex: int, totalChunks: int)
    requires |fileId| < TWO_32 && -TWO_63 <= chunkIndex < TWO_63 && -TWO_63 <= totalChunks < TWO_63
    ensures Decode(ChunkAAD(fileId, chunkIndex, totalChunks))
         == Some(Chunk(fileId, Uint64(chunkIndex), Uint64(totalChunks)))
  {
    var i, n := Uint64(chunkIndex), Uint64(totalChunks);
    assert ChunkAAD(fileId, chunkIndex, totalChunks) == LenPrefixed(fileId) + (BigEndian(i, 8) + BigEndian(n, 8));
    Uint64RoundTrip(i);
    Uint64RoundTrip(n);
    TailDecodes(fileId, BigEndian(i, 8), BigEndian(n, 8));
  }

  lemma TailDecodes(fileId: Bytes, first: Bytes, second: Bytes)
    requires |fileId| < TWO_32 && |first| == 8 && |second| == 8
    ensures Decode(LenPrefixed(fileId) + (first + second)) == Some(Chunk(fileId, Value(first), Value(second)))
  {
    TakeFieldInverse(fileId, first + second);
    assert (first + second)[..8] == first && (first + second)[8..] == second;
  }

  lemma FekDecodes(fileId: Bytes, keyType: Byte)
    requires |fileId| < TWO_32
    ensures Decode(FekEnvelopeAAD(fileId, keyType)) == Some(Fek(fileId, keyType))
  {
    TakeFieldInverse(fileId, [keyType]);
  }

  /** A metadata context is recovered unless its field name and owner have eight bytes together. */
  lemma MetadataDecodes(fileId: Bytes, fieldName: Bytes, owner: Bytes)
    requires |fileId| < TWO_32 && |fieldName| < TWO_32 && |owner| < TWO_32
    requires |fieldName| + |owner| != 8
    ensures Decode(MetadataAAD(fileId, fieldName, owner)) == Some(Metadata(fileId, fieldName, owner))
  {
    var rest := LenPrefixed(fieldName) + LenPrefixed(owner);
    assert MetadataAAD(fileId, fieldName, owner) == LenPrefixed(fileId) + rest;
    TakeFieldInverse(fileId, rest);
    TakeFieldInverse(fieldName, LenPrefixed(owner));
    TakeFieldInverse(owner, []);
    assert LenPrefixed(owner) + [] == LenPrefixed(owner);
  }

  /** Any two of the contexts the program builds, with canonical field names, that have the same bytes are the same. */
  ghost predicate Built(c: Context, b: Bytes) {
    match c
    case Chunk(fileId, i, n) =>
      |fileId| < TWO_32 && exists chunkIndex, totalChunks ::
        -TWO_63 <= chunkIndex < TWO_63 && -TWO_63 <= totalChunks < TWO_63
        && i == Uint64(chunkIndex) && n == Uint64(totalChunks) && b == ChunkAAD(fileId, chunkIndex, totalChunks)
    case Fek(fileId, keyType) => |fileId| < TWO_32 && b == FekEnvelopeAAD(fileId, keyType)
    case Metadata(fileId, fieldName, owner) =>
      && |fileId| < TWO_32 && |owner| < TWO_32
      && (|fieldName| == FILENAME_LABEL_LENGTH || |fieldName| == SHA256_LABEL_LENGTH)
      && b == MetadataAAD(fileId, fieldName, owner)
  }

  lemma AadUnambiguous(c: Context, d: Context, b: Bytes)
    requires Built(c, b) && Built(d, b)
    ensures c == d
  {
    BuiltDecodes(c, b);
    BuiltDecodes(d, b);
  }

  lemma BuiltDecodes(c: Context, b: Bytes)
    requires Built(c, b)
    ensures Decode(b) == Some(c)
  {
    match c
    case Chunk(fileId, i, n) =>
      var chunkIndex, totalChunks :|
        -TWO_63 <= chunkIndex < TWO_63 && -TWO_63 <= totalChunks < TWO_63
        && i == Uint64(chunkIndex) && n == Uint64(totalChunks) && b == ChunkAAD(fileId, chunkIndex, totalChunks);
      ChunkDecodes(fileId, chunkIndex, totalChunks);
    case Fek(fileId, keyType) => FekDecodes(fileId, keyType);
    case Metadata(fileId, fieldName, owner) => MetadataDecodes(fileId, fieldName, owner);
  }

  /** Metadata AADs determine all three of their fields, whatever the field name, below 2^32 bytes. */
  lemma MetadataInjective(f: Bytes, n: Bytes, o: Bytes, f': Bytes, n': Bytes, o': Bytes)
    requires |f| < TWO_32 && |n| < TWO_32 && |o| < TWO_32 && |f'| < TWO_32 && |n'| < TWO_32 && |o'| < TWO_32
    requires MetadataAAD(f, n, o) == MetadataAAD(f', n', o')
    ensures f == f' && n == n' && o == o'
  {
    ThreeFields(f, n, o);
    ThreeFields(f', n', o');
  }

  lemma ThreeFields(f: Bytes, n: Bytes, o: Bytes)
    requires |f| < TWO_32 && |n| < TWO_32 && |o| < TWO_32
    ensures TakeField(MetadataAAD(f, n, o)) == Some((f, LenPrefixed(n) + LenPrefixed(o)))
    ensures TakeField(LenPrefixed(n) + LenPrefixed(o)) == Some((n, LenPrefixed(o)))
    ensures TakeField(LenPrefixed(o)) == Some((o, []))
  {
    assert MetadataAAD(f, n, o) == LenPrefixed(f) + (LenPrefixed(n) + LenPrefixed(o));
    TakeFieldInverse(f, LenPrefixed(n) + LenPrefixed(o));
    TakeFieldInverse(n, LenPrefixed(o));
    TakeFieldInverse(o, []);
    assert LenPrefixed(o) + [] == LenPrefixed(o);
  }

  /** The bytes are the AAD of some chunk of some file. */
  ghost predicate IsChunkAAD(b: Bytes) {
    exists fileId: Bytes, chunkIndex, totalChunks ::
      |fileId| < TWO_32 && -TWO_63 <= chunkIndex < TWO_63 && -TWO_63 <= totalChunks < TWO_63
      && b == ChunkAAD(fileId, chunkIndex, totalChunks)
  }

  /**
   A metadata AAD is also a chunk's if and only if its field name and owner have eight bytes together: the
   sixteen bytes after the file id then read either way. Both canonical labels are longer than that.
  */
  lemma MetadataIsChunkIff(f: Bytes, n: Bytes, o: Bytes)
    requires |f| < TWO_32 && |n| < TWO_32 && |o| < TWO_32
    ensures IsChunkAAD(MetadataAAD(f, n, o)) <==> |n| + |o| == 8
  {
    var b := MetadataAAD(f, n, o);
    if |n| + |o| == 8 {
      var tail := LenPrefixed(n) + LenPrefixed(o);
      SixteenBytes(f, tail);
      assert b == LenPrefixed(f) + tail;
    } else if IsChunkAAD(b) {
      var fileId: Bytes, i, t :|
        |fileId| < TWO_32 && -TWO_63 <= i < TWO_63 && -TWO_63 <= t < TWO_63 && b == ChunkAAD(fileId, i, t);
      NotBoth(f, n, o, fileId, i, t);
    }
  }

  lemma NotBoth(f: Bytes, n: Bytes, o: Bytes, fileId: Bytes, i: int, t: int)
    requires |f| < TWO_32 && |n| < TWO_32 && |o| < TWO_32 && |n| + |o| != 8
    requires |fileId| < TWO_32 && -TWO_63 <= i < TWO_63 && -TWO_63 <= t < TWO_63
    ensures MetadataAAD(f, n, o) != ChunkAAD(fileId, i, t)
  {
    ChunkDecodes(fileId, i, t);
    MetadataDecodes(f, n, o);
  }

  lemma SixteenBytes(fileId: Bytes, tail: Bytes)
    requires |fileId| < TWO_32 && |tail| == 16
    ensures IsChunkAAD(LenPrefixed(fileId) + tail)
  {
    var first, second := tail[..8], tail[8..];
    EightBytes(first);
    EightBytes(second);
    assert tail == first + second;
    assert LenPrefixed(fileId) + tail == LenPrefixed(fileId) + first + second;
    assert LenPrefixed(fileId) + tail == ChunkAAD(fileId, Signed64(first), Signed64(second));
  }

  /** No metadata AAD is ever a FEK envelope's: more than one byte follows the file id. */
  lemma MetadataIsNeverFek(f: Bytes, n: Bytes, o: Bytes, fileId: Bytes, keyType: Byte)
    requires |f| < TWO_32 && |n| < TWO_32 && |o| < TWO_32 && |fileId| < TWO_32
    ensures MetadataAAD(f, n, o) != FekEnvelopeAAD(fileId, keyType)
  {
    ThreeFields(f, n, o);
    TakeFieldInverse(fileId, [keyType]);
  }

  /** The int64 whose unsigned image the eight bytes spell. */
  function Signed64(b: Bytes): int {
    if Value(b) < TWO_63 then Value(b) else Value(b) - TWO_64
  }

  lemma EightBytes(b: Bytes)
    requires |b| == 8
    ensures -TWO_63 <= Signed64(b) < TWO_63 && BigEndian(Uint64(Signed64(b)), 8) == b
  {
    ValueBounded(b);
    Power256Of8();
    BytesBack(b);
  }

  lemma {:induction false} ValueBounded(b: Bytes)
    ensures Value(b) < Power256(|b|)
  {
    if b != [] {
      ValueBounded(b[..|b| - 1]);
    }
  }

  lemma {:induction false} BytesBack(b: Bytes)
    ensures BigEndian(Value(b), |b|) == b
  {
    if b != [] {
      BytesBack(b[..|b| - 1]);
      assert b == b[..|b| - 1] + [b[|b| - 1]];
    }
  }

  // ================================================================ lengths that do not fit

  function Zeros(n: nat): Bytes {
    seq(n, _ => 0)
  }

  /**
   At 2^32 bytes the length prefix wraps to zero and metadata AADs stop being unambiguous: the same bytes
   then belong to a long file id with an empty field name and to an empty file id with a long field name.
  */
  lemma LongFieldsCollide()
    ensures MetadataAAD(Zeros(TWO_32), [], []) == MetadataAAD([], Zeros(TWO_32), [])
  {
    ZeroPrefix(Zeros(TWO_32));
    ZeroPrefix([]);
    var n := TWO_32;
    assert Zeros(4) + Zeros(n) + (Zeros(4) + []) + (Zeros(4) + []) == Zeros(n + 12);
    assert Zeros(4) + [] + (Zeros(4) + Zeros(n)) + (Zeros(4) + []) == Zeros(n + 12);
  }

  lemma ZeroPrefix(b: Bytes)
    requires |b| == 0 || |b| == TWO_32
    ensures BigEndian(|b|, 4) == Zeros(4)
  {
    assert BigEndian(0, 1) == [0] && BigEndian(0, 2) == [0, 0] && BigEndian(0, 3) == [0, 0, 0];
    assert BigEndian(0x100_0000, 3) == [0, 0, 0];
  }
}
