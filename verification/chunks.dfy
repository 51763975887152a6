/** handlers/downloads.go and handlers/file_shares.go: which bytes a chunk request serves. */
module Chunks {
  import opened Prelude

  /** The columns of file_metadata that the ranges depend on. */
  datatype Meta = Meta(size: int, chunkCount: int, chunkSize: int)

  /** AES-GCM nonce and tag. */
  const OVERHEAD: int := 28

  datatype Answer = BadIndex | BadRange | Serve(start: int, length: int)

  /** The range of a chunk that starts at this byte, on int64. */
  function RangeFrom(size: int, enc: int, start: int): Answer {
    var last := WrapInt64(start + enc - 1);
    var end := if last >= size then WrapInt64(size - 1) else last;
    var length := WrapInt64(end - start + 1);
    if length <= 0 then BadRange else Serve(start, length)
  }

  /** The range computation both handlers share. */
  function Range(size: int, plain: int, index: int): Answer {
    var enc := WrapInt64(OVERHEAD + plain);
    RangeFrom(size, enc, WrapInt64(index * enc))
  }

  /** The owner's download; plainDefault is the configured plaintext chunk size. */
  function OwnerRange(m: Meta, plainDefault: int, index: int): Answer {
    if index < 0 || index >= m.chunkCount then BadIndex
    else Range(m.size, if m.chunkSize <= 0 then plainDefault else m.chunkSize, index)
  }

  /** The share download; a file without chunk columns counts as one chunk. */
  function ShareRange(m: Meta, plainDefault: int, index: int): Answer {
    var count := if m.chunkCount == 0 then 1 else m.chunkCount;
    if index < 0 || index >= count then BadIndex
    else Range(m.size, if m.chunkSize == 0 then plainDefault else m.chunkSize, index)
  }

  /** The lines that both handlers go on with: the chunk's end, cut off at the stream's, and its length. */
  method BoundedChunk(size: int, encChunkSize: int, startByte: int) returns (a: Answer)
    ensures a == RangeFrom(size, encChunkSize, startByte)
  {
    var endByte := WrapInt64(startByte + encChunkSize - 1);
    if endByte >= size {
      endByte := WrapInt64(size - 1);
    }
    var actual := WrapInt64(endByte - startByte + 1);
    if actual <= 0 { return BadRange; }
    return Serve(startByte, actual);
  }

  method DownloadFileChunk(m: Meta, plainDefault: int, chunkIndex: int) returns (a: Answer)
    ensures a == OwnerRange(m, plainDefault, chunkIndex)
  {
    if chunkIndex < 0 || chunkIndex >= m.chunkCount { return BadIndex; }
    var plain := m.chunkSize;
    if plain <= 0 {
      plain := plainDefault;
    }
    var encChunkSize := WrapInt64(OVERHEAD + plain);
    var startByte := WrapInt64(chunkIndex * encChunkSize);
    a := BoundedChunk(m.size, encChunkSize, startByte);
  }

  method DownloadShareChunk(m: Meta, plainDefault: int, chunkIndex: int) returns (a: Answer)
    ensures a == ShareRange(m, plainDefault, chunkIndex)
  {
    var count, plain := m.chunkCount, m.chunkSize;
    if count == 0 {
      count := 1;
    }
    if plain == 0 {
      plain := plainDefault;
    }
    if chunkIndex < 0 || chunkIndex >= count { return BadIndex; }
    var encChunkSize := WrapInt64(OVERHEAD + plain);
    var startByte := WrapInt64(chunkIndex * encChunkSize);
    a := BoundedChunk(m.size, encChunkSize, startByte);
  }

  // ================================================================ tiling

  /** Without overflow, a chunk is cut off at the stream's end, and there is one exactly before that end. */
  lemma RangeExact(size: nat, enc: nat, start: nat)
    requires enc > 0 && start + enc < TWO_63 && size < TWO_63
    ensures RangeFrom(size, enc, start) == if start >= size then BadRange else Serve(start, Least(enc, size - start))
  {
  }

  /** ceil(size / encrypted chunk size). */
  function ChunkCount(size: nat, plain: nat): nat {
    (size + OVERHEAD + plain - 1) / (OVERHEAD + plain)
  }

  lemma CountCovers(size: nat, plain: nat, index: nat)
    ensures index < ChunkCount(size, plain) <==> index * (OVERHEAD + plain) < size
  {
    var enc := OVERHEAD + plain;
    var count := ChunkCount(size, plain);
    assert count * enc <= size + enc - 1 < count * enc + enc by {
      assert size + enc - 1 == count * enc + (size + enc - 1) % enc;
    }
    if index < count {
      MultipleMonotone(index + 1, count, enc);
      assert (index + 1) * enc == index * enc + enc;
    } else {
      MultipleMonotone(count, index, enc);
    }
  }

  lemma RangeWithoutWrap(size: nat, plain: nat, index: nat)
    requires OVERHEAD + plain < TWO_63 && index * (OVERHEAD + plain) < TWO_63
    ensures Range(size, plain, index) == RangeFrom(size, OVERHEAD + plain, index * (OVERHEAD + plain))
  {
  }

  lemma ServedRange(size: nat, plain: nat, index: nat) returns (start: nat, length: nat)
    requires size + OVERHEAD + plain < TWO_63 && index < ChunkCount(size, plain)
    ensures Range(size, plain, index) == Serve(start, length)
    ensures start == index * (OVERHEAD + plain) < size
    ensures start + length == Least(start + OVERHEAD + plain, size)
  {
    CountCovers(size, plain, index);
    start, length := ServedAt(size, plain, index);
  }

  lemma ServedAt(size: nat, plain: nat, index: nat) returns (start: nat, length: nat)
    requires size + OVERHEAD + plain < TWO_63 && index * (OVERHEAD + plain) < size
    ensures Range(size, plain, index) == Serve(start, length)
    ensures start == index * (OVERHEAD + plain) < size
    ensures start + length == Least(start + OVERHEAD + plain, size)
  {
    RangeWithoutWrap(size, plain, index);
    start := index * (OVERHEAD + plain);
    length := ServedFrom(size, OVERHEAD + plain, start);
  }

  lemma ServedFrom(size: nat, enc: nat, start: nat) returns (length: nat)
    requires enc > 0 && size + enc < TWO_63 && start < size
    ensures RangeFrom(size, enc, start) == Serve(start, length)
    ensures start + length == Least(start + enc, size)
  {
    RangeExact(size, enc, start);
    length := Least(enc, size - start);
  }

  /** The bytes a chunk request serves out of the stored object; none if it is refused or the object is too short. */
  function Served<T>(stored: seq<T>, a: Answer): seq<T> {
    if a.Serve? && 0 <= a.start && 0 <= a.length && a.start + a.length <= |stored| then
      stored[a.start..a.start + a.length]
    else []
  }

  function Concat<T>(parts: seq<seq<T>>): seq<T> {
    if parts == [] then [] else Concat(parts[..|parts| - 1]) + parts[|parts| - 1]
  }

  /** The answers to chunk requests 0 to n - 1 of a stream, one by one. */
  function Parts<T>(stored: seq<T>, size: int, plain: int, n: nat): seq<seq<T>> {
    seq(n, k requires 0 <= k < n => Served(stored, Range(size, plain, k)))
  }

  /** And one after another. */
  function FirstChunks<T>(stored: seq<T>, size: int, plain: int, n: nat): seq<T> {
    Concat(Parts(stored, size, plain, n))
  }

  /** The n-th multiple of the chunk size, by addition. */
  function Place(n: nat, enc: nat): nat {
    if n == 0 then 0 else Place(n - 1, enc) + enc
  }

  lemma {:induction false} PlaceIsMultiple(n: nat, enc: nat)
    ensures Place(n, enc) == n * enc
  {
    if n > 0 {
      PlaceIsMultiple(n - 1, enc);
      OneMore(n - 1, enc);
    }
  }

  /** Chunk request index is served the part of the stored object from its place to the next one's. */
  lemma ServedPiece<T>(stored: seq<T>, size: nat, plain: nat, index: nat)
    requires size <= |stored| && size + OVERHEAD + plain < TWO_63 && index < ChunkCount(size, plain)
    ensures var start, next := Place(index, OVERHEAD + plain), Place(index + 1, OVERHEAD + plain);
            start < size && Served(stored, Range(size, plain, index)) == stored[start..Least(next, size)]
  {
    PlaceIsMultiple(index, OVERHEAD + plain);
    var start, length := ServedRange(size, plain, index);
  }

  lemma {:induction false} PartsTile<T>(stored: seq<T>, size: nat, enc: nat, parts: seq<seq<T>>)
    requires size <= |stored|
    requires forall k | 0 <= k < |parts| ::
               Place(k, enc) < size && parts[k] == stored[Place(k, enc)..Least(Place(k + 1, enc), size)]
    ensures Concat(parts) == stored[..Least(Place(|parts|, enc), size)]
    decreases |parts|
  {
    if parts != [] {
      var n := |parts| - 1;
      PartsTile(stored, size, enc, parts[..n]);
      var start, next := Place(n, enc), Least(Place(n + 1, enc), size);
      assert stored[..start] + stored[start..next] == stored[..next];
    }
  }

  /** The chunk count that was recorded is the one the stream needs. */
  ghost predicate Consistent(m: Meta) {
    && m.size >= 0 && m.chunkSize > 0 && m.size + OVERHEAD + m.chunkSize < TWO_63
    && m.chunkCount == ChunkCount(m.size, m.chunkSize)
  }

  /**
   With chunk count ceil(size / encrypted chunk size), the chunks in index order are exactly the first size
   bytes of the stored object: no gap, no overlap, no padding.
  */
  lemma ChunksTile<T>(stored: seq<T>, m: Meta)
    requires Consistent(m) && m.size <= |stored|
    ensures FirstChunks(stored, m.size, m.chunkSize, m.chunkCount) == stored[..m.size]
  {
    WholeStream(stored, m.size, m.chunkSize, m.chunkCount);
  }

  lemma WholeStream<T>(stored: seq<T>, size: nat, plain: nat, count: nat)
    requires size <= |stored| && size + OVERHEAD + plain < TWO_63 && count == ChunkCount(size, plain)
    ensures FirstChunks(stored, size, plain, count) == stored[..size]
  {
    var enc := OVERHEAD + plain;
    var parts := Parts(stored, size, plain, count);
    forall k | 0 <= k < |parts|
      ensures Place(k, enc) < size && parts[k] == stored[Place(k, enc)..Least(Place(k + 1, enc), size)]
    {
      ServedPiece(stored, size, plain, k);
    }
    PartsTile(stored, size, enc, parts);
    LastPlace(size, plain);
  }

  lemma LastPlace(size: nat, plain: nat)
    ensures Place(ChunkCount(size, plain), OVERHEAD + plain) >= size
  {
    PlaceIsMultiple(ChunkCount(size, plain), OVERHEAD + plain);
    CountCovers(size, plain, ChunkCount(size, plain));
  }

  /** The owner and a share recipient both get those chunks, each at its index, and nothing at any other index. */
  lemma BothServeTheChunks(m: Meta, plainDefault: int, index: int)
    requires Consistent(m)
    ensures OwnerRange(m, plainDefault, index).Serve? <==> 0 <= index < m.chunkCount
    ensures ShareRange(m, plainDefault, index).Serve? <==> 0 <= index < m.chunkCount
    ensures 0 <= index < m.chunkCount ==>
              OwnerRange(m, plainDefault, index) == ShareRange(m, plainDefault, index)
              == Range(m.size, m.chunkSize, index)
  {
    if 0 <= index < m.chunkCount {
      var start, length := ServedRange(m.size, m.chunkSize, index);
    } else if index == 0 {
      EmptyStream(m);
    }
  }

  lemma EmptyStream(m: Meta)
    requires Consistent(m) && m.chunkCount == 0
    ensures m.size == 0 && Range(m.size, m.chunkSize, 0) == BadRange
  {
    CountCovers(m.size, m.chunkSize, 0);
    assert 0 * (OVERHEAD + m.chunkSize) == 0;
  }

  // ================================================================ owner and share compared

  /** Whatever either handler serves, the other serves too. */
  ghost predicate Agree(m: Meta, plainDefault: int) {
    forall index :: AgreeAt(m, plainDefault, index)
  }

  predicate AgreeAt(m: Meta, plainDefault: int, index: int) {
    OwnerRange(m, plainDefault, index).Serve? || ShareRange(m, plainDefault, index).Serve? ==>
      OwnerRange(m, plainDefault, index) == ShareRange(m, plainDefault, index)
  }

  /** No chunk's place in the stream overflows an int64, by the chunk size of either handler. */
  ghost predicate PlacesFit(m: Meta, plainDefault: nat) {
    && 0 <= m.size && m.chunkCount < TWO_63
    && -TWO_63 < OVERHEAD + m.chunkSize && OVERHEAD + plainDefault < TWO_63
    && m.chunkCount * (OVERHEAD + plainDefault) < TWO_63
    && m.chunkCount * -(OVERHEAD + m.chunkSize) < TWO_63
  }

  /**
   For a chunk size that is not negative, owner and share agree exactly unless the file has no chunk count
   and the share still finds bytes to serve as its only chunk.
  */
  lemma HandlersAgreeIff(m: Meta, plainDefault: nat)
    requires 0 <= m.chunkSize && m.chunkSize + OVERHEAD < TWO_63 && plainDefault + OVERHEAD < TWO_63
    requires -TWO_63 < m.size
    ensures Agree(m, plainDefault) <==> m.chunkCount != 0 || m.size <= 0
  {
    if m.chunkCount == 0 {
      var plain := if m.chunkSize == 0 then plainDefault else m.chunkSize;
      FirstChunk(m.size, plain);
      assert OwnerRange(m, plainDefault, 0) == BadIndex;
      assert ShareRange(m, plainDefault, 0) == Range(m.size, plain, 0);
      assert AgreeAt(m, plainDefault, 0) <==> m.size <= 0;
      assert forall index | index != 0 :: AgreeAt(m, plainDefault, index);
    } else {
      assert forall index :: OwnerRange(m, plainDefault, index) == ShareRange(m, plainDefault, index);
    }
  }

  /**
   A negative chunk size is replaced by the default for the owner and used as it is for a share. The two
   then agree exactly if there is nothing to serve, or if what there is fits into the share's first chunk.
  */
  lemma NegativeSizeAgreeIff(m: Meta, plainDefault: nat)
    requires m.chunkSize < 0 && PlacesFit(m, plainDefault)
    ensures Agree(m, plainDefault) <==> NothingToServe(m) || (m.chunkCount > 0 && m.size <= OVERHEAD + m.chunkSize)
  {
    FirstAgrees(m, plainDefault);
    if AgreeAt(m, plainDefault, 0) {
      forall index ensures AgreeAt(m, plainDefault, index) {
        LaterAgrees(m, plainDefault, index);
      }
    }
  }

  lemma LaterAgrees(m: Meta, plainDefault: nat, index: int)
    requires m.chunkSize < 0 && PlacesFit(m, plainDefault) && AgreeAt(m, plainDefault, 0)
    requires NothingToServe(m) || (m.chunkCount > 0 && m.size <= OVERHEAD + m.chunkSize)
    ensures AgreeAt(m, plainDefault, index)
  {
    if 0 < index < m.chunkCount {
      BothFit(m.chunkCount, OVERHEAD + m.chunkSize, OVERHEAD + plainDefault);
      NothingLater(m, plainDefault, index);
      NothingLater(m, m.chunkSize, index);
      NothingServed(m, plainDefault, index);
    } else if index != 0 {
      NoSuchChunk(m, plainDefault, index);
    }
  }

  lemma BothFit(count: nat, small: int, large: int)
    requires small <= large && 0 <= large && count * large < TWO_63
    ensures count * small < TWO_63 && count * -large < TWO_63
  {
    assert count * (large - small) >= 0;
    assert count * small == count * large - count * (large - small);
    Negated(count, large);
  }

  lemma NothingServed(m: Meta, plainDefault: nat, index: nat)
    requires m.chunkSize < 0 && index < m.chunkCount
    requires !Range(m.size, plainDefault, index).Serve? && !Range(m.size, m.chunkSize, index).Serve?
    ensures AgreeAt(m, plainDefault, index)
  {
  }

  lemma NoSuchChunk(m: Meta, plainDefault: nat, index: int)
    requires index != 0 && !(0 < index < m.chunkCount)
    ensures AgreeAt(m, plainDefault, index)
  {
  }

  /** No byte, no chunk, or a chunk size that leaves the only chunk no room. */
  predicate NothingToServe(m: Meta) {
    m.size <= 0 || m.chunkCount < 0 || (m.chunkCount == 0 && OVERHEAD + m.chunkSize <= 0)
  }

  lemma FirstAgrees(m: Meta, plainDefault: nat)
    requires m.chunkSize < 0 && PlacesFit(m, plainDefault)
    ensures AgreeAt(m, plainDefault, 0)
       <==> NothingToServe(m) || (m.chunkCount > 0 && m.size <= OVERHEAD + m.chunkSize)
  {
    FirstChunk(m.size, plainDefault);
    FirstChunk(m.size, m.chunkSize);
    assert ShareRange(m, plainDefault, 0) == if m.chunkCount < 0 then BadIndex else Range(m.size, m.chunkSize, 0);
    assert OwnerRange(m, plainDefault, 0) == if m.chunkCount <= 0 then BadIndex else Range(m.size, plainDefault, 0);
  }

  /** What index 0 is served, for any chunk size. */
  lemma FirstChunk(size: int, plain: int)
    requires -TWO_63 < size && -TWO_63 < OVERHEAD + plain && OVERHEAD + plain < TWO_63
    ensures var enc := OVERHEAD + plain;
            Range(size, plain, 0) == if size <= 0 || enc <= 0 then BadRange else Serve(0, Least(enc, size))
  {
  }

  lemma NothingLater(m: Meta, plain: int, index: nat)
    requires 0 < index < m.chunkCount < TWO_63 && 0 <= m.size
    requires -TWO_63 < OVERHEAD + plain < TWO_63
    requires m.chunkCount * (OVERHEAD + plain) < TWO_63 && m.chunkCount * -(OVERHEAD + plain) < TWO_63
    requires m.size <= OVERHEAD + plain || m.size == 0 || OVERHEAD + plain <= 0
    ensures !Range(m.size, plain, index).Serve?
  {
    var enc := OVERHEAD + plain;
    LaterPlace(enc, index, m.chunkCount);
    assert Range(m.size, plain, index) == RangeFrom(m.size, enc, index * enc);
    LaterChunk(m.size, enc, index * enc);
  }

  lemma LaterPlace(enc: int, index: nat, count: nat)
    requires 0 < index < count && count * enc < TWO_63 && count * -enc < TWO_63
    ensures enc > 0 ==> enc <= index * enc && index * enc + enc < TWO_63
    ensures enc <= 0 ==> index * enc <= 0 && -TWO_63 < index * enc + enc
  {
    OneMore(index, enc);
    if enc > 0 {
      MultipleMonotone(index + 1, count, enc);
      MultipleMonotone(1, index, enc);
    } else if enc < 0 {
      MultipleMonotone(index + 1, count, -enc);
      MultipleMonotone(0, index, -enc);
      Negated(index, enc);
      Negated(index + 1, enc);
    }
  }

  lemma Negated(n: int, step: int)
    ensures n * -step == -(n * step)
  {
  }

  /** A later place is served nothing if the first chunk has room for everything, or no room at all. */
  lemma LaterChunk(size: int, enc: int, start: int)
    requires 0 <= size && (size == 0 || size <= enc || enc <= 0)
    requires enc > 0 ==> enc <= start && start + enc < TWO_63
    requires enc <= 0 ==> start <= 0 && -TWO_63 < start + enc
    ensures !RangeFrom(size, enc, start).Serve?
  {
  }

  /** So the handlers differ, for example, on five chunks of recorded size -20. */
  lemma NegativeChunkSizeDiffers()
    ensures OwnerRange(Meta(1000, 5, -20), 100, 1) == Serve(128, 128)
    ensures ShareRange(Meta(1000, 5, -20), 100, 1) == Serve(8, 8)
  {
  }

  /**
   Metadata without chunk columns: no chunk size, or for the owner a negative one, means the configured
   size; no chunk count means one chunk for a share, and none for the owner.
  */
  lemma MissingColumns(m: Meta, plainDefault: int, index: int)
    requires plainDefault > 0
    ensures m.chunkSize <= 0 ==>
              OwnerRange(m, plainDefault, index) == OwnerRange(m.(chunkSize := plainDefault), plainDefault, index)
    ensures m.chunkSize == 0 ==>
              ShareRange(m, plainDefault, index) == ShareRange(m.(chunkSize := plainDefault), plainDefault, index)
    ensures m.chunkCount == 0 ==>
              && OwnerRange(m, plainDefault, index) == BadIndex
              && ShareRange(m, plainDefault, index) == ShareRange(m.(chunkCount := 1), plainDefault, index)
  {
  }

  // ================================================================ the chunk index in the path

  predicate IsDigit(c: char) { '0' <= c <= '9' }

  function DigitValue(c: char): int { c as int - '0' as int }

  function DecimalValue(s: string): int
    requires forall k | 0 <= k < |s| :: IsDigit(s[k])
  {
    if s == "" then 0 else DecimalValue(s[..|s| - 1]) * 10 + DigitValue(s[|s| - 1])
  }

  /** The decimal digits of a number. */
  function FormatDecimal(n: nat): string {
    if n < 10 then [DigitOf(n)] else FormatDecimal(n / 10) + [DigitOf(n % 10)]
  }

  function DigitOf(d: nat): char
    requires d < 10
  {
    ['0', '1', '2', '3', '4', '5', '6', '7', '8', '9'][d]
  }

  function Zeros(n: nat): string {
    if n == 0 then "" else Zeros(n - 1) + ['0']
  }

  /** A written number is read as itself, with or without leading zeros. */
  lemma {:induction false} WrittenIndexRead(n: nat, zeros: nat)
    ensures forall k | 0 <= k < |Zeros(zeros) + FormatDecimal(n)| :: IsDigit((Zeros(zeros) + FormatDecimal(n))[k])
    ensures DecimalValue(Zeros(zeros) + FormatDecimal(n)) == n
    decreases n
  {
    ZerosAreNothing(zeros);
    if n < 10 {
      OneDigitMore(Zeros(zeros), n);
    } else {
      WrittenIndexRead(n / 10, zeros);
      OneDigitMore(Zeros(zeros) + FormatDecimal(n / 10), n % 10);
      assert Zeros(zeros) + FormatDecimal(n) == Zeros(zeros) + FormatDecimal(n / 10) + [DigitOf(n % 10)];
    }
  }

  lemma OneDigitMore(s: string, d: nat)
    requires d < 10 && forall k | 0 <= k < |s| :: IsDigit(s[k])
    ensures forall k | 0 <= k < |s + [DigitOf(d)]| :: IsDigit((s + [DigitOf(d)])[k])
    ensures DecimalValue(s + [DigitOf(d)]) == DecimalValue(s) * 10 + d
  {
    var more := s + [DigitOf(d)];
    assert more[..|more| - 1] == s;
    assert DigitValue(DigitOf(d)) == d;
  }

  lemma {:induction false} ZerosAreNothing(n: nat)
    ensures forall k | 0 <= k < |Zeros(n)| :: IsDigit(Zeros(n)[k])
    ensures DecimalValue(Zeros(n)) == 0
  {
    if n > 0 {
      ZerosAreNothing(n - 1);
      OneDigitMore(Zeros(n - 1), 0);
    }
  }

  lemma WrapStep(n: int, d: int)
    ensures WrapInt64(WrapInt64(n) * 10 + d) == WrapInt64(n * 10 + d)
  {
    var k := (n + TWO_63) / TWO_64;
    assert WrapInt64(n) == n - k * TWO_64;
    SameWrap(n * 10 + d, WrapInt64(n) * 10 + d, 10 * k);
  }

  lemma SameWrap(x: int, y: int, k: int)
    requires x == y + k * TWO_64
    ensures WrapInt64(x) == WrapInt64(y)
  {
    var q := (y + TWO_63) / TWO_64;
    assert x + TWO_63 == (q + k) * TWO_64 + (y + TWO_63) % TWO_64;
    RemainderUnique(x + TWO_63, q + k, (y + TWO_63) % TWO_64, TWO_64);
  }

  /** Digits only, accumulated in an int64 that may wrap. */
  method ParseChunkIndex(s: string) returns (n: Option<int>)
    ensures n.Some? <==> forall k | 0 <= k < |s| :: IsDigit(s[k])
    ensures n.Some? ==> n.value == WrapInt64(DecimalValue(s))
  {
    var acc := 0;
    for i := 0 to |s|
      invariant forall k | 0 <= k < i :: IsDigit(s[k])
      invariant acc == WrapInt64(DecimalValue(s[..i]))
    {
      if s[i] < '0' || s[i] > '9' { return None; }
      assert s[..i + 1][..i] == s[..i];
      WrapStep(DecimalValue(s[..i]), DigitValue(s[i]));
      acc := WrapInt64(acc * 10 + DigitValue(s[i]));
    }
    assert s[..|s|] == s;
    return Some(acc);
  }

  /** The parsed index is the written number exactly below 2^63. */
  lemma ParseExactIff(s: string)
    requires forall k | 0 <= k < |s| :: IsDigit(s[k])
    ensures WrapInt64(DecimalValue(s)) == DecimalValue(s) <==> DecimalValue(s) < TWO_63
  {
    DecimalNonnegative(s);
  }

  lemma {:induction false} DecimalNonnegative(s: string)
    requires forall k | 0 <= k < |s| :: IsDigit(s[k])
    ensures DecimalValue(s) >= 0
  {
    if s != "" {
      DecimalNonnegative(s[..|s| - 1]);
    }
  }

  /** Every chunk has infinitely many other names: its index plus any multiple of 2^64. */
  lemma IndexAliases(index: int, k: nat)
    requires -TWO_63 <= index < TWO_63
    ensures WrapInt64(index + k * TWO_64) == index
  {
    SameWrap(index + k * TWO_64, index, k);
  }
}
