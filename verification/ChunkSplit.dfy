/** Cutting a file into the numbered parts of a multipart upload. */
module ChunkSplit {
  import opened Wrappers

  const GB := 0x4000_0000
  const MAX_PARTS := 10000
  const MIN_PART := 102400

  datatype Chunk = Chunk(number: int, offset: int, size: int)

  /** `Panic` is the index into an empty list that a size covered by no tier runs into. */
  datatype Split = Parts(chunks: seq<Chunk>) | Invalid | TooMany | Panic

  /** Parts 1 to n, in order, covering the first `total` bytes without gap or overlap. */
  ghost predicate Tiles(chunks: seq<Chunk>, total: int) {
    && (forall i :: 0 <= i < |chunks| ==> chunks[i].number == i + 1 && chunks[i].size > 0)
    && (forall i :: 0 <= i < |chunks| ==>
          chunks[i].offset == if i == 0 then 0 else chunks[i - 1].offset + chunks[i - 1].size)
    && total == if chunks == [] then 0 else chunks[|chunks| - 1].offset + chunks[|chunks| - 1].size
  }

  /** Every part but the last is large enough for the storage service. */
  ghost predicate LargeEnough(chunks: seq<Chunk>) {
    forall i :: 0 <= i < |chunks| - 1 ==> chunks[i].size >= 102400
  }

  lemma TilesAppend(chunks: seq<Chunk>, total: int, size: int)
    requires Tiles(chunks, total) && size > 0
    ensures Tiles(chunks + [Chunk(|chunks| + 1, total, size)], total + size)
  {
  }

  method SplitFileByPartNum(fileSize: int, chunkNum: int) returns (r: Split)
    ensures r == Invalid <==> chunkNum <= 0 || chunkNum > 10000 || chunkNum > fileSize
    ensures r != Invalid ==>
      && r.Parts? && |r.chunks| == chunkNum && Tiles(r.chunks, fileSize)
      && forall i :: 0 <= i < chunkNum - 1 ==> r.chunks[i].size == r.chunks[0].size == fileSize / chunkNum
  {
    if chunkNum <= 0 || chunkNum > MAX_PARTS {
      return Invalid;
    }
    if chunkNum > fileSize {
      return Invalid;
    }
    var chunks: seq<Chunk> := [];
    var size := fileSize / chunkNum;
    AtLeastOne(fileSize, chunkNum);
    for i := 0 to chunkNum
      invariant |chunks| == i
      invariant i < chunkNum ==> Tiles(chunks, i * size)
      invariant i == chunkNum ==> Tiles(chunks, fileSize)
      invariant forall j :: 0 <= j < i && j < chunkNum - 1 ==> chunks[j].size == size
    {
      NextMultiple(i, size);
      if i == chunkNum - 1 {
        TilesAppend(chunks, i * size, size + fileSize % chunkNum);
        chunks := chunks + [Chunk(i + 1, i * size, size + fileSize % chunkNum)];
      } else {
        TilesAppend(chunks, i * size, size);
        chunks := chunks + [Chunk(i + 1, i * size, size)];
      }
    }
    r := Parts(chunks);
  }

  lemma AtLeastOne(total: int, parts: int)
    requires 0 < parts <= total
    ensures total / parts >= 1 && parts * (total / parts) + total % parts == total
  {
  }

  /** Go's integer division rounds towards zero. */
  function Quotient(a: int, b: int): int
    requires b > 0
  {
    if a >= 0 then a / b else -((-a) / b)
  }

  /** How many parts of one size cover a file: the last one may be smaller. */
  function CountOf(fileSize: nat, size: int): nat
    requires size > 0
  {
    fileSize / size + (if fileSize % size == 0 then 0 else 1)
  }

  method SplitFileByPartSize(fileSize: int, chunkSize: int) returns (r: Split)
    ensures r == Invalid <==> chunkSize <= 0
    ensures r == TooMany <==> chunkSize > 0 && fileSize / chunkSize >= 10000
    ensures r != Invalid && r != TooMany ==>
      && r.Parts? && |r.chunks| <= 10000 && Tiles(r.chunks, if fileSize >= 0 then fileSize else 0)
      && (forall i :: 0 <= i < |r.chunks| - 1 ==> r.chunks[i].size == chunkSize)
      && |r.chunks| == if fileSize < 0 then 0 else CountOf(fileSize, chunkSize)
  {
    if chunkSize <= 0 {
      return Invalid;
    }
    var chunkN := Quotient(fileSize, chunkSize);
    RoundsTowardsZero(fileSize, chunkSize);
    if chunkN >= MAX_PARTS {
      return TooMany;
    }
    if fileSize < 0 {
      return Parts([]);
    }
    var chunks: seq<Chunk> := [];
    ghost var at := 0;
    for i := 0 to chunkN
      invariant |chunks| == i && at == i * chunkSize && Tiles(chunks, at)
      invariant forall j :: 0 <= j < i ==> chunks[j].size == chunkSize
    {
      TilesAppend(chunks, at, chunkSize);
      chunks := chunks + [Chunk(i + 1, i * chunkSize, chunkSize)];
      NextMultiple(i, chunkSize);
      at := at + chunkSize;
    }
    var left := fileSize % chunkSize;
    if left > 0 {
      TilesAppend(chunks, at, left);
      chunks := chunks + [Chunk(|chunks| + 1, |chunks| * chunkSize, left)];
    }
    r := Parts(chunks);
  }

  lemma NextMultiple(i: int, size: int)
    ensures (i + 1) * size == i * size + size
  {
  }

  lemma RoundsTowardsZero(total: int, size: int)
    requires size > 0
    ensures total < 0 ==> Quotient(total, size) <= 0 && total / size < 0
    ensures total >= 0 ==> Quotient(total, size) == total / size >= 0
    ensures total >= 0 ==> (total / size) * size + total % size == total
  {
    if total >= 0 {
      AtMost(total, size);
    } else {
      AtMost(-total, size);
      Negative(total, size);
    }
  }

  lemma Negative(total: int, size: int)
    requires size > 0 && total < 0
    ensures total / size < 0
  {
    var q := total / size;
    assert total == q * size + total % size;
    if q >= 0 {
      Scale(0, q, size);
      assert false;
    }
  }

  lemma AtMost(total: int, size: int)
    requires size > 0 && total >= 0
    ensures total / size >= 0 && (total / size) * size + total % size == total
  {
  }

  /** When the first part comes out small, parts of the smallest size are few enough. */
  lemma FallbackFits(total: int, parts: int)
    requires 0 < parts <= MAX_PARTS && total >= 0 && total / parts < MIN_PART
    ensures total / MIN_PART < MAX_PARTS
  {
    AtMost(total, parts);
    var q, rem := total / parts, total % parts;
    Scale(q, MIN_PART - 1, parts);
    BelowLimit(total, parts, q * parts, rem);
  }

  lemma Scale(a: int, b: int, c: int)
    requires a <= b && c >= 0
    ensures a * c <= b * c
  {
  }

  lemma BelowLimit(total: int, parts: int, whole: int, rem: int)
    requires total == whole + rem && whole <= (MIN_PART - 1) * parts && rem < parts <= MAX_PARTS
    ensures total / MIN_PART < MAX_PARTS
  {
  }

  /** The first whole number of gigabytes above the size. */
  function Tier(fileSize: int): (i: int)
    ensures (i - 1) * 0x4000_0000 <= fileSize < i * 0x4000_0000
  {
    fileSize / 0x4000_0000 + 1
  }

  /** `count` equal parts, unless these would be below 100 KB: then parts of 100 KB, however many it takes. */
  ghost predicate ByTier(chunks: seq<Chunk>, fileSize: int, count: int) {
    && fileSize >= 0 && count > 0
    && if fileSize / count >= 102400 then
         |chunks| == count && forall i :: 0 <= i < count - 1 ==> chunks[i].size == fileSize / count
       else
         |chunks| == CountOf(fileSize, 102400) && forall i :: 0 <= i < |chunks| - 1 ==> chunks[i].size == 102400
  }

  /**
   The tiers. The fallback to fixed-size parts is never refused, and the one size that no tier covers
   makes the function index an empty list.
   */
  method SplitFile(fileSize: int) returns (r: Split)
    ensures r == Panic <==> fileSize == 9 * 0x4000_0000
    ensures r == Invalid <==> fileSize < 1000
    ensures r != TooMany
    ensures r.Parts? ==> Tiles(r.chunks, fileSize) && 0 < |r.chunks| <= 10000 && LargeEnough(r.chunks)
    ensures r.Parts? ==> ByTier(r.chunks, fileSize, if fileSize > 9 * 0x4000_0000 then 10000 else Tier(fileSize) * 1000)
  {
    var chunks: Option<seq<Chunk>> := None;
    ghost var count := 10000;
    var i := 1;
    while i < 10
      invariant 1 <= i <= 10 && chunks.None? && count == 10000
      invariant i > 1 ==> fileSize >= (i - 1) * GB
      decreases 10 - i
    {
      if fileSize < i * GB {
        var split := SplitFileByPartNum(fileSize, i * 1000);
        if !split.Parts? {
          return Invalid;
        }
        chunks, count := Some(split.chunks), i * 1000;
        assert Tier(fileSize) == i;
        break;
      }
      i := i + 1;
    }
    if fileSize > 9 * GB {
      var split := SplitFileByPartNum(fileSize, MAX_PARTS);
      if !split.Parts? {
        return Invalid;
      }
      chunks := Some(split.chunks);
    }
    if chunks.None? {
      return Panic;
    }
    if chunks.value[0].size < MIN_PART {
      FallbackFits(fileSize, |chunks.value|);
      r := SplitFileByPartSize(fileSize, MIN_PART);
    } else {
      r := Parts(chunks.value);
    }
  }
}
