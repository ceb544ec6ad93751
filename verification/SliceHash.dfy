/**
 Cutting an upload into slices of a fixed size and digesting each: once by a writer that is fed
 arbitrary pieces, once by a reader that takes a slice at a time. `digest` and `upper` stand for the
 hash and for upper-casing its hexadecimal form.
 */
module SliceHash {

  type Bytes = seq<bv8>

  /** The unspecified functions the two programs share. */
  datatype Digests = Digests(digest: Bytes -> string, joined: seq<string> -> string, upper: string -> string)

  /** The slice size of 10 MiB used for uploads and as the default for torrents. */
  const DEFAULT := 10485760

  // ---------------------------------------------------------------- the specification

  /** Consecutive slices of `size` bytes; the last one may be shorter. */
  ghost function Slices(data: Bytes, size: nat): seq<Bytes>
    requires size > 0
    decreases |data|
  {
    if data == [] then []
    else if |data| <= size then [data]
    else [data[..size]] + Slices(data[size..], size)
  }

  ghost function Mapped(d: Digests, slices: seq<Bytes>): seq<string> {
    seq(|slices|, i requires 0 <= i < |slices| => d.upper(d.digest(slices[i])))
  }

  /** Slice `i` is the bytes from `i * size` on, and there are as many slices as it takes. */
  lemma {:induction false} SliceAt(data: Bytes, size: nat, i: nat)
    requires size > 0 && i < |Slices(data, size)|
    ensures i * size < |data|
    ensures Slices(data, size)[i] == data[i * size..if (i + 1) * size <= |data| then (i + 1) * size else |data|]
    decreases |data|
  {
    if i > 0 {
      var rest := data[size..];
      SliceAt(rest, size, i - 1);
      Products(i, size);
      SlicesTail(data, size);
      SliceOfRest(data, size, i * size, if (i + 1) * size <= |data| then (i + 1) * size else |data|);
    }
  }

  lemma Products(i: nat, size: nat)
    requires i > 0
    ensures (i - 1) * size + size == i * size && i * size + size == (i + 1) * size
  {
  }

  lemma {:induction false} SlicesTail(data: Bytes, size: nat)
    requires size > 0 && |data| > size
    ensures Slices(data, size) == [data[..size]] + Slices(data[size..], size)
  {
  }

  lemma SliceOfRest(data: Bytes, size: nat, lo: nat, hi: nat)
    requires size <= lo <= hi <= |data|
    ensures data[size..][lo - size..hi - size] == data[lo..hi]
  {
  }

  /** The bytes that fill whole slices. */
  function Whole(n: nat, size: nat): nat
    requires size > 0
  {
    n - n % size
  }

  /** Nothing fills no slice. */
  lemma NothingWhole(size: nat)
    requires size > 0
    ensures Whole(0, size) == 0
  {
  }

  lemma {:induction false} AppendSlice(a: Bytes, b: Bytes, size: nat)
    requires size > 0 && |a| % size == 0 && 0 < |b| <= size
    ensures Slices(a + b, size) == Slices(a, size) + [b]
    decreases |a|
  {
    if a == [] {
      assert a + b == b;
    } else {
      ModDown(|a|, size);
      AppendSlice(a[size..], b, size);
      assert (a + b)[..size] == a[..size] && (a + b)[size..] == a[size..] + b;
      assert |a| == size ==> Slices(a, size) == [a[..size]] + Slices(a[size..], size);
    }
  }

  lemma ModDown(n: nat, size: nat)
    requires size > 0 && n > 0 && n % size == 0
    ensures n >= size && (n - size) % size == 0
  {
    var q := n / size;
    assert n == q * size;
    assert n - size == (q - 1) * size;
    MultipleMod(q - 1, size);
  }

  lemma MultipleMod(q: nat, size: nat)
    requires size > 0
    ensures (q * size) % size == 0
  {
    ModAdd(0, q, size);
  }

  lemma ModAdd(r: nat, q: nat, size: nat)
    requires size > 0 && r < size
    ensures (q * size + r) % size == r
  {
    var x := q * size + r;
    var k := x / size - q;
    assert k * size == r - x % size;
    SmallMultiple(k, size);
  }

  lemma SmallMultiple(k: int, size: int)
    requires -size < k * size < size
    ensures k == 0
  {
  }

  /** Writing `n` more bytes, not past the end of the slice in progress. */
  lemma ModAdvance(total: nat, n: nat, size: nat)
    requires size > 0 && n <= size - total % size
    ensures (total + n) % size == if n == size - total % size then 0 else total % size + n
  {
    var q, r := total / size, total % size;
    assert total == q * size + r;
    if n == size - r {
      assert total + n == (q + 1) * size;
      MultipleMod(q + 1, size);
    } else {
      ModAdd(r + n, q, size);
    }
  }

  // ---------------------------------------------------------------- the streaming writer

  /** `sliceHashWriter`: the running hash is the bytes it has been fed since its last reset. */
  class SliceHashWriter {
    const d: Digests
    const sliceSize: nat
    var hash: Bytes
    var md5s: seq<string>
    var finish: nat
    ghost var data: Bytes

    ghost predicate Valid()
      reads this
    {
      && sliceSize > 0 && finish == |data|
      && hash == data[Whole(|data|, sliceSize)..]
      && md5s == Mapped(d, Slices(data[..Whole(|data|, sliceSize)], sliceSize))
    }

    constructor (d: Digests, sliceSize: nat)
      requires sliceSize > 0
      ensures Valid() && data == [] && this.d == d && this.sliceSize == sliceSize
    {
      this.d, this.sliceSize := d, sliceSize;
      hash, md5s, finish, data := [], [], 0, [];
      NothingWhole(sliceSize);
    }

    /** Feeds bytes that fit in the slice in progress, and closes the slice when it is full. */
    method Feed(piece: Bytes)
      requires Valid() && 0 < |piece| <= sliceSize - finish % sliceSize
      modifies this
      ensures Valid() && data == old(data) + piece
    {
      ghost var whole := data[..Whole(|data|, sliceSize)];
      assert data == whole + hash;
      ModAdvance(finish, |piece|, sliceSize);
      hash := hash + piece;
      finish := finish + |piece|;
      data := data + piece;
      assert data == whole + hash;
      if finish % sliceSize == 0 {
        WholeIsMultiple(|whole| + |old(hash)|, sliceSize);
        AppendSlice(whole, hash, sliceSize);
        assert data[..|data|] == data;
        md5s := md5s + [d.upper(d.digest(hash))];
        hash := [];
      }
    }

    /** A cancelled upload writes nothing; otherwise every byte is taken. */
    method Write(p: Bytes, cancelled: bool) returns (n: nat, ok: bool)
      requires Valid()
      modifies this
      ensures Valid() && ok == !cancelled && n == (if ok then |p| else 0)
      ensures data == old(data) + p[..n]
    {
      if cancelled {
        return 0, false;
      }
      var written := 0;
      while written < |p|
        invariant 0 <= written <= |p| && Valid()
        invariant data == old(data) + p[..written]
      {
        var sliceRemain := sliceSize - finish % sliceSize;
        var toWrite := |p| - written;
        if toWrite > sliceRemain {
          toWrite := sliceRemain;
        }
        assert p[..written + toWrite] == p[..written] + p[written..written + toWrite];
        Feed(p[written..written + toWrite]);
        written := written + toWrite;
      }
      assert p[..written] == p;
      return |p|, true;
    }

    /** The last slice, which is also the only one of an empty file. */
    method Last() returns (all: seq<string>)
      requires Valid()
      ensures all == Streamed(d, data, sliceSize)
    {
      all := md5s;
      if finish % sliceSize != 0 || finish == 0 {
        all := all + [d.upper(d.digest(hash))];
        if data != [] {
          WholeIsMultiple(finish, sliceSize);
          assert data == data[..Whole(finish, sliceSize)] + hash;
          AppendSlice(data[..Whole(finish, sliceSize)], hash, sliceSize);
        }
      } else {
        assert data[..Whole(finish, sliceSize)] == data;
      }
    }
  }

  lemma WholeIsMultiple(n: nat, size: nat)
    requires size > 0
    ensures Whole(n, size) % size == 0
  {
    assert Whole(n, size) == n / size * size;
    MultipleMod(n / size, size);
  }

  // ---------------------------------------------------------------- the block reader

  /**
   `ComputeSliceMD5sFromReader`: one full read a slice. `broken` makes the reader fail where its data
   ends, in which case nothing is returned.
   */
  method ComputeSliceDigests(d: Digests, data: Bytes, broken: bool, sliceSize: int)
    returns (ok: bool, whole: string, slices: seq<string>)
    ensures ok == !broken
    ensures var size := if sliceSize <= 0 then 10485760 else sliceSize;
      ok ==> whole == d.upper(d.digest(data)) && slices == Mapped(d, Slices(data, size))
  {
    var size := if sliceSize <= 0 then DEFAULT else sliceSize;
    var fileHash: Bytes := [];
    slices := [];
    var at := 0;
    while true
      invariant 0 <= at <= |data| && fileHash == data[..at] && at % size == 0
      invariant slices == Mapped(d, Slices(data[..at], size))
      decreases |data| - at
    {
      var n := if |data| - at < size then |data| - at else size;
      var chunk := data[at..at + n];
      if n > 0 {
        AppendSlice(data[..at], chunk, size);
        assert data[..at] + chunk == data[..at + n];
        fileHash := fileHash + chunk;
        slices := slices + [d.upper(d.digest(chunk))];
      }
      if n < size {
        if broken {
          return false, "", [];
        }
        assert data[..at + n] == data;
        return true, d.upper(d.digest(fileHash)), slices;
      }
      ModAdvance(at, n, size);
      at := at + n;
    }
  }

  /** What the streaming writer reports: the slices of the data, or one empty slice. */
  ghost function Streamed(d: Digests, data: Bytes, size: nat): seq<string>
    requires size > 0
  {
    if data == [] then [d.upper(d.digest([]))] else Mapped(d, Slices(data, size))
  }

  /** Both forms on the same data, cut into writes in any way. They agree on every input but the empty one. */
  method BothDigests(d: Digests, pieces: seq<Bytes>, sliceSize: nat)
    returns (streamed: seq<string>, blockwise: seq<string>)
    requires sliceSize > 0
    ensures streamed == Streamed(d, Concat(pieces), sliceSize)
    ensures blockwise == Mapped(d, Slices(Concat(pieces), sliceSize))
    ensures |blockwise| == |Slices(Concat(pieces), sliceSize)|
    ensures forall i :: 0 <= i < |blockwise| ==> blockwise[i] == d.upper(d.digest(Slices(Concat(pieces), sliceSize)[i]))
    ensures streamed == if Concat(pieces) == [] then [d.upper(d.digest([]))] else blockwise
  {
    var w := new SliceHashWriter(d, sliceSize);
    for i := 0 to |pieces|
      invariant w.Valid() && fresh(w) && w.data == Concat(pieces[..i])
    {
      var n, ok := w.Write(pieces[i], false);
      assert pieces[..i + 1][..i] == pieces[..i];
      assert pieces[i][..n] == pieces[i];
    }
    assert pieces[..|pieces|] == pieces;
    streamed := w.Last();
    var ok, whole;
    ok, whole, blockwise := ComputeSliceDigests(d, Concat(pieces), false, sliceSize);
  }

  function Concat(pieces: seq<Bytes>): Bytes {
    if pieces == [] then [] else Concat(pieces[..|pieces| - 1]) + pieces[|pieces| - 1]
  }

  // ---------------------------------------------------------------- the upload

  /** The parts that are sent are the slices that were digested. */
  method UploadParts(data: Bytes, size: nat) returns (parts: seq<Bytes>)
    requires size > 0
    ensures parts == Slices(data, size)
  {
    var count := (|data| + size - 1) / size;
    parts := [];
    var finish := 0;
    for i := 0 to count
      invariant finish == Start(i, size, |data|)
      invariant parts + Slices(data[finish..], size) == Slices(data, size)
    {
      StartStep(i, count, size, |data|);
      var byteSize := |data| - finish;
      if size < byteSize {
        byteSize := size;
      }
      SliceOff(data, finish, byteSize, size);
      parts := parts + [data[finish..finish + byteSize]];
      finish := finish + byteSize;
    }
    StartEnd(count, size, |data|);
    assert data[finish..] == [];
  }

  /** Where part `i` starts. */
  function Start(i: nat, size: nat, total: nat): nat {
    if i * size <= total then i * size else total
  }

  lemma StartStep(i: nat, count: nat, size: nat, total: nat)
    requires size > 0 && count == (total + size - 1) / size && i < count
    ensures Start(i, size, total) < total
    ensures Start(i + 1, size, total) ==
      if Start(i, size, total) + size <= total then Start(i, size, total) + size else total
  {
    assert (i + 1) * size == i * size + size;
    assert (i + 1) * size <= count * size;
  }

  lemma StartEnd(count: nat, size: nat, total: nat)
    requires size > 0 && count == (total + size - 1) / size
    ensures Start(count, size, total) == total
  {
    assert count * size + (total + size - 1) % size == total + size - 1;
  }

  lemma {:induction false} SliceOff(data: Bytes, at: nat, n: nat, size: nat)
    requires size > 0 && at < |data| && n == if at + size <= |data| then size else |data| - at
    ensures Slices(data[at..], size) == [data[at..at + n]] + Slices(data[at + n..], size)
  {
    assert data[at..][..n] == data[at..at + n];
    assert data[at..][n..] == data[at + n..];
    if at + n == |data| {
      assert data[at..at + n] == data[at..] && data[at + n..] == [];
    }
  }

  /** What the upload declares as its slice digest. */
  function DeclaredSliceDigest(d: Digests, fileSize: nat, fileDigest: string, md5s: seq<string>): string {
    if fileSize > DEFAULT && |md5s| > 0 then d.joined(md5s) else fileDigest
  }

  /** What the torrent made from the same upload records. */
  function TorrentSliceDigest(d: Digests, fileDigestUpper: string, md5s: seq<string>): string {
    if |md5s| > 1 then d.upper(d.upper(d.joined(md5s))) else fileDigestUpper
  }

  lemma {:induction false} MoreThanOneSlice(data: Bytes, size: nat)
    requires size > 0
    ensures |Slices(data, size)| > 1 <==> |data| > size
    ensures data != [] ==> |Slices(data, size)| > 0
  {
    if |data| > size {
      assert Slices(data, size) == [data[..size]] + Slices(data[size..], size);
      assert |Slices(data[size..], size)| > 0;
    }
  }

  /** Upload and torrent declare the same digest, up to letter case. */
  lemma TorrentMatchesUpload(d: Digests, data: Bytes, md5s: seq<string>)
    requires forall s :: d.upper(d.upper(s)) == d.upper(s)
    requires md5s == [] || md5s == Streamed(d, data, DEFAULT)
    ensures TorrentSliceDigest(d, d.upper(d.digest(data)), md5s) ==
      d.upper(DeclaredSliceDigest(d, |data|, d.digest(data), md5s))
    ensures DeclaredSliceDigest(d, |data|, d.digest(data), md5s) ==
      if |data| > 10485760 && md5s != [] then d.joined(md5s) else d.digest(data)
  {
    MoreThanOneSlice(data, DEFAULT);
  }
}
