/**
 How an upload through the alias driver chooses one backend out of several. Weights are unsigned
 64-bit numbers and their sum wraps around, which decides whether the draw is fair.
 */
module AliasQuota {
  import opened Wrappers
  import P = AliasPolicy

  const U64 := 0x1_0000_0000_0000_0000

  /** A Go `uint64`. */
  type Word = w: int | 0 <= w < U64

  function Word64(x: int): Word {
    x % U64
  }

  // ---------------------------------------------------------------- weighted choice

  /** The true sum of the first `n` weights. */
  ghost function Sum(w: seq<Word>, n: nat): nat
    requires n <= |w|
  {
    if n == 0 then 0 else Sum(w, n - 1) + w[n - 1]
  }

  lemma {:induction false} SumGrows(w: seq<Word>, i: nat, j: nat)
    requires i <= j <= |w|
    ensures Sum(w, i) <= Sum(w, j)
  {
    if i < j {
      SumGrows(w, i, j - 1);
    }
  }

  /** The residues that lead to index `i`. */
  ghost predicate Picks(w: seq<Word>, i: nat, residue: int)
    requires i < |w|
  {
    Sum(w, i) <= residue < Sum(w, i + 1)
  }

  lemma PickIsUnique(w: seq<Word>, i: nat, j: nat, residue: int)
    requires i < |w| && j < |w| && Picks(w, i, residue) && Picks(w, j, residue)
    ensures i == j && w[i] > 0
  {
    if i < j {
      SumGrows(w, i + 1, j);
    } else if j < i {
      SumGrows(w, j + 1, i);
    }
  }

  /**
   The draw is reduced modulo the wrapped total and walked down the weights. The return after the walk
   is never reached, whether or not the total wrapped.
   */
  method SelectRandom(w: seq<Word>, draw: Word) returns (i: nat, ok: bool)
    ensures ok <==> Word64(Sum(w, |w|)) != 0
    ensures ok ==> i < |w| && Picks(w, i, draw % Word64(Sum(w, |w|))) && w[i] > 0
  {
    var total: Word := 0;
    for k := 0 to |w|
      invariant total == Word64(Sum(w, k))
    {
      total := Word64(total + w[k]);
      WrapStep(Sum(w, k), w[k]);
    }
    if total == 0 {
      return 0, false;
    }
    var r: Word := draw % total;
    WrapBound(Sum(w, |w|));
    i := 0;
    while i < |w|
      invariant i <= |w| && Sum(w, i) + r == draw % total
      decreases |w| - i
    {
      if r < w[i] {
        return i, true;
      }
      r := r - w[i];
      i := i + 1;
    }
    assert false;
  }

  lemma WrapStep(sum: nat, more: nat)
    ensures Word64(Word64(sum) + more) == Word64(sum + more)
  {
    var q := sum / U64;
    assert sum + more == (Word64(sum) + more) + q * U64;
    ModAddMultiple(Word64(sum) + more, q);
  }

  lemma {:induction false} ModAddMultiple(x: nat, q: nat)
    ensures (x + q * U64) % U64 == x % U64
    decreases q
  {
    if q > 0 {
      ModAddMultiple(x, q - 1);
      assert x + q * U64 == (x + (q - 1) * U64) + U64;
    }
  }

  lemma WrapBound(sum: nat)
    ensures Word64(sum) <= sum
  {
  }

  // ---------------------------------------------------------------- fairness

  /** The residues below `total` that choose index `i`. */
  ghost function Residues(w: seq<Word>, i: nat, total: nat): set<int>
    requires i < |w|
  {
    set r | 0 <= r < total && Picks(w, i, r)
  }

  ghost function Interval(lo: int, hi: int): (s: set<int>)
    requires lo <= hi
    ensures |s| == hi - lo && forall r :: r in s <==> lo <= r < hi
    decreases hi - lo
  {
    if lo == hi then {} else Interval(lo, hi - 1) + {hi - 1}
  }

  lemma ResidueCount(w: seq<Word>, i: nat, total: nat)
    requires i < |w|
    ensures |Residues(w, i, total)| ==
      if Sum(w, i + 1) <= total then w[i] else if Sum(w, i) <= total then total - Sum(w, i) else 0
  {
    var lo := Sum(w, i);
    var hi := if Sum(w, i + 1) <= total then Sum(w, i + 1) else if lo <= total then total else lo;
    assert Residues(w, i, total) == Interval(lo, hi);
  }

  /** Every index is drawn in exact proportion to its weight if and only if the sum does not wrap. */
  lemma {:induction false} FairExactlyWithoutOverflow(w: seq<Word>)
    ensures (forall i :: 0 <= i < |w| ==> |Residues(w, i, Word64(Sum(w, |w|)))| == w[i]) <==> Sum(w, |w|) < U64
  {
    var sum := Sum(w, |w|);
    var total := Word64(sum);
    if sum < U64 {
      forall i | 0 <= i < |w| ensures |Residues(w, i, total)| == w[i] {
        SumGrows(w, i + 1, |w|);
        ResidueCount(w, i, total);
      }
    } else {
      var i := Straddles(w, |w|, total);
      ResidueCount(w, i, total);
    }
  }

  lemma {:induction false} Straddles(w: seq<Word>, n: nat, total: nat) returns (i: nat)
    requires n <= |w| && total < Sum(w, n)
    ensures i < |w| && Picks(w, i, total)
  {
    if Sum(w, n - 1) <= total {
      i := n - 1;
    } else {
      i := Straddles(w, n - 1, total);
    }
  }

  // ---------------------------------------------------------------- quota

  /** Free space of a backend as the storage reports it, or nothing when it reports none in time. */
  type Free = Option<int>

  function Weight(d: Free, size: int): Word {
    if d.None? || d.value < size then 0 else Word64(d.value)
  }

  function Weights(details: seq<Free>, size: int): seq<Word> {
    seq(|details|, i requires 0 <= i < |details| => Weight(details[i], size))
  }

  /** Backends that report enough room; a full backend never qualifies. */
  ghost predicate HasRoom(d: Free, size: int) {
    d.Some? && d.value >= size && Word64(d.value) != 0
  }

  /** What the draw may return: an index by weight; without one, nothing, or a back end that reports nothing. */
  ghost predicate Drawn(details: seq<Free>, strict: bool, size: int, draw: Word, r: Option<nat>) {
    var w := Weights(details, size);
    var total := Word64(Sum(w, |w|));
    if total != 0 then
      r.Some? && r.value < |details| && HasRoom(details[r.value], size) && Picks(w, r.value, draw % total)
    else if strict || forall i :: 0 <= i < |details| ==> details[i].Some? then r.None?
    else r.Some? && r.value < |details| && details[r.value].None?
  }

  method PickByQuota(details: seq<Free>, strict: bool, size: int, draw: Word) returns (r: Option<nat>)
    ensures Drawn(details, strict, size, draw, r)
  {
    var selected, ok := SelectRandom(Weights(details, size), draw);
    if ok {
      return Some(selected);
    }
    if strict {
      return None;
    }
    var noDetails: seq<nat> := [];
    for i := 0 to |details|
      invariant forall k :: 0 <= k < |noDetails| ==> noDetails[k] < |details| && details[noDetails[k]].None?
      invariant noDetails == [] ==> forall k :: 0 <= k < i ==> details[k].Some?
    {
      if details[i].None? {
        noDetails := noDetails + [i];
      }
    }
    if noDetails == [] {
      return None;
    }
    var k :| 0 <= k < |noDetails|;
    r := Some(noDetails[k]);
  }

  /**
   Without overflow the weighted draw fails exactly when no backend reports room, so a strict upload is
   refused exactly then.
   */
  lemma {:induction false} NoWeightMeansNoRoom(details: seq<Free>, size: int, n: nat)
    requires n <= |details|
    ensures Sum(Weights(details, size), n) == 0 <==> forall i :: 0 <= i < n ==> !HasRoom(details[i], size)
    decreases n
  {
    if n > 0 {
      NoWeightMeansNoRoom(details, size, n - 1);
    }
  }

  ghost predicate NoRoom(details: seq<Free>, size: int) {
    forall i :: 0 <= i < |details| ==> !HasRoom(details[i], size)
  }

  ghost predicate AllReport(details: seq<Free>) {
    forall i :: 0 <= i < |details| ==> details[i].Some?
  }

  /** Refused when nobody has room, and in lax mode everybody reports; and only then. */
  ghost predicate RefusedRightly(details: seq<Free>, strict: bool, size: int, refused: bool) {
    refused <==> NoRoom(details, size) && (strict || AllReport(details))
  }

  /** The weights are not all zero, but their sum wraps to zero. */
  ghost predicate Wraps(details: seq<Free>, size: int) {
    var w := Weights(details, size);
    Sum(w, |w|) != 0 && Word64(Sum(w, |w|)) == 0
  }

  /**
   A strict draw is refused for want of room, and only then, exactly unless the weights wrap to zero. A lax
   one is refused when there is no room and nothing else to turn to, and only then, exactly unless they do so
   while every back end reports.
   */
  lemma RefusalsAreRight(details: seq<Free>, strict: bool, size: int, draw: Word, r: Option<nat>)
    requires Drawn(details, strict, size, draw, r)
    ensures RefusedRightly(details, strict, size, r.None?) <==>
      !Wraps(details, size) || (!strict && !AllReport(details))
  {
    NoWeightMeansNoRoom(details, size, |details|);
  }

  /** A total that wraps to zero refuses an upload although every backend has room. */
  lemma OverflowRefuses() returns (details: seq<Free>)
    ensures |details| == 3 && forall i :: 0 <= i < |details| ==> HasRoom(details[i], 1)
    ensures Sum(Weights(details, 1), |details|) == U64
    ensures forall draw: Word :: Drawn(details, true, 1, draw, None)
  {
    details := [Some(0x7fff_ffff_ffff_ffff), Some(0x7fff_ffff_ffff_ffff), Some(2)];
    var w := Weights(details, 1);
    assert Sum(w, 0) == 0;
    assert Sum(w, 1) == 0x7fff_ffff_ffff_ffff;
    assert Sum(w, 2) == 0xffff_ffff_ffff_fffe;
    assert Sum(w, 3) == U64;
  }

  /**
   What the shares of a draw are: without overflow a back end is drawn for exactly as many residues as it has
   free bytes, if it reports at least the compared size, and otherwise for none.
   */
  lemma {:induction false} DrawnByFreeSpace(details: seq<Free>, strict: bool, size: int, i: nat)
    requires forall k :: 0 <= k < |details| && details[k].Some? ==> 0 <= details[k].value < 0x1_0000_0000_0000_0000
    requires i < |details| && 0 < Sum(Weights(details, size), |details|) < U64
    ensures |set draw: int | 0 <= draw < Sum(Weights(details, size), |details|)
               && Drawn(details, strict, size, draw, Some(i))| ==
      if details[i].Some? && details[i].value >= size then details[i].value else 0
  {
    var w := Weights(details, size);
    SumGrows(w, i + 1, |w|);
    ResidueCount(w, i, Sum(w, |w|));
    DrawsAreResidues(details, strict, size, i);
    WeightIsFreeSpace(details, size, i);
  }

  lemma WeightIsFreeSpace(details: seq<Free>, size: int, i: nat)
    requires i < |details| && (details[i].Some? ==> 0 <= details[i].value < 0x1_0000_0000_0000_0000)
    ensures Weights(details, size)[i] ==
      if details[i].Some? && details[i].value >= size then details[i].value else 0
  {
    if details[i].Some? {
      SmallResidue(details[i].value, U64);
    }
  }

  lemma {:induction false} DrawsAreResidues(details: seq<Free>, strict: bool, size: int, i: nat)
    requires i < |details| && Sum(Weights(details, size), |details|) < U64
    ensures var total := Sum(Weights(details, size), |details|);
      (set draw: int | 0 <= draw < total && Drawn(details, strict, size, draw, Some(i)))
        == Residues(Weights(details, size), i, total)
  {
    var w := Weights(details, size);
    var total := Sum(w, |w|);
    forall draw: int | 0 <= draw < total ensures Drawn(details, strict, size, draw, Some(i)) <==> Picks(w, i, draw) {
      DrawIsResidue(details, strict, size, i, draw);
    }
  }

  /** Below the total, a draw is its own residue. */
  lemma {:induction false} DrawIsResidue(details: seq<Free>, strict: bool, size: int, i: nat, draw: int)
    requires i < |details| && 0 <= draw < Sum(Weights(details, size), |details|) < U64
    ensures Drawn(details, strict, size, draw, Some(i)) <==> Picks(Weights(details, size), i, draw)
  {
    var w := Weights(details, size);
    var total := Sum(w, |w|);
    SmallResidue(total, U64);
    SmallResidue(draw, total);
    assert Word64(total) == total && draw % Word64(total) == draw;
    RoomIsWeight(details, size, i);
    if Picks(w, i, draw) {
      assert w[i] > 0;
    }
  }

  lemma RoomIsWeight(details: seq<Free>, size: int, i: nat)
    requires i < |details|
    ensures HasRoom(details[i], size) <==> Weights(details, size)[i] > 0
  {
  }

  // ---------------------------------------------------------------- the uploaded file

  /** Index `i` is drawn for some residue below the wrapped total. */
  ghost predicate CanBeDrawn(details: seq<Free>, size: int, i: nat)
    requires i < |details|
  {
    var w := Weights(details, size);
    HasRoom(details[i], size) && Sum(w, i) < Word64(Sum(w, |w|))
  }

  /** Every back end that can be drawn for `size` has room for the file itself. */
  ghost predicate RoomForFile(details: seq<Free>, size: int, fileSize: int) {
    forall i: nat :: i < |details| && CanBeDrawn(details, size, i) ==> details[i].value >= fileSize
  }

  /** Whatever the draw, a back end that reports its space has enough of it for the file. */
  ghost predicate EveryDrawFits(details: seq<Free>, strict: bool, size: int, fileSize: int) {
    forall draw: Word, i: nat ::
      Drawn(details, strict, size, draw, Some(i)) && details[i].Some? ==> details[i].value >= fileSize
  }

  lemma DrawOf(details: seq<Free>, strict: bool, size: int, i: nat) returns (draw: Word)
    requires i < |details| && CanBeDrawn(details, size, i)
    ensures Drawn(details, strict, size, draw, Some(i))
  {
    var w := Weights(details, size);
    draw := Sum(w, i);
    SmallResidue(draw, Word64(Sum(w, |w|)));
    assert w[i] > 0 && Picks(w, i, draw);
  }

  lemma SmallResidue(x: int, m: int)
    requires 0 <= x < m
    ensures x % m == x
  {
  }

  /** The size that is compared protects the uploaded file if and only if it protects it on every index in reach. */
  lemma FitsExactly(details: seq<Free>, strict: bool, size: int, fileSize: int)
    ensures EveryDrawFits(details, strict, size, fileSize) <==> RoomForFile(details, size, fileSize)
  {
    if EveryDrawFits(details, strict, size, fileSize) {
      forall i: nat | i < |details| && CanBeDrawn(details, size, i) ensures details[i].value >= fileSize {
        var draw := DrawOf(details, strict, size, i);
        assert Drawn(details, strict, size, draw, Some(i));
      }
    }
    if RoomForFile(details, size, fileSize) {
      forall draw: Word, i: nat | Drawn(details, strict, size, draw, Some(i)) && details[i].Some?
        ensures details[i].value >= fileSize
      {
        assert CanBeDrawn(details, size, i);
      }
    }
  }

  /** Without overflow every back end with room can be drawn. */
  lemma {:induction false} InReach(details: seq<Free>, size: int, i: nat)
    requires i < |details| && Sum(Weights(details, size), |details|) < U64
    ensures CanBeDrawn(details, size, i) <==> HasRoom(details[i], size)
  {
    if HasRoom(details[i], size) {
      SumGrows(Weights(details, size), i + 1, |details|);
    }
  }

  /** Without overflow the condition speaks of every back end with room for the compared size. */
  lemma {:induction false} RoomWithoutOverflow(details: seq<Free>, size: int, fileSize: int)
    requires Sum(Weights(details, size), |details|) < U64
    ensures RoomForFile(details, size, fileSize) <==>
      forall i: nat :: i < |details| && HasRoom(details[i], size) ==> details[i].value >= fileSize
  {
    forall i: nat | i < |details| ensures CanBeDrawn(details, size, i) <==> HasRoom(details[i], size) {
      InReach(details, size, i);
    }
  }

  // ---------------------------------------------------------------- uploads

  datatype PutError = Refused(reason: P.Error) | NoEnoughSpace

  /** The backends an upload goes to, out of those the policy kept; `None` when there is not enough space. */
  ghost predicate Chosen(kept: seq<string>, policy: P.Policy, details: seq<Free>, size: int, draw: Word,
                         r: Option<seq<string>>)
    requires |details| == |kept|
  {
    match policy
    case RandomBalanced => exists i :: 0 <= i < |kept| && r == Some([kept[i]])
    case Quota => PutOn(kept, details, false, size, draw, r)
    case QuotaStrict => PutOn(kept, details, true, size, draw, r)
    case _ => r == Some(kept)
  }

  ghost predicate PutOn(kept: seq<string>, details: seq<Free>, strict: bool, size: int, draw: Word,
                        r: Option<seq<string>>)
    requires |details| == |kept|
  {
    match r
    case None => Drawn(details, strict, size, draw, None)
    case Some(on) => exists i: nat {:trigger kept[i]} ::
      i < |kept| && on == [kept[i]] && Drawn(details, strict, size, draw, Some(i))
  }

  method ChooseBackends(kept: seq<string>, policy: P.Policy, details: seq<Free>, size: int, draw: Word)
    returns (r: Option<seq<string>>)
    requires kept != [] && |details| == |kept|
    ensures Chosen(kept, policy, details, size, draw, r)
    ensures policy == P.QuotaStrict ==>
      (RefusedRightly(details, true, size, r.None?) <==> !Wraps(details, size))
    ensures policy == P.Quota ==>
      (RefusedRightly(details, false, size, r.None?) <==> !Wraps(details, size) || !AllReport(details))
  {
    match policy {
      case RandomBalanced =>
        var ri :| 0 <= ri < |kept|;
        r := Some([kept[ri]]);
      case Quota =>
        var picked := PickByQuota(details, false, size, draw);
        RefusalsAreRight(details, false, size, draw, picked);
        r := if picked.None? then None else Some([kept[picked.value]]);
      case QuotaStrict =>
        var picked := PickByQuota(details, true, size, draw);
        RefusalsAreRight(details, true, size, draw, picked);
        r := if picked.None? then None else Some([kept[picked.value]]);
      case _ => r := Some(kept);
    }
  }

  /** A five-byte back end takes a file of any size, since a directory's own entry has none. */
  lemma SmallBackendTakesAnyFile(draw: Word, fileSize: int, r: Option<seq<string>>)
    requires fileSize > 5
    ensures Chosen(["/a"], P.QuotaStrict, [Some(5)], 0, draw, r) <==> r == Some(["/a"])
    ensures !RoomForFile([Some(5)], 0, fileSize)
  {
    var details: seq<Free> := [Some(5)];
    var w := Weights(details, 0);
    assert Sum(w, 0) == 0 && Sum(w, 1) == 5;
    var first := ["/a"];
    assert Drawn(details, true, 0, draw, Some(0)) && first == [first[0]];
    assert CanBeDrawn(details, 0, 0);
  }

  function Reports(kept: seq<string>, free: string -> Free): seq<Free> {
    seq(|kept|, i requires 0 <= i < |kept| => free(kept[i]))
  }

  /** What an upload into the listed directory may be answered. */
  ghost predicate PutMay(slots: seq<P.Slot>, policy: P.Policy, check: bool, get: P.Backend, free: string -> Free,
                         objSize: int, draw: Word, r: Result<seq<string>, PutError>)
    requires slots != [] && slots[0].Real?
  {
    if policy == P.Disabled then r == Err(Refused(P.PermissionDenied))
    else
      var hits := P.Hits(slots, |slots|, slots[0].info, check, get);
      match P.Decide(policy, hits, |hits| == |slots|)
      case Err(e) => r == Err(Refused(e))
      case Ok(kept) =>
        var paths := P.Paths(kept);
        (r.Err? ==> r.error == NoEnoughSpace)
        && Chosen(paths, policy, Reports(paths, free), objSize, draw, if r.Ok? then Some(r.value) else None)
  }

  /**
   The backends of an upload into the listed directory. `objSize` is what the caller passes: the size of
   the directory's own entry, not that of the uploaded file.
   */
  method GetPutObjs(objs: array<P.Slot>, policy: P.Policy, check: bool, get: P.Backend, free: string -> Free,
                    objSize: int, draw: Word)
    returns (r: Result<seq<string>, PutError>)
    requires objs.Length > 0 && objs[0].Real?
    modifies objs
    ensures PutMay(old(objs[..]), policy, check, get, free, objSize, draw, r)
  {
    if policy == P.Disabled {
      return Err(Refused(P.PermissionDenied));
    }
    ghost var slots := objs[..];
    P.FirstEntryHits(slots, check, get);
    var n := P.GetAllObjs(objs, policy, check, get);
    if n.Err? {
      return Err(Refused(n.error));
    }
    var kept := P.Paths(objs[..n.value]);
    var on := ChooseBackends(kept, policy, Reports(kept, free), objSize, draw);
    r := if on.None? then Err(NoEnoughSpace) else Ok(on.value);
  }

  /** The reports of the back ends a quota policy chooses among. */
  ghost function Reported(slots: seq<P.Slot>, check: bool, get: P.Backend, free: string -> Free): seq<Free>
    requires slots != [] && slots[0].Real?
  {
    Reports(P.Paths(P.Hits(slots, |slots|, slots[0].info, check, get)), free)
  }

  /** The file goes to one back end, and there is room for it as far as that one says. */
  ghost predicate FitsOn(on: seq<string>, free: string -> Free, fileSize: int) {
    |on| == 1 && (free(on[0]).Some? ==> free(on[0]).value >= fileSize)
  }

  ghost predicate EveryUploadFits(slots: seq<P.Slot>, policy: P.Policy, check: bool, get: P.Backend,
                                  free: string -> Free, dirSize: int, fileSize: int)
    requires slots != [] && slots[0].Real?
  {
    forall draw: Word, on: seq<string> ::
      PutMay(slots, policy, check, get, free, dirSize, draw, Ok(on)) ==> FitsOn(on, free, fileSize)
  }

  /** When an upload is refused rightly for want of space. */
  lemma UploadRefusedRightly(slots: seq<P.Slot>, policy: P.Policy, check: bool, get: P.Backend, free: string -> Free,
                             dirSize: int, draw: Word, r: Result<seq<string>, PutError>)
    requires slots != [] && slots[0].Real? && (policy == P.Quota || policy == P.QuotaStrict)
    requires PutMay(slots, policy, check, get, free, dirSize, draw, r)
    ensures var details, strict := Reported(slots, check, get, free), policy == P.QuotaStrict;
      RefusedRightly(details, strict, dirSize, r == Err(NoEnoughSpace)) <==>
        !Wraps(details, dirSize) || (!strict && !AllReport(details))
  {
    P.FirstEntryHits(slots, check, get);
    var details, strict := Reported(slots, check, get, free), policy == P.QuotaStrict;
    if r.Err? {
      RefusalsAreRight(details, strict, dirSize, draw, None);
    } else {
      var i: nat :| i < |details| && Drawn(details, strict, dirSize, draw, Some(i));
      RefusalsAreRight(details, strict, dirSize, draw, Some(i));
    }
  }

  /** One index drawn is one answer to the upload, and the other way round. */
  lemma {:induction false} UploadIsDraw(
    slots: seq<P.Slot>, policy: P.Policy, check: bool, get: P.Backend, free: string -> Free,
                     dirSize: int, draw: Word, on: seq<string>)
    requires slots != [] && slots[0].Real? && (policy == P.Quota || policy == P.QuotaStrict)
    ensures var paths := P.Paths(P.Hits(slots, |slots|, slots[0].info, check, get));
      PutMay(slots, policy, check, get, free, dirSize, draw, Ok(on)) <==>
        PutOn(paths, Reports(paths, free), policy == P.QuotaStrict, dirSize, draw, Some(on))
  {
    P.FirstEntryHits(slots, check, get);
  }

  /**
   The file that is uploaded fits wherever the draw may send it if and only if every back end in reach has
   room for it. That is all the compared size gives, and it is the size of the directory's entry.
   */
  lemma UploadFitsExactly(slots: seq<P.Slot>, policy: P.Policy, check: bool, get: P.Backend, free: string -> Free,
                          dirSize: int, fileSize: int)
    requires slots != [] && slots[0].Real? && (policy == P.Quota || policy == P.QuotaStrict)
    ensures EveryUploadFits(slots, policy, check, get, free, dirSize, fileSize) <==>
      RoomForFile(Reported(slots, check, get, free), dirSize, fileSize)
  {
    var paths := P.Paths(P.Hits(slots, |slots|, slots[0].info, check, get));
    var details, strict := Reports(paths, free), policy == P.QuotaStrict;
    FitsExactly(details, strict, dirSize, fileSize);
    if EveryUploadFits(slots, policy, check, get, free, dirSize, fileSize) {
      forall draw: Word, i: nat | Drawn(details, strict, dirSize, draw, Some(i)) && details[i].Some?
        ensures details[i].value >= fileSize
      {
        var on := [paths[i]];
        UploadIsDraw(slots, policy, check, get, free, dirSize, draw, on);
        assert FitsOn(on, free, fileSize);
      }
    }
    if EveryDrawFits(details, strict, dirSize, fileSize) {
      forall draw: Word, on: seq<string> | PutMay(slots, policy, check, get, free, dirSize, draw, Ok(on))
        ensures FitsOn(on, free, fileSize)
      {
        UploadIsDraw(slots, policy, check, get, free, dirSize, draw, on);
      }
    }
  }
}
