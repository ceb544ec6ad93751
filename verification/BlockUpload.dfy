/**
 A resumable upload in numbered blocks. The server hands out an upload id with the blocks it wants; the
 client uploads them concurrently, crosses off what was accepted, and keeps what is left for later. What
 the server, the group of uploads and the context answer is a script.
 */
module BlockUpload {
  import opened Wrappers
  import SliceHash

  /** What became of one block in one pass; `NotSent` when the pass was cut short before it. */
  datatype Fate = Accepted | Failed | NotSent

  datatype Trouble = Cancelled | Expired | Other

  /** The answer to a precreate request: an id with a block list, an instant upload, or an error. */
  datatype Precreate = Fresh(id: nat, blocks: seq<int>) | Rapid | Refused

  /** One pass: the fate of each entry, what waiting for the group returns, and the answer to a renewal. */
  datatype Pass = Pass(fates: nat -> Fate, wait: Option<Trouble>, renewal: Precreate)

  datatype Script = Script(start: Precreate, first: Pass, second: Pass, createFails: bool)

  datatype Outcome = Created(id: nat) | Instant | CreateFailed | UploadFailed(reason: Trouble) | PrecreateFailed

  // ---------------------------------------------------------------- block lists

  /** The entries still to be uploaded: crossed-off entries are negative. */
  function Pending(blocks: seq<int>): seq<int> {
    if blocks == [] then []
    else
      var front := Pending(blocks[..|blocks| - 1]);
      var last := blocks[|blocks| - 1];
      if last >= 0 then front + [last] else front
  }

  lemma {:induction false} PendingConcat(a: seq<int>, b: seq<int>)
    ensures Pending(a + b) == Pending(a) + Pending(b)
  {
    if b == [] {
      assert a + b == a;
    } else {
      PendingConcat(a, b[..|b| - 1]);
      assert (a + b)[..|a + b| - 1] == a + b[..|b| - 1];
    }
  }

  /** Taken block by block: the ones not crossed off, each as often as it is listed, in their order. */
  lemma PendingMeans(blocks: seq<int>, block: int)
    ensures Pending([]) == [] && Pending(blocks + [block]) == Pending(blocks) + (if block < 0 then [] else [block])
    ensures multiset(Pending(blocks + [block])) ==
      if block < 0 then multiset(Pending(blocks)) else multiset(Pending(blocks)) + multiset{block}
  {
    assert (blocks + [block])[..|blocks|] == blocks;
  }

  lemma CrossOff(blocks: seq<int>, i: nat)
    requires i < |blocks| && blocks[i] >= 0
    ensures multiset(Pending(blocks)) == multiset(Pending(blocks[i := -1])) + multiset{blocks[i]}
  {
    var a, b := blocks[..i], blocks[i + 1..];
    assert blocks == a + ([blocks[i]] + b) && blocks[i := -1] == a + ([-1] + b);
    PendingConcat(a, [blocks[i]] + b);
    PendingConcat(a, [-1] + b);
    PendingConcat([blocks[i]], b);
    PendingConcat([-1], b);
    assert [blocks[i]][..0] == [] && [-1][..0] == [];
  }

  lemma {:induction false} PendingIsStable(blocks: seq<int>)
    ensures Pending(Pending(blocks)) == Pending(blocks)
    ensures Pending(blocks) == [] <==> forall i :: 0 <= i < |blocks| ==> blocks[i] < 0
  {
    if blocks != [] {
      var front := Pending(blocks[..|blocks| - 1]);
      PendingIsStable(blocks[..|blocks| - 1]);
      assert (front + [blocks[|blocks| - 1]])[..|front|] == front;
    }
  }

  /** The list after a pass: an accepted entry is marked, anything else is left as it was. */
  ghost function Marked(blocks: seq<int>, fates: nat -> Fate): seq<int> {
    seq(|blocks|, i requires 0 <= i < |blocks| => if blocks[i] >= 0 && fates(i) == Accepted then -1 else blocks[i])
  }

  ghost predicate AllAccepted(blocks: seq<int>, fates: nat -> Fate) {
    forall i: nat :: i < |blocks| ==> blocks[i] < 0 || fates(i) == Accepted
  }

  // ---------------------------------------------------------------- one upload id

  /** An upload id with its block list. `accepted` is what the server holds for it. */
  class Upload {
    const id: nat
    ghost const wanted: multiset<int>
    var blockList: seq<int>
    ghost var accepted: multiset<int>

    /** Every block the server asked for is either accepted or still on the list, and not both. */
    ghost predicate Valid()
      reads this
    {
      accepted + multiset(Pending(blockList)) == wanted
    }

    constructor (id: nat, blocks: seq<int>)
      ensures Valid() && this.id == id && blockList == blocks
      ensures wanted == multiset(Pending(blocks)) && accepted == multiset{}
    {
      this.id := id;
      wanted := multiset(Pending(blocks));
      blockList := blocks;
      accepted := multiset{};
    }

    /** Uploads what is on the list; reports whether nothing is left. */
    method UploadAll(fates: nat -> Fate) returns (complete: bool)
      requires Valid()
      modifies this
      ensures Valid() && old(accepted) <= accepted && blockList == Marked(old(blockList), fates)
      ensures complete <==> accepted == wanted
      ensures complete <==> AllAccepted(old(blockList), fates)
      ensures |blockList| == |old(blockList)| && forall i: nat :: i < |blockList| ==>
        blockList[i] == if old(blockList)[i] >= 0 && fates(i) == Accepted then -1 else old(blockList)[i]
    {
      ghost var was := blockList;
      for i := 0 to |blockList|
        invariant Valid() && old(accepted) <= accepted && |blockList| == |was|
        invariant forall j :: i <= j < |blockList| ==> blockList[j] == was[j]
        invariant forall j {:trigger blockList[j]} :: 0 <= j < i ==> blockList[j] == Marked(was, fates)[j]
      {
        var partseq := blockList[i];
        assert partseq == was[i];
        if partseq < 0 {
          continue;
        }
        if fates(i) == Accepted {
          CrossOff(blockList, i);
          blockList := blockList[i := -1];
          accepted := accepted + multiset{partseq};
        }
      }
      assert blockList == Marked(was, fates);
      complete := Pending(blockList) == [];
      PendingIsStable(blockList);
      MarkedIsDone(was, fates);
      AllOrSome(accepted, Pending(blockList), wanted);
    }

    /** Keeps only what is left, ready to be saved. */
    method Compact()
      requires Valid()
      modifies this`blockList
      ensures Valid() && blockList == Pending(old(blockList)) && Pending(blockList) == blockList
    {
      PendingIsStable(blockList);
      var left: seq<int> := [];
      for i := 0 to |blockList|
        invariant left == Pending(blockList[..i])
      {
        assert blockList[..i + 1][..i] == blockList[..i];
        if blockList[i] >= 0 {
          left := left + [blockList[i]];
        }
      }
      assert blockList[..|blockList|] == blockList;
      blockList := left;
    }
  }

  lemma MarkedIsDone(blocks: seq<int>, fates: nat -> Fate)
    ensures AllAccepted(blocks, fates) <==> forall i :: 0 <= i < |blocks| ==> Marked(blocks, fates)[i] < 0
  {
    if forall i :: 0 <= i < |blocks| ==> Marked(blocks, fates)[i] < 0 {
      forall i: nat | i < |blocks| ensures blocks[i] < 0 || fates(i) == Accepted {
        assert Marked(blocks, fates)[i] < 0;
      }
    }
  }

  lemma AllOrSome(accepted: multiset<int>, left: seq<int>, wanted: multiset<int>)
    requires accepted + multiset(left) == wanted
    ensures accepted == wanted <==> left == []
  {
    if left != [] {
      assert left[0] in multiset(left);
      assert wanted[left[0]] > accepted[left[0]];
    }
  }

  // ---------------------------------------------------------------- one call

  /** The store of interrupted uploads, for one file and one account. */
  class Uploader {
    var saved: Upload?

    ghost predicate Valid()
      reads this, saved
    {
      saved != null ==> saved.Valid()
    }

    constructor ()
      ensures Valid() && saved == null
    {
      saved := null;
    }

    /** One trip round the upload loop. `broke` when everything was accepted. */
    method RunPass(u: Upload, p: Pass) returns (broke: bool, stop: Option<Outcome>, next: Upload)
      requires u.Valid() && (saved == null || saved == u)
      modifies this, u
      ensures u.Valid() && next.Valid() && (next == u || fresh(next)) && old(u.accepted) <= u.accepted
      ensures broke <==> Breaks(p, old(u.blockList))
      ensures broke <==> p.wait == None && forall i: nat :: i < |old(u.blockList)| ==>
        old(u.blockList)[i] < 0 || p.fates(i) == Accepted
      ensures stop == if broke then None else StopOf(p)
      ensures p.wait == None && !broke ==> stop == Some(UploadFailed(Other))
      ensures p.wait == Some(Cancelled) ==> stop == Some(UploadFailed(Cancelled))
      ensures p.wait == Some(Other) ==> stop == Some(UploadFailed(Other))
      ensures p.wait == Some(Expired) ==>
        match p.renewal {
          case Refused => stop == Some(PrecreateFailed)
          case Rapid => stop == Some(Instant)
          case Fresh(_, _) => stop == None
        }
      ensures broke ==> next == u && u.accepted == u.wanted && saved == old(saved)
      ensures !broke ==> saved == next && u.blockList == Pending(Marked(old(u.blockList), p.fates))
      ensures stop.Some? ==> next == u && u.blockList == Pending(u.blockList)
      ensures !broke && stop.None? ==>
        && fresh(next) && next.id == p.renewal.id && next.blockList == p.renewal.blocks
        && next.accepted == multiset{} && next.wanted == multiset(Pending(p.renewal.blocks))
    {
      var complete := u.UploadAll(p.fates);
      // Waiting reports an error whenever a block was not accepted; it may also report one otherwise.
      var err := if p.wait.None? && !complete then Some(Other) else p.wait;
      next := u;
      if err.None? {
        return true, None, u;
      }
      u.Compact();
      saved := u;
      if err.value == Cancelled {
        return false, Some(UploadFailed(Cancelled)), u;
      }
      if err.value == Expired {
        match p.renewal {
          case Refused => return false, Some(PrecreateFailed), u;
          case Rapid => return false, Some(Instant), u;
          case Fresh(id, blocks) =>
            next := new Upload(id, blocks);
            saved := next;
            return false, None, next;
        }
      }
      return false, Some(UploadFailed(err.value)), u;
    }

    /** Takes up the saved progress, which reading removes, or asks the server for an id. */
    method Begin(start: Precreate) returns (stop: Option<Outcome>, u: Upload?)
      requires Valid()
      modifies this
      ensures saved == null
      ensures old(saved) != null ==> stop.None? && u == old(saved)
      ensures old(saved) == null && start.Fresh? ==>
        && stop.None? && u != null && fresh(u) && u.Valid() && u.id == start.id && u.blockList == start.blocks
        && u.wanted == multiset(Pending(start.blocks)) && u.accepted == multiset{}
      ensures old(saved) == null && !start.Fresh? ==>
        u == null && stop == Some(if start.Rapid? then Instant else PrecreateFailed)
    {
      u := saved;
      stop := None;
      if u != null {
        saved := null;
      } else {
        match start {
          case Refused => stop := Some(PrecreateFailed);
          case Rapid => stop := Some(Instant);
          case Fresh(id, blocks) => u := new Upload(id, blocks);
        }
      }
    }

    /** The upload loop. When it stops early the progress left is what was saved. */
    method TwoPasses(u: Upload, first: Pass, second: Pass) returns (stop: Option<Outcome>, last: Upload)
      requires u.Valid() && saved == null
      modifies this, u
      ensures last.Valid() && (last == u || fresh(last))
      ensures saved == if Breaks(first, old(u.blockList)) then null else last
      ensures var (o, id) := LoopEnd(first, second, u.id, old(u.blockList)); stop == o && last.id == id
      ensures stop.None? && !ExpiresTwice(first, second) ==> last.accepted == last.wanted
      ensures ExpiresTwice(first, second) ==>
        && stop.None? && last.accepted == multiset{} && last.wanted == multiset(Pending(second.renewal.blocks))
    {
      var broke;
      broke, stop, last := RunPass(u, first);
      if stop.None? && !broke {
        assert first.wait == Some(Expired) && first.renewal.Fresh? && last.blockList == first.renewal.blocks;
        broke, stop, last := RunPass(last, second);
        assert broke || stop.Some? || ExpiresTwice(first, second);
      }
    }

    /** The upload loop and the creation of the file, for an id that was taken up or handed out. */
    method UploadAndCreate(u: Upload, sc: Script) returns (o: Outcome, ghost last: Upload)
      requires u.Valid() && saved == null
      modifies this, u
      ensures last.Valid() && (last == u || fresh(last))
      ensures Ended(sc, u.id, old(u.blockList), o, last.id)
      ensures saved == if o.Created? || (o.CreateFailed? && Breaks(sc.first, old(u.blockList))) then null else last
      ensures o.Created? || o.CreateFailed? ==>
        (last.accepted == last.wanted <==> !ExpiresTwice(sc.first, sc.second) || last.wanted == multiset{})
      ensures ExpiresTwice(sc.first, sc.second) ==>
        && (o.Created? || o.CreateFailed?)
        && last.accepted == multiset{} && last.wanted == multiset(Pending(sc.second.renewal.blocks))
    {
      var stop, next := TwoPasses(u, sc.first, sc.second);
      last := next;
      if stop.Some? {
        return stop.value, next;
      }
      if sc.createFails {
        return CreateFailed, next;
      }
      saved := null;
      return Created(next.id), next;
    }

    /**
     A whole upload. The file is created with every block of its id accepted, unless the id expired in
     both passes: the loop is then left without a break, and nothing of the newest id was uploaded.
     */
    method Put(sc: Script) returns (o: Outcome, ghost last: Upload?)
      requires Valid()
      modifies this, saved
      ensures Valid()
      ensures old(saved) == null && !sc.start.Fresh? ==>
        last == null && saved == null && o == if sc.start.Rapid? then Instant else PrecreateFailed
      ensures old(saved) != null ==>
        last != null && Ended(sc, old(saved.id), old(saved.blockList), o, last.id)
      ensures old(saved) == null && sc.start.Fresh? ==>
        last != null && Ended(sc, sc.start.id, sc.start.blocks, o, last.id)
      ensures o.Created? || o.CreateFailed? ==>
        && last != null && last.Valid()
        && (last.accepted == last.wanted <==> !ExpiresTwice(sc.first, sc.second) || last.wanted == multiset{})
      ensures ExpiresTwice(sc.first, sc.second) && last != null ==>
        && (o.Created? || o.CreateFailed?)
        && last.accepted == multiset{} && last.wanted == multiset(Pending(sc.second.renewal.blocks))
      ensures last != null ==>
        var blocks := if old(saved) != null then old(saved.blockList) else sc.start.blocks;
        saved == if o.Created? || (o.CreateFailed? && Breaks(sc.first, blocks)) then null else last
    {
      var stop, u := Begin(sc.start);
      if stop.Some? {
        return stop.value, null;
      }
      o, last := UploadAndCreate(u, sc);
    }
  }

  /** A pass ends the loop by a break. */
  ghost predicate Breaks(p: Pass, blocks: seq<int>) {
    p.wait.None? && AllAccepted(blocks, p.fates)
  }

  /** How a pass that does not break ends the call, if it does. */
  ghost function StopOf(p: Pass): Option<Outcome> {
    match p.wait
    case None => Some(UploadFailed(Other))
    case Some(Expired) =>
      (match p.renewal
       case Refused => Some(PrecreateFailed)
       case Rapid => Some(Instant)
       case Fresh(_, _) => None)
    case Some(t) => Some(UploadFailed(t))
  }

  /** How the loop ends: with an outcome, or ready to create the file; and under which upload id. */
  ghost function LoopEnd(first: Pass, second: Pass, id: nat, blocks: seq<int>): (Option<Outcome>, nat) {
    if Breaks(first, blocks) then (None, id)
    else if StopOf(first).Some? then (StopOf(first), id)
    else if Breaks(second, first.renewal.blocks) then (None, first.renewal.id)
    else if StopOf(second).Some? then (StopOf(second), first.renewal.id)
    else (None, second.renewal.id)
  }

  /** How a call ends that starts from the id `id` with the list `blocks`, and under which id. */
  ghost predicate Ended(sc: Script, id: nat, blocks: seq<int>, o: Outcome, lastId: nat) {
    var (stop, endId) := LoopEnd(sc.first, sc.second, id, blocks);
    lastId == endId && o == if stop.Some? then stop.value else if sc.createFails then CreateFailed else Created(endId)
  }

  /** How a call ends with a pass after which it does not go round again. */
  ghost predicate EndsIn(p: Pass, blocks: seq<int>, createFails: bool, id: nat, o: Outcome) {
    match p.wait
    case None =>
      if forall i: nat :: i < |blocks| ==> blocks[i] < 0 || p.fates(i) == Accepted
      then o == if createFails then CreateFailed else Created(id)
      else o == UploadFailed(Other)
    case Some(Cancelled) => o == UploadFailed(Cancelled)
    case Some(Other) => o == UploadFailed(Other)
    case Some(Expired) => (p.renewal.Refused? && o == PrecreateFailed) || (p.renewal.Rapid? && o == Instant)
  }

  /** The outcome read off the script: one pass, or two with the id handed out in between. */
  lemma EndedMeans(sc: Script, id: nat, blocks: seq<int>, o: Outcome, lastId: nat)
    requires Ended(sc, id, blocks, o, lastId)
    ensures !(sc.first.wait == Some(Expired) && sc.first.renewal.Fresh?) ==>
      lastId == id && EndsIn(sc.first, blocks, sc.createFails, id, o)
    ensures sc.first.wait == Some(Expired) && sc.first.renewal.Fresh? ==>
      var next := sc.first.renewal;
      if sc.second.wait == Some(Expired) && sc.second.renewal.Fresh? then
        lastId == sc.second.renewal.id && o == if sc.createFails then CreateFailed else Created(lastId)
      else lastId == next.id && EndsIn(sc.second, next.blocks, sc.createFails, next.id, o)
  {
  }

  /** The upload id expired in the first pass and again in the second. */
  ghost predicate ExpiresTwice(first: Pass, second: Pass) {
    first.wait == second.wait == Some(Expired) && first.renewal.Fresh? && second.renewal.Fresh?
  }

  /** A call in which the id expires twice while a block is still wanted. */
  function TwoExpiries(): Script {
    Script(Fresh(1, [0]), Pass(_ => Failed, Some(Expired), Fresh(2, [0])),
           Pass(_ => Failed, Some(Expired), Fresh(3, [0])), false)
  }

  /** The file is created although no block of its id was ever accepted, and one was asked for. */
  lemma SecondExpiryCreatesNothing(o: Outcome, lastId: nat)
    requires Ended(TwoExpiries(), 1, [0], o, lastId)
    ensures o == Created(3) && lastId == 3
    ensures ExpiresTwice(TwoExpiries().first, TwoExpiries().second)
    ensures multiset(Pending(TwoExpiries().second.renewal.blocks)) == multiset{0}
  {
    assert [0][..0] == [] && Pending([0]) == [0];
  }

  /** The same run on the objects. */
  method RunTwoExpiries() returns (o: Outcome, ghost last: Upload?)
    ensures last != null && Ended(TwoExpiries(), 1, [0], o, last.id)
    ensures o == Created(3) && last.accepted == multiset{} && last.wanted == multiset{0}
  {
    var uploader := new Uploader();
    o, last := uploader.Put(TwoExpiries());
    SecondExpiryCreatesNothing(o, last.id);
  }

  /** Any number of interrupted passes over one id, each resumed from what the last one saved. */
  method Resume(uploader: Uploader, u: Upload, passes: seq<Pass>) returns (broke: bool)
    requires u.Valid() && uploader.saved == null
    requires forall p :: p in passes ==> p.wait != Some(Expired)
    modifies uploader, u
    ensures u.Valid() && old(u.accepted) <= u.accepted && (broke ==> u.accepted == u.wanted)
    ensures !broke && passes != [] ==> uploader.saved == u && u.accepted + multiset(u.blockList) == u.wanted
  {
    broke := false;
    for i := 0 to |passes|
      invariant u.Valid() && old(u.accepted) <= u.accepted && (uploader.saved == null || uploader.saved == u)
      invariant i > 0 ==> uploader.saved == u && Pending(u.blockList) == u.blockList
    {
      assert passes[i] in passes;
      var done, stop, next := uploader.RunPass(u, passes[i]);
      if done {
        return true;
      }
    }
  }

  // ---------------------------------------------------------------- block boundaries

  function BlockCount(streamSize: nat, sliceSize: nat): nat
    requires sliceSize > 0
  {
    if streamSize > sliceSize then (streamSize + sliceSize - 1) / sliceSize else 1
  }

  function BlockSize(partseq: nat, streamSize: nat, sliceSize: nat): nat
    requires sliceSize > 0
  {
    var lastBlockSize := if streamSize % sliceSize == 0 then sliceSize else streamSize % sliceSize;
    if partseq + 1 == BlockCount(streamSize, sliceSize) then lastBlockSize else sliceSize
  }

  /** The section uploaded as block `partseq` is that slice of the file, for every file that is not empty. */
  lemma {:induction false} SectionIsSlice(data: SliceHash.Bytes, sliceSize: nat, partseq: nat)
    requires sliceSize > 0 && data != [] && partseq < BlockCount(|data|, sliceSize)
    ensures var offset := partseq * sliceSize; var size := BlockSize(partseq, |data|, sliceSize);
      var slices := SliceHash.Slices(data, sliceSize);
      && |slices| == BlockCount(|data|, sliceSize)
      && offset + size <= |data|
      && data[offset..offset + size] == slices[partseq]
  {
    SliceCount(data, sliceSize);
    SliceHash.SliceAt(data, sliceSize, partseq);
    LastBlock(|data|, sliceSize, partseq);
  }

  lemma {:induction false} SliceCount(data: SliceHash.Bytes, sliceSize: nat)
    requires sliceSize > 0 && data != []
    ensures |SliceHash.Slices(data, sliceSize)| == BlockCount(|data|, sliceSize) == (|data| + sliceSize - 1) / sliceSize
    decreases |data|
  {
    if |data| > sliceSize {
      SliceCount(data[sliceSize..], sliceSize);
      DivStep(|data| - 1, sliceSize);
    } else {
      OneBlock(|data|, sliceSize);
    }
  }

  lemma OneBlock(n: nat, size: nat)
    requires 0 < n <= size
    ensures (n + size - 1) / size == 1
  {
  }

  lemma DivStep(n: nat, size: nat)
    requires size > 0 && n >= size
    ensures (n + size) / size == n / size + 1
  {
    var x := n + size;
    var k := x / size - (n / size + 1);
    assert k * size == n % size - x % size;
    SliceHash.SmallMultiple(k, size);
  }

  /** The last block starts inside the file and ends at or after its end. */
  lemma CountBounds(n: nat, size: nat)
    requires size > 0 && n > 0
    ensures var count := (n + size - 1) / size; (count - 1) * size < n <= count * size
  {
    var count := (n + size - 1) / size;
    assert count * size + (n + size - 1) % size == n + size - 1;
    assert (count - 1) * size + size == count * size;
  }

  lemma Monotone(a: nat, b: nat, size: nat)
    requires a <= b
    ensures a * size <= b * size && (a + 1) * size == a * size + size
  {
  }

  lemma LastBlock(n: nat, size: nat, partseq: nat)
    requires size > 0 && n > 0 && partseq < BlockCount(n, size) == (n + size - 1) / size
    ensures partseq * size < n
    ensures BlockSize(partseq, n, size) == if (partseq + 1) * size <= n then size else n - partseq * size
  {
    var count := (n + size - 1) / size;
    CountBounds(n, size);
    Monotone(partseq, count - 1, size);
    if partseq + 1 == count {
      LastSize(n, size, partseq);
    } else {
      Monotone(partseq + 1, count - 1, size);
    }
  }

  lemma LastSize(n: nat, size: nat, partseq: nat)
    requires size > 0 && partseq * size < n <= partseq * size + size
    ensures n % size == if n == partseq * size + size then 0 else n - partseq * size
  {
    var r := n - partseq * size;
    if r < size {
      SliceHash.ModAdd(r, partseq, size);
    } else {
      Monotone(partseq, partseq, size);
      SliceHash.MultipleMod(partseq + 1, size);
    }
  }
}
