/**
 A move and a copy through the alias driver from end to end: both lists are probed and compacted, the kept
 entries are paired, and the pairs are carried out.
 */
module AliasMove {
  import opened Wrappers
  import opened AliasMatching
  import P = AliasPolicy

  datatype Error = Refused(reason: P.Error) | Unmatched(fault: MatchError)

  /** The entries a policy keeps of a list whose first entry was probed. */
  ghost function Kept(slots: seq<P.Slot>, policy: P.Policy, check: bool, get: P.Backend): Result<seq<Obj>, P.Error>
    requires slots != [] && slots[0].Real?
  {
    var hits := P.Hits(slots, |slots|, slots[0].info, check, get);
    match P.Decide(policy, hits, |hits| == |slots|)
    case Err(e) => Err(e)
    case Ok(kept) => Ok(Objects(kept))
  }

  /** Every kept entry is an object of its own. */
  function Objects(slots: seq<P.Slot>): (objs: seq<Obj>)
    ensures |objs| == |slots| && NoDup(objs)
    ensures forall i :: 0 <= i < |slots| && !slots[i].Missing? ==> objs[i].path == slots[i].path
  {
    seq(|slots|, i requires 0 <= i < |slots| => Obj(i, if slots[i].Missing? then "" else slots[i].path))
  }

  /** `getAllObjs`, for a list that is only read afterwards. */
  method KeepAll(objs: array<P.Slot>, policy: P.Policy, check: bool, get: P.Backend)
    returns (r: Result<seq<Obj>, P.Error>)
    requires objs.Length > 0 && objs[0].Real? && policy != P.Disabled
    modifies objs
    ensures r == Kept(old(objs[..]), policy, check, get)
    ensures policy == P.All ==> r.Ok? && r.value != []
    ensures r.Ok? ==> |r.value| <= objs.Length
    ensures r.Ok? ==> forall i :: 0 <= i < |r.value| ==> objs[i].Real? && r.value[i].path == objs[i].path
  {
    ghost var slots := objs[..];
    P.FirstEntryHits(slots, check, get);
    P.HitsAreReal(slots, |slots|, slots[0].info, check, get);
    var n := P.GetAllObjs(objs, policy, check, get);
    assert n.Ok? ==> forall i :: 0 <= i < n.value ==> objs[i] == objs[..n.value][i] && objs[i].Real?;
    r := if n.Err? then Err(n.error) else Ok(Objects(objs[..n.value]));
  }

  /**
   A whole move. The destinations are what the put policy keeps, the sources every hit. It fills each
   destination once and moves or removes each source with a storage once, unless too few of those exist.
   */
  method Move(src: array<P.Slot>, dst: array<P.Slot>, policy: P.Policy, check: bool, get: P.Backend, mt: MountTable)
    returns (r: Result<seq<Action>, Error>, panicked: bool)
    requires src.Length > 0 && src[0].Real? && dst.Length > 0 && dst[0].Real? && src != dst
    modifies src, dst
    ensures policy == P.Disabled ==> r == Err(Refused(P.PermissionDenied))
    ensures policy != P.Disabled ==>
      match Kept(old(dst[..]), policy, check, get) {
        case Err(e) => r == Err(Refused(e))
        case Ok(dsts) =>
          var srcs := Kept(old(src[..]), P.All, check, get);
          srcs.Ok? && MoveDoes(srcs.value, dsts, r, panicked, mt)
      }
  {
    if policy == P.Disabled {
      return Err(Refused(P.PermissionDenied)), false;
    }
    var kept := KeepAll(dst, policy, check, get);
    if kept.Err? {
      return Err(Refused(kept.error)), false;
    }
    var srcs := KeepAll(src, P.All, check, get);
    var dsts := ArrayOf(kept.value);
    var done;
    done, panicked := AliasMatching.Move(dsts, srcs.value, mt);
    r := if done.Err? then Err(Unmatched(done.error)) else Ok(done.value);
  }

  ghost predicate MoveDoes(srcs: seq<Obj>, dsts: seq<Obj>, r: Result<seq<Action>, Error>, panicked: bool,
                           mt: MountTable)
  {
    && (r.Ok? <==> |srcs| >= |dsts| && Reachable(dsts, mt) == dsts)
    && (r.Err? ==> r.error.Unmatched? && Fault(r.error.fault, srcs, dsts, mt))
    && (panicked <==> r.Ok? && |Reachable(srcs, mt)| < |dsts|)
    && (r.Ok? ==> multiset(Consumed(r.value)) == multiset(Reachable(srcs, mt)))
    && (r.Ok? && !panicked ==> multiset(Filled(r.value)) == multiset(dsts))
    && (r.Ok? ==> MovesBestPairs(srcs, dsts, r.value, mt))
  }

  method ArrayOf(objs: seq<Obj>) returns (a: array<Obj>)
    ensures fresh(a) && a[..] == objs
  {
    a := new Obj[|objs|](i requires 0 <= i < |objs| => objs[i]);
  }

  /** A whole copy: each destination the put policy keeps is written exactly once, from the source it must have. */
  method Copy(src: array<P.Slot>, dst: array<P.Slot>, policy: P.Policy, random: bool, check: bool, get: P.Backend,
              mt: MountTable)
    returns (r: Result<seq<(Obj, Obj)>, Error>)
    requires src.Length > 0 && src[0].Real? && dst.Length > 0 && dst[0].Real? && src != dst
    modifies src, dst
    ensures policy == P.Disabled ==> r == Err(Refused(P.PermissionDenied))
    ensures policy != P.Disabled ==>
      match Kept(old(dst[..]), policy, check, get) {
        case Err(e) => r == Err(Refused(e))
        case Ok(dsts) =>
          var srcs := Kept(old(src[..]), P.All, check, get);
          srcs.Ok? && srcs.value != [] && CopyDoes(srcs.value, dsts, r, random, mt)
      }
  {
    if policy == P.Disabled {
      return Err(Refused(P.PermissionDenied));
    }
    var kept := KeepAll(dst, policy, check, get);
    if kept.Err? {
      return Err(Refused(kept.error));
    }
    var srcs := KeepAll(src, P.All, check, get);
    var dsts := ArrayOf(kept.value);
    var matched := GetCopyObjs(dsts, srcs.value, random, mt);
    if matched.Err? {
      return Err(Unmatched(matched.error));
    }
    var done := PerformCopy(matched.value, dsts[..]);
    assert forall k :: 0 <= k < dsts.Length ==> WellSourced(matched.value[k], dsts[..][k], srcs.value, random, mt);
    r := Ok(done);
  }

  /** Copies pair by pair. */
  method PerformCopy(srcs: seq<Obj>, dsts: seq<Obj>) returns (done: seq<(Obj, Obj)>)
    requires |srcs| == |dsts|
    ensures |done| == |srcs| && Targets(done) == dsts
    ensures forall k :: 0 <= k < |done| ==> done[k].0 == srcs[k] && done[k].1 == dsts[k]
  {
    done := [];
    for i := 0 to |srcs|
      invariant |done| == i
      invariant forall j :: 0 <= j < i ==> done[j] == (srcs[j], dsts[j])
    {
      done := done + [(srcs[i], dsts[i])];
    }
  }

  ghost function Targets(done: seq<(Obj, Obj)>): seq<Obj> {
    seq(|done|, i requires 0 <= i < |done| => done[i].1)
  }

  ghost predicate CopyDoes(srcs: seq<Obj>, dsts: seq<Obj>, r: Result<seq<(Obj, Obj)>, Error>, random: bool,
                           mt: MountTable)
    requires srcs != []
  {
    && (r.Ok? <==> Reachable(dsts, mt) == dsts)
    && (r.Err? ==> r.error.Unmatched? && NamesFirstVirtual(r.error.fault, dsts, mt))
    && (r.Ok? ==> multiset(Targets(r.value)) == multiset(dsts))
    && (r.Ok? ==> forall k :: 0 <= k < |r.value| ==> WellSourced(r.value[k].0, r.value[k].1, srcs, random, mt))
  }
}
