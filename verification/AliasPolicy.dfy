/**
 Which same-name backends an alias request acts on. `Get` probes only as far as the first backend that
 answers and leaves the rest to be probed later; `GetAllObjs` probes them, asks a stateful conflict
 filter about each, and compacts the list over itself.
 */
module AliasPolicy {
  import opened Wrappers

  datatype Info = Info(isDir: bool, size: int, hashes: map<string, string>)

  /** A list entry: a probed object, a path still to be probed, or the nil left by earlier misses. */
  datatype Slot = Real(path: string, info: Info) | Temp(path: string) | Missing

  datatype Error = ObjectNotFound | NotFile | NotFolder | SamePathLeak | PathConflict | PermissionDenied

  datatype Policy =
    | Disabled | First | Deterministic | DeterministicOrAll | All | AllStrict
    | RandomBalanced | Quota | QuotaStrict

  /** A backend lookup that answers the same way throughout one request. */
  type Backend = string -> Option<Info>

  // ---------------------------------------------------------------- one entry

  function HashOf(i: Info, kind: string): string {
    if kind in i.hashes then i.hashes[kind] else ""
  }

  predicate IsConsistent(a: Info, b: Info) {
    && a.size == b.size
    && forall kind :: kind in a.hashes ==> HashOf(b, kind) == "" || HashOf(b, kind) == a.hashes[kind]
  }

  /** What is wrong with a backend's answer, given the object the request is about. */
  function Complaint(base: Info, found: Option<Info>, check: bool): Option<Error> {
    match found
    case None => Some(ObjectNotFound)
    case Some(i) =>
      if !base.isDir then
        if i.isDir then Some(NotFile)
        else if check && !IsConsistent(base, i) then Some(ObjectNotFound)
        else None
      else if !i.isDir then Some(NotFolder)
      else None
  }

  function SlotComplaint(base: Info, s: Slot, check: bool, get: Backend): Option<Error> {
    match s
    case Real(_, _) => None
    case Temp(path) => Complaint(base, get(path), check)
    case Missing => Some(ObjectNotFound)
  }

  /** A kept entry loses its lazy wrapper; only its path is filled in. */
  function Settled(s: Slot): Slot {
    if s.Temp? then Real(s.path, Info(false, 0, map[])) else s
  }

  // ---------------------------------------------------------------- the specification

  /** The kept entries among the first `n`, in order. */
  ghost function Hits(slots: seq<Slot>, n: nat, base: Info, check: bool, get: Backend): seq<Slot>
    requires n <= |slots|
  {
    if n == 0 then []
    else
      var front := Hits(slots, n - 1, base, check, get);
      if SlotComplaint(base, slots[n - 1], check, get).None? then front + [Settled(slots[n - 1])] else front
  }

  /** Every kept entry is a real one. */
  lemma {:induction false} HitsAreReal(slots: seq<Slot>, n: nat, base: Info, check: bool, get: Backend)
    requires n <= |slots|
    ensures forall h :: h in Hits(slots, n, base, check, get) ==> h.Real?
  {
    if n > 0 {
      HitsAreReal(slots, n - 1, base, check, get);
    }
  }

  /** Later entries only add hits at the end, and never undo a miss. */
  lemma {:induction false} HitsGrow(slots: seq<Slot>, n: nat, m: nat, base: Info, check: bool, get: Backend)
    requires n <= m <= |slots|
    ensures var few, many := Hits(slots, n, base, check, get), Hits(slots, m, base, check, get);
      few <= many && |many| - |few| <= m - n
  {
    if n < m {
      HitsGrow(slots, n, m - 1, base, check, get);
    }
  }

  /** The rule each policy is documented to follow, on the hits and on whether nothing was missed. */
  ghost function Decide<T>(policy: Policy, hits: seq<T>, complete: bool): Result<seq<T>, Error> {
    if hits == [] then Err(ObjectNotFound)
    else
      match policy
      case Disabled => Err(PermissionDenied)
      case First => Ok(hits[..1])
      case AllStrict => if complete then Ok(hits) else Err(SamePathLeak)
      case Deterministic => if |hits| == 1 then Ok(hits) else Err(PathConflict)
      case DeterministicOrAll => if |hits| == 1 || complete then Ok(hits) else Err(SamePathLeak)
      case All => Ok(hits)
      case RandomBalanced => Ok(hits)
      case Quota => Ok(hits)
      case QuotaStrict => Ok(hits)
  }

  // ---------------------------------------------------------------- the filter

  /** The closure that decides entry by entry, with the two variables it captures. */
  class ConflictFilter {
    const policy: Policy
    var all: bool
    var hits: nat

    constructor (policy: Policy)
      ensures this.policy == policy && all && hits == 0
    {
      this.policy, all, hits := policy, true, 0;
    }

    /** `proceed` is false to stop; `out` is the error handed back to the loop. */
    method Apply(err: Option<Error>) returns (proceed: bool, out: Option<Error>)
      modifies this
      ensures policy == All ==> proceed && out == err && all == old(all) && hits == old(hits)
      ensures policy != All && err.Some? ==>
        hits == old(hits)
        && if policy == AllStrict || (policy == DeterministicOrAll && old(hits) >= 2) then
             !proceed && out == Some(SamePathLeak) && all == old(all)
           else proceed && out == err && !all
      ensures policy != All && err.None? ==>
        all == old(all)
        && if policy == First then !proceed && out.None? && hits == old(hits)
           else if policy == Deterministic && old(hits) > 0 then
             !proceed && out == Some(PathConflict) && hits == old(hits)
           else if policy == DeterministicOrAll && old(hits) > 0 && !old(all) then
             !proceed && out == Some(SamePathLeak) && hits == old(hits)
           else proceed && out.None? && hits == old(hits) + 1
    {
      if policy == All {
        return true, err;
      }
      if err.Some? {
        if policy == AllStrict {
          return false, Some(SamePathLeak);
        }
        if policy == DeterministicOrAll && hits >= 2 {
          return false, Some(SamePathLeak);
        }
        all := false;
      } else {
        if policy == First {
          return false, None;
        }
        if policy == Deterministic && hits > 0 {
          return false, Some(PathConflict);
        }
        if policy == DeterministicOrAll && hits > 0 && !all {
          return false, Some(SamePathLeak);
        }
        hits := hits + 1;
      }
      return true, err;
    }
  }

  /** What the filter remembers and has not refused after `n` entries, `kept` of them hits. */
  ghost predicate Consistent(policy: Policy, all: bool, hits: nat, n: nat, kept: nat) {
    && kept <= n
    && (policy == First ==> n == 0)
    && (policy != All ==> hits == kept && (all <==> kept == n))
    && (policy == AllStrict ==> kept == n)
    && (policy == Deterministic ==> kept <= 1)
    && (policy == DeterministicOrAll ==> kept <= 1 || kept == n)
  }

  /** What a refusal after `n` entries, `kept` of them hits, says about the whole list. */
  ghost predicate Damning(policy: Policy, n: nat, kept: nat, e: Error) {
    || (policy == AllStrict && kept < n && e == SamePathLeak)
    || (policy == Deterministic && kept >= 2 && e == PathConflict)
    || (policy == DeterministicOrAll && 2 <= kept < n && e == SamePathLeak)
  }

  lemma {:induction false} RefusalIsFinal(
    policy: Policy, slots: seq<Slot>, n: nat, base: Info, check: bool, get: Backend, e: Error)
    requires n <= |slots| && Hits(slots, n, base, check, get) != []
    requires Damning(policy, n, |Hits(slots, n, base, check, get)|, e)
    ensures var hits := Hits(slots, |slots|, base, check, get);
      Decide(policy, hits, |hits| == |slots|) == Err(e)
  {
    HitsGrow(slots, n, |slots|, base, check, get);
  }

  lemma {:induction false} FirstEntryHits(slots: seq<Slot>, check: bool, get: Backend)
    requires slots != [] && slots[0].Real?
    ensures Hits(slots, 1, slots[0].info, check, get) == [slots[0]]
    ensures [slots[0]] <= Hits(slots, |slots|, slots[0].info, check, get)
  {
    assert Hits(slots, 0, slots[0].info, check, get) == [];
    HitsGrow(slots, 1, |slots|, slots[0].info, check, get);
  }

  // ---------------------------------------------------------------- the loop

  /** Asks the filter about entry `n`, after `kept` hits: stop for good, pass over it, or keep it. */
  method Ask(filter: ConflictFilter, err: Option<Error>, ghost n: nat, ghost kept: nat)
    returns (proceed: bool, out: Option<Error>)
    requires Consistent(filter.policy, filter.all, filter.hits, n, kept) && (n == 0 ==> err.None?)
    modifies filter
    ensures out.Some? && !proceed ==> Damning(filter.policy, n + 1, if err.None? then kept + 1 else kept, out.value)
    ensures out.Some? && proceed ==>
      err.Some? && Consistent(filter.policy, filter.all, filter.hits, n + 1, kept)
    ensures out.None? ==> err.None?
    ensures out.None? && proceed ==> Consistent(filter.policy, filter.all, filter.hits, n + 1, kept + 1)
    ensures out.None? && !proceed ==> filter.policy == First && n == 0
  {
    proceed, out := filter.Apply(err);
  }

  /** The list after `i` entries: the hits first, and from `length` on what was there. */
  ghost predicate Sifted(now: seq<Slot>, slots: seq<Slot>, i: nat, length: nat, check: bool, get: Backend) {
    && slots != [] && slots[0].Real? && length <= i <= |slots| == |now|
    && now[..length] == Hits(slots, i, slots[0].info, check, get)
    && now[length..] == slots[length..]
    && now[0] == slots[0] && (i > 0 ==> length > 0)
  }

  lemma SiftMore(now: seq<Slot>, slots: seq<Slot>, i: nat, length: nat, check: bool, get: Backend)
    requires Sifted(now, slots, i, length, check, get) && i < |slots|
    ensures now[i] == slots[i]
    ensures var hit := SlotComplaint(slots[0].info, slots[i], check, get).None?;
      if hit then
        |Hits(slots, i + 1, slots[0].info, check, get)| == length + 1
        && Sifted(now[length := Settled(slots[i])], slots, i + 1, length + 1, check, get)
      else Sifted(now, slots, i + 1, length, check, get)
  {
    assert now[i] == now[length..][i - length] == slots[length..][i - length];
    var next := now[length := Settled(slots[i])];
    assert next[..length + 1] == now[..length] + [Settled(slots[i])];
    assert next[length + 1..] == now[length..][1..] && slots[length + 1..] == slots[length..][1..];
  }

  /** How the loop over the entries ends: refused, stopped after the first hit, or after the whole list. */
  datatype Outcome = RefusedAt(n: nat, reason: Error) | FirstOnly | Through(all: bool, hits: nat)

  /** What an end of the loop says about the list. */
  ghost predicate Ends(
    now: seq<Slot>, slots: seq<Slot>, policy: Policy, o: Outcome, length: nat, check: bool, get: Backend)
    requires slots != [] && slots[0].Real?
  {
    match o
    case RefusedAt(n, e) =>
      0 < n <= |slots| && Damning(policy, n, |Hits(slots, n, slots[0].info, check, get)|, e)
    case FirstOnly => policy == First && Sifted(now, slots, 1, 1, check, get) && length == 1
    case Through(all, hits) =>
      Sifted(now, slots, |slots|, length, check, get) && Consistent(policy, all, hits, |slots|, length)
  }

  /** One entry: asks the filter, and moves the entry down over the list when it is kept. */
  method Visit(objs: array<Slot>, filter: ConflictFilter, i: nat, length: nat, check: bool, get: Backend,
               ghost slots: seq<Slot>)
    returns (end: Option<Outcome>, next: nat)
    requires i < objs.Length && Sifted(objs[..], slots, i, length, check, get)
    requires Consistent(filter.policy, filter.all, filter.hits, i, length)
    modifies objs, filter
    ensures match end
      case None =>
        && Sifted(objs[..], slots, i + 1, next, check, get)
        && Consistent(filter.policy, filter.all, filter.hits, i + 1, next)
      case Some(o) => Ends(objs[..], slots, filter.policy, o, next, check, get)
  {
    SiftMore(objs[..], slots, i, length, check, get);
    var o := objs[i];
    var err := SlotComplaint(objs[0].info, o, check, get);
    var proceed, refusal := Ask(filter, err, i, length);
    if refusal.Some? {
      return if proceed then None else Some(RefusedAt(i + 1, refusal.value)), length;
    }
    objs[length] := Settled(o);
    return if proceed then None else Some(FirstOnly), length + 1;
  }

  /** The loop over the entries. */
  method Sift(objs: array<Slot>, policy: Policy, check: bool, get: Backend) returns (o: Outcome, length: nat)
    requires objs.Length > 0 && objs[0].Real?
    modifies objs
    ensures Ends(objs[..], old(objs[..]), policy, o, length, check, get)
  {
    ghost var slots := objs[..];
    var filter := new ConflictFilter(policy);
    length := 0;
    for i := 0 to objs.Length
      invariant Sifted(objs[..], slots, i, length, check, get)
      invariant filter.policy == policy && Consistent(policy, filter.all, filter.hits, i, length)
    {
      var end;
      end, length := Visit(objs, filter, i, length, check, get, slots);
      if end.Some? {
        return end.value, length;
      }
    }
    o := Through(filter.all, filter.hits);
  }

  /** What the policy decides, from how the loop ended. */
  lemma EndsDecide(now: seq<Slot>, slots: seq<Slot>, policy: Policy, o: Outcome, length: nat, check: bool, get: Backend)
    requires slots != [] && slots[0].Real? && policy != Disabled
    requires Ends(now, slots, policy, o, length, check, get)
    ensures var hits := Hits(slots, |slots|, slots[0].info, check, get);
      var d := Decide(policy, hits, |hits| == |slots|);
      if o.RefusedAt? then d == Err(o.reason)
      else
        && 0 < length <= |now| == |slots| && d == Ok(now[..length]) && now[length..] == slots[length..]
  {
    var base := slots[0].info;
    FirstEntryHits(slots, check, get);
    match o {
      case RefusedAt(n, e) =>
        HitsGrow(slots, 1, n, base, check, get);
        RefusalIsFinal(policy, slots, n, base, check, get, e);
      case FirstOnly =>
        var hits := Hits(slots, |slots|, base, check, get);
        assert now[..1] == [slots[0]] && hits[0] == slots[0] && hits[..1] == [hits[0]];
      case Through(_, _) =>
    }
  }

  /** Compacts the list in place under the policy and returns how many entries are left. */
  method GetAllObjs(objs: array<Slot>, policy: Policy, check: bool, get: Backend) returns (r: Result<nat, Error>)
    requires objs.Length > 0 && objs[0].Real? && policy != Disabled
    modifies objs
    ensures var slots := old(objs[..]); var hits := Hits(slots, |slots|, slots[0].info, check, get);
      match Decide(policy, hits, |hits| == |slots|) {
        case Ok(kept) =>
          r == Ok(|kept|) && |kept| <= objs.Length
          && objs[..|kept|] == kept && objs[|kept|..] == slots[|kept|..]
        case Err(e) => r == Err(e)
      }
  {
    ghost var slots := objs[..];
    var o, length := Sift(objs, policy, check, get);
    EndsDecide(objs[..], slots, policy, o, length, check, get);
    if o.RefusedAt? {
      return Err(o.reason);
    }
    if length == 0 {
      return Err(ObjectNotFound);
    }
    r := Ok(length);
  }

  // ---------------------------------------------------------------- the lazy list

  /** `f` is the first configured path that any backend answers for. */
  ghost predicate FirstAnswer(paths: seq<string>, f: nat, get: Backend) {
    && f < |paths| && get(paths[f]).Some?
    && forall j :: 0 <= j < f ==> get(paths[j]).None?
  }

  /** The list `Get` builds: the answer, one nil for all earlier misses, then the paths not probed. */
  ghost function LazyList(paths: seq<string>, f: nat, get: Backend): seq<Slot>
    requires FirstAnswer(paths, f, get)
  {
    [Real(paths[f], get(paths[f]).value)] + (if f > 0 then [Missing] else []) + Unprobed(paths[f + 1..])
  }

  ghost function Unprobed(paths: seq<string>): seq<Slot> {
    seq(|paths|, i requires 0 <= i < |paths| => Temp(paths[i]))
  }

  method Get(paths: seq<string>, get: Backend) returns (r: Result<array<Slot>, Error>)
    ensures r.Err? ==> r.error == ObjectNotFound && forall j :: 0 <= j < |paths| ==> get(paths[j]).None?
    ensures r.Ok? ==> fresh(r.value) && exists f :: FirstAnswer(paths, f, get) && r.value[..] == LazyList(paths, f, get)
  {
    for idx := 0 to |paths|
      invariant forall j :: 0 <= j < idx ==> get(paths[j]).None?
    {
      var answer := get(paths[idx]);
      if answer.None? {
        continue;
      }
      var objs: seq<Slot> := [Real(paths[idx], answer.value)];
      if idx > 0 {
        objs := objs + [Missing];
      }
      ghost var head := objs;
      var rest := paths[idx + 1..];
      for j := 0 to |rest|
        invariant objs == head + Unprobed(rest[..j])
      {
        objs := objs + [Temp(rest[j])];
        assert Unprobed(rest[..j + 1]) == Unprobed(rest[..j]) + [Temp(rest[j])];
      }
      assert rest[..|rest|] == rest;
      assert FirstAnswer(paths, idx, get) && objs == LazyList(paths, idx, get);
      var list := new Slot[|objs|](i requires 0 <= i < |objs| => objs[i]);
      assert list[..] == objs;
      return Ok(list);
    }
    r := Err(ObjectNotFound);
  }

  // ---------------------------------------------------------------- the eager reference

  /** Probing every configured path: the first answer counts, later ones when they agree with it. */
  predicate Agrees(paths: seq<string>, f: nat, i: nat, check: bool, get: Backend)
    requires f < |paths| && i < |paths| && get(paths[f]).Some?
  {
    i == f || (i > f && Complaint(get(paths[f]).value, get(paths[i]), check).None?)
  }

  ghost function EagerHits(paths: seq<string>, f: nat, n: nat, check: bool, get: Backend): seq<string>
    requires f < |paths| && n <= |paths| && get(paths[f]).Some?
  {
    if n == 0 then []
    else
      var front := EagerHits(paths, f, n - 1, check, get);
      if Agrees(paths, f, n - 1, check, get) then front + [paths[n - 1]] else front
  }

  /** The first path from `i` on that a backend answers for, or the number of paths. */
  ghost function FirstFrom(paths: seq<string>, i: nat, get: Backend): (f: nat)
    requires i <= |paths|
    ensures i <= f <= |paths| && (f < |paths| ==> get(paths[f]).Some?)
    ensures forall j :: i <= j < f ==> get(paths[j]).None?
    decreases |paths| - i
  {
    if i == |paths| || get(paths[i]).Some? then i else FirstFrom(paths, i + 1, get)
  }

  /** What a request would do had every configured path been probed up front. */
  ghost function Eager(paths: seq<string>, policy: Policy, check: bool, get: Backend): Result<seq<string>, Error> {
    var f := FirstFrom(paths, 0, get);
    if f == |paths| then Err(ObjectNotFound)
    else
      var hits := EagerHits(paths, f, |paths|, check, get);
      Decide(policy, hits, |hits| == |paths|)
  }

  function Paths(slots: seq<Slot>): seq<string> {
    seq(|slots|, i requires 0 <= i < |slots| => if slots[i].Missing? then "" else slots[i].path)
  }

  lemma {:induction false} NoHitBefore(paths: seq<string>, f: nat, n: nat, check: bool, get: Backend)
    requires FirstAnswer(paths, f, get) && n <= f
    ensures EagerHits(paths, f, n, check, get) == []
  {
    if n > 0 {
      NoHitBefore(paths, f, n - 1, check, get);
    }
  }

  lemma PathsGrow(slots: seq<Slot>, s: Slot)
    requires !s.Missing?
    ensures Paths(slots + [s]) == Paths(slots) + [s.path]
  {
  }

  /** Where the paths not probed stand in the lazy list. */
  lemma {:induction false} LazyAt(paths: seq<string>, f: nat, n: nat, get: Backend)
    requires FirstAnswer(paths, f, get) && f + 1 < n <= |paths|
    ensures var slots, m := LazyList(paths, f, get), n - f + if f > 0 then 1 else 0;
      1 < m <= |slots| && slots[m - 1] == Temp(paths[n - 1])
  {
  }

  /** The answer and the nil before the paths not probed make one hit. */
  lemma {:induction false} LazyHead(paths: seq<string>, f: nat, check: bool, get: Backend)
    requires FirstAnswer(paths, f, get)
    ensures var slots, base, m := LazyList(paths, f, get), get(paths[f]).value, if f > 0 then 2 else 1;
      m <= |slots| && Hits(slots, m, base, check, get) == [slots[0]] && slots[0] == Real(paths[f], base)
    ensures EagerHits(paths, f, f + 1, check, get) == [paths[f]]
  {
    var slots, base := LazyList(paths, f, get), get(paths[f]).value;
    NoHitBefore(paths, f, f, check, get);
    assert slots[0] == Real(paths[f], base);
    FirstEntryHits(slots, check, get);
    assert f > 0 ==> slots[1] == Missing;
  }

  /** The lazy list has the hits of the full probe; its nil stands for all the earlier misses at once. */
  lemma {:induction false} LazyHitsTail(paths: seq<string>, f: nat, n: nat, check: bool, get: Backend)
    requires FirstAnswer(paths, f, get) && f < n <= |paths|
    ensures var slots, base := LazyList(paths, f, get), get(paths[f]).value;
      var m := n - f + if f > 0 then 1 else 0;
      && m <= |slots|
      && Paths(Hits(slots, m, base, check, get)) == EagerHits(paths, f, n, check, get)
      && |Hits(slots, m, base, check, get)| == |EagerHits(paths, f, n, check, get)| <= n - f
    decreases n
  {
    var slots, base := LazyList(paths, f, get), get(paths[f]).value;
    if n == f + 1 {
      LazyHead(paths, f, check, get);
      assert Paths([slots[0]]) == [paths[f]];
    } else {
      var m := n - f + if f > 0 then 1 else 0;
      LazyHitsTail(paths, f, n - 1, check, get);
      LazyAt(paths, f, n, get);
      PathsGrow(Hits(slots, m - 1, base, check, get), Settled(slots[m - 1]));
    }
  }

  lemma DecideOnPaths(policy: Policy, hits: seq<Slot>, complete: bool)
    ensures Decide(policy, Paths(hits), complete) == OnPaths(Decide(policy, hits, complete))
  {
    if hits != [] {
      assert Paths(hits[..1]) == Paths(hits)[..1];
    }
  }

  ghost function OnPaths(r: Result<seq<Slot>, Error>): Result<seq<string>, Error> {
    match r
    case Ok(kept) => Ok(Paths(kept))
    case Err(e) => Err(e)
  }

  /** All hits are there, and none was missed, as far as the lazy list and the full probe can tell. */
  lemma {:induction false} LazyHitsAll(paths: seq<string>, f: nat, check: bool, get: Backend)
    requires FirstAnswer(paths, f, get)
    ensures var slots, base := LazyList(paths, f, get), get(paths[f]).value;
      var hits, eager := Hits(slots, |slots|, base, check, get), EagerHits(paths, f, |paths|, check, get);
      && hits != [] && Paths(hits) == eager
      && (|hits| == |slots| <==> |eager| == |paths|)
  {
    var slots := LazyList(paths, f, get);
    LazyHitsTail(paths, f, |paths|, check, get);
    FirstEntryHits(slots, check, get);
    assert |slots| == |paths| - f + if f > 0 then 1 else 0;
  }

  lemma {:induction false} FirstAnswerIsFirst(paths: seq<string>, f: nat, get: Backend)
    requires FirstAnswer(paths, f, get)
    ensures FirstFrom(paths, 0, get) == f
  {
  }

  /** Deciding on the lazy list is deciding on the full probe. */
  lemma {:induction false} LazyMeetsEager(paths: seq<string>, f: nat, policy: Policy, check: bool, get: Backend)
    requires FirstAnswer(paths, f, get)
    ensures var slots, base := LazyList(paths, f, get), get(paths[f]).value;
      var hits := Hits(slots, |slots|, base, check, get);
      hits != [] && Eager(paths, policy, check, get) == OnPaths(Decide(policy, hits, |hits| == |slots|))
  {
    var slots, base := LazyList(paths, f, get), get(paths[f]).value;
    var hits := Hits(slots, |slots|, base, check, get);
    FirstAnswerIsFirst(paths, f, get);
    LazyHitsAll(paths, f, check, get);
    DecideOnPaths(policy, hits, |hits| == |slots|);
  }

  /**
   The whole read path: probing lazily and compacting in place acts on the paths, or refuses with the
   error, that probing everything would have given.
   */
  method Resolve(paths: seq<string>, policy: Policy, check: bool, get: Backend) returns (r: Result<seq<string>, Error>)
    ensures r == Eager(paths, policy, check, get)
  {
    var list := Get(paths, get);
    if list.Err? {
      return Err(list.error);
    }
    var objs := list.value;
    ghost var f: nat :| FirstAnswer(paths, f, get) && objs[..] == LazyList(paths, f, get);
    LazyMeetsEager(paths, f, policy, check, get);
    if policy == Disabled {
      return Err(PermissionDenied);
    }
    assert objs[..][0].Real? && objs[..][0].info == get(paths[f]).value;
    var n := GetAllObjs(objs, policy, check, get);
    if n.Err? {
      return Err(n.error);
    }
    r := Ok(Paths(objs[..n.value]));
  }

  // ---------------------------------------------------------------- the policies, spelled out

  /**
   A backend answers like `base`: with the same kind of object and, for a file that is to be checked, with
   the same size and no hash that differs where both have one.
   */
  ghost predicate AnswersAlike(base: Info, found: Option<Info>, check: bool) {
    && found.Some? && found.value.isDir == base.isDir
    && (!base.isDir && check ==>
          && found.value.size == base.size
          && forall kind :: kind in base.hashes && kind in found.value.hashes ==>
               found.value.hashes[kind] == "" || found.value.hashes[kind] == base.hashes[kind])
  }

  lemma ComplaintMeans(base: Info, found: Option<Info>, check: bool)
    ensures Complaint(base, found, check).None? <==> AnswersAlike(base, found, check)
    ensures found.Some? && !base.isDir && found.value.isDir ==> Complaint(base, found, check) == Some(NotFile)
    ensures found.Some? && base.isDir && !found.value.isDir ==> Complaint(base, found, check) == Some(NotFolder)
  {
  }

  /** Path `i` is acted on: it is the first that answers, or answers like that one. */
  ghost predicate Hit(paths: seq<string>, f: nat, i: nat, check: bool, get: Backend) {
    f < |paths| && i < |paths| && get(paths[f]).Some?
      && (i == f || (i > f && AnswersAlike(get(paths[f]).value, get(paths[i]), check)))
  }

  /** `ks` are the positions of exactly the hits among the first `n`, in order. */
  ghost predicate HitPositions(ks: seq<nat>, paths: seq<string>, f: nat, n: nat, check: bool, get: Backend) {
    && (forall a, b :: 0 <= a < b < |ks| ==> ks[a] < ks[b])
    && (forall i: nat :: i in ks <==> i < n && Hit(paths, f, i, check, get))
  }

  /** The paths at some positions. */
  ghost function PathsAt(paths: seq<string>, ks: seq<nat>): seq<string>
    requires forall a :: 0 <= a < |ks| ==> ks[a] < |paths|
  {
    seq(|ks|, a requires 0 <= a < |ks| => paths[ks[a]])
  }

  lemma {:induction false} EagerHitsAre(paths: seq<string>, f: nat, n: nat, check: bool, get: Backend)
    returns (ks: seq<nat>)
    requires f < |paths| && n <= |paths| && get(paths[f]).Some?
    ensures HitPositions(ks, paths, f, n, check, get)
    ensures (forall a :: 0 <= a < |ks| ==> ks[a] < |paths|) && EagerHits(paths, f, n, check, get) == PathsAt(paths, ks)
    decreases n
  {
    ks := [];
    if n > 0 {
      var front := EagerHitsAre(paths, f, n - 1, check, get);
      ComplaintMeans(get(paths[f]).value, get(paths[n - 1]), check);
      forall a | 0 <= a < |front| ensures front[a] < n - 1 {
        assert front[a] in front;
      }
      if Agrees(paths, f, n - 1, check, get) {
        ks := front + [n - 1];
        assert PathsAt(paths, ks) == PathsAt(paths, front) + [paths[n - 1]];
      } else {
        ks := front;
      }
    }
  }

  /** How many hits there are, in terms of the positions. */
  lemma {:induction false} CountsMean(ks: seq<nat>, paths: seq<string>, f: nat, check: bool, get: Backend)
    requires HitPositions(ks, paths, f, |paths|, check, get) && FirstAnswer(paths, f, get)
    ensures f in ks && (ks == [] || ks[0] == f)
    ensures |ks| == 1 <==> forall i: nat :: f < i < |paths| ==> !Hit(paths, f, i, check, get)
    ensures |ks| == |paths| <==> forall i: nat :: i < |paths| ==> Hit(paths, f, i, check, get)
  {
    assert Hit(paths, f, f, check, get);
    var at :| 0 <= at < |ks| && ks[at] == f;
    assert ks[0] in ks && Hit(paths, f, ks[0], check, get);
    if |ks| > 1 {
      assert ks[0] < ks[1] && ks[1] in ks;
    }
    if exists i: nat :: f < i < |paths| && Hit(paths, f, i, check, get) {
      var i: nat :| f < i < |paths| && Hit(paths, f, i, check, get);
      assert i in ks;
    }
    forall a | 0 <= a < |ks| ensures ks[a] < |paths| {
      assert ks[a] in ks;
    }
    AllPositions(ks, |paths|);
  }

  /** An ascending list of positions below `n` holds all of them exactly when it is as long as that. */
  lemma {:induction false} AllPositions(ks: seq<nat>, n: nat)
    requires (forall a, b :: 0 <= a < b < |ks| ==> ks[a] < ks[b]) && forall a :: 0 <= a < |ks| ==> ks[a] < n
    ensures |ks| <= n && (|ks| == n <==> forall i: nat :: i < n ==> i in ks)
    decreases n
  {
    if n == 0 {
      assert |ks| == 0;
    } else if ks != [] && ks[|ks| - 1] == n - 1 {
      var front := ks[..|ks| - 1];
      AllPositions(front, n - 1);
      assert ks == front + [n - 1];
      forall i: nat | i < n - 1 ensures i in front <==> i in ks {
      }
      assert n - 1 in ks;
    } else {
      forall a | 0 <= a < |ks| ensures ks[a] < n - 1 {
        assert ks[a] <= ks[|ks| - 1];
      }
      AllPositions(ks, n - 1);
      var last: nat := n - 1;
      assert last !in ks;
    }
  }

  /** A request for paths of which none answers finds nothing. */
  lemma {:induction false} NoAnswer(paths: seq<string>, policy: Policy, check: bool, get: Backend)
    requires forall i :: 0 <= i < |paths| ==> get(paths[i]).None?
    ensures Eager(paths, policy, check, get) == Err(ObjectNotFound)
  {
  }

  /**
   What each policy makes of a request, from the paths and their answers alone: which of the hits are acted
   on, when it is refused, and with which error.
   */
  lemma {:induction false} PoliciesMean(paths: seq<string>, policy: Policy, check: bool, get: Backend, f: nat)
    returns (ks: seq<nat>)
    requires FirstAnswer(paths, f, get)
    ensures HitPositions(ks, paths, f, |paths|, check, get) && forall a :: 0 <= a < |ks| ==> ks[a] < |paths|
    ensures var r := Eager(paths, policy, check, get);
      var single := forall i: nat :: f < i < |paths| ==> !Hit(paths, f, i, check, get);
      var complete := forall i: nat :: i < |paths| ==> Hit(paths, f, i, check, get);
      match policy {
        case Disabled => r == Err(PermissionDenied)
        case First => r == Ok([paths[f]])
        case AllStrict => r == if complete then Ok(PathsAt(paths, ks)) else Err(SamePathLeak)
        case Deterministic => r == if single then Ok([paths[f]]) else Err(PathConflict)
        case DeterministicOrAll => r == if single || complete then Ok(PathsAt(paths, ks)) else Err(SamePathLeak)
        case _ => r == Ok(PathsAt(paths, ks))
      }
  {
    ks := EagerHitsAre(paths, f, |paths|, check, get);
    CountsMean(ks, paths, f, check, get);
    FirstAnswerIsFirst(paths, f, get);
    var hits := PathsAt(paths, ks);
    assert |hits| == |ks| > 0 && hits[0] == paths[f] && hits[..1] == [paths[f]];
    assert |hits| == 1 ==> hits == [paths[f]];
  }
}
