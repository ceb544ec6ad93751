/**
 How the alias driver pairs the sources of a move or a copy with destination directories.
 An object is an interface value: two objects are the same map key only when they are the same
 allocation, so each carries an identity next to its path. `MountTable` stands for a storage lookup
 that answers the same way throughout one request.
 */
module AliasMatching {
  import opened Wrappers

  datatype Obj = Obj(id: nat, path: string)

  type MountTable = string -> Option<string>

  datatype MatchError = VirtualPath(path: string) | NotEnoughSrcObjs

  datatype Action = Moved(src: Obj, dst: Obj) | Removed(src: Obj)

  // ---------------------------------------------------------------- vocabulary

  ghost predicate NoDup<T>(s: seq<T>) {
    forall i, j :: 0 <= i < j < |s| ==> s[i] != s[j]
  }

  function MountOf(o: Obj, mt: MountTable): Option<string> {
    mt(o.path)
  }

  /** The objects whose storage lookup succeeds, in order. */
  ghost function Reachable(objs: seq<Obj>, mt: MountTable): seq<Obj> {
    if objs == [] then []
    else
      var last := objs[|objs| - 1];
      var front := Reachable(objs[..|objs| - 1], mt);
      if MountOf(last, mt).Some? then front + [last] else front
  }

  /** How many objects sit on each mount. */
  ghost function Mounts(objs: seq<Obj>, mt: MountTable): multiset<string> {
    if objs == [] then multiset{}
    else
      var last := MountOf(objs[|objs| - 1], mt);
      var front := Mounts(objs[..|objs| - 1], mt);
      if last.Some? then front + multiset{last.value} else front
  }

  ghost predicate SameMount(a: Obj, b: Obj, mt: MountTable) {
    MountOf(a, mt).Some? && MountOf(a, mt) == MountOf(b, mt)
  }

  /** The number of positions at which source and destination share a mount. */
  ghost function SamePairs(srcs: seq<Obj>, dsts: seq<Obj>, mt: MountTable): nat
    decreases |srcs|
  {
    if srcs == [] || dsts == [] then 0
    else SamePairs(srcs[1..], dsts[1..], mt) + if SameMount(srcs[0], dsts[0], mt) then 1 else 0
  }

  /**
   The sum over all mounts of min(sources there, destinations there): multiset intersection takes
   the smaller multiplicity of each mount.
   */
  ghost function BestPairs(srcs: seq<Obj>, dsts: seq<Obj>, mt: MountTable): nat {
    |Mounts(srcs, mt) * Mounts(dsts, mt)|
  }

  // ---------------------------------------------------------------- multisets of mounts

  lemma {:induction false} MountsConcat(a: seq<Obj>, b: seq<Obj>, mt: MountTable)
    ensures Mounts(a + b, mt) == Mounts(a, mt) + Mounts(b, mt)
  {
    if b == [] {
      assert a + b == a;
    } else {
      MountsConcat(a, b[..|b| - 1], mt);
      assert (a + b)[..|a + b| - 1] == a + b[..|b| - 1];
    }
  }

  lemma {:induction false} MountsRemove(a: seq<Obj>, i: nat, mt: MountTable)
    requires i < |a|
    ensures Mounts(a, mt) == Mounts(a[..i] + a[i + 1..], mt) + Mounts([a[i]], mt)
  {
    assert a == a[..i] + ([a[i]] + a[i + 1..]);
    MountsConcat(a[..i], [a[i]] + a[i + 1..], mt);
    MountsConcat([a[i]], a[i + 1..], mt);
    MountsConcat(a[..i], a[i + 1..], mt);
  }

  /** The mounts of a sub-collection are a sub-collection of the mounts. */
  lemma {:induction false} MountsMonotone(a: seq<Obj>, b: seq<Obj>, mt: MountTable)
    requires multiset(a) <= multiset(b)
    ensures Mounts(a, mt) <= Mounts(b, mt)
    decreases |a|
  {
    if a != [] {
      var front, last := a[..|a| - 1], a[|a| - 1];
      assert a == front + [last];
      var i := TakeOut(b, last, multiset(front));
      MountsMonotone(front, b[..i] + b[i + 1..], mt);
      MountsRemove(b, i, mt);
      MountsConcat(front, [last], mt);
    }
  }

  lemma TakeOut<T>(b: seq<T>, x: T, others: multiset<T>) returns (i: nat)
    requires others + multiset{x} <= multiset(b)
    ensures i < |b| && b[i] == x && others <= multiset(b[..i] + b[i + 1..])
  {
    assert x in multiset(b);
    i :| 0 <= i < |b| && b[i] == x;
    var rest := b[..i] + b[i + 1..];
    assert b == b[..i] + [x] + b[i + 1..];
    assert multiset(b) == multiset(rest) + multiset{x};
    forall y ensures others[y] <= multiset(rest)[y] {
      assert (others + multiset{x})[y] <= multiset(b)[y];
    }
  }

  lemma {:induction false} MountsPermutation(a: seq<Obj>, b: seq<Obj>, mt: MountTable)
    requires multiset(a) == multiset(b)
    ensures Mounts(a, mt) == Mounts(b, mt)
  {
    MountsMonotone(a, b, mt);
    MountsMonotone(b, a, mt);
  }

  lemma {:induction false} MountsOfReachable(a: seq<Obj>, mt: MountTable)
    ensures Mounts(Reachable(a, mt), mt) == Mounts(a, mt)
  {
    if a != [] {
      MountsOfReachable(a[..|a| - 1], mt);
      MountsConcat(Reachable(a[..|a| - 1], mt), [a[|a| - 1]], mt);
    }
  }

  lemma {:induction false} MountsMember(a: seq<Obj>, m: string, mt: MountTable)
    ensures m in Mounts(a, mt) <==> exists o :: o in a && MountOf(o, mt) == Some(m)
  {
    if a != [] {
      var front := a[..|a| - 1];
      assert a == front + [a[|a| - 1]];
      MountsMember(front, m, mt);
    }
  }

  // ---------------------------------------------------------------- optimality

  /** The mounts at which the pairs of an assignment agree. */
  lemma {:induction false} PairsFitBothSides(srcs: seq<Obj>, dsts: seq<Obj>, mt: MountTable)
    returns (agreed: multiset<string>)
    ensures |agreed| == SamePairs(srcs, dsts, mt)
    ensures agreed <= Mounts(srcs, mt) && agreed <= Mounts(dsts, mt)
    decreases |srcs|
  {
    agreed := multiset{};
    if srcs != [] && dsts != [] {
      var rest := PairsFitBothSides(srcs[1..], dsts[1..], mt);
      assert srcs == [srcs[0]] + srcs[1..] && dsts == [dsts[0]] + dsts[1..];
      MountsConcat([srcs[0]], srcs[1..], mt);
      MountsConcat([dsts[0]], dsts[1..], mt);
      agreed := if SameMount(srcs[0], dsts[0], mt) then rest + multiset{MountOf(srcs[0], mt).value} else rest;
    }
  }

  lemma SmallerIsNoLarger<T>(a: multiset<T>, b: multiset<T>)
    requires a <= b
    ensures |a| <= |b|
  {
    assert b == a + (b - a);
  }

  /** No way of assigning sources to destinations one to one has more same-mount pairs. */
  lemma {:induction false} NoAssignmentBeatsBest(
    srcs: seq<Obj>, dsts: seq<Obj>, s: seq<Obj>, d: seq<Obj>, mt: MountTable)
    requires multiset(s) <= multiset(srcs) && multiset(d) <= multiset(dsts)
    ensures SamePairs(s, d, mt) <= BestPairs(srcs, dsts, mt)
  {
    var agreed := PairsFitBothSides(s, d, mt);
    MountsMonotone(s, srcs, mt);
    MountsMonotone(d, dsts, mt);
    SmallerIsNoLarger(agreed, Mounts(srcs, mt) * Mounts(dsts, mt));
  }

  /** Pairs that all agree, followed by two groups with no mount in common, reach the best count. */
  lemma {:induction false} MatchedThenDisjointIsBest(
    ms: seq<Obj>, md: seq<Obj>, rs: seq<Obj>, rd: seq<Obj>, mt: MountTable)
    requires |ms| == |md|
    requires forall i :: 0 <= i < |ms| ==> SameMount(ms[i], md[i], mt)
    requires forall s, d :: s in rs && d in rd ==> !SameMount(s, d, mt)
    ensures SamePairs(ms + rs, md + rd, mt) == |ms| == BestPairs(ms + rs, md + rd, mt)
  {
    AgreeingPairs(ms, md, mt);
    DisjointPairs(rs, rd, mt);
    PairsConcat(ms, md, rs, rd, mt);
    MountsConcat(ms, rs, mt);
    MountsConcat(md, rd, mt);
    DisjointMounts(rs, rd, mt);
    CommonPart(Mounts(ms, mt), Mounts(rs, mt), Mounts(rd, mt));
  }

  lemma {:induction false} DisjointMounts(rs: seq<Obj>, rd: seq<Obj>, mt: MountTable)
    requires forall s, d :: s in rs && d in rd ==> !SameMount(s, d, mt)
    ensures forall m :: m !in Mounts(rs, mt) || m !in Mounts(rd, mt)
  {
    forall m ensures m !in Mounts(rs, mt) || m !in Mounts(rd, mt) {
      MountsMember(rs, m, mt);
      MountsMember(rd, m, mt);
      if m in Mounts(rs, mt) && m in Mounts(rd, mt) {
        var s :| s in rs && MountOf(s, mt) == Some(m);
        var d :| d in rd && MountOf(d, mt) == Some(m);
        assert SameMount(s, d, mt);
      }
    }
  }

  lemma CommonPart<T>(c: multiset<T>, x: multiset<T>, y: multiset<T>)
    requires forall t :: t !in x || t !in y
    ensures (c + x) * (c + y) == c
  {
    forall t ensures ((c + x) * (c + y))[t] == c[t] {
      assert x[t] == 0 || y[t] == 0;
    }
  }

  lemma {:induction false} AgreeingPairs(ms: seq<Obj>, md: seq<Obj>, mt: MountTable)
    requires |ms| == |md|
    requires forall i :: 0 <= i < |ms| ==> SameMount(ms[i], md[i], mt)
    ensures SamePairs(ms, md, mt) == |ms| == |Mounts(ms, mt)|
    ensures Mounts(ms, mt) == Mounts(md, mt)
  {
    if ms != [] {
      AgreeingPairs(ms[1..], md[1..], mt);
      assert SameMount(ms[0], md[0], mt);
      assert ms == [ms[0]] + ms[1..] && md == [md[0]] + md[1..];
      MountsConcat([ms[0]], ms[1..], mt);
      MountsConcat([md[0]], md[1..], mt);
    }
  }

  lemma {:induction false} DisjointPairs(rs: seq<Obj>, rd: seq<Obj>, mt: MountTable)
    requires forall s, d :: s in rs && d in rd ==> !SameMount(s, d, mt)
    ensures SamePairs(rs, rd, mt) == 0
    decreases |rs|
  {
    if rs != [] && rd != [] {
      assert rs[0] in rs && rd[0] in rd;
      DisjointPairs(rs[1..], rd[1..], mt);
    }
  }

  lemma TailConcat<T>(a: seq<T>, b: seq<T>)
    requires a != []
    ensures (a + b)[0] == a[0] && (a + b)[1..] == a[1..] + b
  {
  }

  lemma {:induction false} PairsConcat(ms: seq<Obj>, md: seq<Obj>, rs: seq<Obj>, rd: seq<Obj>, mt: MountTable)
    requires |ms| == |md|
    ensures SamePairs(ms + rs, md + rd, mt) == SamePairs(ms, md, mt) + SamePairs(rs, rd, mt)
  {
    if ms == [] {
      assert ms + rs == rs && md + rd == rd;
    } else {
      PairsConcat(ms[1..], md[1..], rs, rd, mt);
      TailConcat(ms, rs);
      TailConcat(md, rd);
    }
  }

  ghost predicate AgreeAt(s: seq<Obj>, d: seq<Obj>, i: int, mt: MountTable) {
    0 <= i < |s| && i < |d| && mt(s[i].path).Some? && mt(s[i].path) == mt(d[i].path)
  }

  ghost function Agreements(s: seq<Obj>, d: seq<Obj>, n: nat, mt: MountTable): set<int> {
    set i | 0 <= i < n && AgreeAt(s, d, i, mt)
  }

  /** What is counted: the positions at which both lists have an object and the two lookups agree. */
  lemma {:induction false} SamePairsCounts(s: seq<Obj>, d: seq<Obj>, mt: MountTable)
    ensures SamePairs(s, d, mt) ==
      |set i | 0 <= i < |s| && i < |d| && mt(s[i].path).Some? && mt(s[i].path) == mt(d[i].path)|
  {
    var n := if |s| < |d| then |s| else |d|;
    SamePairsCut(s, d, n, mt);
    PrefixCounts(s, d, n, mt);
    assert Agreements(s, d, n, mt)
        == set i | 0 <= i < |s| && i < |d| && mt(s[i].path).Some? && mt(s[i].path) == mt(d[i].path);
  }

  /** Objects past the end of the other list do not count. */
  lemma {:induction false} SamePairsCut(s: seq<Obj>, d: seq<Obj>, n: nat, mt: MountTable)
    requires n <= |s| && n <= |d| && (n == |s| || n == |d|)
    ensures SamePairs(s, d, mt) == SamePairs(s[..n], d[..n], mt)
  {
    assert s == s[..n] + s[n..] && d == d[..n] + d[n..];
    PairsConcat(s[..n], d[..n], s[n..], d[n..], mt);
  }

  lemma AgreementsMore(s: seq<Obj>, d: seq<Obj>, k: nat, mt: MountTable)
    ensures |Agreements(s, d, k + 1, mt)| == |Agreements(s, d, k, mt)| + if AgreeAt(s, d, k, mt) then 1 else 0
  {
    var before, after := Agreements(s, d, k, mt), Agreements(s, d, k + 1, mt);
    assert k !in before;
    forall i ensures i in after <==> i in before || (i == k && AgreeAt(s, d, k, mt)) {
      assert i in after <==> 0 <= i < k + 1 && AgreeAt(s, d, i, mt);
    }
    if AgreeAt(s, d, k, mt) {
      assert after == before + {k};
    } else {
      assert after == before;
    }
  }

  lemma {:induction false} PrefixCounts(s: seq<Obj>, d: seq<Obj>, n: nat, mt: MountTable)
    requires n <= |s| && n <= |d|
    ensures SamePairs(s[..n], d[..n], mt) == |Agreements(s, d, n, mt)|
    decreases n
  {
    if n > 0 {
      var k := n - 1;
      PrefixCounts(s, d, k, mt);
      assert s[..n] == s[..k] + [s[k]] && d[..n] == d[..k] + [d[k]];
      PairsConcat(s[..k], d[..k], [s[k]], [d[k]], mt);
      OnePair(s[k], d[k], mt);
      AgreementsMore(s, d, k, mt);
    }
  }

  lemma {:induction false} OnePair(a: Obj, b: Obj, mt: MountTable)
    ensures SamePairs([a], [b], mt) == if mt(a.path).Some? && mt(a.path) == mt(b.path) then 1 else 0
  {
    assert [a][1..] == [];
  }

  /** The objects on one mount, in order. */
  ghost function OnMount(objs: seq<Obj>, m: string, mt: MountTable): seq<Obj> {
    if objs == [] then []
    else
      var last := objs[|objs| - 1];
      OnMount(objs[..|objs| - 1], m, mt) + if MountOf(last, mt) == Some(m) then [last] else []
  }

  lemma {:induction false} OnMountMore(objs: seq<Obj>, o: Obj, m: string, mt: MountTable)
    ensures OnMount(objs + [o], m, mt) == OnMount(objs, m, mt) + if mt(o.path) == Some(m) then [o] else []
  {
    assert (objs + [o])[..|objs|] == objs;
  }

  lemma {:induction false} OnMountConcat(a: seq<Obj>, b: seq<Obj>, m: string, mt: MountTable)
    ensures OnMount(a + b, m, mt) == OnMount(a, m, mt) + OnMount(b, m, mt)
  {
    if b == [] {
      assert a + b == a;
    } else {
      var front, last := b[..|b| - 1], b[|b| - 1];
      OnMountConcat(a, front, m, mt);
      OnMountMore(a + front, last, m, mt);
      assert a + b == a + front + [last];
    }
  }

  lemma {:induction false} NoneOnMount(objs: seq<Obj>, m: string, mt: MountTable)
    requires forall o :: o in objs ==> MountOf(o, mt) != Some(m)
    ensures OnMount(objs, m, mt) == []
  {
    if objs != [] {
      NoneOnMount(objs[..|objs| - 1], m, mt);
      assert objs[|objs| - 1] in objs;
    }
  }

  // ---------------------------------------------------------------- grouping destinations

  /** `groups` files each destination still to be allocated under its mount, and nothing else. */
  ghost predicate Grouped(groups: map<string, seq<Obj>>, pending: set<Obj>, mt: MountTable) {
    && (forall m :: m in groups ==>
          && groups[m] != [] && NoDup(groups[m])
          && forall o :: o in groups[m] ==> o in pending && MountOf(o, mt) == Some(m))
    && (forall o :: o in pending ==>
          && MountOf(o, mt).Some?
          && MountOf(o, mt).value in groups
          && o in groups[MountOf(o, mt).value])
  }

  function Add(groups: map<string, seq<Obj>>, m: string, o: Obj): map<string, seq<Obj>> {
    groups[m := (if m in groups then groups[m] else []) + [o]]
  }

  function GroupAt(groups: map<string, seq<Obj>>, m: string): seq<Obj> {
    if m in groups then groups[m] else []
  }

  function DropFirst(groups: map<string, seq<Obj>>, m: string): map<string, seq<Obj>>
    requires m in groups && groups[m] != []
  {
    if |groups[m]| == 1 then groups - {m} else groups[m := groups[m][1..]]
  }

  lemma GroupedAdd(groups: map<string, seq<Obj>>, pending: set<Obj>, o: Obj, mt: MountTable)
    requires Grouped(groups, pending, mt) && o !in pending && MountOf(o, mt).Some?
    ensures var m := MountOf(o, mt).value;
            Grouped(Add(groups, m, o), pending + {o}, mt)
  {
  }

  lemma GroupedTake(groups: map<string, seq<Obj>>, pending: set<Obj>, m: string, mt: MountTable)
    requires Grouped(groups, pending, mt) && m in groups
    ensures Grouped(DropFirst(groups, m), pending - {groups[m][0]}, mt)
  {
    assert groups[m] == [groups[m][0]] + groups[m][1..];
    assert groups[m][0] in groups[m];
  }

  lemma {:induction false} AllReachable(objs: seq<Obj>, mt: MountTable)
    ensures Reachable(objs, mt) == objs <==> forall o :: o in objs ==> MountOf(o, mt).Some?
    ensures |Reachable(objs, mt)| <= |objs|
  {
    if objs != [] {
      var front := objs[..|objs| - 1];
      assert objs == front + [objs[|front|]];
      AllReachable(front, mt);
    }
  }

  /** Which objects those are, with how often each occurs. */
  lemma {:induction false} ReachableCounts(objs: seq<Obj>, o: Obj, mt: MountTable)
    ensures multiset(Reachable(objs, mt))[o] == if mt(o.path).Some? then multiset(objs)[o] else 0
  {
    if objs != [] {
      var front, last := objs[..|objs| - 1], objs[|objs| - 1];
      ReachableCounts(front, o, mt);
      assert objs == front + [last];
    }
  }

  /** The refusal names the first destination whose storage lookup fails. */
  ghost predicate NamesFirstVirtual(e: MatchError, dsts: seq<Obj>, mt: MountTable) {
    exists i :: 0 <= i < |dsts| && e == VirtualPath(dsts[i].path)
      && MountOf(dsts[i], mt).None? && Reachable(dsts[..i], mt) == dsts[..i]
  }

  lemma {:induction false} GroupsMore(groups: map<string, seq<Obj>>, objs: seq<Obj>, o: Obj, mt: MountTable)
    requires mt(o.path).Some? && forall m :: GroupAt(groups, m) == OnMount(objs, m, mt)
    ensures forall m :: GroupAt(Add(groups, mt(o.path).value, o), m) == OnMount(objs + [o], m, mt)
  {
    forall m ensures GroupAt(Add(groups, mt(o.path).value, o), m) == OnMount(objs + [o], m, mt) {
      OnMountMore(objs, o, m, mt);
      assert GroupAt(groups, m) == OnMount(objs, m, mt);
    }
  }

  /** The first loop of both assignments: a destination without a storage refuses the request. */
  method GroupByMount(dsts: seq<Obj>, mt: MountTable)
    returns (r: Result<(map<string, seq<Obj>>, set<Obj>), MatchError>)
    requires NoDup(dsts)
    ensures r.Ok? ==> Grouped(r.value.0, r.value.1, mt) && multiset(r.value.1) == multiset(dsts)
    ensures r.Ok? ==> forall m :: GroupAt(r.value.0, m) == OnMount(dsts, m, mt)
    ensures r.Err? ==> NamesFirstVirtual(r.error, dsts, mt)
  {
    var groups: map<string, seq<Obj>> := map[];
    var pending: set<Obj> := {};
    for i := 0 to |dsts|
      invariant Grouped(groups, pending, mt)
      invariant multiset(pending) == multiset(dsts[..i])
      invariant forall m :: GroupAt(groups, m) == OnMount(dsts[..i], m, mt)
    {
      var o := dsts[i];
      if MountOf(o, mt).None? {
        AllPendingReachable(groups, pending, dsts[..i], mt);
        return Err(VirtualPath(o.path));
      }
      assert dsts[..i + 1] == dsts[..i] + [o];
      assert o !in multiset(dsts[..i]);
      GroupedAdd(groups, pending, o, mt);
      GroupsMore(groups, dsts[..i], o, mt);
      groups, pending := Add(groups, MountOf(o, mt).value, o), pending + {o};
    }
    assert dsts[..|dsts|] == dsts;
    r := Ok((groups, pending));
  }

  lemma {:induction false} AllPendingReachable(
    groups: map<string, seq<Obj>>, pending: set<Obj>, objs: seq<Obj>, mt: MountTable)
    requires Grouped(groups, pending, mt) && multiset(pending) == multiset(objs)
    ensures Reachable(objs, mt) == objs
  {
    forall o | o in objs ensures MountOf(o, mt).Some? {
      assert o in multiset(objs);
    }
    AllReachable(objs, mt);
  }

  // ---------------------------------------------------------------- moving

  /** The locals of the matching loop: free destinations, matched sources, sources without a match. */
  datatype Progress =
    Progress(groups: map<string, seq<Obj>>, pending: set<Obj>, matched: seq<Obj>, rest: seq<Obj>)

  /** What the loop has done once the sources `seen` were read and `taken` written over the list. */
  ghost predicate MoveState(kept: seq<Obj>, seen: seq<Obj>, p: Progress, taken: seq<Obj>, mt: MountTable) {
    && Grouped(p.groups, p.pending, mt)
    && |p.matched| == |taken|
    && multiset(taken) + multiset(p.pending) == multiset(kept)
    && (forall k :: 0 <= k < |taken| ==> SameMount(p.matched[k], taken[k], mt))
    && (forall s :: s in p.rest ==> MountOf(s, mt).Some? && MountOf(s, mt).value !in p.groups)
    && multiset(p.matched) + multiset(p.rest) == multiset(Reachable(seen, mt))
  }

  /** On every mount, what was taken and what is free are the destinations there, in order; likewise the sources. */
  ghost predicate InOrder(kept: seq<Obj>, seen: seq<Obj>, p: Progress, taken: seq<Obj>, mt: MountTable) {
    forall m :: InOrderOn(kept, seen, p, taken, m, mt)
  }

  ghost predicate InOrderOn(kept: seq<Obj>, seen: seq<Obj>, p: Progress, taken: seq<Obj>, m: string, mt: MountTable) {
    && OnMount(taken, m, mt) + GroupAt(p.groups, m) == OnMount(kept, m, mt)
    && OnMount(p.matched, m, mt) + OnMount(p.rest, m, mt) == OnMount(seen, m, mt)
  }

  lemma Shift(a: seq<Obj>, x: Obj, b: seq<Obj>)
    ensures (a + [x]) + b == a + ([x] + b)
  {
  }

  lemma DropFirstAt(groups: map<string, seq<Obj>>, m0: string, m: string)
    requires m0 in groups && groups[m0] != []
    ensures GroupAt(DropFirst(groups, m0), m) == if m == m0 then groups[m0][1..] else GroupAt(groups, m)
    ensures groups[m0] == [groups[m0][0]] + groups[m0][1..]
  {
  }

  lemma {:induction false} TakeOn(
    kept: seq<Obj>, p: Progress, q: Progress, taken: seq<Obj>, m0: string, m: string, mt: MountTable)
    requires m0 in p.groups && p.groups[m0] != [] && MountOf(p.groups[m0][0], mt) == Some(m0)
    requires q.groups == DropFirst(p.groups, m0)
    requires OnMount(taken, m, mt) + GroupAt(p.groups, m) == OnMount(kept, m, mt)
    ensures OnMount(taken + [p.groups[m0][0]], m, mt) + GroupAt(q.groups, m) == OnMount(kept, m, mt)
  {
    DropFirstAt(p.groups, m0, m);
    OnMountMore(taken, p.groups[m0][0], m, mt);
    if m == m0 {
      Shift(OnMount(taken, m, mt), p.groups[m0][0], p.groups[m0][1..]);
    } else {
      assert OnMount(taken, m, mt) + [] == OnMount(taken, m, mt);
    }
  }

  lemma {:induction false} MatchOn(
    seen: seq<Obj>, matched: seq<Obj>, rest: seq<Obj>, src: Obj, m: string, mt: MountTable)
    requires OnMount(matched, m, mt) + OnMount(rest, m, mt) == OnMount(seen, m, mt)
    requires mt(src.path) == Some(m) ==> OnMount(rest, m, mt) == []
    ensures OnMount(matched + [src], m, mt) + OnMount(rest, m, mt) == OnMount(seen + [src], m, mt)
  {
    OnMountMore(matched, src, m, mt);
    OnMountMore(seen, src, m, mt);
  }

  lemma {:induction false} TakeInOrder(
    kept: seq<Obj>, seen: seq<Obj>, p: Progress, q: Progress, taken: seq<Obj>, src: Obj, mt: MountTable)
    requires MoveState(kept, seen, p, taken, mt) && InOrder(kept, seen, p, taken, mt)
    requires MountOf(src, mt).Some? && MountOf(src, mt).value in p.groups
    requires q.groups == DropFirst(p.groups, MountOf(src, mt).value)
    requires q.matched == p.matched + [src] && q.rest == p.rest
    ensures InOrder(kept, seen + [src], q, taken + [p.groups[MountOf(src, mt).value][0]], mt)
  {
    var m0 := MountOf(src, mt).value;
    var dst := p.groups[m0][0];
    assert dst in p.groups[m0];
    NoneOnMount(p.rest, m0, mt);
    forall m ensures InOrderOn(kept, seen + [src], q, taken + [dst], m, mt) {
      assert InOrderOn(kept, seen, p, taken, m, mt);
      TakeOn(kept, p, q, taken, m0, m, mt);
      MatchOn(seen, p.matched, p.rest, src, m, mt);
    }
  }

  lemma {:induction false} SkipInOrder(
    kept: seq<Obj>, seen: seq<Obj>, p: Progress, taken: seq<Obj>, src: Obj, mt: MountTable)
    requires InOrder(kept, seen, p, taken, mt)
    ensures InOrder(kept, seen + [src], if MountOf(src, mt).Some? then p.(rest := p.rest + [src]) else p, taken, mt)
  {
    var q := if MountOf(src, mt).Some? then p.(rest := p.rest + [src]) else p;
    forall m ensures InOrderOn(kept, seen + [src], q, taken, m, mt) {
      assert InOrderOn(kept, seen, p, taken, m, mt);
      OnMountMore(seen, src, m, mt);
      OnMountMore(p.rest, src, m, mt);
    }
  }

  /**
   The first `n` pairs share a mount, and on each mount they pair the first sources there with the first
   destinations there, in order. No source changes its place among those on its mount.
   */
  ghost predicate PairedInOrder(
    rs: seq<Obj>, ds: seq<Obj>, srcs: seq<Obj>, kept: seq<Obj>, n: nat, mt: MountTable)
  {
    && n <= |rs| && n <= |ds|
    && (forall i :: 0 <= i < n ==> mt(rs[i].path).Some? && mt(rs[i].path) == mt(ds[i].path))
    && (forall m :: OnMount(rs, m, mt) == OnMount(srcs, m, mt))
    && (forall m :: OnMount(rs[..n], m, mt) <= OnMount(srcs, m, mt))
    && (forall m :: OnMount(ds[..n], m, mt) <= OnMount(kept, m, mt))
  }

  lemma {:induction false} PairsAreInOrder(
    kept: seq<Obj>, srcs: seq<Obj>, p: Progress, taken: seq<Obj>, appended: seq<Obj>, mt: MountTable)
    requires MoveState(kept, srcs, p, taken, mt) && InOrder(kept, srcs, p, taken, mt)
    ensures PairedInOrder(p.matched + p.rest, taken + appended, srcs, kept, |p.matched|, mt)
  {
    var rs, ds := p.matched + p.rest, taken + appended;
    assert rs[..|p.matched|] == p.matched && ds[..|p.matched|] == taken;
    forall i | 0 <= i < |p.matched| ensures mt(rs[i].path).Some? && mt(rs[i].path) == mt(ds[i].path) {
      assert SameMount(p.matched[i], taken[i], mt);
    }
    forall m
      ensures OnMount(rs, m, mt) == OnMount(srcs, m, mt) && OnMount(p.matched, m, mt) <= OnMount(srcs, m, mt)
      ensures OnMount(taken, m, mt) <= OnMount(kept, m, mt)
    {
      assert InOrderOn(kept, srcs, p, taken, m, mt);
      OnMountConcat(p.matched, p.rest, m, mt);
    }
  }

  lemma MoveTakes(kept: seq<Obj>, seen: seq<Obj>, p: Progress, taken: seq<Obj>, src: Obj, mt: MountTable)
    requires MoveState(kept, seen, p, taken, mt)
    requires MountOf(src, mt).Some? && MountOf(src, mt).value in p.groups
    ensures var m := MountOf(src, mt).value; var dst := p.groups[m][0];
            && |taken| < |kept|
            && MoveState(kept, seen + [src],
                         Progress(DropFirst(p.groups, m), p.pending - {dst}, p.matched + [src], p.rest),
                         taken + [dst], mt)
  {
    var m := MountOf(src, mt).value;
    var dst := p.groups[m][0];
    GroupedTake(p.groups, p.pending, m, mt);
    assert dst in p.groups[m];
    TakenMore(kept, p.pending, taken, dst);
    ReachableMore(seen, src, mt);
    forall k | 0 <= k < |taken| + 1 ensures SameMount((p.matched + [src])[k], (taken + [dst])[k], mt) {
      assert k < |taken| ==> SameMount(p.matched[k], taken[k], mt);
    }
  }

  /** A destination goes from the free ones to the taken ones. */
  lemma TakenMore(kept: seq<Obj>, pending: set<Obj>, taken: seq<Obj>, dst: Obj)
    requires multiset(taken) + multiset(pending) == multiset(kept) && dst in pending
    ensures multiset(taken + [dst]) + multiset(pending - {dst}) == multiset(kept) && |taken| < |kept|
  {
    TakeAway(pending, dst);
    assert |multiset(taken) + multiset(pending)| == |multiset(kept)|;
  }

  lemma {:induction false} ReachableMore(seen: seq<Obj>, src: Obj, mt: MountTable)
    ensures Reachable(seen + [src], mt) == Reachable(seen, mt) + if MountOf(src, mt).Some? then [src] else []
  {
    assert (seen + [src])[..|seen|] == seen;
  }

  lemma MoveSkips(kept: seq<Obj>, seen: seq<Obj>, p: Progress, taken: seq<Obj>, src: Obj, mt: MountTable)
    requires MoveState(kept, seen, p, taken, mt)
    requires MountOf(src, mt).Some? ==> MountOf(src, mt).value !in p.groups
    ensures MoveState(kept, seen + [src], if MountOf(src, mt).Some? then p.(rest := p.rest + [src]) else p, taken, mt)
  {
    assert (seen + [src])[..|seen|] == seen;
  }

  lemma MoveRoom(kept: seq<Obj>, seen: seq<Obj>, p: Progress, taken: seq<Obj>, mt: MountTable)
    requires MoveState(kept, seen, p, taken, mt)
    ensures |taken| + |p.pending| == |kept|
  {
    assert |multiset(taken) + multiset(p.pending)| == |multiset(kept)|;
  }

  /** Once every source is read, the pairs taken are as many as any assignment could have. */
  lemma {:induction false} MoveDone(
    kept: seq<Obj>, srcs: seq<Obj>, p: Progress, taken: seq<Obj>, appended: seq<Obj>, mt: MountTable)
    requires MoveState(kept, srcs, p, taken, mt) && multiset(appended) == multiset(p.pending)
    ensures multiset(taken + appended) == multiset(kept)
    ensures multiset(p.matched + p.rest) == multiset(Reachable(srcs, mt))
    ensures SamePairs(p.matched + p.rest, taken + appended, mt) == BestPairs(srcs, kept, mt) == |p.matched|
  {
    forall s, d | s in p.rest && d in appended
      ensures !SameMount(s, d, mt)
    {
      assert d in multiset(appended);
    }
    MatchedThenDisjointIsBest(p.matched, taken, p.rest, appended, mt);
    MountsPermutation(p.matched + p.rest, Reachable(srcs, mt), mt);
    MountsOfReachable(srcs, mt);
    MountsPermutation(taken + appended, kept, mt);
  }

  /** One source takes the oldest free destination on its own mount, or is set aside. */
  method PlaceSource(
    dsts: array<Obj>, src: Obj, p: Progress, mt: MountTable, ghost kept: seq<Obj>, ghost seen: seq<Obj>)
    returns (q: Progress)
    requires |p.matched| <= dsts.Length == |kept|
    requires MoveState(kept, seen, p, dsts[..|p.matched|], mt) && InOrder(kept, seen, p, dsts[..|p.matched|], mt)
    modifies dsts
    ensures |q.matched| <= dsts.Length
    ensures MoveState(kept, seen + [src], q, dsts[..|q.matched|], mt)
    ensures InOrder(kept, seen + [src], q, dsts[..|q.matched|], mt)
  {
    ghost var taken := dsts[..|p.matched|];
    var mount := MountOf(src, mt);
    if mount.Some? && mount.value in p.groups {
      var m := mount.value;
      var dst := p.groups[m][0];
      MoveTakes(kept, seen, p, taken, src, mt);
      dsts[|p.matched|] := dst;
      assert dsts[..|p.matched| + 1] == taken + [dst];
      q := Progress(DropFirst(p.groups, m), p.pending - {dst}, p.matched + [src], p.rest);
      TakeInOrder(kept, seen, p, q, taken, src, mt);
    } else {
      MoveSkips(kept, seen, p, taken, src, mt);
      SkipInOrder(kept, seen, p, taken, src, mt);
      q := if mount.Some? then p.(rest := p.rest + [src]) else p;
    }
  }

  lemma TakeAway(left: set<Obj>, dst: Obj)
    requires dst in left
    ensures multiset(left) == multiset(left - {dst}) + multiset{dst} && |left - {dst}| == |left| - 1
  {
  }

  /** Appends the unallocated destinations, in whatever order the map iteration yields them. */
  method AppendPending(dsts: array<Obj>, from: nat, pending: set<Obj>)
    requires from + |pending| == dsts.Length
    modifies dsts
    ensures dsts[..] == old(dsts[..from]) + dsts[from..]
    ensures multiset(dsts[from..]) == multiset(pending)
  {
    var left := pending;
    var k := from;
    while left != {}
      invariant from <= k && k + |left| == dsts.Length
      invariant dsts[..from] == old(dsts[..from])
      invariant multiset(dsts[from..k]) + multiset(left) == multiset(pending)
    {
      var dst :| dst in left;
      ghost var before := dsts[from..k];
      dsts[k] := dst;
      assert dsts[from..k + 1] == before + [dst];
      assert multiset(dsts[from..k + 1]) == multiset(before) + multiset{dst};
      TakeAway(left, dst);
      left := left - {dst};
      k := k + 1;
    }
    assert dsts[from..k] == dsts[from..];
  }

  /** The second loop of a move, over every kept source. */
  method MatchSources(dsts: array<Obj>, srcs: seq<Obj>, start: Progress, mt: MountTable) returns (p: Progress)
    requires start.matched == [] && MoveState(dsts[..], [], start, [], mt)
    requires InOrder(dsts[..], [], start, [], mt)
    modifies dsts
    ensures |p.matched| <= dsts.Length
    ensures MoveState(old(dsts[..]), srcs, p, dsts[..|p.matched|], mt)
    ensures InOrder(old(dsts[..]), srcs, p, dsts[..|p.matched|], mt)
  {
    ghost var kept := dsts[..];
    p := start;
    for i := 0 to |srcs|
      invariant |p.matched| <= dsts.Length
      invariant MoveState(kept, srcs[..i], p, dsts[..|p.matched|], mt)
      invariant InOrder(kept, srcs[..i], p, dsts[..|p.matched|], mt)
    {
      assert srcs[..i + 1] == srcs[..i] + [srcs[i]];
      p := PlaceSource(dsts, srcs[i], p, mt, kept, srcs[..i]);
    }
    assert srcs[..|srcs|] == srcs;
  }

  /** Why a move is refused: the lengths are compared before any storage is looked up. */
  ghost predicate Fault(e: MatchError, srcs: seq<Obj>, dsts: seq<Obj>, mt: MountTable) {
    if |srcs| < |dsts| then e == NotEnoughSrcObjs else NamesFirstVirtual(e, dsts, mt)
  }

  /** A matching that loses nothing and has as many same-mount pairs as any, each mount's in order. */
  ghost predicate BestMatch(rs: seq<Obj>, ds: seq<Obj>, srcs: seq<Obj>, kept: seq<Obj>, mt: MountTable) {
    && multiset(ds) == multiset(kept)
    && multiset(rs) == multiset(Reachable(srcs, mt))
    && SamePairs(rs, ds, mt) == BestPairs(srcs, kept, mt)
    && PairedInOrder(rs, ds, srcs, kept, BestPairs(srcs, kept, mt), mt)
  }

  /**
   Matches sources to destinations. `dsts` is the kept destination list; it is overwritten while it
   is being consumed and ends as the list the sources are paired with, position by position.
   */
  method GetMoveObjs(dsts: array<Obj>, srcs: seq<Obj>, mt: MountTable) returns (r: Result<seq<Obj>, MatchError>)
    requires NoDup(dsts[..])
    modifies dsts
    ensures r.Ok? <==> |srcs| >= dsts.Length && Reachable(old(dsts[..]), mt) == old(dsts[..])
    ensures r.Err? ==> dsts[..] == old(dsts[..]) && Fault(r.error, srcs, dsts[..], mt)
    ensures r.Ok? ==> BestMatch(r.value, dsts[..], srcs, old(dsts[..]), mt)
  {
    if |srcs| < dsts.Length {
      return Err(NotEnoughSrcObjs);
    }
    ghost var kept := dsts[..];
    var grouped := GroupByMount(dsts[..], mt);
    if grouped.Err? {
      VirtualIsUnreachable(grouped.error, kept, mt);
      return Err(grouped.error);
    }
    var p := Progress(grouped.value.0, grouped.value.1, [], []);
    AllPendingReachable(p.groups, p.pending, kept, mt);
    StartInOrder(kept, p, mt);
    var matched := MatchAll(dsts, srcs, p, mt);
    r := Ok(matched);
  }

  lemma {:induction false} VirtualIsUnreachable(e: MatchError, dsts: seq<Obj>, mt: MountTable)
    requires NamesFirstVirtual(e, dsts, mt)
    ensures Reachable(dsts, mt) != dsts
  {
    AllReachable(dsts, mt);
  }

  /** The loop over the sources, and the leftovers appended. */
  method MatchAll(dsts: array<Obj>, srcs: seq<Obj>, start: Progress, mt: MountTable) returns (matched: seq<Obj>)
    requires start.matched == [] && MoveState(dsts[..], [], start, [], mt) && InOrder(dsts[..], [], start, [], mt)
    modifies dsts
    ensures BestMatch(matched, dsts[..], srcs, old(dsts[..]), mt)
  {
    ghost var kept := dsts[..];
    var p := MatchSources(dsts, srcs, start, mt);
    ghost var taken := dsts[..|p.matched|];
    MoveRoom(kept, srcs, p, taken, mt);
    AppendPending(dsts, |p.matched|, p.pending);
    assert dsts[..] == taken + dsts[|p.matched|..];
    MoveDone(kept, srcs, p, taken, dsts[|p.matched|..], mt);
    PairsAreInOrder(kept, srcs, p, taken, dsts[|p.matched|..], mt);
    matched := p.matched + p.rest;
  }

  lemma {:induction false} StartInOrder(kept: seq<Obj>, p: Progress, mt: MountTable)
    requires p.matched == p.rest == [] && forall m :: GroupAt(p.groups, m) == OnMount(kept, m, mt)
    ensures InOrder(kept, [], p, [], mt)
  {
    forall m ensures InOrderOn(kept, [], p, [], m, mt) {
      assert OnMount([], m, mt) == [];
    }
  }

  /**
   The inequality the source relies on before it appends the leftovers: it holds exactly when
   enough sources have a storage, because a source whose lookup fails is dropped.
   */
  lemma {:induction false} LeftoversSuffice(
    kept: seq<Obj>, srcs: seq<Obj>, p: Progress, taken: seq<Obj>, mt: MountTable)
    requires MoveState(kept, srcs, p, taken, mt)
    ensures |p.rest| >= |p.pending| <==> |Reachable(srcs, mt)| >= |kept|
  {
    MoveRoom(kept, srcs, p, taken, mt);
    assert |multiset(p.matched) + multiset(p.rest)| == |multiset(Reachable(srcs, mt))|;
  }

  /** A source on a virtual path passes the length check and is then lost. */
  lemma VirtualSourceBreaksMove() returns (src: Obj, dst: Obj, mt: MountTable)
    ensures |[src]| >= |[dst]| && Reachable([dst], mt) == [dst]
    ensures |Reachable([src], mt)| < |[dst]|
  {
    src, dst := Obj(0, "/virtual/f"), Obj(1, "/disk/d");
    mt := path => if path == "/disk/d" then Some("/disk") else None;
    assert MountOf(src, mt).None? && MountOf(dst, mt).Some?;
    assert [src][..0] == [] && [dst][..0] == [];
  }

  /** Walks the pairs, then removes the sources that are left over. Indexing past the sources panics. */
  method PerformMove(srcs: seq<Obj>, dsts: seq<Obj>) returns (done: seq<Action>, panicked: bool)
    ensures panicked <==> |srcs| < |dsts|
    ensures |done| == |srcs|
    ensures forall i :: 0 <= i < |srcs| ==>
      done[i] == if i < |dsts| then Moved(srcs[i], dsts[i]) else Removed(srcs[i])
  {
    done, panicked := [], false;
    for i := 0 to |dsts|
      invariant |done| == i <= |srcs|
      invariant forall j :: 0 <= j < i ==> done[j] == Moved(srcs[j], dsts[j])
    {
      if i >= |srcs| {
        return done, true;
      }
      done := done + [Moved(srcs[i], dsts[i])];
    }
    for i := |dsts| to |srcs|
      invariant |done| == i
      invariant forall j :: 0 <= j < i ==>
        done[j] == if j < |dsts| then Moved(srcs[j], dsts[j]) else Removed(srcs[j])
    {
      done := done + [Removed(srcs[i])];
    }
  }

  ghost function Consumed(done: seq<Action>): seq<Obj> {
    seq(|done|, i requires 0 <= i < |done| => done[i].src)
  }

  /** The destinations filled by a list of actions, in order. */
  ghost function Filled(done: seq<Action>): seq<Obj> {
    if done == [] then []
    else
      var front := Filled(done[..|done| - 1]);
      if done[|done| - 1].Moved? then front + [done[|done| - 1].dst] else front
  }

  lemma {:induction false} FilledIs(done: seq<Action>, dsts: seq<Obj>)
    requires forall i :: 0 <= i < |done| ==>
      if i < |dsts| then done[i].Moved? && done[i].dst == dsts[i] else done[i].Removed?
    ensures Filled(done) == if |done| < |dsts| then dsts[..|done|] else dsts
  {
    if done != [] {
      FilledIs(done[..|done| - 1], dsts);
    }
  }

  /** What a move that was not refused does, up to where it may panic. */
  ghost predicate MovesBestPairs(srcs: seq<Obj>, kept: seq<Obj>, done: seq<Action>, mt: MountTable) {
    var best := BestPairs(srcs, kept, mt);
    && (forall i :: 0 <= i < |done| ==> (done[i].Moved? <==> i < |kept|))
    && |Filled(done)| == (if |done| < |kept| then |done| else |kept|)
    && (forall i :: 0 <= i < |Filled(done)| ==> done[i] == Moved(Consumed(done)[i], Filled(done)[i]))
    && SamePairs(Consumed(done), Filled(done), mt) == best
    && PairedInOrder(Consumed(done), Filled(done), srcs, kept, best, mt)
  }

  /**
   A whole move. It ends normally exactly when at least as many sources as destinations have a
   storage; then it fills every kept destination once and moves or removes every such source once. As many
   moves as possible stay on one mount.
   */
  method Move(dsts: array<Obj>, srcs: seq<Obj>, mt: MountTable)
    returns (r: Result<seq<Action>, MatchError>, panicked: bool)
    requires NoDup(dsts[..])
    modifies dsts
    ensures r.Ok? <==> |srcs| >= dsts.Length && Reachable(old(dsts[..]), mt) == old(dsts[..])
    ensures r.Err? ==> Fault(r.error, srcs, old(dsts[..]), mt)
    ensures panicked <==> r.Ok? && |Reachable(srcs, mt)| < dsts.Length
    ensures r.Ok? ==> multiset(Consumed(r.value)) == multiset(Reachable(srcs, mt))
    ensures r.Ok? && !panicked ==> multiset(Filled(r.value)) == multiset(old(dsts[..]))
    ensures r.Ok? ==> MovesBestPairs(srcs, old(dsts[..]), r.value, mt)
  {
    ghost var kept := dsts[..];
    var matched := GetMoveObjs(dsts, srcs, mt);
    if matched.Err? {
      return Err(matched.error), false;
    }
    var ss := matched.value;
    assert |multiset(ss)| == |multiset(Reachable(srcs, mt))|;
    var done, crash := PerformMove(ss, dsts[..]);
    FilledIs(done, dsts[..]);
    assert Consumed(done) == ss;
    PerformedPairs(srcs, kept, ss, dsts[..], done, mt);
    return Ok(done), crash;
  }

  lemma {:induction false} PerformedPairs(
    srcs: seq<Obj>, kept: seq<Obj>, ss: seq<Obj>, ds: seq<Obj>, done: seq<Action>, mt: MountTable)
    requires |ds| == |kept| && |done| == |ss| && Consumed(done) == ss
    requires forall i :: 0 <= i < |ss| ==> done[i] == if i < |ds| then Moved(ss[i], ds[i]) else Removed(ss[i])
    requires Filled(done) == if |done| < |ds| then ds[..|done|] else ds
    requires SamePairs(ss, ds, mt) == BestPairs(srcs, kept, mt)
    requires PairedInOrder(ss, ds, srcs, kept, BestPairs(srcs, kept, mt), mt)
    ensures MovesBestPairs(srcs, kept, done, mt)
  {
    OrderStays(ss, ds, Filled(done), srcs, kept, BestPairs(srcs, kept, mt), mt);
    if |done| < |ds| {
      SamePairsCut(ss, ds, |ss|, mt);
      assert ss[..|ss|] == ss;
    }
  }

  /** Destinations for which there is no source do not count. */
  lemma OrderStays(
    ss: seq<Obj>, ds: seq<Obj>, filled: seq<Obj>, srcs: seq<Obj>, kept: seq<Obj>, n: nat, mt: MountTable)
    requires PairedInOrder(ss, ds, srcs, kept, n, mt) && filled == if |ss| < |ds| then ds[..|ss|] else ds
    ensures PairedInOrder(ss, filled, srcs, kept, n, mt)
  {
    assert filled[..n] == ds[..n];
  }

  // ---------------------------------------------------------------- copying

  /** The first source on mount `m`. */
  ghost function FirstOn(srcs: seq<Obj>, m: string, mt: MountTable): Option<Obj> {
    if srcs == [] then None
    else
      var earlier := FirstOn(srcs[..|srcs| - 1], m, mt);
      var last := srcs[|srcs| - 1];
      if earlier.Some? then earlier
      else if MountOf(last, mt) == Some(m) then Some(last)
      else None
  }

  lemma {:induction false} FirstOnIsFirst(srcs: seq<Obj>, m: string, mt: MountTable)
    ensures FirstOn(srcs, m, mt).None? <==> forall s :: s in srcs ==> MountOf(s, mt) != Some(m)
    ensures FirstOn(srcs, m, mt).Some? ==>
      exists i :: 0 <= i < |srcs| && FirstOn(srcs, m, mt).value == srcs[i] && MountOf(srcs[i], mt) == Some(m)
        && forall j :: 0 <= j < i ==> MountOf(srcs[j], mt) != Some(m)
  {
    if srcs != [] {
      var front := srcs[..|srcs| - 1];
      assert srcs == front + [srcs[|front|]];
      FirstOnIsFirst(front, m, mt);
    }
  }

  ghost predicate FromFirst(src: Obj, dst: Obj, seen: seq<Obj>, mt: MountTable) {
    MountOf(dst, mt).Some? && FirstOn(seen, MountOf(dst, mt).value, mt) == Some(src)
  }

  /** Where a destination's copy comes from once every source has been read. */
  ghost predicate WellSourced(src: Obj, dst: Obj, srcs: seq<Obj>, random: bool, mt: MountTable)
    requires srcs != []
  {
    && MountOf(dst, mt).Some?
    && match FirstOn(srcs, MountOf(dst, mt).value, mt) {
      case Some(first) => src == first
      case None => src in srcs && (!random ==> src == srcs[0])
    }
  }

  ghost predicate CopyState(kept: seq<Obj>, seen: seq<Obj>, p: Progress, taken: seq<Obj>, mt: MountTable) {
    && Grouped(p.groups, p.pending, mt)
    && |p.matched| == |taken|
    && multiset(taken) + multiset(p.pending) == multiset(kept)
    && (forall k :: 0 <= k < |taken| ==> FromFirst(p.matched[k], taken[k], seen, mt))
    && (forall m :: m in p.groups ==> FirstOn(seen, m, mt).None?)
  }

  function Repeat(o: Obj, n: nat): (r: seq<Obj>)
    ensures |r| == n && forall i :: 0 <= i < n ==> r[i] == o
  {
    seq(n, _ => o)
  }

  lemma GroupedDropAll(groups: map<string, seq<Obj>>, pending: set<Obj>, m: string, mt: MountTable)
    requires Grouped(groups, pending, mt) && m in groups
    ensures var group := groups[m];
            && Grouped(groups - {m}, pending - (set o | o in group), mt)
            && multiset(pending) == multiset(pending - (set o | o in group)) + multiset(group)
  {
    var group := groups[m];
    var gone := set o | o in group;
    NoDupMultiset(group);
    assert multiset(pending) == multiset(pending - gone) + multiset(gone);
  }

  lemma {:induction false} NoDupMultiset(s: seq<Obj>)
    requires NoDup(s)
    ensures multiset(s) == multiset(set o | o in s)
  {
    if s != [] {
      var front, last := s[..|s| - 1], s[|s| - 1];
      assert s == front + [last];
      NoDupMultiset(front);
      assert (set o | o in s) == (set o | o in front) + {last};
      assert last !in front;
    }
  }

  lemma CopyTakes(kept: seq<Obj>, seen: seq<Obj>, p: Progress, taken: seq<Obj>, src: Obj, mt: MountTable)
    requires CopyState(kept, seen, p, taken, mt)
    requires MountOf(src, mt).Some? && MountOf(src, mt).value in p.groups
    ensures var m := MountOf(src, mt).value; var group := p.groups[m];
            && |taken| + |group| <= |kept|
            && CopyState(kept, seen + [src],
                         Progress(p.groups - {m}, p.pending - (set o | o in group),
                                  p.matched + Repeat(src, |group|), []),
                         taken + group, mt)
  {
    var m := MountOf(src, mt).value;
    var group := p.groups[m];
    GroupedDropAll(p.groups, p.pending, m, mt);
    assert (seen + [src])[..|seen|] == seen;
    assert |multiset(taken) + multiset(p.pending)| == |multiset(kept)|;
    assert |multiset(p.pending)| >= |multiset(group)|;
    var longer, all := p.matched + Repeat(src, |group|), taken + group;
    forall k | 0 <= k < |all| ensures FromFirst(longer[k], all[k], seen + [src], mt) {
      if k < |taken| {
        assert FromFirst(p.matched[k], taken[k], seen, mt);
      } else {
        assert all[k] in group;
      }
    }
  }

  lemma CopySkips(kept: seq<Obj>, seen: seq<Obj>, p: Progress, taken: seq<Obj>, src: Obj, mt: MountTable)
    requires CopyState(kept, seen, p, taken, mt)
    requires MountOf(src, mt).Some? ==> MountOf(src, mt).value !in p.groups
    ensures CopyState(kept, seen + [src], p, taken, mt)
  {
    assert (seen + [src])[..|seen|] == seen;
    forall k | 0 <= k < |taken| ensures FromFirst(p.matched[k], taken[k], seen + [src], mt) {
      assert FromFirst(p.matched[k], taken[k], seen, mt);
    }
  }

  /** Writes a group of destinations over the list, from position `at` on. */
  method Overwrite(dsts: array<Obj>, at: nat, group: seq<Obj>)
    requires at + |group| <= dsts.Length
    modifies dsts
    ensures dsts[..at + |group|] == old(dsts[..at]) + group
  {
    for j := 0 to |group|
      invariant dsts[..at + j] == old(dsts[..at]) + group[..j]
    {
      ghost var before := dsts[..at + j];
      dsts[at + j] := group[j];
      assert dsts[..at + j + 1] == before + [group[j]];
      assert group[..j + 1] == group[..j] + [group[j]];
    }
    assert group[..|group|] == group;
  }

  /** One source supplies every free destination on its own mount. */
  method ServeMount(dsts: array<Obj>, src: Obj, p: Progress, mt: MountTable, ghost kept: seq<Obj>, ghost seen: seq<Obj>)
    returns (q: Progress)
    requires |p.matched| <= dsts.Length == |kept|
    requires CopyState(kept, seen, p, dsts[..|p.matched|], mt)
    modifies dsts
    ensures |q.matched| <= dsts.Length
    ensures CopyState(kept, seen + [src], q, dsts[..|q.matched|], mt)
  {
    ghost var taken := dsts[..|p.matched|];
    var mount := MountOf(src, mt);
    if mount.Some? && mount.value in p.groups {
      var group := p.groups[mount.value];
      q := Progress(p.groups - {mount.value}, p.pending - (set o | o in group), p.matched + Repeat(src, |group|), []);
      assert CopyState(kept, seen + [src], q, taken + group, mt) && |taken + group| <= |kept| by {
        CopyTakes(kept, seen, p, taken, src, mt);
      }
      assert |q.matched| == |p.matched| + |group|;
      Overwrite(dsts, |p.matched|, group);
      assert dsts[..|q.matched|] == taken + group;
    } else {
      CopySkips(kept, seen, p, taken, src, mt);
      q := p;
    }
  }

  /** The source loop of a copy. */
  method ServeAll(dsts: array<Obj>, srcs: seq<Obj>, start: Progress, mt: MountTable) returns (p: Progress)
    requires start.matched == [] && CopyState(dsts[..], [], start, [], mt)
    modifies dsts
    ensures |p.matched| <= dsts.Length
    ensures CopyState(old(dsts[..]), srcs, p, dsts[..|p.matched|], mt)
  {
    ghost var kept := dsts[..];
    p := start;
    for i := 0 to |srcs|
      invariant |p.matched| <= dsts.Length
      invariant CopyState(kept, srcs[..i], p, dsts[..|p.matched|], mt)
    {
      assert srcs[..i + 1] == srcs[..i] + [srcs[i]];
      p := ServeMount(dsts, srcs[i], p, mt, kept, srcs[..i]);
    }
    assert srcs[..|srcs|] == srcs;
  }

  /** The source of each leftover destination: the first kept source, or a random one. */
  method PickSources(srcs: seq<Obj>, n: nat, random: bool) returns (picked: seq<Obj>)
    requires srcs != []
    ensures |picked| == n
    ensures forall k :: 0 <= k < n ==> picked[k] in srcs && (!random ==> picked[k] == srcs[0])
  {
    picked := [];
    for i := 0 to n
      invariant |picked| == i
      invariant forall k :: 0 <= k < i ==> picked[k] in srcs && (!random ==> picked[k] == srcs[0])
    {
      var src := srcs[0];
      if random {
        var draw :| 0 <= draw < |srcs|;
        src := srcs[draw];
      }
      picked := picked + [src];
    }
  }

  /** Every kept destination ends up listed exactly once, each with the source it must have. */
  lemma CopyDone(kept: seq<Obj>, srcs: seq<Obj>, p: Progress, taken: seq<Obj>, appended: seq<Obj>,
                 picked: seq<Obj>, random: bool, mt: MountTable)
    requires srcs != [] && CopyState(kept, srcs, p, taken, mt)
    requires multiset(appended) == multiset(p.pending) && |picked| == |appended|
    requires forall k :: 0 <= k < |picked| ==> picked[k] in srcs && (!random ==> picked[k] == srcs[0])
    ensures multiset(taken + appended) == multiset(kept)
    ensures forall k :: 0 <= k < |kept| ==>
      |p.matched + picked| == |taken + appended| == |kept|
      && WellSourced((p.matched + picked)[k], (taken + appended)[k], srcs, random, mt)
  {
    assert |multiset(taken + appended)| == |multiset(kept)|;
    forall k | 0 <= k < |kept|
      ensures WellSourced((p.matched + picked)[k], (taken + appended)[k], srcs, random, mt)
    {
      if k < |taken| {
        assert FromFirst(p.matched[k], taken[k], srcs, mt);
      } else {
        var d := appended[k - |taken|];
        assert d in multiset(appended);
        assert d in p.pending;
      }
    }
  }

  /** Pairs sources with destinations for a copy, overwriting the destination list while assigning. */
  method GetCopyObjs(dsts: array<Obj>, srcs: seq<Obj>, random: bool, mt: MountTable)
    returns (r: Result<seq<Obj>, MatchError>)
    requires NoDup(dsts[..]) && srcs != []
    modifies dsts
    ensures r.Ok? <==> Reachable(old(dsts[..]), mt) == old(dsts[..])
    ensures r.Err? ==> dsts[..] == old(dsts[..]) && NamesFirstVirtual(r.error, old(dsts[..]), mt)
    ensures r.Ok? ==>
      && |r.value| == dsts.Length
      && multiset(dsts[..]) == multiset(old(dsts[..]))
      && forall k :: 0 <= k < dsts.Length ==> WellSourced(r.value[k], dsts[..][k], srcs, random, mt)
  {
    ghost var kept := dsts[..];
    AllReachable(kept, mt);
    var grouped := GroupByMount(dsts[..], mt);
    if grouped.Err? {
      return Err(grouped.error);
    }
    var p := Progress(grouped.value.0, grouped.value.1, [], []);
    AllPendingReachable(p.groups, p.pending, kept, mt);
    p := ServeAll(dsts, srcs, p, mt);
    ghost var taken := dsts[..|p.matched|];
    CopyRoom(kept, srcs, p, taken, mt);
    AppendPending(dsts, |p.matched|, p.pending);
    var picked := PickSources(srcs, |p.pending|, random);
    CopyDone(kept, srcs, p, taken, dsts[|p.matched|..], picked, random, mt);
    r := Ok(p.matched + picked);
  }

  lemma CopyRoom(kept: seq<Obj>, seen: seq<Obj>, p: Progress, taken: seq<Obj>, mt: MountTable)
    requires CopyState(kept, seen, p, taken, mt)
    ensures |taken| + |p.pending| == |kept|
  {
    assert |multiset(taken) + multiset(p.pending)| == |multiset(kept)|;
  }
}
