/**
 The callback admission limiters as a state machine. Every mutation in the driver happens under the
 table lock or under one limiter's lock, so an interleaving is a sequence of the atomic steps below.
 The wake-up channel is a generation counter: closing it and making a new one is one increment, and a
 channel captured at generation `g` is still open exactly while the counter is `g`.

 `L`, `R` and `P` are the identities of limiters, registrations and permits.
 */
module LimiterProtocol {
  const DEFAULT_CONCURRENCY := 1

  datatype Limiter = Limiter(user: string, active: int, nextID: nat, regs: map<nat, int>, gen: nat) {
    predicate Live() {
      regs != map[] || active != 0
    }
  }

  datatype Reg<L> = Reg(limiter: L, id: nat, done: bool)

  datatype Permit<L> = Permit(limiter: L, done: bool)

  /** A goroutine that found no room and kept the channel of generation `gen`. */
  datatype Waiter<L> = Waiter(limiter: L, gen: nat)

  datatype State<L(==), R(==), P(==)> = State(
    table: map<string, L>,
    limiters: map<L, Limiter>,
    regs: map<R, Reg<L>>,
    permits: map<P, Permit<L>>,
    waiters: set<Waiter<L>>)

  datatype Event<L(==), R(==), P(==)> =
    | Register(user: string, limit: int, newLimiter: L, newReg: R)
    | Unregister(reg: R)
    | TryAcquire(owner: R, newPermit: P)
    | Release(permit: P)

  // ---------------------------------------------------------------- the steps

  function Normalize(limit: int): (r: int)
    ensures r >= 1 && (if limit >= 1 then r == limit else r == 1)
  {
    if limit <= 0 then DEFAULT_CONCURRENCY else limit
  }

  /** `x` is the smallest registered limit, or 0 when nothing is registered. */
  ghost predicate IsLimit(regs: map<nat, int>, x: int) {
    if regs == map[] then x == 0
    else x in regs.Values && forall id :: id in regs ==> x <= regs[id]
  }

  ghost function Limit(regs: map<nat, int>): (x: int)
    ensures IsLimit(regs, x)
  {
    LimitExists(regs, regs.Keys);
    var x :| IsLimit(regs, x);
    x
  }

  lemma {:induction false} LimitExists(regs: map<nat, int>, ids: set<nat>)
    requires ids <= regs.Keys
    ensures ids != {} ==> exists id :: id in ids && forall j :: j in ids ==> regs[id] <= regs[j]
    ensures ids == regs.Keys ==> exists x :: IsLimit(regs, x)
    decreases ids
  {
    if ids != {} {
      var one :| one in ids;
      LimitExists(regs, ids - {one});
      var least := one;
      if ids - {one} != {} {
        var id :| id in ids - {one} && forall j :: j in ids - {one} ==> regs[id] <= regs[j];
        least := if regs[one] < regs[id] then one else id;
      }
      forall j | j in ids ensures regs[least] <= regs[j] {
        assert j != one ==> j in ids - {one};
      }
      if ids == regs.Keys {
        assert IsLimit(regs, regs[least]);
      }
    } else if regs.Keys == {} {
      assert IsLimit(regs, 0);
    }
  }

  /** A call somebody can make: it uses handles that exist and creates what does not. */
  ghost predicate Enabled<L, R, P>(s: State<L, R, P>, e: Event<L, R, P>) {
    match e
    case Register(user, _, newLimiter, newReg) =>
      (if user in s.table then s.table[user] in s.limiters else newLimiter !in s.limiters) && newReg !in s.regs
    case Unregister(reg) => reg in s.regs && s.regs[reg].limiter in s.limiters
    case TryAcquire(owner, newPermit) =>
      && owner in s.regs && s.regs[owner].limiter in s.limiters
      && (HasRoom(s.limiters[s.regs[owner].limiter]) ==> newPermit !in s.permits)
    case Release(permit) => permit in s.permits && s.permits[permit].limiter in s.limiters
  }

  ghost predicate HasRoom(lim: Limiter) {
    lim.active < Limit(lim.regs)
  }

  /** There is room when something is registered and fewer permits are out than every registered limit. */
  lemma RoomMeans(lim: Limiter)
    requires lim.active >= 0
    ensures HasRoom(lim) <==> lim.regs != map[] && forall id :: id in lim.regs ==> lim.active < lim.regs[id]
  {
    assert IsLimit(lim.regs, Limit(lim.regs));
  }

  /** Finding the user's limiter, which is created and listed when there is none. */
  ghost function ListStep<L, R, P>(s: State<L, R, P>, user: string, newLimiter: L): State<L, R, P> {
    if user in s.table then s
    else s.(table := s.table[user := newLimiter],
            limiters := s.limiters[newLimiter := Limiter(user, 0, 0, map[], 0)])
  }

  ghost function AttachStep<L, R, P>(s: State<L, R, P>, l: L, limit: int, newReg: R): State<L, R, P>
    requires l in s.limiters
  {
    var was := s.limiters[l];
    var id := was.nextID + 1;
    s.(limiters := s.limiters[l := was.(nextID := id, regs := was.regs[id := Normalize(limit)], gen := was.gen + 1)],
       regs := s.regs[newReg := Reg(l, id, false)])
  }

  ghost function RegisterStep<L, R, P>(
    s: State<L, R, P>, user: string, limit: int, newLimiter: L, newReg: R): State<L, R, P>
    requires Enabled(s, Register(user, limit, newLimiter, newReg))
  {
    var t := ListStep(s, user, newLimiter);
    AttachStep(t, t.table[user], limit, newReg)
  }

  /** The table after limiter `l` has reached the state `lim`: a limiter with nothing left is dropped. */
  function Evict<L>(table: map<string, L>, lim: Limiter): map<string, L> {
    if lim.Live() then table else table - {lim.user}
  }

  ghost function UnregisterStep<L, R, P>(s: State<L, R, P>, reg: R): State<L, R, P>
    requires Enabled(s, Unregister(reg))
  {
    var r := s.regs[reg];
    if r.done then s
    else
      var was := s.limiters[r.limiter];
      var lim := was.(regs := was.regs - {r.id}, gen := was.gen + 1);
      s.(table := Evict(s.table, lim),
         limiters := s.limiters[r.limiter := lim],
         regs := s.regs[reg := r.(done := true)])
  }

  ghost function Admitting<L, R, P>(s: State<L, R, P>, l: L, p: P): State<L, R, P>
    requires l in s.limiters
  {
    s.(limiters := s.limiters[l := s.limiters[l].(active := s.limiters[l].active + 1)],
       permits := s.permits[p := Permit(l, false)])
  }

  ghost function Waiting<L, R, P>(s: State<L, R, P>, w: Waiter<L>): State<L, R, P> {
    s.(waiters := s.waiters + {w})
  }

  ghost function TryAcquireStep<L, R, P>(s: State<L, R, P>, owner: R, newPermit: P): State<L, R, P>
    requires Enabled(s, TryAcquire(owner, newPermit))
  {
    var l := s.regs[owner].limiter;
    var lim := s.limiters[l];
    if HasRoom(lim) then Admitting(s, l, newPermit) else Waiting(s, Waiter(l, lim.gen))
  }

  ghost function ReleaseStep<L, R, P>(s: State<L, R, P>, permit: P): State<L, R, P>
    requires Enabled(s, Release(permit))
  {
    var p := s.permits[permit];
    if p.done then s
    else
      var was := s.limiters[p.limiter];
      var lim := was.(active := was.active - 1, gen := was.gen + 1);
      s.(table := Evict(s.table, lim),
         limiters := s.limiters[p.limiter := lim],
         permits := s.permits[permit := p.(done := true)])
  }

  ghost function Step<L, R, P>(s: State<L, R, P>, e: Event<L, R, P>): State<L, R, P>
    requires Enabled(s, e)
  {
    match e
    case Register(user, limit, newLimiter, newReg) => RegisterStep(s, user, limit, newLimiter, newReg)
    case Unregister(reg) => UnregisterStep(s, reg)
    case TryAcquire(owner, newPermit) => TryAcquireStep(s, owner, newPermit)
    case Release(permit) => ReleaseStep(s, permit)
  }

  // ---------------------------------------------------------------- the invariant

  ghost function Outstanding<L, R, P>(s: State<L, R, P>, l: L): set<P> {
    set p | p in s.permits && s.permits[p].limiter == l && !s.permits[p].done
  }

  /** The table names only known limiters, each under its own user. */
  ghost predicate TableInv<L, R, P>(s: State<L, R, P>) {
    forall u :: u in s.table ==> s.table[u] in s.limiters && s.limiters[s.table[u]].user == u
  }

  ghost predicate Listed<L, R, P>(s: State<L, R, P>, l: L)
    requires l in s.limiters
  {
    var u := s.limiters[l].user;
    u in s.table && s.table[u] == l
  }

  /** A limiter is in the table exactly while it has a registration or an unreleased permit. */
  ghost predicate LiveInv<L, R, P>(s: State<L, R, P>) {
    forall l :: l in s.limiters ==> (Listed(s, l) <==> s.limiters[l].Live())
  }

  /** `active` counts the unreleased permits. */
  ghost predicate PermitInv<L, R, P>(s: State<L, R, P>) {
    && (forall p :: p in s.permits ==> s.permits[p].limiter in s.limiters)
    && (forall l :: l in s.limiters ==> s.limiters[l].active == |Outstanding(s, l)|)
  }

  /** A handed-out registration is on its limiter's list exactly until it is given back. */
  ghost predicate RegInv<L, R, P>(s: State<L, R, P>) {
    forall r :: r in s.regs ==> RegOk(s, s.regs[r])
  }

  ghost predicate RegOk<L, R, P>(s: State<L, R, P>, g: Reg<L>) {
    && g.limiter in s.limiters
    && g.id <= s.limiters[g.limiter].nextID
    && (g.id in s.limiters[g.limiter].regs <==> !g.done)
  }

  ghost predicate DistinctInv<L, R, P>(s: State<L, R, P>) {
    forall r, q :: r in s.regs && q in s.regs && r != q && s.regs[r].limiter == s.regs[q].limiter ==>
      s.regs[r].id != s.regs[q].id
  }

  /** Nothing is on a limiter's list but registrations somebody still holds. */
  ghost predicate OwnerInv<L, R, P>(s: State<L, R, P>) {
    forall l, id :: l in s.limiters && id in s.limiters[l].regs ==> Owned(s, l, id)
  }

  ghost predicate Owned<L, R, P>(s: State<L, R, P>, l: L, id: nat) {
    exists r :: r in s.regs && s.regs[r] == Reg(l, id, false)
  }

  ghost predicate LimitInv<L, R, P>(s: State<L, R, P>) {
    forall l, id :: l in s.limiters && id in s.limiters[l].regs ==>
      id <= s.limiters[l].nextID && s.limiters[l].regs[id] >= 1
  }

  /** No lost wake-up: while the captured channel is open there is still no room. */
  ghost predicate WaitInv<L, R, P>(s: State<L, R, P>) {
    forall w :: w in s.waiters ==> WaitOk(s, w)
  }

  ghost predicate WaitOk<L, R, P>(s: State<L, R, P>, w: Waiter<L>) {
    && w.limiter in s.limiters
    && w.gen <= s.limiters[w.limiter].gen
    && (w.gen == s.limiters[w.limiter].gen ==>
          s.limiters[w.limiter].active >= Limit(s.limiters[w.limiter].regs))
  }

  ghost predicate Inv<L, R, P>(s: State<L, R, P>) {
    && TableInv(s) && LiveInv(s)
    && PermitInv(s)
    && RegInv(s) && DistinctInv(s) && OwnerInv(s) && LimitInv(s)
    && WaitInv(s)
  }

  ghost function Init<L, R, P>(): State<L, R, P> {
    State(map[], map[], map[], map[], {})
  }

  // ---------------------------------------------------------------- one limiter changes

  /** A change that closes the old channel, or only fills the limiter further, strands no waiter. */
  lemma WaitKept<L, R, P>(s: State<L, R, P>, t: State<L, R, P>, l: L, lim: Limiter)
    requires WaitInv(s) && t.limiters == s.limiters[l := lim] && t.waiters == s.waiters
    requires l in s.limiters ==>
      || lim.gen > s.limiters[l].gen
      || (lim.gen == s.limiters[l].gen && lim.regs == s.limiters[l].regs && lim.active >= s.limiters[l].active)
    ensures WaitInv(t)
  {
    forall w | w in t.waiters ensures WaitOk(t, w) {
      assert WaitOk(s, w);
    }
  }

  /** Dropping a live limiter that just ran empty removes its own entry and no other. */
  lemma EvictKept<L, R, P>(s: State<L, R, P>, t: State<L, R, P>, l: L, lim: Limiter)
    requires TableInv(s) && LiveInv(s) && l in s.limiters && s.limiters[l].Live()
    requires lim.user == s.limiters[l].user
    requires t.limiters == s.limiters[l := lim] && t.table == Evict(s.table, lim)
    ensures TableInv(t) && LiveInv(t)
  {
    assert Listed(s, l);
    forall k | k in t.limiters ensures Listed(t, k) <==> t.limiters[k].Live() {
      if k != l {
        assert Listed(s, k) <==> s.limiters[k].Live();
      }
    }
  }

  lemma PermitsKept<L, R, P>(s: State<L, R, P>, t: State<L, R, P>, l: L, lim: Limiter)
    requires PermitInv(s) && t.limiters == s.limiters[l := lim] && t.permits == s.permits
    requires lim.active == if l in s.limiters then s.limiters[l].active else 0
    ensures PermitInv(t)
  {
    forall k | k in t.limiters ensures t.limiters[k].active == |Outstanding(t, k)| {
      assert Outstanding(t, k) == Outstanding(s, k);
      if k !in s.limiters {
        assert Outstanding(s, k) == {};
      }
    }
  }

  /** A change that leaves the registration list alone keeps everything said about registrations. */
  lemma RegsKept<L, R, P>(s: State<L, R, P>, t: State<L, R, P>, l: L, lim: Limiter)
    requires RegInv(s) && DistinctInv(s) && OwnerInv(s) && LimitInv(s)
    requires l in s.limiters && t.limiters == s.limiters[l := lim] && t.regs == s.regs
    requires lim.regs == s.limiters[l].regs && lim.nextID == s.limiters[l].nextID
    ensures RegInv(t) && DistinctInv(t) && OwnerInv(t) && LimitInv(t)
  {
    forall r | r in t.regs ensures RegOk(t, t.regs[r]) {
      assert RegOk(s, s.regs[r]);
    }
    forall k, id | k in t.limiters && id in t.limiters[k].regs ensures Owned(t, k, id) {
      assert Owned(s, k, id);
    }
  }

  // ---------------------------------------------------------------- preservation

  lemma RegisterKeeps<L, R, P>(s: State<L, R, P>, user: string, limit: int, l: L, r: R)
    requires Inv(s) && Enabled(s, Register(user, limit, l, r))
    ensures Inv(RegisterStep(s, user, limit, l, r))
  {
    var t := RegisterStep(s, user, limit, l, r);
    var m := if user in s.table then s.table[user] else l;
    WaitKept(s, t, m, t.limiters[m]);
    PermitsKept(s, t, m, t.limiters[m]);
    RegisterTable(s, user, limit, l, r);
    RegisterRegs(s, user, limit, l, r);
    RegisterDistinct(s, user, limit, l, r);
    RegisterOwners(s, user, limit, l, r);
  }

  lemma RegisterTable<L, R, P>(s: State<L, R, P>, user: string, limit: int, l: L, r: R)
    requires Enabled(s, Register(user, limit, l, r)) && TableInv(s) && LiveInv(s)
    ensures var t := RegisterStep(s, user, limit, l, r); TableInv(t) && LiveInv(t)
  {
    var t := RegisterStep(s, user, limit, l, r);
    var m := if user in s.table then s.table[user] else l;
    assert t.limiters[m].nextID in t.limiters[m].regs;
    forall k | k in t.limiters ensures Listed(t, k) <==> t.limiters[k].Live() {
      if k != m {
        assert Listed(s, k) <==> s.limiters[k].Live();
      }
    }
  }

  lemma RegisterRegs<L, R, P>(s: State<L, R, P>, user: string, limit: int, l: L, r: R)
    requires Enabled(s, Register(user, limit, l, r)) && RegInv(s) && LimitInv(s)
    ensures var t := RegisterStep(s, user, limit, l, r); RegInv(t) && LimitInv(t)
  {
    var t := RegisterStep(s, user, limit, l, r);
    forall q | q in t.regs ensures RegOk(t, t.regs[q]) {
      if q != r {
        assert RegOk(s, s.regs[q]);
      }
    }
  }

  lemma RegisterDistinct<L, R, P>(s: State<L, R, P>, user: string, limit: int, l: L, r: R)
    requires Enabled(s, Register(user, limit, l, r)) && RegInv(s) && DistinctInv(s)
    ensures DistinctInv(RegisterStep(s, user, limit, l, r))
  {
    var t := RegisterStep(s, user, limit, l, r);
    forall q | q in s.regs ensures s.regs[q].limiter == t.regs[r].limiter ==> s.regs[q].id != t.regs[r].id {
      assert RegOk(s, s.regs[q]);
    }
  }

  lemma RegisterOwners<L, R, P>(s: State<L, R, P>, user: string, limit: int, l: L, r: R)
    requires Enabled(s, Register(user, limit, l, r)) && OwnerInv(s)
    ensures OwnerInv(RegisterStep(s, user, limit, l, r))
  {
    var t := RegisterStep(s, user, limit, l, r);
    forall k, id | k in t.limiters && id in t.limiters[k].regs ensures Owned(t, k, id) {
      if k in s.limiters && id in s.limiters[k].regs {
        assert Owned(s, k, id);
        var q :| q in s.regs && s.regs[q] == Reg(k, id, false);
        assert t.regs[q] == Reg(k, id, false);
      } else {
        assert t.regs[r] == Reg(k, id, false);
      }
    }
  }

  lemma UnregisterKeeps<L, R, P>(s: State<L, R, P>, r: R)
    requires Inv(s) && Enabled(s, Unregister(r))
    ensures Inv(UnregisterStep(s, r))
  {
    var t := UnregisterStep(s, r);
    if !s.regs[r].done {
      var l := s.regs[r].limiter;
      var lim := t.limiters[l];
      assert RegOk(s, s.regs[r]);
      WaitKept(s, t, l, lim);
      EvictKept(s, t, l, lim);
      PermitsKept(s, t, l, lim);
      UnregisterRegs(s, t, r);
      UnregisterOwners(s, t, r);
    }
  }

  lemma UnregisterRegs<L, R, P>(s: State<L, R, P>, t: State<L, R, P>, r: R)
    requires Enabled(s, Unregister(r)) && t == UnregisterStep(s, r)
    requires RegInv(s) && DistinctInv(s) && LimitInv(s)
    ensures RegInv(t) && DistinctInv(t) && LimitInv(t)
  {
    forall q | q in t.regs ensures RegOk(t, t.regs[q]) {
      assert RegOk(s, s.regs[q]) && RegOk(s, s.regs[r]);
    }
  }

  lemma UnregisterOwners<L, R, P>(s: State<L, R, P>, t: State<L, R, P>, r: R)
    requires Enabled(s, Unregister(r)) && t == UnregisterStep(s, r) && OwnerInv(s)
    ensures OwnerInv(t)
  {
    forall k, id | k in t.limiters && id in t.limiters[k].regs ensures Owned(t, k, id) {
      assert Owned(s, k, id);
      var q :| q in s.regs && s.regs[q] == Reg(k, id, false);
      assert t.regs[q] == Reg(k, id, false);
    }
  }

  lemma TryAcquireKeeps<L, R, P>(s: State<L, R, P>, owner: R, p: P)
    requires Inv(s) && Enabled(s, TryAcquire(owner, p))
    ensures Inv(TryAcquireStep(s, owner, p))
  {
    var l := s.regs[owner].limiter;
    if HasRoom(s.limiters[l]) {
      AdmittingKeeps(s, Admitting(s, l, p), l, p);
    } else {
      WaitingKeeps(s, Waiting(s, Waiter(l, s.limiters[l].gen)), Waiter(l, s.limiters[l].gen));
    }
  }

  lemma AdmittingKeeps<L, R, P>(s: State<L, R, P>, t: State<L, R, P>, l: L, p: P)
    requires Inv(s) && l in s.limiters && HasRoom(s.limiters[l]) && p !in s.permits
    requires t == Admitting(s, l, p)
    ensures Inv(t)
  {
    var lim := s.limiters[l];
    TryAcquirePermits(s, t, l, p);
    WaitKept(s, t, l, t.limiters[l]);
    assert lim.regs != map[] by {
      assert IsLimit(lim.regs, Limit(lim.regs));
    }
    EvictKept(s, t, l, t.limiters[l]);
    RegsKept(s, t, l, t.limiters[l]);
  }

  lemma WaitingKeeps<L, R, P>(s: State<L, R, P>, t: State<L, R, P>, w: Waiter<L>)
    requires Inv(s) && WaitOk(s, w) && t == Waiting(s, w)
    ensures Inv(t)
  {
    var l := w.limiter;
    assert t.limiters == s.limiters[l := s.limiters[l]];
    PermitsKept(s, t, l, s.limiters[l]);
    RegsKept(s, t, l, s.limiters[l]);
    forall k | k in t.limiters ensures Listed(t, k) <==> t.limiters[k].Live() {
      assert Listed(s, k) <==> s.limiters[k].Live();
    }
    forall v | v in t.waiters ensures WaitOk(t, v) {
      assert v != w ==> WaitOk(s, v);
    }
  }

  lemma TryAcquirePermits<L, R, P>(s: State<L, R, P>, t: State<L, R, P>, l: L, p: P)
    requires PermitInv(s) && l in s.limiters && p !in s.permits
    requires t.limiters == s.limiters[l := s.limiters[l].(active := s.limiters[l].active + 1)]
    requires t.permits == s.permits[p := Permit(l, false)]
    ensures PermitInv(t) && s.limiters[l].active >= 0
  {
    forall k | k in t.limiters ensures t.limiters[k].active == |Outstanding(t, k)| {
      OneMorePermit(s, t, l, p, k);
    }
  }

  lemma OneMorePermit<L, R, P>(s: State<L, R, P>, t: State<L, R, P>, l: L, p: P, k: L)
    requires p !in s.permits && t.permits == s.permits[p := Permit(l, false)]
    ensures |Outstanding(t, k)| == |Outstanding(s, k)| + if k == l then 1 else 0
  {
    var before, after := Outstanding(s, k), Outstanding(t, k);
    forall q ensures q in after <==> q in before || (q == p && k == l) {
    }
    if k == l {
      assert p !in before && after == before + {p};
    } else {
      assert after == before;
    }
  }

  lemma ReleaseKeeps<L, R, P>(s: State<L, R, P>, p: P)
    requires Inv(s) && Enabled(s, Release(p))
    ensures Inv(ReleaseStep(s, p))
  {
    var t := ReleaseStep(s, p);
    if !s.permits[p].done {
      var l := s.permits[p].limiter;
      ReleasePermits(s, t, p);
      WaitKept(s, t, l, t.limiters[l]);
      EvictKept(s, t, l, t.limiters[l]);
      RegsKept(s, t, l, t.limiters[l]);
    }
  }

  lemma ReleasePermits<L, R, P>(s: State<L, R, P>, t: State<L, R, P>, p: P)
    requires Enabled(s, Release(p)) && !s.permits[p].done && t == ReleaseStep(s, p) && PermitInv(s)
    ensures PermitInv(t) && s.limiters[s.permits[p].limiter].active > 0
  {
    var l := s.permits[p].limiter;
    assert p in Outstanding(s, l);
    forall k | k in t.limiters ensures t.limiters[k].active == |Outstanding(t, k)| {
      assert Outstanding(t, k) == if k == l then Outstanding(s, k) - {p} else Outstanding(s, k);
    }
  }

  lemma StepKeeps<L, R, P>(s: State<L, R, P>, e: Event<L, R, P>)
    requires Inv(s) && Enabled(s, e)
    ensures Inv(Step(s, e))
  {
    match e
    case Register(user, limit, l, r) => RegisterKeeps(s, user, limit, l, r);
    case Unregister(r) => UnregisterKeeps(s, r);
    case TryAcquire(owner, p) => TryAcquireKeeps(s, owner, p);
    case Release(p) => ReleaseKeeps(s, p);
  }

  // ---------------------------------------------------------------- whole runs

  /** The state after a sequence of calls; a call no caller could make changes nothing. */
  ghost function Exec<L, R, P>(s: State<L, R, P>, es: seq<Event<L, R, P>>): State<L, R, P> {
    if es == [] then s
    else
      var before := Exec(s, es[..|es| - 1]);
      var e := es[|es| - 1];
      if Enabled(before, e) then Step(before, e) else before
  }

  lemma {:induction false} ExecKeeps<L, R, P>(s: State<L, R, P>, es: seq<Event<L, R, P>>)
    requires Inv(s)
    ensures Inv(Exec(s, es))
  {
    if es != [] {
      var before, e := Exec(s, es[..|es| - 1]), es[|es| - 1];
      ExecKeeps(s, es[..|es| - 1]);
      if Enabled(before, e) {
        StepKeeps(before, e);
      }
    }
  }

  /** After every interleaving: one live limiter a user, in the table exactly while it is live. */
  lemma {:induction false} OneLimiterPerUser<L, R, P>(es: seq<Event<L, R, P>>, l: L, k: L)
    ensures var s := Exec(Init(), es);
      l in s.limiters ==>
        && (Listed(s, l) <==> s.limiters[l].regs != map[] || Outstanding(s, l) != {})
        && s.limiters[l].active == |Outstanding(s, l)|
        && (s.limiters[l].Live() && k in s.limiters && s.limiters[k].Live() && k != l ==>
              s.limiters[k].user != s.limiters[l].user)
  {
    var s: State<L, R, P> := Exec(Init(), es);
    ExecKeeps(Init<L, R, P>(), es);
    if l in s.limiters && k in s.limiters {
      assert Listed(s, l) <==> s.limiters[l].Live();
      assert Listed(s, k) <==> s.limiters[k].Live();
    }
  }

  /**
   After every interleaving: if fewer permits are out than every registered limit, the channel every waiter
   kept has been closed.
   */
  lemma {:induction false} NoLostWakeUp<L, R, P>(es: seq<Event<L, R, P>>, w: Waiter<L>)
    ensures var s := Exec(Init(), es);
      w in s.waiters ==>
        && w.limiter in s.limiters
        && var lim := s.limiters[w.limiter];
           lim.regs != map[] && (forall id :: id in lim.regs ==> lim.active < lim.regs[id]) ==> w.gen < lim.gen
  {
    var s: State<L, R, P> := Exec(Init(), es);
    ExecKeeps(Init<L, R, P>(), es);
    if w in s.waiters {
      assert WaitOk(s, w);
      RoomMeans(s.limiters[w.limiter]);
    }
  }

  /** A limiter that has run empty never comes back, however late its handles are used. */
  lemma {:induction false} RetiredForGood<L, R, P>(s: State<L, R, P>, es: seq<Event<L, R, P>>, l: L)
    requires Inv(s) && l in s.limiters && !s.limiters[l].Live()
    ensures var t := Exec(s, es); l in t.limiters && !t.limiters[l].Live() && !Listed(t, l)
  {
    assert Listed(s, l) <==> s.limiters[l].Live();
    if es != [] {
      var before, e := Exec(s, es[..|es| - 1]), es[|es| - 1];
      RetiredForGood(s, es[..|es| - 1], l);
      ExecKeeps(s, es[..|es| - 1]);
      if Enabled(before, e) {
        RetiredStep(before, e, l);
        StepKeeps(before, e);
        assert Listed(Step(before, e), l) <==> Step(before, e).limiters[l].Live();
      }
    }
  }

  lemma RetiredStep<L, R, P>(s: State<L, R, P>, e: Event<L, R, P>, l: L)
    requires Inv(s) && Enabled(s, e) && l in s.limiters && !s.limiters[l].Live()
    ensures l in Step(s, e).limiters && !Step(s, e).limiters[l].Live()
  {
    assert !Listed(s, l);
    match e {
      case Register(user, _, _, _) =>
      case Unregister(r) =>
        assert RegOk(s, s.regs[r]);
      case TryAcquire(owner, _) =>
        assert IsLimit(s.limiters[l].regs, Limit(s.limiters[l].regs));
      case Release(p) =>
        if s.permits[p].limiter == l {
          assert Outstanding(s, l) == {};
          assert p !in Outstanding(s, l);
        }
    }
  }

  /** No call takes a user's entry away from a limiter that still has something registered or held. */
  lemma EntryLeavesOnlyWhenEmpty<L, R, P>(s: State<L, R, P>, e: Event<L, R, P>, u: string)
    requires Inv(s) && Enabled(s, e) && u in s.table
    ensures var t := Step(s, e);
      if u in t.table then t.table[u] == s.table[u] else !t.limiters[s.table[u]].Live()
  {
    match e {
      case Register(_, _, _, _) =>
      case TryAcquire(_, _) =>
      case Unregister(r) =>
        assert RegOk(s, s.regs[r]);
        if !s.regs[r].done {
          EvictionIsOwn(s, s.regs[r].limiter, u);
        }
      case Release(p) =>
        var k := s.permits[p].limiter;
        if !s.permits[p].done {
          assert p in Outstanding(s, k);
          EvictionIsOwn(s, k, u);
        }
    }
  }

  /** The entry a live limiter would remove is its own. */
  lemma EvictionIsOwn<L, R, P>(s: State<L, R, P>, k: L, u: string)
    requires TableInv(s) && LiveInv(s) && u in s.table && k in s.limiters && s.limiters[k].Live()
    ensures s.limiters[k].user == u ==> s.table[u] == k
  {
    assert Listed(s, k);
  }

  /** Only an admission raises `active`, and then not above any registered limit. */
  lemma NoOverAdmission<L, R, P>(s: State<L, R, P>, e: Event<L, R, P>, l: L)
    requires Inv(s) && Enabled(s, e) && l in s.limiters
    ensures var a, b := s.limiters[l], Step(s, e).limiters[l];
      && (b.active <= a.active || b.active <= Limit(b.regs))
      && (b.active > a.active ==>
            && e.TryAcquire? && b.active == a.active + 1
            && b.regs != map[] && forall id :: id in b.regs ==> b.active <= b.regs[id])
  {
    var b := Step(s, e).limiters[l];
    assert IsLimit(b.regs, Limit(b.regs));
  }
}
