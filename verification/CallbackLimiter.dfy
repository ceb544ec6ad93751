/**
 The limiter objects themselves: a table of shared limiters, and the handles callers keep. Each method
 is one critical section and is proved to be exactly one step of `LimiterProtocol`.
 */
module CallbackLimiter {
  import opened P = LimiterProtocol

  /** The shared state of one user's callbacks. `changed` is the generation of the wake-up channel. */
  class SharedLimiter {
    const userID: string
    var active: int
    var nextID: nat
    var registrations: map<nat, int>
    var changed: nat

    constructor (userID: string)
      ensures this.userID == userID && active == 0 && nextID == 0 && registrations == map[] && changed == 0
    {
      this.userID := userID;
      active, nextID, registrations, changed := 0, 0, map[], 0;
    }

    ghost function View(): P.Limiter
      reads this
    {
      P.Limiter(userID, active, nextID, registrations, changed)
    }

    // What one call does to a limiter.

    twostate predicate Gained(id: nat, limit: int)
      reads this
    {
      && id !in old(registrations) && registrations == old(registrations)[id := if limit <= 0 then 1 else limit]
      && active == old(active) && changed == old(changed) + 1
    }

    twostate predicate Lost(id: nat)
      reads this
    {
      registrations == old(registrations) - {id} && active == old(active) && changed == old(changed) + 1
    }

    twostate predicate Admitted()
      reads this
    {
      registrations == old(registrations) && active == old(active) + 1 && changed == old(changed)
    }

    twostate predicate Left()
      reads this
    {
      registrations == old(registrations) && active == old(active) - 1 && changed == old(changed) + 1
    }

    /** The smallest registered limit; the map is walked in an arbitrary order. */
    method LimitLocked() returns (limit: int)
      requires forall id :: id in registrations ==> registrations[id] >= 1
      ensures limit == P.Limit(registrations)
      ensures if registrations == map[] then limit == 0
              else exists id :: id in registrations && registrations[id] == limit
      ensures forall id :: id in registrations ==> limit <= registrations[id]
    {
      limit := 0;
      var ids := registrations.Keys;
      while ids != {}
        invariant ids <= registrations.Keys
        invariant limit == 0 <==> ids == registrations.Keys
        invariant limit != 0 ==> exists id :: id in registrations && registrations[id] == limit
        invariant forall id :: id in registrations && id !in ids ==> limit <= registrations[id]
        decreases ids
      {
        var id :| id in ids;
        ids := ids - {id};
        var registered := registrations[id];
        if limit == 0 || registered < limit {
          limit := registered;
        }
      }
      assert P.IsLimit(registrations, P.Limit(registrations));
      assert P.IsLimit(registrations, limit);
    }

    method AddLocked(limit: int) returns (id: nat)
      modifies this
      ensures id == old(nextID) + 1
      ensures View() ==
        old(View()).(nextID := id, regs := old(registrations)[id := P.Normalize(limit)], gen := old(changed) + 1)
    {
      nextID := nextID + 1;
      id := nextID;
      registrations := registrations[id := P.Normalize(limit)];
      SignalLocked();
    }

    method RemoveLocked(id: nat)
      modifies this
      ensures View() == old(View()).(regs := old(registrations) - {id}, gen := old(changed) + 1)
    {
      registrations := registrations - {id};
      SignalLocked();
    }

    method LeaveLocked()
      modifies this
      ensures View() == old(View()).(active := old(active) - 1, gen := old(changed) + 1)
    {
      active := active - 1;
      SignalLocked();
    }

    method SignalLocked()
      modifies this`changed
      ensures changed == old(changed) + 1
    {
      changed := changed + 1;
    }
  }

  class Registration {
    const limiter: SharedLimiter
    const id: nat
    var done: bool

    constructor (limiter: SharedLimiter, id: nat)
      ensures this.limiter == limiter && this.id == id && !done
    {
      this.limiter, this.id, done := limiter, id, false;
    }
  }

  class CallbackPermit {
    const limiter: SharedLimiter
    var done: bool

    constructor (limiter: SharedLimiter)
      ensures this.limiter == limiter && !done
    {
      this.limiter, done := limiter, false;
    }
  }

  type World = P.State<SharedLimiter, Registration, CallbackPermit?>

  type Call = P.Event<SharedLimiter, Registration, CallbackPermit?>

  // What the parts of a critical section do to the state.

  ghost function Returned(w: World, r: Registration): World
    requires r in w.regs
  {
    w.(regs := w.regs[r := w.regs[r].(done := true)])
  }

  ghost function Released(w: World, p: CallbackPermit?): World
    requires p in w.permits
  {
    w.(permits := w.permits[p := w.permits[p].(done := true)])
  }

  ghost function Changed(w: World, l: SharedLimiter, lim: P.Limiter): World {
    w.(limiters := w.limiters[l := lim])
  }

  ghost function Evicted(w: World, l: SharedLimiter): World
    requires l in w.limiters
  {
    w.(table := P.Evict(w.table, w.limiters[l]))
  }

  ghost function Permitted(w: World, l: SharedLimiter, p: CallbackPermit?): World {
    w.(permits := w.permits[p := P.Permit(l, false)])
  }

  function WithoutReg(lim: P.Limiter, id: nat): P.Limiter {
    lim.(regs := lim.regs - {id}, gen := lim.gen + 1)
  }

  function OneLess(lim: P.Limiter): P.Limiter {
    lim.(active := lim.active - 1, gen := lim.gen + 1)
  }

  function OneMore(lim: P.Limiter): P.Limiter {
    lim.(active := lim.active + 1)
  }

  ghost function Registered(w: World, l: SharedLimiter, id: nat, r: Registration): World {
    w.(regs := w.regs[r := P.Reg(l, id, false)])
  }

  function WithReg(lim: P.Limiter, limit: int): P.Limiter {
    var id := lim.nextID + 1;
    lim.(nextID := id, regs := lim.regs[id := P.Normalize(limit)], gen := lim.gen + 1)
  }

  lemma AttachInParts(w: World, l: SharedLimiter, limit: int, r: Registration)
    requires l in w.limiters
    ensures Registered(Changed(w, l, WithReg(w.limiters[l], limit)), l, w.limiters[l].nextID + 1, r) ==
      P.AttachStep(w, l, limit, r)
  {
  }

  lemma UnregisterInParts(w: World, r: Registration)
    requires P.Enabled(w, P.Unregister(r)) && !w.regs[r].done
    ensures var l := w.regs[r].limiter;
      Evicted(Changed(Returned(w, r), l, WithoutReg(w.limiters[l], w.regs[r].id)), l) == P.Step(w, P.Unregister(r))
  {
  }

  lemma ReleaseInParts(w: World, p: CallbackPermit?)
    requires P.Enabled(w, P.Release(p)) && !w.permits[p].done
    ensures var l := w.permits[p].limiter;
      Evicted(Changed(Released(w, p), l, OneLess(w.limiters[l])), l) == P.Step(w, P.Release(p))
  {
  }

  lemma AcquireInParts(w: World, r: Registration, p: CallbackPermit?)
    requires P.Enabled(w, P.TryAcquire(r, p)) && P.HasRoom(w.limiters[w.regs[r].limiter])
    ensures var l := w.regs[r].limiter;
      Permitted(Changed(w, l, OneMore(w.limiters[l])), l, p) == P.Step(w, P.TryAcquire(r, p))
  {
  }

  /** The global table. `world` is the protocol state the heap is in, and `log` the calls that led there. */
  class LimiterTable {
    var byUser: map<string, SharedLimiter>
    ghost var world: World
    ghost var log: seq<Call>

    /** The objects in play are exactly those of `world`, in the state it says. */
    ghost predicate Tied()
      reads this, world.limiters.Keys, world.regs.Keys, world.permits.Keys
    {
      && byUser == world.table
      && (forall l :: l in world.limiters ==> l.View() == world.limiters[l])
      && (forall r :: r in world.regs ==> P.Reg(r.limiter, r.id, r.done) == world.regs[r])
      && (forall p :: p in world.permits ==> p != null && P.Permit(p.limiter, p.done) == world.permits[p])
    }

    /** The heap is in the state that a run of calls from nothing leads to. */
    ghost predicate Valid()
      reads this, world.limiters.Keys, world.regs.Keys, world.permits.Keys
    {
      Tied() && world == P.Exec(P.Init(), log)
    }

    constructor ()
      ensures Valid() && log == []
    {
      byUser := map[];
      world := P.Init();
      log := [];
    }

    // The parts a critical section is made of. Each keeps the heap tied to `world`.

    method MarkReturned(r: Registration)
      requires Tied() && r in world.regs
      modifies this`world, r
      ensures Tied() && world == Returned(old(world), r)
    {
      r.done := true;
      world := Returned(world, r);
    }

    method MarkReleased(p: CallbackPermit)
      requires Tied() && p in world.permits
      modifies this`world, p
      ensures Tied() && world == Released(old(world), p)
    {
      p.done := true;
      world := Released(world, p);
    }

    method RemoveFrom(l: SharedLimiter, id: nat)
      requires Tied() && l in world.limiters
      modifies this`world, l
      ensures Tied() && world == Changed(old(world), l, WithoutReg(old(world).limiters[l], id)) && l.Lost(id)
    {
      l.RemoveLocked(id);
      world := Changed(world, l, l.View());
    }

    method Leave(l: SharedLimiter)
      requires Tied() && l in world.limiters
      modifies this`world, l
      ensures Tied() && world == Changed(old(world), l, OneLess(old(world).limiters[l])) && l.Left()
    {
      l.LeaveLocked();
      world := Changed(world, l, l.View());
    }

    method Enter(l: SharedLimiter)
      requires Tied() && l in world.limiters
      modifies this`world, l`active
      ensures Tied() && world == Changed(old(world), l, OneMore(old(world).limiters[l])) && l.Admitted()
    {
      l.active := l.active + 1;
      world := Changed(world, l, l.View());
    }

    method Permit(l: SharedLimiter) returns (p: CallbackPermit)
      requires Tied()
      modifies this`world
      ensures Tied() && fresh(p) && p.limiter == l && !p.done && p !in old(world).permits
      ensures world == Permitted(old(world), l, p)
    {
      p := new CallbackPermit(l);
      world := Permitted(world, l, p);
    }

    /** A limiter with neither registrations nor permits gives up its user's entry. */
    method EvictIfEmpty(l: SharedLimiter)
      requires Tied() && l in world.limiters
      modifies this`byUser, this`world
      ensures Tied() && world == Evicted(old(world), l)
    {
      assert l.View() == world.limiters[l];
      if l.registrations == map[] && l.active == 0 {
        byUser := byUser - {l.userID};
        world := world.(table := byUser);
      }
    }

    /** The user's limiter, created and listed when there is none. */
    method LimiterFor(userID: string) returns (limiter: SharedLimiter)
      requires Tied() && P.TableInv(world)
      modifies this`byUser, this`world
      ensures Tied()
      ensures limiter.userID == userID && byUser == old(byUser)[userID := limiter] && limiter in world.limiters
      ensures userID in old(byUser) ==> limiter == old(byUser)[userID] && limiter in old(world).limiters
      ensures userID !in old(byUser) ==> fresh(limiter) && limiter.registrations == map[] && limiter.active == 0
      ensures world == P.ListStep(old(world), userID, limiter)
    {
      if userID in byUser {
        limiter := byUser[userID];
        assert limiter.View() == world.limiters[limiter];
        assert byUser == byUser[userID := limiter];
      } else {
        limiter := new SharedLimiter(userID);
        byUser := byUser[userID := limiter];
        world := P.ListStep(world, userID, limiter);
      }
    }

    method Add(l: SharedLimiter, limit: int) returns (id: nat)
      requires Tied() && l in world.limiters && forall k :: k in l.registrations ==> k <= l.nextID
      modifies this`world, l
      ensures Tied() && id == old(l.nextID) + 1 && l.Gained(id, limit)
      ensures world == Changed(old(world), l, WithReg(old(world).limiters[l], limit))
    {
      assert l.View() == world.limiters[l];
      id := l.AddLocked(limit);
      world := Changed(world, l, l.View());
    }

    method HandOut(l: SharedLimiter, id: nat) returns (r: Registration)
      requires Tied()
      modifies this`world
      ensures Tied() && fresh(r) && r.limiter == l && r.id == id && !r.done && r !in old(world).regs
      ensures world == Registered(old(world), l, id, r)
    {
      r := new Registration(l, id);
      world := Registered(world, l, id, r);
    }

    /** Puts one more registration on a listed limiter. */
    method Attach(limiter: SharedLimiter, limit: int) returns (r: Registration)
      requires Tied() && limiter in world.limiters
      requires forall k :: k in limiter.registrations ==> k <= limiter.nextID
      modifies this`world, limiter
      ensures Tied() && fresh(r) && r.limiter == limiter && !r.done && r !in old(world).regs
      ensures limiter.Gained(r.id, limit)
      ensures world == P.AttachStep(old(world), limiter, limit, r)
    {
      ghost var before := world;
      assert limiter.View() == world.limiters[limiter];
      var id := Add(limiter, limit);
      r := HandOut(limiter, id);
      AttachInParts(before, limiter, limit, r);
    }

    // The critical sections: each is exactly one step of the protocol.

    method RegisterLocked(userID: string, limit: int) returns (r: Registration)
      requires Tied() && P.TableInv(world) && P.LimitInv(world)
      modifies this`byUser, this`world, world.limiters.Keys
      ensures Tied() && fresh(r) && (r.limiter in old(world).limiters || fresh(r.limiter))
      ensures P.Enabled(old(world), P.Register(userID, limit, r.limiter, r))
      ensures world == P.Step(old(world), P.Register(userID, limit, r.limiter, r))
      ensures !r.done && r.limiter.userID == userID && byUser == old(byUser)[userID := r.limiter]
      ensures userID in old(byUser) ==> r.limiter == old(byUser)[userID] && r.limiter.Gained(r.id, limit)
      ensures userID !in old(byUser) ==>
        && fresh(r.limiter) && r.limiter.active == 0
        && r.limiter.registrations == map[r.id := if limit <= 0 then 1 else limit]
    {
      var limiter := LimiterFor(userID);
      assert forall k :: k in limiter.registrations ==> k <= limiter.nextID by {
        assert limiter.View() == world.limiters[limiter];
      }
      r := Attach(limiter, limit);
    }

    method UnregisterLocked(r: Registration)
      requires Tied() && P.Enabled(world, P.Unregister(r))
      modifies this`byUser, this`world, world.limiters.Keys, r
      ensures Tied() && world == P.Step(old(world), P.Unregister(r))
      ensures r.done
      ensures old(r.done) ==> unchanged(r.limiter) && byUser == old(byUser)
      ensures !old(r.done) ==> r.limiter.Lost(r.id)
      ensures !old(r.done) ==>
        byUser == (if r.limiter.registrations == map[] && r.limiter.active == 0
                   then old(byUser) - {r.limiter.userID} else old(byUser))
    {
      if !r.done {
        UnregisterInParts(world, r);
        MarkReturned(r);
        RemoveFrom(r.limiter, r.id);
        EvictIfEmpty(r.limiter);
      }
    }

    /** Takes a permit when there is room; otherwise the current channel is what the caller waits for. */
    method TryAcquireLocked(r: Registration) returns (p: CallbackPermit?)
      requires Tied() && r in world.regs && r.limiter in world.limiters && P.LimitInv(world)
      requires r.limiter.active >= 0
      modifies this`world, world.limiters.Keys
      ensures Tied()
      ensures p != null ==> fresh(p) && p.limiter == r.limiter && !p.done
      ensures p != null <==> old(r.limiter.registrations != map[]
                && forall id :: id in r.limiter.registrations ==> r.limiter.active < r.limiter.registrations[id])
      ensures P.Enabled(old(world), P.TryAcquire(r, p))
      ensures world == P.Step(old(world), P.TryAcquire(r, p))
      ensures byUser == old(byUser)
      ensures p != null ==> r.limiter.Admitted()
      ensures p == null ==> unchanged(r.limiter) && P.Waiter(r.limiter, r.limiter.changed) in world.waiters
    {
      ghost var before := world;
      var l := r.limiter;
      assert l.View() == world.limiters[l];
      P.RoomMeans(l.View());
      var limit := l.LimitLocked();
      p := null;
      if l.active < limit {
        Enter(l);
        p := Permit(l);
        AcquireInParts(before, r, p);
      } else {
        world := world.(waiters := world.waiters + {P.Waiter(l, l.changed)});
      }
    }

    method ReleaseLocked(p: CallbackPermit)
      requires Tied() && P.Enabled(world, P.Release(p))
      modifies this`byUser, this`world, world.limiters.Keys, p
      ensures Tied() && world == P.Step(old(world), P.Release(p))
      ensures p.done
      ensures old(p.done) ==> unchanged(p.limiter) && byUser == old(byUser)
      ensures !old(p.done) ==> p.limiter.Left()
      ensures !old(p.done) ==>
        byUser == (if p.limiter.registrations == map[] && p.limiter.active == 0
                   then old(byUser) - {p.limiter.userID} else old(byUser))
    {
      if !p.done {
        ReleaseInParts(world, p);
        MarkReleased(p);
        Leave(p.limiter);
        EvictIfEmpty(p.limiter);
      }
    }

    // The calls, recorded as they happen.

    ghost method Record(before: World, e: Call)
      requires Tied() && before == P.Exec(P.Init(), log)
      requires P.Enabled(before, e) && world == P.Step(before, e)
      modifies this`log
      ensures Valid() && log == old(log) + [e]
    {
      OneMoreCall(log, e);
      log := log + [e];
    }

    method Register(userID: string, limit: int) returns (r: Registration)
      requires Valid()
      modifies this, world.limiters.Keys
      ensures Valid() && fresh(r) && (r.limiter in old(world).limiters || fresh(r.limiter))
      ensures log == old(log) + [P.Register(userID, limit, r.limiter, r)]
      ensures P.Enabled(old(world), P.Register(userID, limit, r.limiter, r))
      ensures !r.done && r.limiter.userID == userID && byUser == old(byUser)[userID := r.limiter]
      ensures userID in old(byUser) ==> r.limiter == old(byUser)[userID] && r.limiter.Gained(r.id, limit)
      ensures userID !in old(byUser) ==>
        && fresh(r.limiter) && r.limiter.active == 0
        && r.limiter.registrations == map[r.id := if limit <= 0 then 1 else limit]
    {
      Reached(log);
      ghost var before := world;
      r := RegisterLocked(userID, limit);
      Record(before, P.Register(userID, limit, r.limiter, r));
    }

    method Unregister(r: Registration)
      requires Valid() && r in world.regs
      modifies this, world.limiters.Keys, r
      ensures Valid() && log == old(log) + [P.Unregister(r)] && P.Enabled(old(world), P.Unregister(r))
      ensures r.done
      ensures old(r.done) ==> unchanged(r.limiter) && byUser == old(byUser)
      ensures !old(r.done) ==> r.limiter.Lost(r.id)
      ensures !old(r.done) ==>
        byUser == (if r.limiter.registrations == map[] && r.limiter.active == 0
                   then old(byUser) - {r.limiter.userID} else old(byUser))
    {
      Reached(log);
      ghost var before := world;
      UnregisterLocked(r);
      Record(before, P.Unregister(r));
    }

    /** One trip round the loop of `acquire`. */
    method TryAcquire(r: Registration) returns (p: CallbackPermit?)
      requires Valid() && r in world.regs
      modifies this, world.limiters.Keys
      ensures Valid() && log == old(log) + [P.TryAcquire(r, p)] && P.Enabled(old(world), P.TryAcquire(r, p))
      ensures p != null ==> fresh(p) && p.limiter == r.limiter && !p.done
      ensures p != null <==> old(r.limiter.registrations != map[]
                && forall id :: id in r.limiter.registrations ==> r.limiter.active < r.limiter.registrations[id])
      ensures byUser == old(byUser)
      ensures p != null ==> r.limiter.Admitted()
      ensures p == null ==> unchanged(r.limiter) && P.Waiter(r.limiter, r.limiter.changed) in world.waiters
    {
      Reached(log);
      ghost var before := world;
      p := TryAcquireLocked(r);
      Record(before, P.TryAcquire(r, p));
    }

    method Release(p: CallbackPermit)
      requires Valid() && p in world.permits
      modifies this, world.limiters.Keys, p
      ensures Valid() && log == old(log) + [P.Release(p)] && P.Enabled(old(world), P.Release(p))
      ensures p.done
      ensures old(p.done) ==> unchanged(p.limiter) && byUser == old(byUser)
      ensures !old(p.done) ==> p.limiter.Left()
      ensures !old(p.done) ==>
        byUser == (if p.limiter.registrations == map[] && p.limiter.active == 0
                   then old(byUser) - {p.limiter.userID} else old(byUser))
    {
      Reached(log);
      ghost var before := world;
      ReleaseLocked(p);
      Record(before, P.Release(p));
    }
  }

  /** The parts of the invariant that a call relies on. */
  lemma {:induction false} Reached(log: seq<Call>)
    ensures var world: World := P.Exec(P.Init(), log);
      P.TableInv(world) && P.LimitInv(world)
      && (forall l :: l in world.limiters ==> world.limiters[l].active >= 0)
      && (forall r :: r in world.regs ==> world.regs[r].limiter in world.limiters)
      && (forall p :: p in world.permits ==> world.permits[p].limiter in world.limiters)
  {
    P.ExecKeeps(P.Init<SharedLimiter, Registration, CallbackPermit?>(), log);
  }

  lemma {:induction false} OneMoreCall(log: seq<Call>, e: Call)
    ensures var world: World := P.Exec(P.Init(), log);
      P.Enabled(world, e) ==> P.Exec(P.Init(), log + [e]) == P.Step(world, e)
  {
    assert (log + [e])[..|log|] == log;
  }

  /** The objects themselves, after any calls in any order: one live limiter a user, listed while it is live. */
  lemma {:induction false} OneLimiterPerUser(t: LimiterTable, l: SharedLimiter, k: SharedLimiter)
    requires t.Valid() && l in t.world.limiters && k in t.world.limiters
    ensures (l.userID in t.byUser && t.byUser[l.userID] == l) <==> l.registrations != map[] || l.active != 0
    ensures l.active == |set p | p in t.world.permits && p.limiter == l && !p.done|
    ensures l != k && (l.registrations != map[] || l.active != 0) && (k.registrations != map[] || k.active != 0) ==>
      l.userID != k.userID
  {
    P.OneLimiterPerUser(t.log, l, k);
    P.OneLimiterPerUser(t.log, k, l);
    P.ExecKeeps(P.Init<SharedLimiter, Registration, CallbackPermit?>(), t.log);
    assert l.View() == t.world.limiters[l] && k.View() == t.world.limiters[k];
    assert (set p | p in t.world.permits && p.limiter == l && !p.done) == P.Outstanding(t.world, l);
  }

  /** If there is room in a limiter, the channel kept by anybody waiting for it has been closed. */
  lemma {:induction false} NoLostWakeUp(t: LimiterTable, w: P.Waiter<SharedLimiter>)
    requires t.Valid() && w in t.world.waiters
    ensures w.limiter in t.world.limiters
    ensures
      (w.limiter.registrations != map[]
       && forall id :: id in w.limiter.registrations ==> w.limiter.active < w.limiter.registrations[id])
      ==> w.gen < w.limiter.changed
  {
    P.NoLostWakeUp(t.log, w);
    assert w.limiter.View() == t.world.limiters[w.limiter];
  }
}
