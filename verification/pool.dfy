/**
 The pool manager: one object pool per prefab, created the first time that
 prefab is spawned; a routing table from every pooled instance to the pool
 that made it; and delayed despawns.

 Each library object pool is abstracted as the multiset of its idle
 instances. Which idle instance the library hands out is not fixed here:
 the caller supplies it as an oracle (`pick`). Scene objects are identified
 by naturals handed out by `nextId`, which also serves plain (non-pooled)
 instantiation. The engine carries out a destruction at the end of the
 frame, after which the object compares equal to null; the model marks it
 destroyed at once, so every null test below also holds of destroyed
 objects.
 */
module PoolManager {
  import opened Common

  /** A scene-object reference as the engine sees it: null or an object. */
  datatype ObjRef = Null | Obj(id: Instance)

  /** A suspended delayed-despawn coroutine: despawn `target` once time reaches `due`. */
  datatype Timer = Timer(target: ObjRef, due: real)

  datatype Pools = Pools(
    idle: map<Template, multiset<Instance>>,  // prefab -> its pool (as the pool's idle instances)
    route: map<Instance, Template>,           // pooled instance -> prefab whose pool created it
    active: set<Instance>,                    // objects whose active flag is set
    destroyed: set<Instance>,                 // objects that were destroyed
    timers: seq<Timer>,                       // pending delayed despawns
    nextId: Instance)                         // next fresh object identity

  /** The manager as created: no pools, no routes, no objects. */
  function Empty(): (e: Pools)
    ensures Valid(e)
    ensures e.idle == map[] && e.route == map[] && e.timers == []
    ensures forall r: ObjRef :: Known(e, r) <==> r.Null?
  {
    Pools(map[], map[], {}, {}, [], 0)
  }

  /** The reference denotes an object the engine has allocated (or is null). */
  predicate Known(p: Pools, r: ObjRef)
  {
    r.Obj? ==> r.id < p.nextId
  }

  /** The engine's null test: null references and destroyed objects. */
  predicate IsNull(p: Pools, r: ObjRef)
  {
    r.Null? || r.id in p.destroyed
  }

  /**
   The bookkeeping invariant: every idle instance sits once in the pool it is
   routed to; every pooled instance is either active or idle in its own pool,
   never both; pooled instances are never destroyed; all identities are
   allocated ones.
   */
  ghost predicate Valid(p: Pools)
  {
    IdleRouted(p) && RoutedSound(p) && ActiveSound(p) && DestroyedAllocated(p) && TimersKnown(p)
  }

  /** Every idle instance is routed to the pool it sits in, and sits there once. */
  ghost predicate IdleRouted(p: Pools)
  {
    forall t, i | t in p.idle && i in p.idle[t] :: i in p.route && p.route[i] == t && p.idle[t][i] == 1
  }

  /** A pooled instance is allocated, never destroyed, and either active or idle in its own pool. */
  ghost predicate RoutedSound(p: Pools)
  {
    forall i | i in p.route ::
      && p.route[i] in p.idle
      && i < p.nextId
      && i !in p.destroyed
      && (i in p.active <==> i !in p.idle[p.route[i]])
  }

  ghost predicate ActiveSound(p: Pools)
  {
    forall i | i in p.active :: i < p.nextId && i !in p.destroyed
  }

  ghost predicate DestroyedAllocated(p: Pools)
  {
    forall i | i in p.destroyed :: i < p.nextId
  }

  ghost predicate TimersKnown(p: Pools)
  {
    forall k | 0 <= k < |p.timers| :: Known(p, p.timers[k].target)
  }


  /** The oracle for the library's choice: when the pool has idle instances, `pick` is one of them. */
  predicate PickFits(p: Pools, t: Template, pick: Instance)
  {
    t in p.idle && p.idle[t] != multiset{} ==> pick in p.idle[t]
  }

  datatype Spawned = Spawned(pools: Pools, inst: ObjRef)

  /**
   Spawn from the pool of `prefab`, creating that pool on first use. A null
   prefab yields null and touches nothing.
   */
  function Spawn(p: Pools, prefab: Option<Template>, pick: Instance): (r: Spawned)
    requires prefab.Some? ==> PickFits(p, prefab.value, pick)
    ensures prefab.None? ==> r == Spawned(p, Null)
    ensures prefab.Some? ==>
      var t := prefab.value;
      && r.inst.Obj?
      && r.inst.id in r.pools.active
      && r.pools.idle.Keys == p.idle.Keys + {t}
      && r.pools.active == p.active + {r.inst.id}
      && r.pools.destroyed == p.destroyed
      && r.pools.timers == p.timers
      && (t in p.idle && p.idle[t] != multiset{} ==>
            r.inst.id == pick && r.pools.route == p.route
            && r.pools.idle == p.idle[t := p.idle[t] - multiset{pick}])
      && (t !in p.idle || p.idle[t] == multiset{} ==>
            r.inst.id == p.nextId && r.pools.route == p.route[p.nextId := t]
            && r.pools.nextId == p.nextId + 1
            && r.pools.idle == p.idle[t := multiset{}])
  {
    match prefab
    case None => Spawned(p, Null)
    case Some(t) =>
      // InitializePool on the first request for this prefab
      var p1 := if t in p.idle then p else p.(idle := p.idle[t := multiset{}]);
      if p1.idle[t] != multiset{} then
        // the pool hands out an idle instance and activates it
        Spawned(p1.(idle := p1.idle[t := p1.idle[t] - multiset{pick}], active := p1.active + {pick}), Obj(pick))
      else
        // the pool's create callback clones the prefab and registers the clone
        var id := p1.nextId;
        Spawned(p1.(route := p1.route[id := t], active := p1.active + {id}, nextId := id + 1), Obj(id))
  }

  /**
   Return an instance to its pool. Null and destroyed references are
   ignored; an idle pooled instance is left alone; an instance the pools
   never made is destroyed instead.
   */
  function Despawn(p: Pools, r: ObjRef): (q: Pools)
    ensures IsNull(p, r) ==> q == p
    ensures !IsNull(p, r) && r.id in p.route && r.id !in p.active ==> q == p
    ensures !IsNull(p, r) && r.id in p.route && r.id in p.active ==>
      var t := p.route[r.id];
      && q.active == p.active - {r.id}
      && q.idle.Keys == p.idle.Keys + {t}
      && q.idle[t] == (if t in p.idle then p.idle[t] else multiset{}) + multiset{r.id}
      && (forall u | u in p.idle && u != t :: q.idle[u] == p.idle[u])
      && q.route == p.route && q.destroyed == p.destroyed && q.nextId == p.nextId && q.timers == p.timers
    ensures !IsNull(p, r) && r.id !in p.route ==>
      q == p.(destroyed := p.destroyed + {r.id}, active := p.active - {r.id})
    ensures IsNull(q, r) || (r.id in q.route && r.id !in q.active)
  {
    if IsNull(p, r) then p
    else if r.id in p.route then
      if r.id in p.active then
        var t := p.route[r.id];
        var pool := if t in p.idle then p.idle[t] else multiset{};
        p.(active := p.active - {r.id}, idle := p.idle[t := pool + multiset{r.id}])
      else
        p
    else
      p.(destroyed := p.destroyed + {r.id}, active := p.active - {r.id})
  }

  /**
   On a valid store, a spawn keeps the invariant and hands out a live
   instance routed to the requested prefab's pool; a freshly created one was
   unknown before.
   */
  lemma SpawnKeepsValid(p: Pools, prefab: Option<Template>, pick: Instance)
    requires Valid(p)
    requires prefab.Some? ==> PickFits(p, prefab.value, pick)
    ensures var r := Spawn(p, prefab, pick);
      Valid(r.pools) && Known(r.pools, r.inst)
    ensures prefab.Some? ==>
      var r := Spawn(p, prefab, pick);
      && !IsNull(r.pools, r.inst)
      && r.inst.id in r.pools.route && r.pools.route[r.inst.id] == prefab.value
    ensures prefab.Some? && (prefab.value !in p.idle || p.idle[prefab.value] == multiset{}) ==>
      var r := Spawn(p, prefab, pick);
      r.inst.id !in p.route && r.inst.id !in p.active
  {
    SpawnPoolsValid(p, prefab, pick);
  }

  lemma SpawnPoolsValid(p: Pools, prefab: Option<Template>, pick: Instance)
    requires Valid(p)
    requires prefab.Some? ==> PickFits(p, prefab.value, pick)
    ensures Valid(Spawn(p, prefab, pick).pools)
  {
    if prefab.Some? {
      var t := prefab.value;
      var p1 := if t in p.idle then p else p.(idle := p.idle[t := multiset{}]);
      assert IdleRouted(p1);
      assert RoutedSound(p1) by {
        forall i | i in p1.route
          ensures p1.route[i] in p1.idle && p1.idle[p1.route[i]] == p.idle[p.route[i]]
        {
        }
      }
      var r := Spawn(p, prefab, pick);
      if p1.idle[t] != multiset{} {
        assert r.pools == p1.(idle := p1.idle[t := p1.idle[t] - multiset{pick}], active := p1.active + {pick});
        ReuseKeepsValid(p1, t, pick);
      } else {
        assert r.pools == p1.(route := p1.route[p1.nextId := t], active := p1.active + {p1.nextId}, nextId := p1.nextId + 1);
        CreateKeepsValid(p1, t);
      }
    }
  }

  /** Removing one idle instance from its pool keeps every remaining idle instance routed. */
  lemma TakeKeepsIdleRouted(p: Pools, t: Template, x: Instance)
    requires IdleRouted(p) && t in p.idle && x in p.idle[t]
    ensures IdleRouted(p.(idle := p.idle[t := p.idle[t] - multiset{x}], active := p.active + {x}))
  {
    var m := p.idle[t] - multiset{x};
    var q := p.(idle := p.idle[t := m], active := p.active + {x});
    var pt := p.idle[t];
    assert x in pt;
    assert x in p.route;
    assert pt[x] == 1;
    assert m[x] == 0;
    forall u, i | u in q.idle && i in q.idle[u]
      ensures i in q.route && q.route[i] == u && q.idle[u][i] == 1
    {
      if u != t {
        assert q.idle[u] == p.idle[u];
      } else {
        assert q.idle[u] == m;
        assert i != x;
        assert m[i] == p.idle[t][i];
      }
    }
  }

  /** Handing out an idle instance of prefab `t` keeps the invariant. */
  lemma ReuseKeepsValid(p: Pools, t: Template, x: Instance)
    requires Valid(p) && t in p.idle && x in p.idle[t]
    ensures Valid(p.(idle := p.idle[t := p.idle[t] - multiset{x}], active := p.active + {x}))
  {
    var q := p.(idle := p.idle[t := p.idle[t] - multiset{x}], active := p.active + {x});
    assert p.idle[t][x] == 1;
    TakeKeepsIdleRouted(p, t, x);
    assert IdleRouted(q);
    forall i | i in q.route
      ensures q.route[i] in q.idle && (i in q.active <==> i !in q.idle[q.route[i]])
    {
      if i != x && p.route[i] != t { assert q.idle[q.route[i]] == p.idle[p.route[i]]; }
    }
    assert RoutedSound(q);
  }

  /** Creating a fresh clone for an existing, empty pool of prefab `t` keeps the invariant. */
  lemma CreateKeepsValid(p: Pools, t: Template)
    requires Valid(p) && t in p.idle
    ensures
      var id := p.nextId;
      Valid(p.(route := p.route[id := t], active := p.active + {id}, nextId := id + 1))
  {
    var id := p.nextId;
    var q := p.(route := p.route[id := t], active := p.active + {id}, nextId := id + 1);
    assert id !in p.route;
    forall u, i | u in q.idle && i in q.idle[u]
      ensures i in q.route && q.route[i] == u && q.idle[u][i] == 1
    {
      assert i in p.route;
    }
    assert IdleRouted(q);
    forall i | i in q.route
      ensures q.route[i] in q.idle && (i in q.active <==> i !in q.idle[q.route[i]])
    {
      if i != id { assert i in p.route; } else { assert id !in p.idle[t]; }
    }
    assert RoutedSound(q);
  }

  /** Releasing an active pooled instance into its own pool keeps the invariant. */
  lemma ReleaseKeepsValid(p: Pools, x: Instance)
    requires Valid(p) && x in p.route && x in p.active
    ensures
      var t := p.route[x];
      Valid(p.(active := p.active - {x}, idle := p.idle[t := p.idle[t] + multiset{x}]))
  {
    var t := p.route[x];
    var q := p.(active := p.active - {x}, idle := p.idle[t := p.idle[t] + multiset{x}]);
    assert x !in p.idle[t];
    forall u, i | u in q.idle && i in q.idle[u]
      ensures i in q.route && q.route[i] == u && q.idle[u][i] == 1
    {
      if u != t {
        assert q.idle[u] == p.idle[u];
      } else if i != x {
        assert i in p.idle[t];
      }
    }
    assert IdleRouted(q);
    forall i | i in q.route
      ensures q.route[i] in q.idle && (i in q.active <==> i !in q.idle[q.route[i]])
    {
      if i != x && p.route[i] != t {
        assert q.idle[q.route[i]] == p.idle[p.route[i]];
      }
    }
    assert RoutedSound(q);
  }

  lemma DespawnKeepsValid(p: Pools, r: ObjRef)
    requires Valid(p) && Known(p, r)
    ensures Valid(Despawn(p, r))
  {
    if !IsNull(p, r) && r.id in p.route && r.id in p.active {
      ReleaseKeepsValid(p, r.id);
    } else if !IsNull(p, r) && r.id !in p.route {
      DestroyKeepsValid(p, r.id);
    }
  }

  /** Destroying a known object that no pool owns keeps the invariant. */
  lemma DestroyKeepsValid(p: Pools, x: Instance)
    requires Valid(p) && x < p.nextId && x !in p.route
    ensures Valid(p.(destroyed := p.destroyed + {x}, active := p.active - {x}))
  {
    var q := p.(destroyed := p.destroyed + {x}, active := p.active - {x});
    assert IdleRouted(q);
    forall i | i in q.route
      ensures q.route[i] in q.idle && i < q.nextId && i !in q.destroyed
        && (i in q.active <==> i !in q.idle[q.route[i]])
    {
      assert i != x;
    }
    assert RoutedSound(q);
    assert TimersKnown(q) by {
      forall k | 0 <= k < |q.timers| ensures Known(q, q.timers[k].target) {
        assert Known(p, p.timers[k].target);
      }
    }
  }

  /** Schedule a despawn of `r` once `delay` seconds have passed after `now`. */
  function DespawnAfter(p: Pools, r: ObjRef, delay: real, now: real): (q: Pools)
    ensures q.timers == p.timers + [Timer(r, now + delay)]
    ensures q.(timers := p.timers) == p
    ensures Valid(p) && Known(p, r) ==> Valid(q)
  {
    p.(timers := p.timers + [Timer(r, now + delay)])
  }

  /**
   A due delayed despawn resumes: it is removed from the pending list and
   performs a plain `Despawn` of its target, with no cancellation and no
   check that the target was not despawned and spawned again meanwhile.
   */
  function FireTimer(p: Pools, k: nat, now: real): (q: Pools)
    requires k < |p.timers| && p.timers[k].due <= now
    ensures q.timers == p.timers[..k] + p.timers[k+1..] && |q.timers| == |p.timers| - 1
    ensures var t := p.timers[k].target;
      (IsNull(p, t) || (t.id in p.route && t.id !in p.active)) ==>
        q == p.(timers := q.timers)
    ensures var t := p.timers[k].target;
      !IsNull(p, t) && t.id in p.route && t.id in p.active ==>
        var pool := p.route[t.id];
        && q.active == p.active - {t.id}
        && q.idle.Keys == p.idle.Keys + {pool}
        && q.idle[pool] == (if pool in p.idle then p.idle[pool] else multiset{}) + multiset{t.id}
        && (forall u | u in p.idle && u != pool :: q.idle[u] == p.idle[u])
        && q.route == p.route && q.destroyed == p.destroyed && q.nextId == p.nextId
    ensures var t := p.timers[k].target;
      !IsNull(p, t) && t.id !in p.route ==>
        q == p.(timers := q.timers, destroyed := p.destroyed + {t.id}, active := p.active - {t.id})
  {
    Despawn(p.(timers := p.timers[..k] + p.timers[k+1..]), p.timers[k].target)
  }

  lemma FireTimerKeepsValid(p: Pools, k: nat, now: real)
    requires Valid(p)
    requires k < |p.timers| && p.timers[k].due <= now
    ensures Valid(FireTimer(p, k, now))
  {
    var rest := p.(timers := p.timers[..k] + p.timers[k+1..]);
    forall j | 0 <= j < |rest.timers|
      ensures Known(rest, rest.timers[j].target)
    {
      if j < k { assert rest.timers[j] == p.timers[j]; }
      else { assert rest.timers[j] == p.timers[j + 1]; }
    }
    assert Valid(rest);
    DespawnKeepsValid(rest, p.timers[k].target);
  }

  /** Plain instantiation outside any pool: a fresh, active, unrouted object. */
  function Instantiate(p: Pools): (r: Spawned)
    ensures r.inst == Obj(p.nextId)
    ensures r.inst.id in r.pools.active
    ensures r.pools.idle == p.idle && r.pools.route == p.route && r.pools.timers == p.timers
    ensures Valid(p) ==> Valid(r.pools) && !IsNull(r.pools, r.inst) && r.inst.id !in r.pools.route
  {
    Spawned(p.(active := p.active + {p.nextId}, nextId := p.nextId + 1), Obj(p.nextId))
  }

  // ---------------------------------------------------------------------------
  // Sequences of pool operations

  datatype Op =
    | SpawnOp(prefab: Option<Template>, pick: Instance)
    | DespawnOp(target: ObjRef)
    | DespawnLaterOp(target: ObjRef, delay: real, now: real)
    | FireOp(k: nat, now: real)
    | InstantiateOp

  /** The operation's oracle and arguments fit the current state. */
  predicate Applicable(p: Pools, op: Op)
  {
    match op
    case SpawnOp(prefab, pick) => prefab.Some? ==> PickFits(p, prefab.value, pick)
    case DespawnOp(target) => Known(p, target)
    case DespawnLaterOp(target, _, _) => Known(p, target)
    case FireOp(k, now) => k < |p.timers| && p.timers[k].due <= now
    case InstantiateOp => true
  }

  function Apply(p: Pools, op: Op): Pools
    requires Applicable(p, op)
  {
    match op
    case SpawnOp(prefab, pick) => Spawn(p, prefab, pick).pools
    case DespawnOp(target) => Despawn(p, target)
    case DespawnLaterOp(target, delay, now) => DespawnAfter(p, target, delay, now)
    case FireOp(k, now) => FireTimer(p, k, now)
    case InstantiateOp => Instantiate(p).pools
  }

  predicate Runs(p: Pools, ops: seq<Op>)
    decreases ops
  {
    ops == [] || (Applicable(p, ops[0]) && Runs(Apply(p, ops[0]), ops[1..]))
  }

  function Run(p: Pools, ops: seq<Op>): Pools
    requires Runs(p, ops)
    decreases ops
  {
    if ops == [] then p else Run(Apply(p, ops[0]), ops[1..])
  }

  /** One operation keeps the invariant, never drops a pool and never unroutes an instance. */
  lemma ApplyKeepsValid(p: Pools, op: Op)
    requires Valid(p) && Applicable(p, op)
    ensures Valid(Apply(p, op))
    ensures p.idle.Keys <= Apply(p, op).idle.Keys
    ensures p.route.Keys <= Apply(p, op).route.Keys
  {
    match op
    case SpawnOp(prefab, pick) => SpawnKeepsValid(p, prefab, pick);
    case DespawnOp(target) => DespawnKeepsValid(p, target);
    case DespawnLaterOp(_, _, _) =>
    case FireOp(k, now) => FireTimerKeepsValid(p, k, now);
    case InstantiateOp =>
  }

  /**
   Over any run of pool operations the invariant holds throughout, the
   prefix-to-pool map only grows, and the routing table only grows.
   */
  lemma {:induction false} RunKeepsValid(p: Pools, ops: seq<Op>)
    requires Valid(p) && Runs(p, ops)
    ensures Valid(Run(p, ops))
    ensures p.idle.Keys <= Run(p, ops).idle.Keys
    ensures p.route.Keys <= Run(p, ops).route.Keys
    decreases ops
  {
    if ops != [] {
      ApplyKeepsValid(p, ops[0]);
      RunKeepsValid(Apply(p, ops[0]), ops[1..]);
    }
  }

  /** Despawning twice is despawning once: the second call finds the instance idle or destroyed. */
  lemma DespawnTwiceIsDespawnOnce(p: Pools, r: ObjRef)
    ensures Despawn(Despawn(p, r), r) == Despawn(p, r)
  {
  }

  /**
   Spawn, despawn, spawn again on an otherwise idle-free pool hands back the
   same instance, active again and still routed to the same prefab.
   */
  lemma SpawnDespawnSpawnReusesInstance(p: Pools, t: Template, pick1: Instance, pick2: Instance)
    requires Valid(p)
    requires t !in p.idle || p.idle[t] == multiset{}
    requires PickFits(Despawn(Spawn(p, Some(t), pick1).pools, Spawn(p, Some(t), pick1).inst), t, pick2)
    ensures
      var s1 := Spawn(p, Some(t), pick1);
      var s2 := Spawn(Despawn(s1.pools, s1.inst), Some(t), pick2);
      s2.inst == s1.inst && s2.inst.id in s2.pools.active && s2.pools.route[s2.inst.id] == t
  {
    var s1 := Spawn(p, Some(t), pick1);
    var d := Despawn(s1.pools, s1.inst);
    assert s1.pools.idle[t] == multiset{};
    assert d.idle[t] == multiset{s1.inst.id};
  }

  /**
   A delayed despawn is not tied to one incarnation of its target: a timer
   set for an instance that was despawned and then handed out again still
   deactivates the new incarnation when it fires.
   */
  lemma StaleTimerDespawnsReusedInstance(p: Pools, t: Template, pick: Instance, now: real)
    requires Valid(p)
    requires t !in p.idle || p.idle[t] == multiset{}
    ensures
      var s1 := Spawn(p, Some(t), pick);
      var x := s1.inst;
      var withTimer := DespawnAfter(s1.pools, x, 5.0, now);
      var s2 := Spawn(Despawn(withTimer, x), Some(t), x.id);
      var fired := FireTimer(s2.pools, |p.timers|, now + 5.0);
      && s2.inst == x
      && x.id in s2.pools.active
      && x.id !in fired.active
  {
    var s1 := Spawn(p, Some(t), pick);
    var x := s1.inst;
    var withTimer := DespawnAfter(s1.pools, x, 5.0, now);
    var d := Despawn(withTimer, x);
    assert d.idle[t] == multiset{x.id};
    var s2 := Spawn(d, Some(t), x.id);
    assert s2.pools.timers == p.timers + [Timer(x, now + 5.0)];
    assert s2.pools.timers[|p.timers|] == Timer(x, now + 5.0);
  }

  /** An object made by plain instantiation is destroyed, not pooled, when despawned. */
  lemma InstantiatedObjectIsDestroyedOnDespawn(p: Pools)
    requires Valid(p)
    ensures
      var s := Instantiate(p);
      var q := Despawn(s.pools, s.inst);
      s.inst.id in q.destroyed && q.idle == p.idle && IsNull(q, s.inst)
  {
  }
}
