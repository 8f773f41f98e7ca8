/**
 * The registry of per-target probe loops kept by the domain probe, as
 * values: the active-target map built from a listing, the cancellation
 * loop, the start loop, and the events they record.
 */
module Registry {
  import Durations
  import Probes

  /** Extra start delay given to each successive new target within one refresh. */
  const GapBetweenTargets: int := 10 * Durations.Millisecond

  /** The keys of the listed targets. */
  function KeysOf(targets: seq<Probes.Endpoint>): set<string> {
    if targets == [] then {} else KeysOf(targets[..|targets| - 1]) + {targets[|targets| - 1].key}
  }

  /** A key is listed exactly when some listed target carries it. */
  lemma {:induction false} KeysOfListed(targets: seq<Probes.Endpoint>, k: string)
    ensures k in KeysOf(targets) <==> exists i :: 0 <= i < |targets| && targets[i].key == k
  {
    if targets != [] {
      var init := targets[..|targets| - 1];
      KeysOfListed(init, k);
      if k in KeysOf(init) {
        var i :| 0 <= i < |init| && init[i].key == k;
        assert targets[i].key == k;
      } else if exists i :: 0 <= i < |targets| && targets[i].key == k {
        var i :| 0 <= i < |targets| && targets[i].key == k;
        if i < |init| {
          assert init[i].key == k;
        }
      }
    }
  }

  /**
   * The `activeTargets` map built from the listing: each key maps to a
   * listed target with that key (the last one, when keys repeat).
   */
  function ActiveTargets(listed: seq<Probes.Endpoint>): (m: map<string, Probes.Endpoint>)
    ensures m.Keys == KeysOf(listed)
    ensures forall k :: k in m ==> m[k].key == k && m[k] in listed
  {
    if listed == [] then map[]
    else
      var last := listed[|listed| - 1];
      assert listed == listed[..|listed| - 1] + [last];
      ActiveTargets(listed[..|listed| - 1])[last.key := last]
  }

  /** When keys repeat, the last listed target with a key is the one kept. */
  lemma {:induction false} ActiveTargetsLastWins(listed: seq<Probes.Endpoint>, i: nat)
    requires i < |listed|
    requires forall j :: i < j < |listed| ==> listed[j].key != listed[i].key
    ensures listed[i].key in ActiveTargets(listed) && ActiveTargets(listed)[listed[i].key] == listed[i]
  {
    if i < |listed| - 1 {
      ActiveTargetsLastWins(listed[..|listed| - 1], i);
    }
  }

  /** The `activeTargets` loop: one map update per listed target, in list order. */
  method ListActiveTargets(listed: seq<Probes.Endpoint>) returns (active: map<string, Probes.Endpoint>)
    ensures active == ActiveTargets(listed)
  {
    active := map[];
    for i := 0 to |listed|
      invariant active == ActiveTargets(listed[..i])
    {
      active := active[listed[i].key := listed[i]];
      assert listed[..i + 1][..i] == listed[..i];
    }
    assert listed[..|listed|] == listed;
  }

  /** The cancel function of one per-target loop; ids tell handles apart. */
  datatype CancelHandle = CancelHandle(id: nat)

  /** A recorded call of the cancel function registered for `key`. */
  datatype Cancel = Cancel(key: string, handle: CancelHandle)

  /** A recorded loop start: its target, its cancel handle, and its base start delay. */
  datatype Spawn = Spawn(key: string, target: Probes.Endpoint, handle: CancelHandle, waitTime: int)

  /** The keys a record of cancel calls mentions. */
  function CancelledKeys(c: seq<Cancel>): (keys: set<string>)
    ensures |keys| <= |c|
  {
    if c == [] then {} else CancelledKeys(c[..|c| - 1]) + {c[|c| - 1].key}
  }

  /** The keys a record of loop starts mentions. */
  function SpawnedKeys(s: seq<Spawn>): (keys: set<string>)
    ensures |keys| <= |s|
  {
    if s == [] then {} else SpawnedKeys(s[..|s| - 1]) + {s[|s| - 1].key}
  }

  lemma {:induction false} CancelledKeysHas(c: seq<Cancel>, i: nat)
    requires i < |c|
    ensures c[i].key in CancelledKeys(c)
  {
    if i < |c| - 1 {
      CancelledKeysHas(c[..|c| - 1], i);
    }
  }

  lemma {:induction false} SpawnedKeysHas(s: seq<Spawn>, i: nat)
    requires i < |s|
    ensures s[i].key in SpawnedKeys(s)
  {
    if i < |s| - 1 {
      SpawnedKeysHas(s[..|s| - 1], i);
    }
  }

  /** No two calls in `c` are for the same key. */
  ghost predicate CancelsDistinct(c: seq<Cancel>) {
    c == [] || (CancelsDistinct(c[..|c| - 1]) && c[|c| - 1].key !in CancelledKeys(c[..|c| - 1]))
  }

  /** No two starts in `s` are for the same key. */
  ghost predicate SpawnsDistinct(s: seq<Spawn>) {
    s == [] || (SpawnsDistinct(s[..|s| - 1]) && s[|s| - 1].key !in SpawnedKeys(s[..|s| - 1]))
  }

  /** Distinct calls: each key is cancelled once, so there are as many calls as keys. */
  lemma {:induction false} CancelsDistinctOnce(c: seq<Cancel>)
    requires CancelsDistinct(c)
    ensures |CancelledKeys(c)| == |c|
    ensures forall i, j :: 0 <= i < j < |c| ==> c[i].key != c[j].key
  {
    if c != [] {
      var init := c[..|c| - 1];
      CancelsDistinctOnce(init);
      forall i | 0 <= i < |init|
        ensures c[i].key != c[|c| - 1].key
      {
        CancelledKeysHas(init, i);
      }
    }
  }

  /** Distinct starts: each key is started once, so there are as many starts as keys. */
  lemma {:induction false} SpawnsDistinctOnce(s: seq<Spawn>)
    requires SpawnsDistinct(s)
    ensures |SpawnedKeys(s)| == |s|
    ensures forall i, j :: 0 <= i < j < |s| ==> s[i].key != s[j].key
  {
    if s != [] {
      var init := s[..|s| - 1];
      SpawnsDistinctOnce(init);
      forall i | 0 <= i < |init|
        ensures s[i].key != s[|s| - 1].key
      {
        SpawnedKeysHas(init, i);
      }
    }
  }

  /** Every call in `c` uses the handle `before` registered for its key. */
  ghost predicate CancelsRegistered(c: seq<Cancel>, before: map<string, CancelHandle>) {
    c == [] ||
    (var last := c[|c| - 1];
     CancelsRegistered(c[..|c| - 1], before) && last.key in before && last.handle == before[last.key])
  }

  lemma {:induction false} CancelsRegisteredAt(c: seq<Cancel>, before: map<string, CancelHandle>, i: nat)
    requires CancelsRegistered(c, before) && i < |c|
    ensures c[i].key in before && c[i].handle == before[c[i].key]
  {
    if i < |c| - 1 {
      CancelsRegisteredAt(c[..|c| - 1], before, i);
    }
  }

  /**
   * `c` cancels each key in `gone`, with the handle `before` held for it,
   * and nothing else, each of them exactly once.
   */
  ghost predicate CancelledExactly(c: seq<Cancel>, before: map<string, CancelHandle>, gone: set<string>) {
    && CancelledKeys(c) == gone
    && CancelsDistinct(c)
    && CancelsRegistered(c, before)
  }

  /**
   * `sp` runs the active target of its key, under the handle `after`
   * registers for that key, issued at or after `firstId`.
   */
  ghost predicate StartedAs(sp: Spawn, active: map<string, Probes.Endpoint>, after: map<string, CancelHandle>, firstId: nat) {
    && sp.key in active && sp.target == active[sp.key]
    && sp.key in after && after[sp.key] == sp.handle
    && sp.handle.id >= firstId
  }

  /** Every start in `s` is `StartedAs` its key says. */
  ghost predicate StartsRegistered(s: seq<Spawn>, active: map<string, Probes.Endpoint>, after: map<string, CancelHandle>, firstId: nat) {
    s == [] || (StartsRegistered(s[..|s| - 1], active, after, firstId) && StartedAs(s[|s| - 1], active, after, firstId))
  }

  lemma {:induction false} StartsRegisteredAt(s: seq<Spawn>, active: map<string, Probes.Endpoint>, after: map<string, CancelHandle>,
                                              firstId: nat, i: nat)
    requires StartsRegistered(s, active, after, firstId) && i < |s|
    ensures StartedAs(s[i], active, after, firstId)
  {
    if i < |s| - 1 {
      StartsRegisteredAt(s[..|s| - 1], active, after, firstId, i);
    }
  }

  /** Registering a key no start in `s` mentions leaves the starts registered. */
  lemma {:induction false} StartsRegisteredExtend(s: seq<Spawn>, active: map<string, Probes.Endpoint>, after: map<string, CancelHandle>,
                                                  firstId: nat, key: string, handle: CancelHandle)
    requires StartsRegistered(s, active, after, firstId) && key !in SpawnedKeys(s)
    ensures StartsRegistered(s, active, after[key := handle], firstId)
  {
    if s != [] {
      StartsRegisteredExtend(s[..|s| - 1], active, after, firstId, key, handle);
    }
  }

  /** The base start delay of the start after those in `s`. */
  function NextWaitTime(s: seq<Spawn>): int {
    if s == [] then 0 else s[|s| - 1].waitTime + GapBetweenTargets
  }

  /** Each start waits one gap longer than the one before it, and the first does not wait. */
  ghost predicate Staggered(s: seq<Spawn>) {
    s == [] || (Staggered(s[..|s| - 1]) && s[|s| - 1].waitTime == NextWaitTime(s[..|s| - 1]))
  }

  /** The staggered delays are 0, 10 ms, 20 ms, ...: the n-th start waits n gaps. */
  lemma {:induction false} StaggeredDelays(s: seq<Spawn>, n: nat)
    requires Staggered(s) && n < |s|
    ensures s[n].waitTime == n * GapBetweenTargets
  {
    var init := s[..|s| - 1];
    if n < |s| - 1 {
      StaggeredDelays(init, n);
      assert s[n] == init[n];
    } else if n > 0 {
      StaggeredDelays(init, n - 1);
      assert n * GapBetweenTargets == (n - 1) * GapBetweenTargets + GapBetweenTargets;
    }
  }

  /**
   * The starts in `s` got the handles numbered from `firstId` in start
   * order: each `context.WithCancel` call gives a new cancel function.
   */
  ghost predicate HandlesNumbered(s: seq<Spawn>, firstId: nat) {
    s == [] || (HandlesNumbered(s[..|s| - 1], firstId) && s[|s| - 1].handle == CancelHandle(firstId + |s| - 1))
  }

  lemma {:induction false} HandlesNumberedAt(s: seq<Spawn>, firstId: nat, i: nat)
    requires HandlesNumbered(s, firstId) && i < |s|
    ensures s[i].handle == CancelHandle(firstId + i)
  {
    if i < |s| - 1 {
      HandlesNumberedAt(s[..|s| - 1], firstId, i);
    }
  }

  /**
   * `s` starts one loop for each key of `wanted` missing from `before`, and
   * no other, exactly once each, staggered, under handles numbered from
   * `firstId`, each `StartedAs` its key says.
   */
  ghost predicate SpawnedExactly(s: seq<Spawn>, before: set<string>, wanted: set<string>, active: map<string, Probes.Endpoint>,
                                 after: map<string, CancelHandle>, firstId: nat) {
    && SpawnedKeys(s) == wanted - before
    && SpawnsDistinct(s)
    && Staggered(s)
    && HandlesNumbered(s, firstId)
    && StartsRegistered(s, active, after, firstId)
  }

  /** Every registered handle was issued before `next`, so a handle issued from `next` on is fresh. */
  ghost predicate RegistryValid(registry: map<string, CancelHandle>, next: nat) {
    forall k :: k in registry ==> registry[k].id < next
  }

  /** A fresh handle keeps the registry valid. */
  lemma RegisterFresh(registry: map<string, CancelHandle>, next: nat, key: string)
    requires RegistryValid(registry, next) && key !in registry
    ensures RegistryValid(registry[key := CancelHandle(next)], next + 1)
  {
  }

  /** What the cancel loop keeps true while `remaining` keys are still to visit. */
  ghost predicate CancelLoop(registry: map<string, CancelHandle>, active: set<string>, remaining: set<string>,
                             kept: map<string, CancelHandle>, calls: seq<Cancel>) {
    && remaining <= registry.Keys
    && kept.Keys == remaining + (registry.Keys - remaining) * active
    && (forall k :: k in kept ==> k in registry && kept[k] == registry[k])
    && CancelledExactly(calls, registry, (registry.Keys - remaining) - active)
  }

  /** A pass of the cancel loop that finds its key active keeps `CancelLoop`. */
  lemma CancelLoopSkip(registry: map<string, CancelHandle>, active: set<string>, remaining: set<string>,
                       kept: map<string, CancelHandle>, calls: seq<Cancel>, key: string)
    requires CancelLoop(registry, active, remaining, kept, calls) && key in remaining && key in active
    ensures CancelLoop(registry, active, remaining - {key}, kept, calls)
  {
    KeepStep(registry.Keys, remaining, active, key);
  }

  /** Visiting an active `key` moves it from `remaining` to the kept visited keys, and drops nothing. */
  lemma KeepStep(all: set<string>, remaining: set<string>, active: set<string>, key: string)
    requires key in remaining && key in all && key in active
    ensures (all - (remaining - {key})) - active == (all - remaining) - active
    ensures remaining + (all - remaining) * active == (remaining - {key}) + (all - (remaining - {key})) * active
  {
  }

  /** A pass of the cancel loop that cancels its key keeps `CancelLoop`. */
  lemma CancelLoopCancel(registry: map<string, CancelHandle>, active: set<string>, remaining: set<string>,
                         kept: map<string, CancelHandle>, calls: seq<Cancel>, key: string)
    requires CancelLoop(registry, active, remaining, kept, calls) && key in remaining && key !in active
    ensures key in kept && CancelLoop(registry, active, remaining - {key}, kept - {key}, calls + [Cancel(key, kept[key])])
  {
    var gone := (registry.Keys - remaining) - active;
    var gone' := (registry.Keys - (remaining - {key})) - active;
    var calls' := calls + [Cancel(key, kept[key])];
    assert calls'[..|calls'| - 1] == calls;
    assert gone' == gone + {key};
    assert (kept - {key}).Keys == (remaining - {key}) + (registry.Keys - (remaining - {key})) * active;
  }

  /**
   * The cancel loop: visits the registered keys in an unspecified order
   * and cancels and removes each one that is not active.
   */
  method CancelInactive(registry: map<string, CancelHandle>, active: set<string>)
    returns (kept: map<string, CancelHandle>, calls: seq<Cancel>)
    ensures kept.Keys == registry.Keys * active
    ensures forall k :: k in kept ==> kept[k] == registry[k]
    ensures CancelledExactly(calls, registry, registry.Keys - active)
  {
    kept := registry;
    calls := [];
    var remaining := registry.Keys;
    while remaining != {}
      invariant CancelLoop(registry, active, remaining, kept, calls)
      decreases remaining
    {
      var key :| key in remaining;
      if key in active {
        CancelLoopSkip(registry, active, remaining, kept, calls, key);
        remaining := remaining - {key};
        continue;
      }
      CancelLoopCancel(registry, active, remaining, kept, calls, key);
      remaining := remaining - {key};
      calls := calls + [Cancel(key, kept[key])];
      kept := kept - {key};
    }
    assert registry.Keys - remaining == registry.Keys;
  }

  /** What the start loop keeps true while `remaining` keys are still to visit. */
  ghost predicate StartLoop(registry: map<string, CancelHandle>, active: map<string, Probes.Endpoint>, firstId: nat,
                            remaining: set<string>, after: map<string, CancelHandle>, starts: seq<Spawn>, next: nat) {
    && remaining <= active.Keys
    && after.Keys == registry.Keys + (active.Keys - remaining)
    && (forall k :: k in registry ==> after[k] == registry[k])
    && next == firstId + |starts|
    && SpawnedExactly(starts, registry.Keys, active.Keys - remaining, active, after, firstId)
  }

  /** A pass of the start loop that finds its key registered keeps `StartLoop`. */
  lemma StartLoopSkip(registry: map<string, CancelHandle>, active: map<string, Probes.Endpoint>, firstId: nat,
                      remaining: set<string>, after: map<string, CancelHandle>, starts: seq<Spawn>, next: nat, key: string)
    requires StartLoop(registry, active, firstId, remaining, after, starts, next) && key in remaining && key in after
    ensures StartLoop(registry, active, firstId, remaining - {key}, after, starts, next)
  {
    assert key in registry.Keys;
    assert (active.Keys - (remaining - {key})) - registry.Keys == (active.Keys - remaining) - registry.Keys;
    assert after.Keys == registry.Keys + (active.Keys - (remaining - {key}));
  }

  lemma SpawnedKeysAppend(s: seq<Spawn>, x: Spawn)
    ensures SpawnedKeys(s + [x]) == SpawnedKeys(s) + {x.key}
  {
    assert (s + [x])[..|s|] == s;
  }

  lemma StaggeredAppend(s: seq<Spawn>, x: Spawn)
    requires Staggered(s) && x.waitTime == NextWaitTime(s)
    ensures Staggered(s + [x])
  {
    assert (s + [x])[..|s|] == s;
  }

  lemma StartsRegisteredAppend(s: seq<Spawn>, active: map<string, Probes.Endpoint>, after: map<string, CancelHandle>,
                               firstId: nat, x: Spawn)
    requires StartsRegistered(s, active, after, firstId) && StartedAs(x, active, after, firstId)
    ensures StartsRegistered(s + [x], active, after, firstId)
  {
    assert (s + [x])[..|s|] == s;
  }

  lemma HandlesNumberedAppend(s: seq<Spawn>, firstId: nat, x: Spawn)
    requires HandlesNumbered(s, firstId) && x.handle == CancelHandle(firstId + |s|)
    ensures HandlesNumbered(s + [x], firstId)
  {
    assert (s + [x])[..|s|] == s;
  }

  lemma SpawnsDistinctAppend(s: seq<Spawn>, x: Spawn)
    requires SpawnsDistinct(s) && x.key !in SpawnedKeys(s)
    ensures SpawnsDistinct(s + [x])
  {
    assert (s + [x])[..|s|] == s;
  }

  /** Visiting `key`, not in `base`, adds it to the visited part of `all`. */
  lemma VisitStep(all: set<string>, remaining: set<string>, base: set<string>, key: string)
    requires key in remaining && key in all && key !in base
    ensures key !in (all - remaining) - base
    ensures (all - (remaining - {key})) - base == ((all - remaining) - base) + {key}
    ensures base + (all - (remaining - {key})) == (base + (all - remaining)) + {key}
  {
  }

  /** Registering the visited `key` keeps the registry's keys those of `base` plus the visited ones. */
  lemma RegisterVisited(after: map<string, CancelHandle>, base: set<string>, all: set<string>, remaining: set<string>,
                        key: string, handle: CancelHandle)
    requires after.Keys == base + (all - remaining) && key in remaining && key in all
    ensures after[key := handle].Keys == base + (all - (remaining - {key}))
  {
  }

  /** Recording the start of a fresh `key` keeps the starts exactly those of the visited keys. */
  lemma SpawnedStep(registry: map<string, CancelHandle>, active: map<string, Probes.Endpoint>, firstId: nat,
                    remaining: set<string>, after: map<string, CancelHandle>, starts: seq<Spawn>, next: nat, key: string)
    requires StartLoop(registry, active, firstId, remaining, after, starts, next) && key in remaining && key !in after
    ensures SpawnedExactly(starts + [Spawn(key, active[key], CancelHandle(next), NextWaitTime(starts))],
                           registry.Keys, active.Keys - (remaining - {key}), active, after[key := CancelHandle(next)], firstId)
  {
    var handle := CancelHandle(next);
    var x := Spawn(key, active[key], handle, NextWaitTime(starts));
    StartsRegisteredExtend(starts, active, after, firstId, key, handle);
    StartsRegisteredAppend(starts, active, after[key := handle], firstId, x);
    StaggeredAppend(starts, x);
    HandlesNumberedAppend(starts, firstId, x);
    SpawnedKeysAppend(starts, x);
    SpawnsDistinctAppend(starts, x);
    VisitStep(active.Keys, remaining, registry.Keys, key);
  }

  /** A pass of the start loop that registers its key under a fresh handle keeps `StartLoop`. */
  lemma StartLoopStart(registry: map<string, CancelHandle>, active: map<string, Probes.Endpoint>, firstId: nat,
                       remaining: set<string>, after: map<string, CancelHandle>, starts: seq<Spawn>, next: nat, key: string)
    requires StartLoop(registry, active, firstId, remaining, after, starts, next) && key in remaining && key !in after
    ensures StartLoop(registry, active, firstId, remaining - {key}, after[key := CancelHandle(next)],
                      starts + [Spawn(key, active[key], CancelHandle(next), NextWaitTime(starts))], next + 1)
  {
    SpawnedStep(registry, active, firstId, remaining, after, starts, next, key);
    RegisterVisited(after, registry.Keys, active.Keys, remaining, key, CancelHandle(next));
  }

  /** Once every active key is visited, `StartLoop` is what `StartMissing` promises. */
  lemma StartLoopDone(registry: map<string, CancelHandle>, active: map<string, Probes.Endpoint>, firstId: nat,
                      after: map<string, CancelHandle>, starts: seq<Spawn>, next: nat)
    requires StartLoop(registry, active, firstId, {}, after, starts, next)
    ensures after.Keys == registry.Keys + active.Keys
    ensures forall k :: k in registry ==> after[k] == registry[k]
    ensures SpawnedExactly(starts, registry.Keys, active.Keys, active, after, firstId)
    ensures next == firstId + |starts|
  {
    assert active.Keys - {} == active.Keys;
  }

  /**
   * One pass of the start loop, for the active `key`: a key already
   * registered is left alone; a missing one is registered under the
   * handle `next` and its start recorded with the current delay.
   */
  method StartOne(registry: map<string, CancelHandle>, active: map<string, Probes.Endpoint>, firstId: nat,
                  remaining: set<string>, after: map<string, CancelHandle>, starts: seq<Spawn>, next: nat,
                  startWaitTime: int, key: string)
    returns (after': map<string, CancelHandle>, starts': seq<Spawn>, next': nat, startWaitTime': int)
    requires StartLoop(registry, active, firstId, remaining, after, starts, next)
    requires startWaitTime == NextWaitTime(starts) && RegistryValid(after, next) && key in remaining
    ensures key in after ==> after' == after && starts' == starts && next' == next
    ensures key !in after ==> && after' == after[key := CancelHandle(next)] && next' == next + 1
                              && starts' == starts + [Spawn(key, active[key], CancelHandle(next), startWaitTime)]
    ensures StartLoop(registry, active, firstId, remaining - {key}, after', starts', next')
    ensures startWaitTime' == NextWaitTime(starts') && RegistryValid(after', next')
  {
    // This target is already initialized.
    if key in after {
      StartLoopSkip(registry, active, firstId, remaining, after, starts, next, key);
      return after, starts, next, startWaitTime;
    }
    StartLoopStart(registry, active, firstId, remaining, after, starts, next, key);
    RegisterFresh(after, next, key);
    var handle := CancelHandle(next);
    var start := Spawn(key, active[key], handle, startWaitTime);
    starts' := starts + [start];
    assert NextWaitTime(starts') == start.waitTime + GapBetweenTargets;
    startWaitTime' := startWaitTime + GapBetweenTargets;
    after' := after[key := handle];
    next' := next + 1;
  }

  /**
   * The start loop: visits the active keys in an unspecified order and
   * registers each one missing from `registry` under a fresh handle
   * numbered from `firstId`, recording its start.
   */
  method StartMissing(registry: map<string, CancelHandle>, active: map<string, Probes.Endpoint>, firstId: nat)
    returns (after: map<string, CancelHandle>, starts: seq<Spawn>, next: nat)
    requires RegistryValid(registry, firstId)
    ensures after.Keys == registry.Keys + active.Keys
    ensures forall k :: k in registry ==> after[k] == registry[k]
    ensures SpawnedExactly(starts, registry.Keys, active.Keys, active, after, firstId)
    ensures next == firstId + |starts|
    ensures RegistryValid(after, next)
  {
    after := registry;
    next := firstId;
    starts := [];
    var remaining := active.Keys;
    var startWaitTime := 0;
    while remaining != {}
      invariant StartLoop(registry, active, firstId, remaining, after, starts, next)
      invariant startWaitTime == NextWaitTime(starts)
      invariant RegistryValid(after, next)
      decreases remaining
    {
      var key :| key in remaining;
      after, starts, next, startWaitTime := StartOne(registry, active, firstId, remaining, after, starts, next,
                                                     startWaitTime, key);
      remaining := remaining - {key};
    }
    StartLoopDone(registry, active, firstId, after, starts, next);
  }

  /** The outcome of one refresh: the new registry, the calls made, and the handle counter. */
  datatype Refresh = Refresh(after: map<string, CancelHandle>, cancels: seq<Cancel>, spawns: seq<Spawn>, next: nat)

  /**
   * `r` refreshes the registry `before` (handles numbered below `firstId`)
   * to the listing: afterwards the registry holds exactly the listed keys;
   * keys registered before and still listed keep their handles and are
   * neither cancelled nor restarted; every dropped key is cancelled once;
   * every new key gets one staggered loop under a fresh handle.
   */
  ghost predicate Refreshed(before: map<string, CancelHandle>, listed: seq<Probes.Endpoint>, firstId: nat, r: Refresh) {
    && r.after.Keys == KeysOf(listed)
    && (forall k :: k in before && k in r.after ==> r.after[k] == before[k])
    && CancelledExactly(r.cancels, before, before.Keys - KeysOf(listed))
    && SpawnedExactly(r.spawns, before.Keys, KeysOf(listed), ActiveTargets(listed), r.after, firstId)
    && r.next == firstId + |r.spawns|
    && RegistryValid(r.after, r.next)
  }

  /** The registry the cancel loop keeps is a valid part of the old one, and only new keys are left to start. */
  lemma KeptPart(registry: map<string, CancelHandle>, active: set<string>, kept: map<string, CancelHandle>, next: nat)
    requires RegistryValid(registry, next)
    requires kept.Keys == registry.Keys * active && forall k :: k in kept ==> kept[k] == registry[k]
    ensures RegistryValid(kept, next)
    ensures active - kept.Keys == active - registry.Keys
    ensures kept.Keys + active == active
    ensures forall k :: k in registry && k in active ==> k in kept
  {
  }

  /** The registry half of `updateTargetsAndStartProbes`: the active map, then the two loops. */
  method RefreshRegistry(registry: map<string, CancelHandle>, listed: seq<Probes.Endpoint>, firstId: nat) returns (r: Refresh)
    requires RegistryValid(registry, firstId)
    ensures Refreshed(registry, listed, firstId, r)
  {
    var active := ListActiveTargets(listed);
    // Cancel the probe loops of targets that are no longer active.
    var kept, cancels := CancelInactive(registry, active.Keys);
    KeptPart(registry, active.Keys, kept, firstId);
    // Start probe loops for the targets that are not running yet.
    var after, spawns, next := StartMissing(kept, active, firstId);
    r := Refresh(after, cancels, spawns, next);
  }

  /** A refresh with no key to drop makes no cancel call. */
  lemma NothingGoneNoCancels(c: seq<Cancel>, before: map<string, CancelHandle>, keep: set<string>)
    requires CancelledExactly(c, before, before.Keys - keep) && before.Keys <= keep
    ensures c == []
  {
    assert before.Keys - keep == {};
  }

  /** A refresh with no key to add starts no loop. */
  lemma NothingNewNoSpawns(s: seq<Spawn>, before: set<string>, wanted: set<string>, active: map<string, Probes.Endpoint>,
                           after: map<string, CancelHandle>, firstId: nat)
    requires SpawnedExactly(s, before, wanted, active, after, firstId) && wanted <= before
    ensures s == []
  {
    assert wanted - before == {};
  }

  /** Two maps with the same keys that agree on every key are equal. */
  lemma SameKeysAgreeEqual(m1: map<string, CancelHandle>, m2: map<string, CancelHandle>)
    requires m1.Keys == m2.Keys && forall k :: k in m1 && k in m2 ==> m2[k] == m1[k]
    ensures m1 == m2
  {
  }

  /**
   * A second refresh with an unchanged listing cancels nothing, starts
   * nothing and leaves the registry as it was.
   */
  lemma SecondRefreshChangesNothing(before: map<string, CancelHandle>, listed: seq<Probes.Endpoint>, firstId: nat,
                                    r1: Refresh, r2: Refresh)
    requires Refreshed(before, listed, firstId, r1) && Refreshed(r1.after, listed, r1.next, r2)
    ensures r2.cancels == [] && r2.spawns == [] && r2.after == r1.after && r2.next == r1.next
  {
    NothingGoneNoCancels(r2.cancels, r1.after, KeysOf(listed));
    NothingNewNoSpawns(r2.spawns, r1.after.Keys, KeysOf(listed), ActiveTargets(listed), r2.after, r1.next);
    SameKeysAgreeEqual(r1.after, r2.after);
  }

  /** A refresh makes one cancel call per dropped key. */
  lemma RefreshCancelCount(before: map<string, CancelHandle>, listed: seq<Probes.Endpoint>, firstId: nat, r: Refresh)
    requires Refreshed(before, listed, firstId, r)
    ensures |r.cancels| == |before.Keys - KeysOf(listed)|
  {
    CancelsDistinctOnce(r.cancels);
  }

  /** A refresh starts one loop per new key. */
  lemma RefreshSpawnCount(before: map<string, CancelHandle>, listed: seq<Probes.Endpoint>, firstId: nat, r: Refresh)
    requires Refreshed(before, listed, firstId, r)
    ensures |r.spawns| == |KeysOf(listed) - before.Keys|
  {
    SpawnsDistinctOnce(r.spawns);
  }

  /**
   * A key registered before a refresh and still listed keeps its handle:
   * no cancel call and no start of the refresh is for it.
   */
  lemma RefreshKeepsListed(before: map<string, CancelHandle>, listed: seq<Probes.Endpoint>, firstId: nat, r: Refresh, k: string)
    requires Refreshed(before, listed, firstId, r) && k in before && k in KeysOf(listed)
    ensures k in r.after && r.after[k] == before[k]
    ensures forall i :: 0 <= i < |r.cancels| ==> r.cancels[i].key != k
    ensures forall i :: 0 <= i < |r.spawns| ==> r.spawns[i].key != k
  {
    forall i | 0 <= i < |r.cancels|
      ensures r.cancels[i].key != k
    {
      CancelledKeysHas(r.cancels, i);
    }
    forall i | 0 <= i < |r.spawns|
      ensures r.spawns[i].key != k
    {
      SpawnedKeysHas(r.spawns, i);
    }
  }

  /** The loops one refresh starts wait 0, 10 ms, 20 ms, ... before their first probe. */
  lemma RefreshDelays(before: map<string, CancelHandle>, listed: seq<Probes.Endpoint>, firstId: nat, r: Refresh)
    requires Refreshed(before, listed, firstId, r)
    ensures forall i :: 0 <= i < |r.spawns| ==> r.spawns[i].waitTime == i * GapBetweenTargets
  {
    forall i | 0 <= i < |r.spawns|
      ensures r.spawns[i].waitTime == i * GapBetweenTargets
    {
      StaggeredDelays(r.spawns, i);
    }
  }

  /**
   * A loop started by a refresh runs its key's listed target under a new
   * handle: one that no key registered before the refresh held.
   */
  lemma RefreshHandlesFresh(before: map<string, CancelHandle>, listed: seq<Probes.Endpoint>, firstId: nat, r: Refresh)
    requires RegistryValid(before, firstId) && Refreshed(before, listed, firstId, r)
    ensures forall i :: 0 <= i < |r.spawns| ==>
      && StartedAs(r.spawns[i], ActiveTargets(listed), r.after, firstId)
      && forall k :: k in before ==> before[k] != r.spawns[i].handle
  {
    forall i | 0 <= i < |r.spawns|
      ensures StartedAs(r.spawns[i], ActiveTargets(listed), r.after, firstId)
    {
      StartsRegisteredAt(r.spawns, ActiveTargets(listed), r.after, firstId, i);
    }
  }

  /**
   * The loops one refresh starts get the handles numbered from `firstId` in
   * start order, so no two of them share a cancel function.
   */
  lemma RefreshHandlesDistinct(before: map<string, CancelHandle>, listed: seq<Probes.Endpoint>, firstId: nat, r: Refresh)
    requires Refreshed(before, listed, firstId, r)
    ensures forall i :: 0 <= i < |r.spawns| ==> r.spawns[i].handle == CancelHandle(firstId + i)
    ensures forall i, j :: 0 <= i < j < |r.spawns| ==> r.spawns[i].handle != r.spawns[j].handle
  {
    forall i | 0 <= i < |r.spawns|
      ensures r.spawns[i].handle == CancelHandle(firstId + i)
    {
      HandlesNumberedAt(r.spawns, firstId, i);
    }
  }

  /** Every cancel call of a refresh uses the handle its dropped key held. */
  lemma RefreshCancelsDropped(before: map<string, CancelHandle>, listed: seq<Probes.Endpoint>, firstId: nat, r: Refresh)
    requires Refreshed(before, listed, firstId, r)
    ensures forall i :: 0 <= i < |r.cancels| ==>
      && r.cancels[i].key in before && r.cancels[i].key !in KeysOf(listed)
      && r.cancels[i].handle == before[r.cancels[i].key]
  {
    forall i | 0 <= i < |r.cancels|
      ensures r.cancels[i].key in before && r.cancels[i].key !in KeysOf(listed)
      ensures r.cancels[i].handle == before[r.cancels[i].key]
    {
      CancelsRegisteredAt(r.cancels, before, i);
      CancelledKeysHas(r.cancels, i);
    }
  }
}
