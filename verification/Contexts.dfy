/** Contexts that were started under a key and can be cancelled by it: of PUB handlers by topic, of Action Cable
    subscriptions by identifier. */
module Contexts {
  type Key = string

  /** Contexts are told apart by the order in which they were started. */
  type CtxId = nat

  /** `started` is the key of every context ever started, `stopped` the contexts cancelled since. */
  datatype Registry = Registry(cancelers: map<Key, CtxId>, started: seq<Key>, stopped: set<CtxId>)

  const NO_CONTEXTS := Registry(map[], [], {})

  function KeySet(keys: seq<Key>): set<Key> {
    set k | k in keys
  }

  /** A context for a key that has none. */
  function Start(p: Registry, key: Key): Registry {
    if key in p.cancelers then p
    else Registry(p.cancelers[key := |p.started|], p.started + [key], p.stopped)
  }

  function Stop(p: Registry, key: Key): Registry {
    if key in p.cancelers then Registry(p.cancelers - {key}, p.started, p.stopped + {p.cancelers[key]}) else p
  }

  function StartAll(p: Registry, keys: seq<Key>): Registry
    decreases |keys|
  {
    if keys == [] then p else StartAll(Start(p, keys[0]), keys[1..])
  }

  function StopAll(p: Registry, keys: seq<Key>): Registry
    decreases |keys|
  {
    if keys == [] then p else StopAll(Stop(p, keys[0]), keys[1..])
  }

  /** A context was started for the key and has not been cancelled. */
  ghost predicate Runs(p: Registry, c: CtxId, key: Key) {
    c < |p.started| && p.started[c] == key && c !in p.stopped
  }

  /** The cancelers are those of the running contexts, one for each key. */
  ghost predicate Valid(p: Registry) {
    && (forall t :: t in p.cancelers ==> Runs(p, p.cancelers[t], t))
    && (forall c: CtxId :: c < |p.started| && c !in p.stopped ==>
        p.started[c] in p.cancelers && p.cancelers[p.started[c]] == c)
    && (forall c :: c in p.stopped ==> c < |p.started|)
  }

  /** A key has at most one running context, and has one exactly when it has a canceler. */
  lemma AtMostOneContext(p: Registry, key: Key)
    requires Valid(p)
    ensures key in p.cancelers <==> exists c: CtxId :: Runs(p, c, key)
    ensures forall c: CtxId, d: CtxId :: Runs(p, c, key) && Runs(p, d, key) ==> c == d
  {
    if key in p.cancelers {
      assert Runs(p, p.cancelers[key], key);
    }
  }

  lemma StartKeeps(p: Registry, key: Key)
    requires Valid(p)
    ensures Valid(Start(p, key)) && Start(p, key).cancelers.Keys == p.cancelers.Keys + {key}
  {
    var r := Start(p, key);
    assert r.cancelers.Keys == p.cancelers.Keys + {key};
    forall t | t in r.cancelers ensures Runs(r, r.cancelers[t], t) {
      assert t in p.cancelers ==> Runs(p, p.cancelers[t], t);
    }
  }

  lemma StopKeeps(p: Registry, key: Key)
    requires Valid(p)
    ensures Valid(Stop(p, key)) && Stop(p, key).cancelers.Keys == p.cancelers.Keys - {key}
  {
    var r := Stop(p, key);
    assert r.cancelers.Keys == p.cancelers.Keys - {key};
    forall t | t in r.cancelers ensures Runs(r, r.cancelers[t], t) {
      assert Runs(p, p.cancelers[t], t);
      assert key in p.cancelers ==> Runs(p, p.cancelers[key], key);
    }
  }

  /** Starting a context for a key that has one changes nothing; otherwise one context more runs, for the key. */
  lemma StartExactly(p: Registry, key: Key)
    requires Valid(p)
    ensures key in p.cancelers ==> Start(p, key) == p
    ensures key !in p.cancelers ==>
      forall c: CtxId, k :: Runs(Start(p, key), c, k) <==> Runs(p, c, k) || (c == |p.started| && k == key)
  {
  }

  /** Stopping a key ends its context and no other. */
  lemma StopExactly(p: Registry, key: Key)
    requires Valid(p)
    ensures forall c: CtxId, k :: Runs(Stop(p, key), c, k) <==> Runs(p, c, k) && k != key
  {
    forall c: CtxId, k ensures Runs(Stop(p, key), c, k) <==> Runs(p, c, k) && k != key {
      if key in p.cancelers {
        assert Runs(p, p.cancelers[key], key);
      }
    }
  }

  /** Starting others leaves a running context alone. */
  lemma {:induction false} StartAllLeaves(p: Registry, keys: seq<Key>, c: CtxId, k: Key)
    requires Valid(p) && Runs(p, c, k)
    ensures Runs(StartAll(p, keys), c, k)
    decreases |keys|
  {
    if keys != [] {
      StartKeeps(p, keys[0]);
      StartExactly(p, keys[0]);
      StartAllLeaves(Start(p, keys[0]), keys[1..], c, k);
    }
  }

  /** So does stopping others. */
  lemma {:induction false} StopAllLeaves(p: Registry, keys: seq<Key>, c: CtxId, k: Key)
    requires Valid(p) && Runs(p, c, k) && k !in keys
    ensures Runs(StopAll(p, keys), c, k)
    decreases |keys|
  {
    if keys != [] {
      StopKeeps(p, keys[0]);
      StopExactly(p, keys[0]);
      StopAllLeaves(Stop(p, keys[0]), keys[1..], c, k);
    }
  }

  lemma KeySetFirst(keys: seq<Key>)
    requires keys != []
    ensures KeySet(keys) == {keys[0]} + KeySet(keys[1..])
  {
  }

  lemma {:induction false} StartAllKeeps(p: Registry, keys: seq<Key>)
    requires Valid(p)
    ensures Valid(StartAll(p, keys))
    ensures StartAll(p, keys).cancelers.Keys == p.cancelers.Keys + KeySet(keys)
    decreases |keys|
  {
    if keys != [] {
      StartKeeps(p, keys[0]);
      StartAllKeeps(Start(p, keys[0]), keys[1..]);
      KeySetFirst(keys);
    }
  }

  lemma {:induction false} StopAllKeeps(p: Registry, keys: seq<Key>)
    requires Valid(p)
    ensures Valid(StopAll(p, keys))
    ensures StopAll(p, keys).cancelers.Keys == p.cancelers.Keys - KeySet(keys)
    decreases |keys|
  {
    if keys != [] {
      StopKeeps(p, keys[0]);
      StopAllKeeps(Stop(p, keys[0]), keys[1..]);
      KeySetFirst(keys);
    }
  }

  lemma StartNext(p: Registry, keys: seq<Key>, i: nat)
    requires i < |keys|
    ensures StartAll(p, keys[i..]) == StartAll(Start(p, keys[i]), keys[i + 1..])
  {
    assert keys[i..][1..] == keys[i + 1..];
  }

  lemma StopNext(p: Registry, keys: seq<Key>, i: nat)
    requires i < |keys|
    ensures StopAll(p, keys[i..]) == StopAll(Stop(p, keys[i]), keys[i + 1..])
  {
    assert keys[i..][1..] == keys[i + 1..];
  }

  /** The contexts under some keys. */
  function Under(p: Registry, keys: set<Key>): set<CtxId> {
    set k | k in keys && k in p.cancelers :: p.cancelers[k]
  }

  function StopEvery(p: Registry): Registry {
    Registry(map[], p.started, p.stopped + Under(p, p.cancelers.Keys))
  }

  lemma StopEveryKeeps(p: Registry)
    requires Valid(p)
    ensures Valid(StopEvery(p)) && forall c: CtxId, k :: !Runs(StopEvery(p), c, k)
  {
    forall c: CtxId | c < |p.started| ensures c in StopEvery(p).stopped {
      if c !in p.stopped {
        assert p.cancelers[p.started[c]] == c;
      }
    }
  }

  lemma UnderMore(p: Registry, keys: set<Key>, key: Key)
    requires key in p.cancelers
    ensures Under(p, keys + {key}) == Under(p, keys) + {p.cancelers[key]}
  {
  }
}
