/** The broker's methods that start and cancel publishers. */
module Brokers {
  import opened HubStates
  import opened Contexts
  import opened Hubs

  /** Publishers after a received change. */
  function AfterChange(p: Registry, c: Change): Registry {
    StopAll(StartAll(p, c.added), c.removed)
  }

  /** Serving a change does to the publishers' topics what the change says. */
  lemma AfterChangeKeeps(p: Registry, c: Change)
    requires Contexts.Valid(p)
    ensures Contexts.Valid(AfterChange(p, c))
    ensures AfterChange(p, c).cancelers.Keys == Apply(p.cancelers.Keys, c)
  {
    StartAllKeeps(p, c.added);
    StopAllKeeps(StartAll(p, c.added), c.removed);
  }

  /** A publisher goes on, with the same context, through every change that does not remove its topic; and a topic that
      a change both adds and removes has none afterwards. */
  lemma AfterChangeLeaves(p: Registry, c: Change, ctx: CtxId, topic: Topic)
    requires Contexts.Valid(p)
    ensures Runs(p, ctx, topic) && topic !in c.removed ==> Runs(AfterChange(p, c), ctx, topic)
    ensures topic in c.removed ==> !Runs(AfterChange(p, c), ctx, topic)
  {
    AfterChangeKeeps(p, c);
    AtMostOneContext(AfterChange(p, c), topic);
    StartAllKeeps(p, c.added);
    if Runs(p, ctx, topic) && topic !in c.removed {
      StartAllLeaves(p, c.added, ctx, topic);
      StopAllLeaves(StartAll(p, c.added), c.removed, ctx, topic);
    }
  }

  class Broker {
    var pubCancelers: map<Topic, CtxId>
    var started: seq<Topic>
    var stopped: set<CtxId>

    function State(): Registry
      reads this
    {
      Registry(pubCancelers, started, stopped)
    }

    constructor ()
      ensures State() == NO_CONTEXTS
    {
      pubCancelers, started, stopped := map[], [], {};
    }

    /** Fails, changing nothing, exactly when the topic's publisher was started and not cancelled since. */
    method TriggerPub(topic: Topic) returns (ok: bool)
      requires Contexts.Valid(State())
      modifies this
      ensures Contexts.Valid(State())
      ensures ok == (topic !in old(pubCancelers)) && topic in pubCancelers
      ensures State() == Start(old(State()), topic)
      ensures !ok ==> State() == old(State())
      ensures ok ==> forall c: CtxId, t ::
                Runs(State(), c, t) <==> old(Runs(State(), c, t)) || (c == |old(started)| && t == topic)
    {
      StartKeeps(State(), topic);
      StartExactly(State(), topic);
      if topic in pubCancelers {
        return false;
      }
      pubCancelers := pubCancelers[topic := |started|];
      started := started + [topic];
      return true;
    }

    method CancelPub(topic: Topic)
      requires Contexts.Valid(State())
      modifies this
      ensures Contexts.Valid(State())
      ensures State() == Stop(old(State()), topic)
      ensures forall c: CtxId, t :: Runs(State(), c, t) <==> old(Runs(State(), c, t)) && t != topic
    {
      StopKeeps(State(), topic);
      StopExactly(State(), topic);
      if topic in pubCancelers {
        stopped := stopped + {pubCancelers[topic]};
        pubCancelers := pubCancelers - {topic};
      }
    }

    /** What `Serve` does for one received change; `failed` tells that TriggerPub failed. */
    method HandleChange(change: Change) returns (failed: bool)
      requires Contexts.Valid(State())
      modifies this
      ensures Contexts.Valid(State())
      ensures State() == AfterChange(old(State()), change)
      ensures !failed
    {
      ghost var p := State();
      failed := false;
      for i := 0 to |change.added|
        invariant Contexts.Valid(State()) && !failed
        invariant StartAll(State(), change.added[i..]) == StartAll(p, change.added)
      {
        StartNext(State(), change.added, i);
        if change.added[i] in pubCancelers {
          continue;
        }
        var ok := TriggerPub(change.added[i]);
        if !ok {
          failed := true;
        }
      }
      ghost var q := State();
      assert q == StartAll(p, change.added);
      for i := 0 to |change.removed|
        invariant Contexts.Valid(State())
        invariant StopAll(State(), change.removed[i..]) == StopAll(q, change.removed)
      {
        StopNext(State(), change.removed, i);
        CancelPub(change.removed[i]);
      }
    }

    /** Serves every change of a channel up to its closing: at the end there is one running publisher for each
        topic that the changes leave with subscriptions, and none for any other. */
    method Serve(changes: seq<Change>) returns (failed: bool)
      requires State() == NO_CONTEXTS
      modifies this
      ensures Contexts.Valid(State()) && pubCancelers.Keys == Replay(changes)
      ensures forall t :: t in Replay(changes) <==> exists c: CtxId :: Runs(State(), c, t)
      ensures !failed
    {
      failed := false;
      for i := 0 to |changes|
        invariant Contexts.Valid(State()) && pubCancelers.Keys == Replay(changes[..i])
        invariant !failed
      {
        AfterChangeKeeps(State(), changes[i]);
        assert changes[..i + 1][..i] == changes[..i];
        var failedNow := HandleChange(changes[i]);
        failed := failed || failedNow;
      }
      assert changes[..|changes|] == changes;
      forall t ensures t in Replay(changes) <==> exists c: CtxId :: Runs(State(), c, t) {
        AtMostOneContext(State(), t);
      }
    }
  }
}
