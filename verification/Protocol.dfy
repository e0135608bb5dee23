/** The hub and the broker running together: callers of the hub take its lock one at a time, keep it while
    they wait to hand a change over, and `Serve` takes one change at a time and works through its topics. */
module Protocol {
  import opened Options
  import opened HubStates
  import opened Contexts

  /** Where `Serve` is: at its receive, inside the change whose topics are still listed, or returned. */
  datatype Server = Waiting | Working(added: seq<Topic>, removed: seq<Topic>) | Stopped

  /** `sending` is the change that the holder of the lock waits to send. `closed` is the state of the channel,
      `panicked` tells that somebody sent on it or closed it when it was closed, and `clashed` that `Serve` met
      an added topic which already had a publisher. */
  datatype State = State(hub: Hub, sending: Option<Change>, closed: bool,
                         server: Server, pubs: Registry, panicked: bool, clashed: bool)

  const START := State(NewHub(true), None, false, Waiting, NO_CONTEXTS, false, false)

  datatype Action =
    | DoSubscribe(topic: Topic, sub: SubId)
    | DoCancel(topics: seq<Topic>)
    | DoUnsubscribe(subs: seq<SubId>)
    | ContextDone(sub: SubId)
    | DoClose
    | Serving

  /** `Serve` can take a step. */
  predicate CanServe(s: State) {
    match s.server
    case Waiting => s.sending.Some? || s.closed
    case Working(_, _) => true
    case Stopped => false
  }

  /** The lock is free: its last holder has no change left to send. */
  predicate Enabled(s: State, a: Action) {
    match a
    case DoSubscribe(_, sub) => s.sending.None? && s.hub.open && sub !in s.hub.topics
    case DoCancel(_) => s.sending.None?
    case DoUnsubscribe(subs) => s.sending.None? && forall sub :: sub in subs ==> sub in s.hub.topics
    case ContextDone(sub) => sub in s.hub.topics
    case DoClose => s.sending.None?
    case Serving => CanServe(s)
  }

  /** A state after the locked part of an operation: a change on a closed channel is a panic. */
  function Locked(s: State, e: Effect): State {
    s.(hub := e.hub, sending := e.change, panicked := s.panicked || (e.change.Some? && s.closed))
  }

  function Serves(s: State): State
    requires CanServe(s)
  {
    match s.server
    case Waiting =>
      if s.sending.Some? then s.(sending := None, server := Working(s.sending.value.added, s.sending.value.removed))
      else s.(server := Stopped)
    case Working(added, removed) =>
      if added != [] then
        s.(server := Working(added[1..], removed), pubs := Start(s.pubs, added[0]),
           clashed := s.clashed || added[0] in s.pubs.cancelers)
      else if removed != [] then s.(server := Working([], removed[1..]), pubs := Stop(s.pubs, removed[0]))
      else s.(server := Waiting)
  }

  function Next(s: State, a: Action): State
    requires Enabled(s, a)
  {
    match a
    case DoSubscribe(topic, sub) => Locked(s, Subscribe(s.hub, topic, sub))
    case DoCancel(topics) => Locked(s, Cancel(s.hub, topics))
    case DoUnsubscribe(subs) => Locked(s, Unsubscribe(s.hub, subs))
    case ContextDone(sub) => s.(hub := s.hub.(cancelled := s.hub.cancelled + {sub}))
    case DoClose => s.(hub := Close(s.hub), closed := s.closed || s.hub.sends,
                       panicked := s.panicked || (s.closed && s.hub.sends))
    case Serving => Serves(s)
  }

  /** Every action is possible in its turn. */
  ghost predicate Runnable(s: State, run: seq<Action>)
    decreases |run|
  {
    run == [] || (Enabled(s, run[0]) && Runnable(Next(s, run[0]), run[1..]))
  }

  ghost function After(s: State, run: seq<Action>): State
    requires Runnable(s, run)
    decreases |run|
  {
    if run == [] then s else After(Next(s, run[0]), run[1..])
  }

  // The invariant

  /** The topics of the publishers once `Serve` is through with the change it has received. */
  function Soon(s: State): set<Topic> {
    if s.server.Working? then Apply(s.pubs.cancelers.Keys, Change(s.server.added, s.server.removed))
    else s.pubs.cancelers.Keys
  }

  /** A change either removes topics or adds one topic that is new to the given ones. */
  ghost predicate Clean(ts: set<Topic>, added: seq<Topic>, removed: seq<Topic>) {
    added == [] || (|added| == 1 && removed == [] && added[0] !in ts)
  }

  ghost predicate Inv(s: State) {
    && HubStates.Valid(s.hub) && Contexts.Valid(s.pubs)
    && (s.hub.sends ==> ApplyOption(Soon(s), s.sending) == s.hub.brs.Keys)
    && (s.sending.Some? ==> s.hub.sends && Clean(Soon(s), s.sending.value.added, s.sending.value.removed))
    && (s.server.Working? ==> Clean(s.pubs.cancelers.Keys, s.server.added, s.server.removed))
    && s.closed == !s.hub.sends && s.hub.open == s.hub.sends
    && (s.server.Stopped? ==> s.closed)
    && !s.panicked && !s.clashed
  }

  lemma LockedKeeps(s: State, e: Effect)
    requires Inv(s) && s.sending.None? && HubStates.Valid(e.hub)
    requires e.hub.sends == s.hub.sends && e.hub.open == s.hub.open
    requires s.hub.sends ==> e.hub.brs.Keys == ApplyOption(s.hub.brs.Keys, e.change)
    requires e.change.Some? ==> s.hub.sends && Clean(s.hub.brs.Keys, e.change.value.added, e.change.value.removed)
    ensures Inv(Locked(s, e))
  {
  }

  lemma ServesKeeps(s: State)
    requires Inv(s) && CanServe(s)
    ensures Inv(Serves(s))
    ensures ApplyOption(Soon(Serves(s)), Serves(s).sending) == ApplyOption(Soon(s), s.sending)
  {
    match s.server
    case Waiting =>
    case Stopped =>
    case Working(added, removed) =>
      if added != [] {
        StartKeeps(s.pubs, added[0]);
        KeySetFirst(added);
        assert Soon(Serves(s)) == Soon(s);
      } else if removed != [] {
        StopKeeps(s.pubs, removed[0]);
        KeySetFirst(removed);
        assert Soon(Serves(s)) == Soon(s);
      } else {
        assert Soon(Serves(s)) == Soon(s);
      }
  }

  /** Every step of every caller and of `Serve` keeps the invariant. */
  lemma NextKeeps(s: State, a: Action)
    requires Inv(s) && Enabled(s, a)
    ensures Inv(Next(s, a))
  {
    match a
    case DoSubscribe(topic, sub) =>
      SubscribeKeeps(s.hub, topic, sub);
      LockedKeeps(s, Subscribe(s.hub, topic, sub));
    case DoCancel(topics) =>
      CancelKeeps(s.hub, topics);
      LockedKeeps(s, Cancel(s.hub, topics));
    case DoUnsubscribe(subs) =>
      UnsubscribeKeeps(s.hub, subs);
      LockedKeeps(s, Unsubscribe(s.hub, subs));
    case ContextDone(_) =>
    case DoClose =>
      CloseKeeps(s.hub);
    case Serving =>
      ServesKeeps(s);
  }

  lemma {:induction false} RunKeeps(s: State, run: seq<Action>)
    requires Inv(s) && Runnable(s, run)
    ensures Inv(After(s, run))
    decreases |run|
  {
    if run != [] {
      NextKeeps(s, run[0]);
      RunKeeps(Next(s, run[0]), run[1..]);
    }
  }

  // What holds in every state that a run reaches

  /** Nobody sends on a closed channel or closes it twice, and `Serve` never meets an added topic that has a
      publisher, so TriggerPub never fails there. */
  lemma NeverPanics(run: seq<Action>)
    requires Runnable(START, run)
    ensures !After(START, run).panicked && !After(START, run).clashed
  {
    RunKeeps(START, run);
  }

  /** Before the hub is closed, the publishers' topics, once the received change and then the unsent one are
      applied, are exactly the topics with subscriptions. */
  lemma PublishersFollow(run: seq<Action>)
    requires Runnable(START, run) && After(START, run).hub.open
    ensures ApplyOption(Soon(After(START, run)), After(START, run).sending) == After(START, run).hub.brs.Keys
  {
    RunKeeps(START, run);
  }

  /** When no change is on its way, exactly one PUB context runs for every topic that has a subscription,
      and none for any other topic. */
  lemma OnePublisherPerTopic(run: seq<Action>, topic: Topic)
    requires Runnable(START, run)
    requires var s := After(START, run); s.hub.open && s.sending.None? && s.server.Waiting?
    ensures var s := After(START, run);
      && (topic in s.hub.brs && s.hub.brs[topic] != {} <==> exists c: CtxId :: Runs(s.pubs, c, topic))
      && (forall c: CtxId, d: CtxId :: Runs(s.pubs, c, topic) && Runs(s.pubs, d, topic) ==> c == d)
  {
    RunKeeps(START, run);
    AtMostOneContext(After(START, run).pubs, topic);
  }

  /** At any moment, closed or not, a topic has at most one running PUB context. */
  lemma NeverTwoPublishers(run: seq<Action>, topic: Topic, c: CtxId, d: CtxId)
    requires Runnable(START, run)
    requires Runs(After(START, run).pubs, c, topic) && Runs(After(START, run).pubs, d, topic)
    ensures c == d
  {
    RunKeeps(START, run);
    AtMostOneContext(After(START, run).pubs, topic);
  }

  /** A subscription that was ever stored is stored or cancelled. */
  lemma NoneForgotten(run: seq<Action>, sub: SubId)
    requires Runnable(START, run)
    requires sub in After(START, run).hub.topics && sub !in After(START, run).hub.cancelled
    ensures var h := After(START, run).hub; h.topics[sub] in h.brs && sub in h.brs[h.topics[sub]]
  {
    RunKeeps(START, run);
  }

  // Progress

  /** Steps that `Serve` needs before it is at its receive again. */
  function Busy(s: State): nat {
    if s.server.Working? then |s.server.added| + |s.server.removed| + 1 else 0
  }

  function Servings(run: seq<Action>): nat {
    if run == [] then 0 else (if run[0].Serving? then 1 else 0) + Servings(run[1..])
  }

  /** While somebody waits at its send, `Serve` can always step. */
  lemma SenderNotStuck(run: seq<Action>)
    requires Runnable(START, run) && After(START, run).sending.Some?
    ensures CanServe(After(START, run))
  {
    RunKeeps(START, run);
  }

  /** Whatever else happens meanwhile, a waiting send is over once `Serve` has made `Busy + 1` steps, and the
      change that is waiting now is the one that goes over: no other operation gets in before it. */
  lemma {:induction false} SendTakes(s: State, run: seq<Action>)
    requires Inv(s) && s.sending.Some? && Runnable(s, run)
    ensures Servings(run) <= Busy(s) ==> After(s, run).sending == s.sending
    ensures Servings(run) == Busy(s) + 1 && run[|run| - 1].Serving? ==>
      After(s, run).sending.None? && After(s, run).server == Working(s.sending.value.added, s.sending.value.removed)
    decreases |run|
  {
    if run != [] {
      var n := Next(s, run[0]);
      NextKeeps(s, run[0]);
      assert run[1..] != [] ==> run[1..][|run[1..]| - 1] == run[|run| - 1];
      if n.sending.Some? {
        SendTakes(n, run[1..]);
      } else if Servings(run) == 1 && run[|run| - 1].Serving? {
        ServingLast(run);
      }
    }
  }

  lemma {:induction false} ServingLast(run: seq<Action>)
    requires run != [] && run[|run| - 1].Serving?
    ensures Servings(run) >= 1
    ensures Servings(run) == 1 && run[0].Serving? ==> |run| == 1
  {
    if |run| > 1 {
      assert run[1..][|run[1..]| - 1] == run[|run| - 1];
      ServingLast(run[1..]);
    }
  }

  /** A number of steps of `Serve` alone. */
  function Alone(n: nat): seq<Action> {
    seq(n, _ => Serving)
  }

  /** Steps until `Serve` has nothing left to do before the hub is closed. */
  function Debt(s: State): nat {
    Busy(s) + match s.sending case None => 0 case Some(c) => 2 + |c.added| + |c.removed|
  }

  /** From every state, `Serve` alone comes to rest with the publishers on exactly the hub's topics. */
  lemma {:induction false} Settles(s: State)
    requires Inv(s) && s.hub.open
    ensures Runnable(s, Alone(Debt(s)))
    ensures var r := After(s, Alone(Debt(s)));
      r.server.Waiting? && r.sending.None? && r.hub == s.hub && r.pubs.cancelers.Keys == s.hub.brs.Keys
    decreases Debt(s)
  {
    if Debt(s) > 0 {
      ServesKeeps(s);
      var n := Serves(s);
      assert Debt(n) == Debt(s) - 1;
      assert Alone(Debt(s))[1..] == Alone(Debt(n));
      Settles(n);
    }
  }

  /** In a run, the `unsubscribe` of a subscription that is no longer stored, such as the one that Cancel's
      cancellation sets off, does nothing at all, whoever has subscribed to the topic since. */
  lemma LateUnsubscribeDoesNothing(run: seq<Action>, sub: SubId)
    requires Runnable(START, run) && Enabled(After(START, run), DoUnsubscribe([sub]))
    requires var h := After(START, run).hub;
        sub in h.topics && (h.topics[sub] in h.brs ==> sub !in h.brs[h.topics[sub]])
    ensures Next(After(START, run), DoUnsubscribe([sub])) == After(START, run)
  {
    RunKeeps(START, run);
    LateUnsubscribe(After(START, run).hub, sub);
  }

  lemma {:induction false} ClosedStays(s: State, run: seq<Action>)
    requires Inv(s) && s.sending.None? && s.closed && Runnable(s, run)
    ensures var r := After(s, run); Soon(r) == Soon(s) && r.sending.None? && r.closed
    decreases |run|
  {
    if run != [] {
      var n := Next(s, run[0]);
      NextKeeps(s, run[0]);
      if run[0].Serving? {
        ServesKeeps(s);
      }
      ClosedStays(n, run[1..]);
    }
  }

  /** Close loses no change: when `Serve` returns afterwards, the publishers' topics are the topics that the
      hub had when it was closed, whatever was called in between. */
  lemma CloseLosesNothing(before: seq<Action>, run: seq<Action>)
    requires Runnable(START, before)
    requires var s := After(START, before); s.hub.open && s.sending.None? && Runnable(Next(s, DoClose), run)
    requires After(Next(After(START, before), DoClose), run).server.Stopped?
    ensures After(Next(After(START, before), DoClose), run).pubs.cancelers.Keys == After(START, before).hub.brs.Keys
  {
    RunKeeps(START, before);
    var s := After(START, before);
    NextKeeps(s, DoClose);
    ClosedStays(Next(s, DoClose), run);
  }
}
