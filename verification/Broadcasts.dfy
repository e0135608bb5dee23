/** The hub's lock: threads that broadcast hold it for reading, all others for writing, and a broadcast with a
    failed receiver asks for writing before it gives up reading. */
module Broadcasts {
  import opened HubStates

  type Tid = nat

  datatype Operation =
    | Subscribing(topic: Topic, sub: SubId)
    | Cancelling(topics: seq<Topic>)
    | Unsubscribing(subs: seq<SubId>)
    | Closing

  datatype Thread =
    | AtReadLock(topic: Topic)
    | Receiving(topic: Topic, rest: set<SubId>, failed: seq<SubId>)
    | Deactivating(topic: Topic, failed: seq<SubId>)
    | AtWriteLock(op: Operation)
    | Writing(reading: bool)
    | Leaving
    | Finished

  predicate Reads(t: Thread) {
    t.Receiving? || t.Deactivating? || t.Leaving? || (t.Writing? && t.reading)
  }

  /** `active` maps the threads that have been started. */
  datatype State = State(hub: Hub, active: map<Tid, Thread>)

  const START := State(NewHub(true), map[])

  datatype Action =
    | Spawn(tid: Tid, thread: Thread)
    | ReadLock(tid: Tid)
    | Receive(tid: Tid, sub: SubId, ok: bool)
    | Collect(tid: Tid)
    | WriteLock(tid: Tid)
    | WriteUnlock(tid: Tid)
    | ReadUnlock(tid: Tid)
    | ContextDone(sub: SubId)

  predicate WriteFree(s: State) {
    forall u :: u in s.active ==> !s.active[u].Writing?
  }

  predicate AllFree(s: State) {
    forall u :: u in s.active ==> !s.active[u].Writing? && !Reads(s.active[u])
  }

  predicate Allowed(h: Hub, op: Operation) {
    match op
    case Subscribing(_, sub) => h.open && sub !in h.topics
    case Unsubscribing(subs) => forall s :: s in subs ==> s in h.topics
    case _ => true
  }

  /** What a thread that waits for the write lock is going to do. */
  function Wanted(t: Thread): Operation
    requires t.AtWriteLock? || t.Deactivating?
  {
    if t.AtWriteLock? then t.op else Unsubscribing(t.failed)
  }

  predicate Enabled(s: State, a: Action) {
    match a
    case Spawn(tid, thread) => tid !in s.active && (thread.AtReadLock? || thread.AtWriteLock?)
    case ReadLock(tid) => tid in s.active && s.active[tid].AtReadLock? && WriteFree(s)
    case Receive(tid, sub, _) => tid in s.active && s.active[tid].Receiving? && sub in s.active[tid].rest
    case Collect(tid) => tid in s.active && s.active[tid].Receiving? && s.active[tid].rest == {}
    case WriteLock(tid) =>
      && tid in s.active && AllFree(s)
      && (s.active[tid].AtWriteLock? || s.active[tid].Deactivating?) && Allowed(s.hub, Wanted(s.active[tid]))
    case WriteUnlock(tid) => tid in s.active && s.active[tid].Writing?
    case ReadUnlock(tid) => tid in s.active && s.active[tid].Leaving?
    case ContextDone(sub) => sub in s.hub.topics
  }

  function Perform(h: Hub, op: Operation): Hub
    requires Allowed(h, op)
  {
    match op
    case Subscribing(topic, sub) => Subscribe(h, topic, sub).hub
    case Cancelling(topics) => Cancel(h, topics).hub
    case Unsubscribing(subs) => Unsubscribe(h, subs).hub
    case Closing => Close(h)
  }

  function Next(s: State, a: Action): State
    requires Enabled(s, a)
  {
    match a
    case Spawn(tid, thread) => s.(active := s.active[tid := thread])
    case ReadLock(tid) =>
      var topic := s.active[tid].topic;
      s.(active := s.active[tid := if topic in s.hub.brs then Receiving(topic, s.hub.brs[topic], []) else Leaving])
    case Receive(tid, sub, ok) =>
      var t := s.active[tid];
      s.(active := s.active[tid := t.(rest := t.rest - {sub}, failed := if ok then t.failed else t.failed + [sub])])
    case Collect(tid) =>
      var t := s.active[tid];
      s.(active := s.active[tid := if t.failed == [] then Leaving else Deactivating(t.topic, t.failed)])
    case WriteLock(tid) =>
      var t := s.active[tid];
      State(Perform(s.hub, Wanted(t)), s.active[tid := Writing(t.Deactivating?)])
    case WriteUnlock(tid) =>
      s.(active := s.active[tid := if s.active[tid].reading then Leaving else Finished])
    case ReadUnlock(tid) => s.(active := s.active[tid := Finished])
    case ContextDone(sub) => s.(hub := s.hub.(cancelled := s.hub.cancelled + {sub}))
  }

  ghost predicate Runnable(s: State, run: seq<Action>)
    decreases |run|
  {
    run == [] || (Enabled(s, run[0]) && Runnable(Next(s, run[0]), run[1..]))
  }

  ghost function After(s: State, run: seq<Action>): State
    requires Runnable(s, run)
    decreases |run|
  {
    if run == [] then s else After(Next(s, run[0]), run[1..])
  }

  /** The subscriptions that a broadcast has still to call or has seen fail. */
  function Concerned(t: Thread): set<SubId> {
    match t
    case Receiving(_, rest, failed) => rest + SubSet(failed)
    case Deactivating(_, failed) => SubSet(failed)
    case _ => {}
  }

  /** Every subscription that a broadcast is concerned with is stored under its topic. */
  ghost predicate Inv(s: State) {
    forall u :: u in s.active && (s.active[u].Receiving? || s.active[u].Deactivating?) ==>
      s.active[u].topic in s.hub.brs && Concerned(s.active[u]) <= s.hub.brs[s.active[u].topic]
  }

  lemma NextKeeps(s: State, a: Action)
    requires Inv(s) && Enabled(s, a)
    ensures Inv(Next(s, a))
  {
    if a.Receive? {
      assert Concerned(Next(s, a).active[a.tid]) <= Concerned(s.active[a.tid]);
    } else if a.Collect? {
      assert Concerned(Next(s, a).active[a.tid]) <= Concerned(s.active[a.tid]);
    }
  }

  lemma {:induction false} RunKeeps(s: State, run: seq<Action>)
    requires Inv(s) && Runnable(s, run)
    ensures Inv(After(s, run))
    decreases |run|
  {
    if run != [] {
      NextKeeps(s, run[0]);
      RunKeeps(Next(s, run[0]), run[1..]);
    }
  }

  // A broadcast with a failed receiver

  ghost predicate Doomed(s: State, tid: Tid) {
    tid in s.active && match s.active[tid]
      case Receiving(_, _, failed) => failed != []
      case Deactivating(_, failed) => failed != []
      case _ => false
  }

  /** Seen failing, by this broadcast. */
  function Failed(t: Thread): set<SubId> {
    match t
    case Receiving(_, _, failed) => SubSet(failed)
    case Deactivating(_, failed) => SubSet(failed)
    case _ => {}
  }

  lemma DoomedStep(s: State, tid: Tid, a: Action)
    requires Doomed(s, tid) && Enabled(s, a)
    ensures !a.WriteLock?
    ensures Doomed(Next(s, a), tid) && Failed(s.active[tid]) <= Failed(Next(s, a).active[tid])
    ensures Next(s, a).hub.brs == s.hub.brs
    ensures s.active[tid].topic == Next(s, a).active[tid].topic
  {
    assert Reads(s.active[tid]);
  }

  /** Once a receiver has failed, its broadcast never ends, no write lock is ever taken again, and the stored
      subscriptions stay as they are for ever, the failed one among them. */
  lemma {:induction false} DoomedForever(s: State, tid: Tid, run: seq<Action>)
    requires Doomed(s, tid) && Runnable(s, run)
    ensures Doomed(After(s, run), tid) && Failed(s.active[tid]) <= Failed(After(s, run).active[tid])
    ensures After(s, run).hub.brs == s.hub.brs && After(s, run).active[tid].topic == s.active[tid].topic
    ensures forall i :: 0 <= i < |run| ==> !run[i].WriteLock?
    decreases |run|
  {
    if run != [] {
      DoomedStep(s, tid, run[0]);
      DoomedForever(Next(s, run[0]), tid, run[1..]);
    }
  }

  /** A receiver's error never deactivates its subscription: in every run and every continuation of it, the
      subscription is still stored under its topic. */
  lemma FailedStaysStored(before: seq<Action>, tid: Tid, sub: SubId, run: seq<Action>)
    requires Runnable(START, before) && Doomed(After(START, before), tid)
    requires sub in Failed(After(START, before).active[tid]) && Runnable(After(START, before), run)
    ensures var topic := After(START, before).active[tid].topic; var brs := After(After(START, before), run).hub.brs;
      topic in brs && sub in brs[topic]
  {
    RunKeeps(START, before);
    DoomedForever(After(START, before), tid, run);
  }

  /** One subscription, and one message on which its receiver fails. */
  function FailingRun(topic: Topic): seq<Action> {
    [Spawn(0, AtWriteLock(Subscribing(topic, 0))), WriteLock(0), WriteUnlock(0),
     Spawn(1, AtReadLock(topic)), ReadLock(1), Receive(1, 0, false)]
  }

  /** Such a state is reached. */
  lemma DoomedIsReached(topic: Topic)
    ensures Runnable(START, FailingRun(topic))
    ensures var s := After(START, FailingRun(topic)); Doomed(s, 1) && 0 in Failed(s.active[1])
  {
    var run := FailingRun(topic);
    var s1 := Next(START, run[0]);
    var s2 := Next(s1, run[1]);
    var s3 := Next(s2, run[2]);
    var s4 := Next(s3, run[3]);
    var s5 := Next(s4, run[4]);
    var s6 := Next(s5, run[5]);
    RunsOn(s5, run[5..], s6);
    RunsOn(s4, run[4..], s6);
    RunsOn(s3, run[3..], s6);
    RunsOn(s2, run[2..], s6);
    RunsOn(s1, run[1..], s6);
    RunsOn(START, run, s6);
  }

  /** One more action before a run. */
  lemma RunsOn(s: State, run: seq<Action>, last: State)
    requires run != [] && Enabled(s, run[0])
    requires Runnable(Next(s, run[0]), run[1..]) && After(Next(s, run[0]), run[1..]) == last
    ensures Runnable(s, run) && After(s, run) == last
  {
  }

  // A broadcast without failed receivers

  ghost predicate CanFinish(s: State, tid: Tid) {
    exists run :: Runnable(s, run) && tid in After(s, run).active && After(s, run).active[tid].Finished?
  }

  /** The run in which the broadcast's receivers all succeed. */
  ghost function Succeed(tid: Tid, rest: set<SubId>): seq<Action> {
    if rest == {} then [Collect(tid), ReadUnlock(tid)]
    else
      var sub :| sub in rest;
      [Receive(tid, sub, true)] + Succeed(tid, rest - {sub})
  }

  lemma {:induction false} SucceedFinishes(s: State, tid: Tid)
    requires tid in s.active && s.active[tid].Receiving? && s.active[tid].failed == []
    ensures Runnable(s, Succeed(tid, s.active[tid].rest))
    ensures After(s, Succeed(tid, s.active[tid].rest)).hub == s.hub
    ensures var r := After(s, Succeed(tid, s.active[tid].rest)); tid in r.active && r.active[tid].Finished?
    decreases s.active[tid].rest
  {
    var rest := s.active[tid].rest;
    var run := Succeed(tid, rest);
    if rest == {} {
      assert run[1..] == [ReadUnlock(tid)] && run[1..][1..] == [];
      var n := Next(s, run[0]);
      var last := Next(n, ReadUnlock(tid));
      assert Runnable(last, []) && After(last, []) == last;
      assert Runnable(n, run[1..]) && After(n, run[1..]) == last;
    } else {
      var sub := run[0].sub;
      assert run[1..] == Succeed(tid, rest - {sub});
      SucceedFinishes(Next(s, run[0]), tid);
    }
  }

  /** A broadcast that is calling its receivers can still end exactly when none of them has failed. */
  lemma FinishesIffNoneFailed(s: State, tid: Tid)
    requires tid in s.active && s.active[tid].Receiving?
    ensures CanFinish(s, tid) <==> s.active[tid].failed == []
  {
    if s.active[tid].failed == [] {
      SucceedFinishes(s, tid);
    } else {
      forall run | Runnable(s, run) ensures !(tid in After(s, run).active && After(s, run).active[tid].Finished?) {
        DoomedForever(s, tid, run);
      }
    }
  }
}
