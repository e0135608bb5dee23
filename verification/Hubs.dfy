/** The hub's methods, each run with the hub's lock held. */
module Hubs {
  import opened Options
  import opened Contexts
  import HS = HubStates
  import opened HubStates

  /** The topics that a listener of a channel of changes takes to have subscriptions. */
  function Replay(sent: seq<Change>): set<Topic> {
    if sent == [] then {} else Apply(Replay(sent[..|sent| - 1]), sent[|sent| - 1])
  }

  function Sent(log: seq<Change>, c: Option<Change>): seq<Change> {
    if c.Some? then log + [c.value] else log
  }

  lemma ReplaySent(log: seq<Change>, c: Option<Change>)
    ensures Replay(Sent(log, c)) == ApplyOption(Replay(log), c)
  {
    if c.Some? {
      assert (log + [c.value])[..|log|] == log;
    }
  }

  ghost predicate NoneTwice(s: seq<SubId>) {
    forall i, j :: 0 <= i < j < |s| ==> s[i] != s[j]
  }

  class Hub {
    var broadcastings: map<Topic, set<SubId>>
    var topicOf: map<SubId, Topic>
    var cancelled: set<SubId>
    var open: bool
    var channel: bool
    var sent: seq<Change>

    function State(): HS.Hub
      reads this
    {
      HS.Hub(broadcastings, topicOf, cancelled, open, channel)
    }

    /** Beside the invariant of hubs: whoever listens to the changes knows the topics with subscriptions. */
    ghost predicate Valid()
      reads this
    {
      HS.Valid(State()) && (channel ==> Replay(sent) == broadcastings.Keys)
    }

    constructor (withChannel: bool)
      ensures Valid() && State() == NewHub(withChannel) && sent == []
      ensures broadcastings == map[] && topicOf == map[] && cancelled == {} && open && channel == withChannel
    {
      broadcastings, topicOf, cancelled := map[], map[], {};
      open, channel := true, withChannel;
      sent := [];
    }

    method Send(c: Change)
      requires channel
      modifies this`sent
      ensures sent == old(sent) + [c]
    {
      sent := sent + [c];
    }

    method Subscribe(topic: Topic, sub: SubId)
      requires Valid() && open && sub !in topicOf
      modifies this
      ensures Valid()
      ensures State() == HS.Subscribe(old(State()), topic, sub).hub
      ensures sent == Sent(old(sent), HS.Subscribe(old(State()), topic, sub).change)
      ensures topic in broadcastings
      ensures broadcastings[topic] == (if topic in old(broadcastings) then old(broadcastings[topic]) else {}) + {sub}
      ensures forall t :: t != topic ==>
                (t in broadcastings <==> t in old(broadcastings)) &&
                    (t in broadcastings ==> broadcastings[t] == old(broadcastings)[t])
      ensures topicOf == old(topicOf)[sub := topic] && cancelled == old(cancelled)
    {
      ghost var h := State();
      SubscribeKeeps(h, topic, sub);
      SubscribeExactly(h, topic, sub);
      ReplaySent(sent, HS.Subscribe(h, topic, sub).change);
      var addedTopic := Store(topic, sub);
      if channel && addedTopic {
        Send(Change([topic], []));
      }
    }

    /** Stores a subscription, in a new broadcasting where the topic has none. */
    method Store(topic: Topic, sub: SubId) returns (addedTopic: bool)
      modifies this`broadcastings, this`topicOf
      ensures State() == HS.Subscribe(old(State()), topic, sub).hub && addedTopic == (topic !in old(broadcastings))
    {
      addedTopic := topic !in broadcastings;
      if addedTopic {
        broadcastings := broadcastings[topic := {}];
      }
      topicOf := topicOf[sub := topic];
      broadcastings := broadcastings[topic := broadcastings[topic] + {sub}];
      assert broadcastings == HS.Subscribe(old(State()), topic, sub).hub.brs;
    }

    /** Cancels a broadcasting's subscriptions, in whatever order they come. */
    method CancelEach(br: set<SubId>)
      modifies this`cancelled
      ensures cancelled == old(cancelled) + br
    {
      var rest := br;
      while rest != {}
        invariant rest <= br && cancelled == old(cancelled) + (br - rest)
        decreases |rest|
      {
        var sub :| sub in rest;
        cancelled := cancelled + {sub};
        rest := rest - {sub};
      }
    }

    method Cancel(topics: seq<Topic>)
      requires Valid()
      modifies this
      ensures Valid()
      ensures State() == HS.Cancel(old(State()), topics).hub
      ensures sent == Sent(old(sent), HS.Cancel(old(State()), topics).change)
      ensures broadcastings == (map t | t in old(broadcastings) && t !in topics :: old(broadcastings)[t])
      ensures topicOf == old(topicOf)
      ensures forall s :: s in cancelled <==>
                s in old(cancelled) || exists t :: t in topics && t in old(broadcastings) && s in old(broadcastings)[t]
    {
      ghost var h := State();
      CancelKeeps(h, topics);
      CancelExactly(h, topics);
      ReplaySent(sent, HS.Cancel(h, topics).change);
      CancelTopics(topics);
      if channel && |topics| > 0 {
        Send(Change([], topics));
      }
    }

    method CancelTopics(topics: seq<Topic>)
      modifies this`broadcastings, this`cancelled
      ensures broadcastings == old(broadcastings) - KeySet(topics)
      ensures cancelled == old(cancelled) + SubsOn(old(broadcastings), KeySet(topics))
    {
      ghost var brs, was := broadcastings, cancelled;
      assert topics[..|topics|] == topics;
      for i := 0 to |topics|
        invariant broadcastings == brs - KeySet(topics[..i])
        invariant cancelled == was + SubsOn(brs, KeySet(topics[..i]))
      {
        TopicMore(topics, i);
        SubsMore(brs, KeySet(topics[..i]), topics[i]);
        if topics[i] in broadcastings {
          CancelEach(broadcastings[topics[i]]);
          broadcastings := broadcastings - {topics[i]};
        } else {
          assert topics[i] in brs ==> topics[i] in KeySet(topics[..i]);
        }
      }
    }

    /** One round of `unsubscribe`. */
    method Drop(sub: SubId, removedTopics: seq<Topic>) returns (r: seq<Topic>)
      requires sub in topicOf
      modifies this`broadcastings, this`cancelled
      ensures State() == DropOne(old(State()), sub)
      ensures r == removedTopics + Emptied(old(State()), sub)
    {
      r := removedTopics;
      var topic := topicOf[sub];
      if topic !in broadcastings {
        return;
      }
      var br := broadcastings[topic] - {sub};
      broadcastings := broadcastings[topic := br];
      if br == {} {
        broadcastings := broadcastings - {topic};
        r := r + [topic];
      }
      cancelled := cancelled + {sub};
    }

    method Unsubscribe(subs: seq<SubId>)
      requires Valid() && forall s :: s in subs ==> s in topicOf
      modifies this
      ensures Valid()
      ensures State() == HS.Unsubscribe(old(State()), subs).hub
      ensures sent == Sent(old(sent), HS.Unsubscribe(old(State()), subs).change)
      ensures forall t :: t in broadcastings <==> t in old(broadcastings) && old(broadcastings)[t] - SubSet(subs) != {}
      ensures forall t :: t in broadcastings ==> broadcastings[t] == old(broadcastings)[t] - SubSet(subs)
      ensures cancelled == old(cancelled) + SubSet(subs) && topicOf == old(topicOf)
    {
      ghost var h := State();
      UnsubscribeKeeps(h, subs);
      UnsubscribeExactly(h, subs);
      ReplaySent(sent, HS.Unsubscribe(h, subs).change);
      if |subs| == 0 {
        return;
      }
      var removedTopics := DropEach(subs);
      if channel && |removedTopics| > 0 {
        Send(Change([], removedTopics));
      }
    }

    method DropEach(subs: seq<SubId>) returns (removedTopics: seq<Topic>)
      requires forall s :: s in subs ==> s in topicOf
      modifies this`broadcastings, this`cancelled
      ensures State() == DropAll(old(State()), subs) && removedTopics == EmptiedAll(old(State()), subs)
    {
      ghost var h := State();
      removedTopics := [];
      for i := 0 to |subs|
        invariant topicOf == h.topics
        invariant DropAll(State(), subs[i..]) == DropAll(h, subs)
        invariant removedTopics + EmptiedAll(State(), subs[i..]) == EmptiedAll(h, subs)
      {
        DropNext(State(), subs, i);
        removedTopics := Drop(subs[i], removedTopics);
      }
    }

    method CancelAll()
      modifies this`cancelled
      ensures cancelled == old(cancelled) + SubsOn(broadcastings, broadcastings.Keys)
    {
      var rest := broadcastings.Keys;
      while rest != {}
        invariant rest <= broadcastings.Keys
        invariant cancelled == old(cancelled) + SubsOn(broadcastings, broadcastings.Keys - rest)
        decreases |rest|
      {
        var t :| t in rest;
        SubsMore(broadcastings, broadcastings.Keys - rest, t);
        assert (broadcastings.Keys - rest) + {t} == broadcastings.Keys - (rest - {t});
        CancelEach(broadcastings[t]);
        rest := rest - {t};
      }
      assert broadcastings.Keys - rest == broadcastings.Keys;
    }

    method Close()
      requires Valid()
      modifies this
      ensures Valid()
      ensures State() == HS.Close(old(State())) && sent == old(sent)
      ensures cancelled >= topicOf.Keys && topicOf == old(topicOf)
      ensures broadcastings == map[] && !open && !channel
    {
      CloseKeeps(State());
      CancelAll();
      broadcastings, open, channel := map[], false, false;
    }

    /** The part of `Broadcast` under its read lock, for a message on which the receivers of `failing` return
        errors: it calls every stored subscription of the topic once and collects those whose receivers failed. */
    method Broadcast(topic: Topic, failing: set<SubId>) returns (called: seq<SubId>, unsubscribe: seq<SubId>)
      requires Valid()
      ensures SubSet(called) == if topic in broadcastings then broadcastings[topic] else {}
      ensures NoneTwice(called)
      ensures SubSet(unsubscribe) == SubSet(called) * failing && NoneTwice(unsubscribe)
      ensures SubSet(called) !! failing ==> unsubscribe == []
      ensures forall s :: s in unsubscribe ==> s in topicOf
    {
      called, unsubscribe := [], [];
      if topic !in broadcastings {
        return;
      }
      called, unsubscribe := Call(broadcastings[topic], failing);
      forall s | s in unsubscribe ensures s in topicOf {
        assert s in SubSet(unsubscribe);
      }
    }
  }

  /** Calls the receivers of a broadcasting, in whatever order they come. */
  method Call(br: set<SubId>, failing: set<SubId>) returns (called: seq<SubId>, failed: seq<SubId>)
    ensures SubSet(called) == br && NoneTwice(called)
    ensures SubSet(failed) == br * failing && NoneTwice(failed)
    ensures br !! failing ==> failed == []
  {
    called, failed := [], [];
    var rest := br;
    while rest != {}
      invariant rest <= br && SubSet(called) == br - rest && NoneTwice(called)
      invariant SubSet(failed) == (br - rest) * failing && NoneTwice(failed)
      decreases |rest|
    {
      var sub :| sub in rest;
      SubMore(called, sub);
      SubMore(failed, sub);
      assert br - (rest - {sub}) == (br - rest) + {sub};
      called := called + [sub];
      if sub in failing {
        failed := failed + [sub];
      }
      rest := rest - {sub};
    }
    assert br - rest == br;
    if failed != [] {
      assert failed[0] in SubSet(failed);
    }
  }

  lemma DropNext(h: HS.Hub, subs: seq<SubId>, i: nat)
    requires i < |subs| && forall s :: s in subs ==> s in h.topics
    ensures DropAll(h, subs[i..]) == DropAll(DropOne(h, subs[i]), subs[i + 1..])
    ensures EmptiedAll(h, subs[i..]) == Emptied(h, subs[i]) + EmptiedAll(DropOne(h, subs[i]), subs[i + 1..])
  {
    assert subs[i..][0] == subs[i] && subs[i..][1..] == subs[i + 1..];
  }

  lemma TopicMore(topics: seq<Topic>, i: nat)
    requires i < |topics|
    ensures KeySet(topics[..i + 1]) == KeySet(topics[..i]) + {topics[i]}
  {
    assert topics[..i + 1] == topics[..i] + [topics[i]];
  }

  lemma SubMore(subs: seq<SubId>, sub: SubId)
    ensures SubSet(subs + [sub]) == SubSet(subs) + {sub}
    ensures NoneTwice(subs) && sub !in SubSet(subs) ==> NoneTwice(subs + [sub])
  {
  }

  lemma SubsMore(brs: map<Topic, set<SubId>>, ts: set<Topic>, t: Topic)
    ensures SubsOn(brs, ts + {t}) == SubsOn(brs, ts) + (if t in brs then brs[t] else {})
  {
  }

  /** A new subscription receives the next message on its topic, beside all that are stored there. */
  method SubscribeThenBroadcast(hub: Hub, topic: Topic, sub: SubId, failing: set<SubId>) returns (called: seq<SubId>)
    requires hub.Valid() && hub.open && sub !in hub.topicOf
    modifies hub
    ensures sub in called && NoneTwice(called)
    ensures SubSet(called) == (if topic in old(hub.broadcastings) then old(hub.broadcastings[topic]) else {}) + {sub}
  {
    hub.Subscribe(topic, sub);
    var failed;
    called, failed := hub.Broadcast(topic, failing);
    assert sub in SubSet(called);
  }
}
