/** The hub of subscriptions, as states and operations on them. */
module HubStates {
  import opened Options
  import opened Contexts

  type Topic = Key

  /** Subscriptions are told apart by a number. */
  type SubId = nat

  /** The event that a hub emits: topics that got their first subscription, topics that lost their last one. */
  datatype Change = Change(added: seq<Topic>, removed: seq<Topic>)

  /** `topics` is the topic of every subscription ever made, `cancelled` the subscriptions whose context is
      done; `open` tells whether the hub still has its map, and `sends` whether it has a channel of changes. */
  datatype Hub = Hub(brs: map<Topic, set<SubId>>, topics: map<SubId, Topic>, cancelled: set<SubId>,
                     open: bool, sends: bool)

  function NewHub(channel: bool): Hub {
    Hub(map[], map[], {}, true, channel)
  }

  /** An operation's new state and the change that it has to send, if any. */
  datatype Effect = Effect(hub: Hub, change: Option<Change>)

  function Subscribe(h: Hub, topic: Topic, sub: SubId): Effect {
    var known := topic in h.brs;
    var br := if known then h.brs[topic] else {};
    Effect(h.(brs := h.brs[topic := br + {sub}], topics := h.topics[sub := topic]),
           if h.sends && !known then Some(Change([topic], [])) else None)
  }

  /** The subscriptions on some topics. */
  function SubsOn(brs: map<Topic, set<SubId>>, ts: set<Topic>): set<SubId> {
    set t, s | t in ts && t in brs && s in brs[t] :: s
  }

  function Cancel(h: Hub, topics: seq<Topic>): Effect {
    Effect(h.(brs := h.brs - KeySet(topics), cancelled := h.cancelled + SubsOn(h.brs, KeySet(topics))),
           if h.sends && topics != [] then Some(Change([], topics)) else None)
  }

  /** One round of `unsubscribe`. */
  function DropOne(h: Hub, sub: SubId): Hub
    requires sub in h.topics
  {
    var t := h.topics[sub];
    if t !in h.brs then h
    else
      var br := h.brs[t] - {sub};
      h.(brs := if br == {} then h.brs - {t} else h.brs[t := br], cancelled := h.cancelled + {sub})
  }

  /** The topic that one round of `unsubscribe` removes, if it removes one. */
  function Emptied(h: Hub, sub: SubId): seq<Topic>
    requires sub in h.topics
  {
    var t := h.topics[sub];
    if t in h.brs && h.brs[t] - {sub} == {} then [t] else []
  }

  function DropAll(h: Hub, subs: seq<SubId>): (r: Hub)
    requires forall s :: s in subs ==> s in h.topics
    ensures r.topics == h.topics && r.open == h.open && r.sends == h.sends
    decreases |subs|
  {
    if subs == [] then h
    else
      assert subs[0] in subs;
      DropAll(DropOne(h, subs[0]), subs[1..])
  }

  function EmptiedAll(h: Hub, subs: seq<SubId>): seq<Topic>
    requires forall s :: s in subs ==> s in h.topics
    decreases |subs|
  {
    if subs == [] then []
    else
      assert subs[0] in subs;
      Emptied(h, subs[0]) + EmptiedAll(DropOne(h, subs[0]), subs[1..])
  }

  function Unsubscribe(h: Hub, subs: seq<SubId>): Effect
    requires forall s :: s in subs ==> s in h.topics
  {
    var removed := EmptiedAll(h, subs);
    Effect(DropAll(h, subs), if h.sends && removed != [] then Some(Change([], removed)) else None)
  }

  function Close(h: Hub): Hub {
    Hub(map[], h.topics, h.cancelled + SubsOn(h.brs, h.brs.Keys), false, false)
  }

  // What every operation keeps

  /** No stored broadcasting is empty, every stored subscription sits under its own topic, and every
      subscription ever made is stored or cancelled. */
  ghost predicate Valid(h: Hub) {
    && (h.sends ==> h.open)
    && (!h.open ==> h.brs == map[])
    && (forall t :: t in h.brs ==> h.brs[t] != {})
    && (forall t, s :: t in h.brs && s in h.brs[t] ==> s in h.topics && h.topics[s] == t)
    && (forall s :: s in h.topics ==> s in h.cancelled || (h.topics[s] in h.brs && s in h.brs[h.topics[s]]))
  }

  /** A set of topics after a change. */
  function Apply(ts: set<Topic>, c: Change): set<Topic> {
    (ts + KeySet(c.added)) - KeySet(c.removed)
  }

  function ApplyOption(ts: set<Topic>, c: Option<Change>): set<Topic> {
    if c.Some? then Apply(ts, c.value) else ts
  }

  lemma SubscribeKeeps(h: Hub, topic: Topic, sub: SubId)
    requires Valid(h) && h.open && sub !in h.topics
    ensures Valid(Subscribe(h, topic, sub).hub)
    ensures h.sends ==> Subscribe(h, topic, sub).hub.brs.Keys == ApplyOption(h.brs.Keys,
        Subscribe(h, topic, sub).change)
  {
    var r := Subscribe(h, topic, sub);
    assert r.hub.brs.Keys == h.brs.Keys + {topic};
    if r.change.Some? {
      assert KeySet(r.change.value.added) == {topic} && KeySet(r.change.value.removed) == {};
    }
  }

  lemma CancelKeeps(h: Hub, topics: seq<Topic>)
    requires Valid(h)
    ensures Valid(Cancel(h, topics).hub)
    ensures h.sends ==> Cancel(h, topics).hub.brs.Keys == ApplyOption(h.brs.Keys, Cancel(h, topics).change)
  {
    var r := Cancel(h, topics);
    assert r.hub.brs.Keys == h.brs.Keys - KeySet(topics);
    forall s | s in h.topics && s !in h.cancelled && h.topics[s] in KeySet(topics) ensures s in r.hub.cancelled {
      assert s in h.brs[h.topics[s]];
    }
  }

  /** Subscribing stores the subscription under its topic, beside all that are stored there, and does nothing else; it
      announces the topic exactly when it had no subscription. */
  lemma SubscribeExactly(h: Hub, topic: Topic, sub: SubId)
    ensures var r := Subscribe(h, topic, sub).hub;
      && topic in r.brs && sub in r.brs[topic] && r.topics.Keys == h.topics.Keys + {sub} && r.topics[sub] == topic
      && (forall s :: s != sub ==> (s in r.brs[topic] <==> topic in h.brs && s in h.brs[topic]))
      && (forall t :: t != topic ==> (t in r.brs <==> t in h.brs) && (t in r.brs ==> r.brs[t] == h.brs[t]))
      && (forall s :: s in h.topics && s != sub ==> r.topics[s] == h.topics[s])
      && r.cancelled == h.cancelled && r.open == h.open && r.sends == h.sends
    ensures var c := Subscribe(h, topic, sub).change;
      && (c.Some? <==> h.sends && topic !in h.brs) && (c.Some? ==> c.value.added == [topic] && c.value.removed == [])
  {
  }

  /** Cancelling topics takes them away with their subscriptions, cancels these and no others, and leaves the other
      topics as they are; it announces the topics that it was given, if any. */
  lemma CancelExactly(h: Hub, topics: seq<Topic>)
    ensures var r := Cancel(h, topics).hub;
      && (forall t :: t in r.brs <==> t in h.brs && t !in topics) && (forall t :: t in r.brs ==> r.brs[t] == h.brs[t])
      && (forall s :: s in r.cancelled <==> s in h.cancelled || exists t :: t in topics && t in h.brs && s in h.brs[t])
      && r.topics == h.topics && r.open == h.open && r.sends == h.sends
    ensures var c := Cancel(h, topics).change;
      && (c.Some? <==> h.sends && topics != []) && (c.Some? ==> c.value.added == [] && c.value.removed == topics)
  {
  }

  lemma DropOneKeeps(h: Hub, sub: SubId)
    requires Valid(h) && sub in h.topics
    ensures Valid(DropOne(h, sub))
    ensures DropOne(h, sub).brs.Keys == h.brs.Keys - KeySet(Emptied(h, sub))
  {
    var r := DropOne(h, sub);
    assert r.brs.Keys == h.brs.Keys - KeySet(Emptied(h, sub));
  }

  lemma {:induction false} DropAllKeeps(h: Hub, subs: seq<SubId>)
    requires Valid(h) && forall s :: s in subs ==> s in h.topics
    ensures Valid(DropAll(h, subs))
    ensures DropAll(h, subs).brs.Keys == h.brs.Keys - KeySet(EmptiedAll(h, subs))
    decreases |subs|
  {
    if subs != [] {
      assert subs[0] in subs;
      DropOneKeeps(h, subs[0]);
      var next := DropOne(h, subs[0]);
      DropAllKeeps(next, subs[1..]);
      assert KeySet(EmptiedAll(h, subs)) == KeySet(Emptied(h, subs[0])) + KeySet(EmptiedAll(next, subs[1..]));
    }
  }

  function SubSet(subs: seq<SubId>): set<SubId> {
    set s | s in subs
  }

  /** What is left of every topic when some subscriptions go, all at once. */
  ghost predicate Without(h: Hub, gone: set<SubId>, r: Hub) {
    && (forall t :: t in r.brs <==> t in h.brs && h.brs[t] - gone != {})
    && (forall t :: t in r.brs ==> r.brs[t] == h.brs[t] - gone)
    && r.cancelled == h.cancelled + gone
  }

  lemma DropOneWithout(h: Hub, sub: SubId)
    requires Valid(h) && sub in h.topics
    ensures Without(h, {sub}, DropOne(h, sub))
  {
    var t := h.topics[sub];
    forall u | u in h.brs && u != t ensures h.brs[u] - {sub} == h.brs[u] {
    }
    if t !in h.brs {
      assert h.cancelled + {sub} == h.cancelled;
    }
  }

  lemma WithoutTrans(h: Hub, gone: set<SubId>, g: Hub, more: set<SubId>, r: Hub)
    requires Without(h, gone, g) && Without(g, more, r)
    ensures Without(h, gone + more, r)
  {
    forall t | t in h.brs ensures h.brs[t] - (gone + more) == (h.brs[t] - gone) - more {
    }
    assert h.cancelled + (gone + more) == (h.cancelled + gone) + more;
  }

  /** The rounds of `unsubscribe`, one after the other, take all their subscriptions away: the order and
      repetitions among them make no difference to the hub. */
  lemma {:induction false} DropAllWithout(h: Hub, subs: seq<SubId>)
    requires Valid(h) && forall s :: s in subs ==> s in h.topics
    ensures Without(h, SubSet(subs), DropAll(h, subs))
    decreases |subs|
  {
    if subs == [] {
      assert SubSet(subs) == {};
      assert forall t :: t in h.brs ==> h.brs[t] - {} == h.brs[t];
    } else {
      assert subs[0] in subs;
      DropOneKeeps(h, subs[0]);
      DropOneWithout(h, subs[0]);
      var next := DropOne(h, subs[0]);
      DropAllWithout(next, subs[1..]);
      WithoutTrans(h, {subs[0]}, next, SubSet(subs[1..]), DropAll(h, subs));
      assert SubSet(subs) == {subs[0]} + SubSet(subs[1..]);
    }
  }

  /** `unsubscribe` names a topic as removed exactly when it took away all that topic's subscriptions,
      and names it once. */
  lemma {:induction false} RemovedExactly(h: Hub, subs: seq<SubId>)
    requires Valid(h) && forall s :: s in subs ==> s in h.topics
    ensures forall t :: t in EmptiedAll(h, subs) <==> t in h.brs && h.brs[t] <= SubSet(subs)
    ensures forall i, j :: 0 <= i < j < |EmptiedAll(h, subs)| ==> EmptiedAll(h, subs)[i] != EmptiedAll(h, subs)[j]
    decreases |subs|
  {
    if subs == [] {
      assert SubSet(subs) == {};
    } else {
      assert subs[0] in subs;
      DropOneKeeps(h, subs[0]);
      DropOneWithout(h, subs[0]);
      var next := DropOne(h, subs[0]);
      RemovedExactly(next, subs[1..]);
      assert SubSet(subs) == {subs[0]} + SubSet(subs[1..]);
      var one := Emptied(h, subs[0]);
      forall t ensures t in one + EmptiedAll(next, subs[1..]) <==> t in h.brs && h.brs[t] <= SubSet(subs) {
        if t in h.brs {
          assert t in one <==> h.brs[t] - {subs[0]} == {};
          assert h.brs[t] <= SubSet(subs) <==> h.brs[t] - {subs[0]} <= SubSet(subs[1..]);
        }
      }
    }
  }

  /** What `unsubscribe` emits is what it removed. */
  lemma UnsubscribeKeeps(h: Hub, subs: seq<SubId>)
    requires Valid(h) && forall s :: s in subs ==> s in h.topics
    ensures Valid(Unsubscribe(h, subs).hub)
    ensures h.sends ==> Unsubscribe(h, subs).hub.brs.Keys == ApplyOption(h.brs.Keys, Unsubscribe(h, subs).change)
  {
    DropAllKeeps(h, subs);
    assert EmptiedAll(h, subs) == [] ==> KeySet(EmptiedAll(h, subs)) == {};
  }

  /** Unsubscribing takes exactly the given subscriptions away, drops the topics that lose their last one, and announces
      these, if any, once each. */
  lemma UnsubscribeExactly(h: Hub, subs: seq<SubId>)
    requires Valid(h) && forall s :: s in subs ==> s in h.topics
    ensures var r := Unsubscribe(h, subs).hub;
      && (forall t :: t in r.brs <==> t in h.brs && h.brs[t] - SubSet(subs) != {})
      && (forall t :: t in r.brs ==> r.brs[t] == h.brs[t] - SubSet(subs))
      && r.cancelled == h.cancelled + SubSet(subs) && r.topics == h.topics && r.open == h.open && r.sends == h.sends
    ensures var c := Unsubscribe(h, subs).change;
      && (c.Some? <==> h.sends && exists t :: t in h.brs && h.brs[t] <= SubSet(subs))
      && (c.Some? ==> Announces(h, subs, c.value))
  {
    DropAllWithout(h, subs);
    RemovedExactly(h, subs);
    var removed := EmptiedAll(h, subs);
    if removed != [] {
      assert removed[0] in removed;
    }
  }

  ghost predicate Announces(h: Hub, subs: seq<SubId>, c: Change) {
    && c.added == [] && (forall t :: t in c.removed <==> t in h.brs && h.brs[t] <= SubSet(subs))
    && forall i, j :: 0 <= i < j < |c.removed| ==> c.removed[i] != c.removed[j]
  }

  /** Closing cancels the stored subscriptions and no others. */
  lemma CloseExactly(h: Hub)
    ensures Close(h).brs == map[] && Close(h).topics == h.topics && !Close(h).open && !Close(h).sends
    ensures forall s :: s in Close(h).cancelled <==> s in h.cancelled || exists t :: t in h.brs && s in h.brs[t]
  {
  }

  lemma CloseKeeps(h: Hub)
    requires Valid(h)
    ensures Valid(Close(h)) && Close(h).cancelled >= h.topics.Keys
  {
    forall s | s in h.topics ensures s in Close(h).cancelled {
      if s !in h.cancelled {
        assert s in h.brs[h.topics[s]];
      }
    }
  }

  /** A late `unsubscribe` of a subscription that is no longer stored changes no topic and sends nothing,
      even when a newer subscription has made the topic again. */
  lemma LateUnsubscribe(h: Hub, sub: SubId)
    requires Valid(h) && sub in h.topics
    requires h.topics[sub] in h.brs ==> sub !in h.brs[h.topics[sub]]
    ensures Unsubscribe(h, [sub]).change.None?
    ensures Unsubscribe(h, [sub]).hub == h
  {
    var t := h.topics[sub];
    assert sub in h.cancelled;
    assert [sub][1..] == [];
    if t in h.brs {
      assert h.brs[t] - {sub} == h.brs[t];
      assert h.brs[t := h.brs[t]] == h.brs;
      assert h.cancelled + {sub} == h.cancelled;
      assert DropOne(h, sub) == h;
    }
    assert DropAll(h, [sub]) == DropAll(DropOne(h, sub), []) == h;
    assert EmptiedAll(h, [sub]) == Emptied(h, sub) + EmptiedAll(DropOne(h, sub), []);
  }
}
