/** The methods of Action Cable connections and channel dispatchers. */
module ActionCable {
  import opened Options
  import opened Contexts
  import opened CableStates

  class ChannelDispatcher {
    const setup: Setup
    var channels: map<Identifier, Origin>

    /** Channels may be handed in; the dispatcher makes the others. */
    constructor (setup: Setup, given: set<Identifier>)
      ensures this.setup == setup && channels == (map id | id in given :: Given)
    {
      this.setup := setup;
      channels := map id | id in given :: Given;
    }

    /** Parses an identifier and puts it to every checker in turn. */
    method ParseSubIdentifier(id: Identifier) returns (name: Option<string>)
      ensures name == Checked(setup, id)
      ensures name.Some? <==> setup.parse(id).Some? && forall i :: 0 <= i < |setup.checkers| ==> setup.checkers[i](id)
      ensures name.Some? ==> name == setup.parse(id)
    {
      name := setup.parse(id);
      if name.None? {
        return;
      }
      for i := 0 to |setup.checkers|
        invariant forall j :: 0 <= j < i ==> setup.checkers[j](id)
      {
        if !setup.checkers[i](id) {
          return None;
        }
      }
    }

    method HandleSubscription(id: Identifier, o: Outcome) returns (ok: bool)
      requires ChannelsChecked(setup, channels)
      modifies this
      ensures ChannelsChecked(setup, channels)
      ensures ok == Joins(setup, old(channels), id, o)
      ensures channels == AfterJoin(setup, old(channels), id, o)
      ensures ok ==> id in channels
      ensures id !in old(channels) ==>
                (ok <==> && setup.parse(id).Some? && (forall i :: 0 <= i < |setup.checkers| ==> setup.checkers[i](id))
                         && setup.parse(id).value in setup.factories && o.made && o.joined)
      ensures id !in old(channels) ==>
                channels == if ok then old(channels)[id := Made(setup.parse(id).value)] else old(channels)
      ensures id in old(channels) ==> ok == o.joined && channels == if ok then old(channels) else old(channels) - {id}
    {
      if id in channels {
        if !o.joined {
          channels := channels - {id};
          return false;
        }
        return true;
      }
      var name := ParseSubIdentifier(id);
      if name.None? || name.value !in setup.factories || !o.made || !o.joined {
        return false;
      }
      channels := channels[id := Made(name.value)];
      return true;
    }

    method HandleAction(id: Identifier, o: Outcome) returns (ok: bool)
      ensures ok <==> id in channels && o.performed
    {
      if id !in channels {
        return false;
      }
      return o.performed;
    }
  }

  class Conn {
    const h: ChannelDispatcher
    var unsubscribers: map<Identifier, CtxId>
    var started: seq<Identifier>
    var cancelled: set<CtxId>
    var toClient: seq<Reply>

    function Contexts(): Registry
      reads this
    {
      Registry(unsubscribers, started, cancelled)
    }

    function State(): Cable
      reads this, h
    {
      Cable(Contexts(), h.channels)
    }

    ghost predicate Valid()
      reads this, h
    {
      CableStates.Valid(h.setup, State())
    }

    constructor (h: ChannelDispatcher)
      requires ChannelsChecked(h.setup, h.channels)
      ensures this.h == h && Valid() && Contexts() == NO_CONTEXTS && toClient == []
    {
      this.h := h;
      unsubscribers, started, cancelled, toClient := map[], [], {}, [];
    }

    method Subscribe(id: Identifier, o: Outcome) returns (ok: bool)
      requires Valid()
      modifies this, h
      ensures Valid()
      ensures State() == Step(h.setup, old(State()), CableStates.Subscribe(id), o)
      ensures toClient == old(toClient) + Replies(h.setup, old(State()), CableStates.Subscribe(id), o)
      ensures ok == (id in unsubscribers) && toClient == old(toClient) + [if ok then Confirm(id) else Reject(id)]
      ensures ok <==> id in old(unsubscribers) || Admitted(h.setup, old(h.channels), id, o)
    {
      StepKeeps(h.setup, State(), CableStates.Subscribe(id), o);
      if id in unsubscribers {
        toClient := toClient + [Confirm(id)];
        return true;
      }
      var ctx := |started|;
      started := started + [id];
      var joined := h.HandleSubscription(id, o);
      if !joined {
        toClient := toClient + [Reject(id)];
        cancelled := cancelled + {ctx};
        return false;
      }
      unsubscribers := unsubscribers[id := ctx];
      toClient := toClient + [Confirm(id)];
      return true;
    }

    method Receive(command: Command, o: Outcome) returns (ok: bool)
      requires Valid()
      modifies this, h
      ensures Valid()
      ensures ok == Succeeds(h.setup, old(State()), command, o)
      ensures State() == Step(h.setup, old(State()), command, o)
      ensures toClient == old(toClient) + Replies(h.setup, old(State()), command, o)
      ensures command.Act? ==> State() == old(State()) && (ok <==> command.id in h.channels && o.performed)
      ensures command.Unknown? ==> State() == old(State()) && !ok
      ensures command.Unsubscribe? ==>
                h.channels == old(h.channels) && unsubscribers == old(unsubscribers) - {command.id} && ok
      ensures command.Subscribe? ==>
                (ok <==> command.id in old(unsubscribers) || Admitted(h.setup, old(h.channels), command.id, o))
    {
      StepKeeps(h.setup, State(), command, o);
      match command
      case Unknown => return false;
      case Subscribe(id) => ok := Subscribe(id, o);
      case Unsubscribe(id) =>
        if id in unsubscribers {
          cancelled := cancelled + {unsubscribers[id]};
          unsubscribers := unsubscribers - {id};
        }
        return true;
      case Act(id) => ok := h.HandleAction(id, o);
    }

    method CancelEach()
      modifies this`cancelled
      ensures Contexts() == old(Contexts()).(stopped := cancelled)
      ensures cancelled == old(cancelled) + Under(old(Contexts()), unsubscribers.Keys)
    {
      ghost var p := Contexts();
      var done: set<Identifier> := {};
      while done != unsubscribers.Keys
        invariant done <= unsubscribers.Keys && cancelled == p.stopped + Under(p, done)
        decreases |unsubscribers.Keys - done|
      {
        var id :| id in unsubscribers && id !in done;
        UnderMore(p, done, id);
        cancelled := cancelled + {unsubscribers[id]};
        assert unsubscribers.Keys - done == (unsubscribers.Keys - (done + {id})) + {id};
        done := done + {id};
      }
    }

    /** Cancels every subscription: no context is left running. */
    method Disconnect()
      requires Valid()
      modifies this
      ensures Valid() && Contexts() == StopEvery(old(Contexts())) && unsubscribers == map[]
      ensures toClient == old(toClient) && forall c: CtxId, id :: !Runs(Contexts(), c, id)
    {
      StopEveryKeeps(Contexts());
      CancelEach();
      unsubscribers := map[];
    }
  }
}
