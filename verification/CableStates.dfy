/** An Action Cable connection and its channel dispatcher, as states and steps over client commands. */
module CableStates {
  import opened Options
  import opened Contexts

  type Identifier = Key

  datatype Command = Subscribe(id: Identifier) | Unsubscribe(id: Identifier) | Act(id: Identifier) | Unknown

  datatype Reply = Confirm(id: Identifier) | Reject(id: Identifier)

  /** A channel was there from the start, or the dispatcher made it with the factory of that name. */
  datatype Origin = Given | Made(name: string)

  /** What a dispatcher is set up with. */
  datatype Setup = Setup(factories: set<string>, parse: Identifier -> Option<string>, checkers: seq<Identifier -> bool>)

  /** What the factory, the channel's Subscribe and the channel's Perform return, for one command. */
  datatype Outcome = Outcome(made: bool, joined: bool, performed: bool)

  /** The subscription contexts of the connection, whose cancelers are its `unsubscribers`, and the channels. */
  datatype Cable = Cable(contexts: Registry, channels: map<Identifier, Origin>)

  predicate Passes(setup: Setup, id: Identifier) {
    forall i :: 0 <= i < |setup.checkers| ==> setup.checkers[i](id)
  }

  /** The name of the channel that an identifier is for, if it parses and passes every checker. */
  function Checked(setup: Setup, id: Identifier): Option<string> {
    if Passes(setup, id) then setup.parse(id) else None
  }

  predicate Joins(setup: Setup, channels: map<Identifier, Origin>, id: Identifier, o: Outcome) {
    o.joined && (id in channels
      || (Checked(setup, id).Some? && Checked(setup, id).value in setup.factories && o.made))
  }

  function AfterJoin(setup: Setup, channels: map<Identifier, Origin>, id: Identifier,
      o: Outcome): map<Identifier, Origin> {
    if id in channels then if o.joined then channels else channels - {id}
    else if Joins(setup, channels, id, o) then channels[id := Made(Checked(setup, id).value)]
    else channels
  }

  /** A context that is cancelled as soon as it is started. */
  function Refuse(p: Registry, id: Identifier): Registry {
    p.(started := p.started + [id], stopped := p.stopped + {|p.started|})
  }

  function Step(setup: Setup, c: Cable, cmd: Command, o: Outcome): Cable {
    match cmd
    case Subscribe(id) =>
      if id in c.contexts.cancelers then c
      else Cable(if Joins(setup, c.channels, id, o) then Start(c.contexts, id) else Refuse(c.contexts, id),
                 AfterJoin(setup, c.channels, id, o))
    case Unsubscribe(id) => c.(contexts := Stop(c.contexts, id))
    case Act(_) => c
    case Unknown => c
  }

  function Replies(setup: Setup, c: Cable, cmd: Command, o: Outcome): seq<Reply> {
    if !cmd.Subscribe? then []
    else if cmd.id in c.contexts.cancelers || Joins(setup, c.channels, cmd.id, o) then [Confirm(cmd.id)]
    else [Reject(cmd.id)]
  }

  /** The command is handled without an error. */
  predicate Succeeds(setup: Setup, c: Cable, cmd: Command, o: Outcome) {
    match cmd
    case Subscribe(id) => id in c.contexts.cancelers || Joins(setup, c.channels, id, o)
    case Unsubscribe(_) => true
    case Act(id) => id in c.channels && o.performed
    case Unknown => false
  }

  // What every command does

  /** A new channel is made for an identifier that parses, passes every checker and names a factory, when the factory
      succeeds and the channel accepts the subscription; an existing one is kept while it accepts. */
  ghost predicate Admitted(setup: Setup, channels: map<Identifier, Origin>, id: Identifier, o: Outcome) {
    if id in channels then o.joined
    else
      && setup.parse(id).Some? && (forall i :: 0 <= i < |setup.checkers| ==> setup.checkers[i](id))
      && setup.parse(id).value in setup.factories && o.made && o.joined
  }

  /** A subscribe command for a new identifier is confirmed exactly when it is admitted.  Then its context runs and its
      channel is there, newly made if there was none; otherwise it is rejected, and a channel that refused is gone. */
  lemma SubscribeExactly(setup: Setup, c: Cable, id: Identifier, o: Outcome)
    requires id !in c.contexts.cancelers
    ensures var ok, r := Admitted(setup, c.channels, id, o), Step(setup, c, Subscribe(id), o);
      && Replies(setup, c, Subscribe(id), o) == [if ok then Confirm(id) else Reject(id)]
      && Succeeds(setup, c, Subscribe(id), o) == ok
      && (id in r.contexts.cancelers <==> ok)
      && r.channels == (if !ok then c.channels - {id}
                        else if id in c.channels then c.channels
                        else c.channels[id := Made(setup.parse(id).value)])
      && |r.contexts.started| == |c.contexts.started| + 1
      && (|c.contexts.started| in r.contexts.stopped <==> !ok || |c.contexts.started| in c.contexts.stopped)
  {
  }

  /** A subscribe command for a subscribed identifier is confirmed again and changes nothing; an unsubscribe command
      takes the subscription and leaves the channels; an action reaches the channel; any other command is an error. */
  lemma OthersExactly(setup: Setup, c: Cable, id: Identifier, o: Outcome)
    ensures id in c.contexts.cancelers ==> Step(setup, c, Subscribe(id), o) == c
    ensures id in c.contexts.cancelers ==> Replies(setup, c, Subscribe(id), o) == [Confirm(id)]
    ensures var r := Step(setup, c, Unsubscribe(id), o);
      r.channels == c.channels && r.contexts.cancelers == c.contexts.cancelers - {id} &&
          Succeeds(setup, c, Unsubscribe(id), o)
    ensures Step(setup, c, Act(id), o) == c && (Succeeds(setup, c, Act(id), o) <==> id in c.channels && o.performed)
    ensures Step(setup, c, Unknown, o) == c && !Succeeds(setup, c, Unknown, o)
    ensures Replies(setup, c, Unsubscribe(id), o) == Replies(setup, c, Act(id), o) == Replies(setup, c, Unknown,
        o) == []
  {
  }

  // What every command keeps

  /** Every channel that the dispatcher made has passed every checker. */
  ghost predicate ChannelsChecked(setup: Setup, channels: map<Identifier, Origin>) {
    forall id :: id in channels && channels[id].Made? ==>
      channels[id].name in setup.factories && Passes(setup, id) && setup.parse(id) == Some(channels[id].name)
  }

  /** One running context for each unsubscriber, and a channel for each. */
  ghost predicate Valid(setup: Setup, c: Cable) {
    && Contexts.Valid(c.contexts) && c.contexts.cancelers.Keys <= c.channels.Keys
    && ChannelsChecked(setup, c.channels)
  }

  lemma RefuseKeeps(p: Registry, id: Identifier)
    requires Contexts.Valid(p)
    ensures Contexts.Valid(Refuse(p, id)) && Refuse(p, id).cancelers == p.cancelers
  {
    var r := Refuse(p, id);
    forall t | t in r.cancelers ensures Runs(r, r.cancelers[t], t) {
      assert Runs(p, p.cancelers[t], t);
    }
  }

  lemma JoinKeeps(setup: Setup, channels: map<Identifier, Origin>, id: Identifier, o: Outcome)
    requires ChannelsChecked(setup, channels)
    ensures ChannelsChecked(setup, AfterJoin(setup, channels, id, o))
    ensures AfterJoin(setup, channels, id, o).Keys + {id} == channels.Keys + {id}
    ensures Joins(setup, channels, id, o) ==> id in AfterJoin(setup, channels, id, o)
  {
  }

  lemma SubscribeKeeps(setup: Setup, c: Cable, id: Identifier, o: Outcome)
    requires Valid(setup, c)
    ensures Valid(setup, Step(setup, c, Subscribe(id), o))
    ensures Step(setup, c, Subscribe(id), o).contexts.cancelers.Keys ==
      Heard(c.contexts.cancelers.Keys, Subscribe(id), Replies(setup, c, Subscribe(id), o))
  {
    if id !in c.contexts.cancelers {
      JoinKeeps(setup, c.channels, id, o);
      StartKeeps(c.contexts, id);
      RefuseKeeps(c.contexts, id);
      var before, after := c.channels.Keys, AfterJoin(setup, c.channels, id, o).Keys;
      assert forall k :: k in before && k != id ==> k in after + {id};
    }
  }

  lemma StepKeeps(setup: Setup, c: Cable, cmd: Command, o: Outcome)
    requires Valid(setup, c)
    ensures Valid(setup, Step(setup, c, cmd, o))
    ensures Step(setup, c, cmd, o).contexts.cancelers.Keys == Heard(c.contexts.cancelers.Keys, cmd,
        Replies(setup, c, cmd, o))
  {
    match cmd
    case Subscribe(id) =>
      SubscribeKeeps(setup, c, id, o);
    case Unsubscribe(id) =>
      StopKeeps(c.contexts, id);
    case Act(_) =>
    case Unknown =>
  }

  // Runs of commands

  /** A command together with what its handlers return. */
  datatype Input = Input(command: Command, outcome: Outcome)

  function After(setup: Setup, c: Cable, inputs: seq<Input>): Cable {
    if inputs == [] then c
    else
      var last := inputs[|inputs| - 1];
      Step(setup, After(setup, c, inputs[..|inputs| - 1]), last.command, last.outcome)
  }

  function AllReplies(setup: Setup, c: Cable, inputs: seq<Input>): seq<Reply> {
    if inputs == [] then []
    else
      var before, last := inputs[..|inputs| - 1], inputs[|inputs| - 1];
      AllReplies(setup, c, before) + Replies(setup, After(setup, c, before), last.command, last.outcome)
  }

  /** What a client takes to be subscribed after it has sent a command and got its replies. */
  function Heard(known: set<Identifier>, cmd: Command, replies: seq<Reply>): set<Identifier> {
    var kept := if cmd.Unsubscribe? then known - {cmd.id} else known;
    kept + set r | r in replies && r.Confirm? :: r.id
  }

  function Known(setup: Setup, c: Cable, inputs: seq<Input>): set<Identifier> {
    if inputs == [] then c.contexts.cancelers.Keys
    else
      var before, last := inputs[..|inputs| - 1], inputs[|inputs| - 1];
      Heard(Known(setup, c, before), last.command, Replies(setup, After(setup, c, before), last.command, last.outcome))
  }

  /** Over every sequence of commands, a connection keeps its invariant, and its client, from the replies alone,
      knows its subscriptions. */
  lemma {:induction false} RunKeeps(setup: Setup, c: Cable, inputs: seq<Input>)
    requires Valid(setup, c)
    ensures Valid(setup, After(setup, c, inputs))
    ensures Known(setup, c, inputs) == After(setup, c, inputs).contexts.cancelers.Keys
  {
    if inputs != [] {
      var before, last := inputs[..|inputs| - 1], inputs[|inputs| - 1];
      RunKeeps(setup, c, before);
      StepKeeps(setup, After(setup, c, before), last.command, last.outcome);
    }
  }

  function Asked(inputs: seq<Input>, id: Identifier): nat {
    if inputs == [] then 0
    else Asked(inputs[..|inputs| - 1], id) + (if inputs[|inputs| - 1].command == Subscribe(id) then 1 else 0)
  }

  function Answered(replies: seq<Reply>, id: Identifier): nat {
    if replies == [] then 0
    else Answered(replies[..|replies| - 1], id) + (if replies[|replies| - 1].id == id then 1 else 0)
  }

  /** Every subscribe command gets one reply, and nothing else gets any. */
  lemma {:induction false} OneReplyEach(setup: Setup, c: Cable, inputs: seq<Input>, id: Identifier)
    ensures Answered(AllReplies(setup, c, inputs), id) == Asked(inputs, id)
  {
    if inputs != [] {
      var before, last := inputs[..|inputs| - 1], inputs[|inputs| - 1];
      OneReplyEach(setup, c, before, id);
      var past, now := AllReplies(setup, c, before),
          Replies(setup, After(setup, c, before), last.command, last.outcome);
      RepliesTo(setup, After(setup, c, before), last.command, last.outcome, id);
      AnsweredMore(past, now, id);
      assert AllReplies(setup, c, inputs) == past + now;
    }
  }

  lemma RepliesTo(setup: Setup, c: Cable, cmd: Command, o: Outcome, id: Identifier)
    ensures var rs := Replies(setup, c, cmd, o); |rs| <= 1 && (|rs| == 1 && rs[0].id == id <==> cmd == Subscribe(id))
  {
  }

  lemma AnsweredMore(past: seq<Reply>, now: seq<Reply>, id: Identifier)
    requires |now| <= 1
    ensures Answered(past + now, id) == Answered(past, id) + (if |now| == 1 && now[0].id == id then 1 else 0)
  {
    if now == [] {
      assert past + now == past;
    } else {
      assert (past + now)[..|past|] == past && (past + now)[|past|] == now[0];
    }
  }

  /** From a connection without subscriptions, in every run: an identifier has one running context if it is
      subscribed and none otherwise, and its actions then reach a channel. */
  lemma OneContextPerIdentifier(setup: Setup, channels: map<Identifier, Origin>, inputs: seq<Input>, id: Identifier,
      o: Outcome)
    requires ChannelsChecked(setup, channels)
    ensures var c := After(setup, Cable(NO_CONTEXTS, channels), inputs);
      && (id in c.contexts.cancelers <==> exists x: CtxId :: Runs(c.contexts, x, id))
      && (forall x: CtxId, y: CtxId :: Runs(c.contexts, x, id) && Runs(c.contexts, y, id) ==> x == y)
      && (id in c.contexts.cancelers ==> Succeeds(setup, c, Act(id), o) == o.performed)
      && (id in c.channels && id !in channels ==> Passes(setup, id))
  {
    var start := Cable(NO_CONTEXTS, channels);
    RunKeeps(setup, start, inputs);
    AtMostOneContext(After(setup, start, inputs).contexts, id);
    if id !in channels {
      OthersAreMade(setup, start, inputs, id);
    }
  }

  lemma {:induction false} OthersAreMade(setup: Setup, c: Cable, inputs: seq<Input>, id: Identifier)
    requires id !in c.channels
    ensures id in After(setup, c, inputs).channels ==> After(setup, c, inputs).channels[id].Made?
  {
    if inputs != [] {
      OthersAreMade(setup, c, inputs[..|inputs| - 1], id);
    }
  }

  /** The dispatcher must be the connection's own: when another connection's subscription to the same channel
      fails, the channel is gone, and this connection's subscription is left without it. */
  lemma SharedDispatcher(setup: Setup, c: Cable, other: Registry, id: Identifier, o: Outcome)
    requires Valid(setup, c) && id in c.contexts.cancelers && id !in other.cancelers && !o.joined
    ensures var shared := Step(setup, Cable(other, c.channels), Subscribe(id), o).channels;
      !Valid(setup, c.(channels := shared)) &&
          !Succeeds(setup, c.(channels := shared), Act(id), Outcome(true, true, true))
  {
    var shared := Step(setup, Cable(other, c.channels), Subscribe(id), o).channels;
    assert id !in shared;
    assert id in c.contexts.cancelers.Keys;
  }
}
