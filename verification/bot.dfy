/**
 The bot as a state machine over the three events it reacts to: a `/setup`
 invocation, a posted message and a member joining. The state is the stored
 logging channel together with the verdict module's flag.
 */
module Bot {
  import opened Wrappers
  import opened Handlers
  import opened SetupCommand

  datatype State = State(logging: Option<ChannelId>, flag: bool)

  /** At process start no logging channel is stored and the flag is down. */
  const Start: State := State(None, false)

  datatype Event =
    | SetupInvoked(channel: Channel, replyDelivered: bool)
    | MessageCreated(msg: Message)
    | MemberJoined(member: Member)

  /** A successful `/setup`: the only event that writes the configuration. */
  predicate StoresChannel(e: Event)
  {
    e.SetupInvoked? && e.replyDelivered
  }

  /** The state reached, what was done, and what the classifier was asked. */
  datatype Stepped = Stepped(state: State, actions: seq<Action>, queried: seq<string>)

  /** One event. Reminders go out only while no logging channel is stored, reports
      only once one is; only a successful `/setup` changes the stored channel. */
  function Step(s: State, e: Event, env: Env): (r: Stepped)
    ensures StoresChannel(e) ==> r.state.logging == Some(e.channel.id)
    ensures !StoresChannel(e) ==> r.state.logging == s.logging
    ensures s.logging.None? ==> forall a :: a in r.actions ==> !a.File?
    ensures s.logging.Some? ==> forall a :: a in r.actions ==> !a.Remind?
  {
    match e
    case SetupInvoked(channel, delivered) =>
      var out := Execute(s.logging, channel, delivered);
      Stepped(State(out.logging, s.flag), out.actions, [])
    case MessageCreated(msg) =>
      var h := HandleMessage(s.logging, msg, s.flag, env);
      Stepped(State(s.logging, h.flag), h.actions, h.queried)
    case MemberJoined(member) =>
      var h := HandleMember(s.logging, member, s.flag, env);
      Stepped(State(s.logging, h.flag), h.actions, h.queried)
  }

  /** A sequence of events, handled one after the other. */
  function Run(s: State, events: seq<Event>, env: Env): (r: Stepped)
    decreases |events|
  {
    if |events| == 0 then Stepped(s, [], [])
    else
      var first := Step(s, events[0], env);
      var rest := Run(first.state, events[1..], env);
      Stepped(rest.state, first.actions + rest.actions, first.queried + rest.queried)
  }

  /** The logging channel after `events`, read from the end: the channel of the last
      successful `/setup`, or `init` when there is none. */
  function LastStored(init: Option<ChannelId>, events: seq<Event>): Option<ChannelId>
    decreases |events|
  {
    if |events| == 0 then init
    else
      var e := events[|events| - 1];
      if StoresChannel(e) then Some(e.channel.id) else LastStored(init, events[..|events| - 1])
  }

  lemma {:induction false} LastStoredCons(init: Option<ChannelId>, e: Event, events: seq<Event>)
    ensures LastStored(init, [e] + events) == LastStored(if StoresChannel(e) then Some(e.channel.id) else init, events)
    decreases |events|
  {
    if |events| > 0 {
      var all := [e] + events;
      assert all[|all| - 1] == events[|events| - 1];
      assert all[..|all| - 1] == [e] + events[..|events| - 1];
      LastStoredCons(init, e, events[..|events| - 1]);
    } else {
      assert [e] + events == [e];
      assert [e][..0] == [];
    }
  }

  /** The configuration store is last-write-wins: after any run, the stored logging
      channel is the one chosen by the last successful `/setup`. */
  lemma {:induction false} RunStoresLastSetup(s: State, events: seq<Event>, env: Env)
    ensures Run(s, events, env).state.logging == LastStored(s.logging, events)
    decreases |events|
  {
    if |events| > 0 {
      var first := Step(s, events[0], env);
      RunStoresLastSetup(first.state, events[1..], env);
      assert events == [events[0]] + events[1..];
      LastStoredCons(s.logging, events[0], events[1..]);
    }
  }

  /** Until a `/setup` succeeds no report is filed, and once one has, no reminder is
      sent again: the stored channel is never cleared. */
  lemma {:induction false} RemindersThenReports(s: State, events: seq<Event>, env: Env)
    ensures s.logging.Some? ==> forall a :: a in Run(s, events, env).actions ==> !a.Remind?
    ensures s.logging.None? && (forall i :: 0 <= i < |events| ==> !StoresChannel(events[i])) ==>
              forall a :: a in Run(s, events, env).actions ==> !a.File?
    decreases |events|
  {
    if |events| > 0 {
      var first := Step(s, events[0], env);
      RemindersThenReports(first.state, events[1..], env);
      var rest := Run(first.state, events[1..], env);
      assert forall a :: a in first.actions + rest.actions ==> a in first.actions || a in rest.actions;
      if s.logging.None? && (forall i :: 0 <= i < |events| ==> !StoresChannel(events[i])) {
        assert !StoresChannel(events[0]);
        assert forall i :: 0 <= i < |events[1..]| ==> events[1..][i] == events[i + 1];
      }
    }
  }

  /** A `/setup` repeated on the same channel leaves the state a single one leaves;
      on a different channel the second one wins. */
  lemma SetupIdempotentAndLastWins(s: State, c1: Channel, c2: Channel, env: Env)
    ensures Run(s, [SetupInvoked(c1, true), SetupInvoked(c1, true)], env).state
         == Run(s, [SetupInvoked(c1, true)], env).state
    ensures Run(s, [SetupInvoked(c1, true), SetupInvoked(c2, true)], env).state.logging == Some(c2.id)
  {
    var one := [SetupInvoked(c1, true)];
    var twice := [SetupInvoked(c1, true), SetupInvoked(c1, true)];
    var other := [SetupInvoked(c1, true), SetupInvoked(c2, true)];
    assert twice[1..] == one;
    assert one[1..] == [];
    assert other[1..] == [SetupInvoked(c2, true)];
    RunStoresLastSetup(s, other, env);
    assert other[|other| - 1] == SetupInvoked(c2, true);
  }
}
