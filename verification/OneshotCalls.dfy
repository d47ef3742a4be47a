/**
 The calls of a one-shot channel (inc/oneshot.hpp:237-348) as runs of its micro-steps: one call after another, as on a
 single thread. A caller sees no more of the channel than whether it is open, holds a value or is broken.
 */
module OneshotCalls {
  import opened Oneshot

  /** What a channel has for its receiver. */
  datatype Slot<+V> = Open | Holds(value: V) | Broken

  function StateOf<V>(s: State<V>): Slot<V> {
    if s.sent.Some? then Holds(s.sent.value) else if Undecided(s.sender) then Open else Broken
  }

  // ---------------------------------------------------------------- rows of steps

  predicate CanRun<V>(s: State<V>, actions: seq<Action<V>>)
    decreases |actions|
  {
    actions == [] || (Enabled(s, actions[0]) && CanRun(Next(s, actions[0]), actions[1..]))
  }

  function After<V>(s: State<V>, actions: seq<Action<V>>): State<V>
    requires CanRun(s, actions)
    decreases |actions|
  {
    if actions == [] then s else After(Next(s, actions[0]), actions[1..])
  }

  /** Some run from the creation of the block leads here. */
  ghost predicate Reached<V(!new)>(s: State<V>) {
    exists states: seq<State<V>>, actions: seq<Action<V>> :: RunEnds(states, actions, s)
  }

  ghost predicate RunEnds<V>(states: seq<State<V>>, actions: seq<Action<V>>, s: State<V>) {
    Run(states, actions) && states[|states| - 1] == s
  }

  lemma InitReached<V(!new)>()
    ensures Reached(Init<V>())
  {
    assert RunEnds([Init<V>()], [], Init<V>());
  }

  lemma StepReached<V(!new)>(s: State<V>, a: Action<V>)
    requires Reached(s) && Enabled(s, a)
    ensures Reached(Next(s, a))
  {
    hide Enabled, Next;
    var states: seq<State<V>>, actions: seq<Action<V>> :| RunEnds(states, actions, s);
    assert RunEnds(states + [Next(s, a)], actions + [a], Next(s, a));
  }

  lemma {:induction false} RowReached<V(!new)>(s: State<V>, actions: seq<Action<V>>)
    requires Reached(s) && CanRun(s, actions)
    ensures Reached(After(s, actions))
    decreases |actions|
  {
    hide Reached, Enabled, Next;
    if actions != [] {
      StepReached(s, actions[0]);
      RowReached(Next(s, actions[0]), actions[1..]);
    }
  }

  lemma ReachedInv<V(!new)>(s: State<V>)
    requires Reached(s)
    ensures Inv(s)
  {
    hide Inv, Run;
    var states: seq<State<V>>, actions: seq<Action<V>> :| RunEnds(states, actions, s);
    NotEmpty(states, actions);
    RunInv(states, actions, |states| - 1);
  }

  lemma NotEmpty<V>(states: seq<State<V>>, actions: seq<Action<V>>)
    requires Run(states, actions)
    ensures |states| > 0
  {
  }

  lemma FirstOfRow<V>(s: State<V>, a: Action<V>, rest: seq<Action<V>>)
    requires Enabled(s, a) && CanRun(Next(s, a), rest)
    ensures CanRun(s, [a] + rest) && After(s, [a] + rest) == After(Next(s, a), rest)
  {
    hide Enabled, Next;
    assert ([a] + rest)[1..] == rest;
  }

  /** At most one step. */
  lemma MaybeOne<V>(s: State<V>, on: bool, a: Action<V>)
    requires on ==> Enabled(s, a)
    ensures var row := if on then [a] else [];
      CanRun(s, row) && After(s, row) == if on then Next(s, a) else s
  {
    hide Enabled, Next;
    if on {
      assert [a][1..] == [];
    }
  }

  // ---------------------------------------------------------------- between calls

  /** The sender is not in the middle of a call. */
  predicate AtRest<V>(s: State<V>) {
    s.sender == SAttached || s.sender == SGone
  }

  /** The receiver has not waited yet. */
  predicate Fresh<V>(s: State<V>) {
    s.receiver == RIdle && s.waitOp == None && s.outcomes == []
  }

  /** What a wait is told, once the channel is in a state. */
  function Told<V>(c: Slot<V>): seq<Outcome> {
    match c
    case Open => []
    case Holds(_) => [Success]
    case Broken => [BrokenSender]
  }

  /** The receiver has waited once, and the wait was told what the channel's state is. */
  predicate Waiting<V>(s: State<V>) {
    s.receiver == RIdle && s.waitOp == Some(0) && s.outcomes == [Told(StateOf(s))]
  }

  /** A wait that was not told anything yet has set the cell. */
  lemma WaitingCell<V>(s: State<V>)
    requires Inv(s) && Waiting(s) && s.sender == SAttached
    ensures s.cell == WAITING && StateOf(s) == Open
  {
    assert NotDecided(s);
    assert 0 in Pending(s);
  }

  // ---------------------------------------------------------------- the calls

  /** send() */
  function SendRow<V>(s: State<V>, v: V): seq<Action<V>> {
    [Build(v)] + ([FetchAdd] + ([SenderReact] + (if s.cell == DETACHED then [SenderDelete] else [])))
  }

  /** sender_detached() */
  function DropRow<V>(s: State<V>): seq<Action<V>> {
    [DropSender] + ([DropSenderReact] + [])
  }

  /** async_wait() */
  function WaitRow<V>(s: State<V>): seq<Action<V>> {
    [StartWait] + ([CheckWait] + ([ExchangeWaiting] + ([RestoreWait] +
      (if s.cell == DETACHED || s.cell == ENGAGED then [CompleteWait] else []))))
  }

  /** receiver_detached() */
  function LeaveRow<V>(s: State<V>): seq<Action<V>> {
    [DropReceiver] + ([DropReceiverReact] + (if s.cell == ENGAGED || s.cell == SENT then [ReceiverDelete] else []))
  }

  /** What becomes of the waits when the sender's call meets the cell as it is. */
  function ToldWaits<V>(s: State<V>, o: Outcome): seq<seq<Outcome>> {
    if s.cell == WAITING then CompleteOp(s, o) else s.outcomes
  }

  /** send(): the value is there, a wait that was under way has succeeded, and the sender is used up. */
  lemma Sends<V>(s: State<V>, v: V)
    requires Inv(s) && s.sender == SAttached
    ensures CanRun(s, SendRow(s, v))
    ensures var t := After(s, SendRow(s, v));
      && t.sender == SGone && t.sent == Some(v) && StateOf(t) == Holds(v)
      && t.receiver == s.receiver && t.waitOp == s.waitOp && t.outcomes == ToldWaits(s, Success)
  {
    hide Inv, CanRun, After, ToldWaits;
    SenderFacts(s);
    var s1 := Next(s, Build(v));
    var s2 := Next(s1, FetchAdd);
    var s3 := Next(s2, SenderReact);
    SendEnds(s, v);
    var last: seq<Action<V>> := if s.cell == DETACHED then [SenderDelete] else [];
    MaybeOne(s3, s.cell == DETACHED, SenderDelete);
    FirstOfRow(s2, SenderReact, last);
    FirstOfRow(s1, FetchAdd, [SenderReact] + last);
    FirstOfRow(s, Build(v), [FetchAdd] + ([SenderReact] + last));
  }

  lemma SendEnds<V>(s: State<V>, v: V)
    requires s.sender == SAttached && s.cell in {EMPTY, WAITING, DETACHED}
    ensures var s3 := Next(Next(Next(s, Build(v)), FetchAdd), SenderReact);
      && s3.sent == Some(v) && s3.receiver == s.receiver && s3.waitOp == s.waitOp && s3.outcomes == ToldWaits(s, Success)
      && s3.sender == if s.cell == DETACHED then SDestroyed else SGone
  {
  }

  lemma SenderFacts<V>(s: State<V>)
    requires Inv(s) && s.sender == SAttached
    ensures s.sent == None && s.cell in {EMPTY, WAITING, DETACHED}
  {
    assert NotDecided(s);
  }

  /** The sender is destroyed unused: the channel is broken, and a wait that was under way is told so. */
  lemma Drops<V>(s: State<V>)
    requires Inv(s) && s.sender == SAttached
    ensures CanRun(s, DropRow(s))
    ensures var t := After(s, DropRow(s));
      && t.sender == SGone && t.sent == None && StateOf(t) == Broken
      && t.receiver == s.receiver && t.waitOp == s.waitOp && t.outcomes == ToldWaits(s, BrokenSender)
  {
    hide Inv, CanRun, After;
    SenderFacts(s);
    var s1 := Next(s, DropSender);
    var s2 := Next(s1, DropSenderReact);
    MaybeOne(s2, false, DropSenderReact);
    FirstOfRow(s1, DropSenderReact, []);
    FirstOfRow(s, DropSender, [DropSenderReact] + []);
  }

  /** async_wait(), the first: it is told at once what the channel has, or goes on waiting. */
  lemma Waits<V>(s: State<V>)
    requires Inv(s) && Fresh(s) && AtRest(s)
    ensures CanRun(s, WaitRow(s))
    ensures var t := After(s, WaitRow(s)); Waiting(t) && t.sender == s.sender && t.sent == s.sent
  {
    hide Inv, CanRun, After, Waiting, Complete;
    FreshFacts(s);
    var told := s.cell == DETACHED || s.cell == ENGAGED;
    var s1 := Next(s, StartWait);
    var s2 := Next(s1, CheckWait);
    var s3 := Next(s2, ExchangeWaiting);
    var s4 := Next(s3, RestoreWait);
    WaitEnds(s);
    var last: seq<Action<V>> := if told then [CompleteWait] else [];
    MaybeOne(s4, told, CompleteWait);
    FirstOfRow(s3, RestoreWait, last);
    FirstOfRow(s2, ExchangeWaiting, [RestoreWait] + last);
    FirstOfRow(s1, CheckWait, [ExchangeWaiting] + ([RestoreWait] + last));
    FirstOfRow(s, StartWait, [CheckWait] + ([ExchangeWaiting] + ([RestoreWait] + last)));
  }

  lemma WaitEnds<V>(s: State<V>)
    requires Fresh(s) && AtRest(s) && (s.sender == SAttached ==> s.sent == None)
    requires s.cell == if s.sender == SAttached then EMPTY else if s.sent.Some? then ENGAGED else DETACHED
    ensures var s4 := Next(Next(Next(Next(s, StartWait), CheckWait), ExchangeWaiting), RestoreWait);
      && s4.sender == s.sender && s4.sent == s.sent
      && if s.cell == EMPTY then Waiting(s4)
         else s4.receiver == RRestored(0, s.cell) && Waiting(Next(s4, CompleteWait))
  {
    hide Next, Waiting;
    if s.cell == EMPTY {
      WaitGoesOn(s);
    } else {
      WaitIsTold(s);
    }
  }

  lemma WaitGoesOn<V>(s: State<V>)
    requires Fresh(s) && s.cell == EMPTY && s.sender == SAttached && s.sent == None
    ensures var s4 := Next(Next(Next(Next(s, StartWait), CheckWait), ExchangeWaiting), RestoreWait);
      s4.sender == s.sender && s4.sent == s.sent && Waiting(s4)
  {
    assert Next(s, StartWait).outcomes == [[]];
  }

  lemma WaitIsTold<V>(s: State<V>)
    requires Fresh(s) && s.sender == SGone && s.cell == if s.sent.Some? then ENGAGED else DETACHED
    ensures var s4 := Next(Next(Next(Next(s, StartWait), CheckWait), ExchangeWaiting), RestoreWait);
      s4.sender == s.sender && s4.sent == s.sent && s4.receiver == RRestored(0, s.cell) && Waiting(Next(s4, CompleteWait))
  {
    hide Next;
    WaitArms(s);
    ArmedIsTold(s.(waitOp := Some(0), receiver := RArmed(0), outcomes := [[]]));
  }

  lemma WaitArms<V>(s: State<V>)
    requires Fresh(s)
    ensures Next(Next(s, StartWait), CheckWait) == s.(waitOp := Some(0), receiver := RArmed(0), outcomes := [[]])
  {
    assert Next(s, StartWait).outcomes == [[]];
  }

  lemma ArmedIsTold<V>(s: State<V>)
    requires s.receiver == RArmed(0) && s.waitOp == Some(0) && s.outcomes == [[]]
    requires s.sender == SGone && s.cell == if s.sent.Some? then ENGAGED else DETACHED
    ensures var s4 := Next(Next(s, ExchangeWaiting), RestoreWait);
      s4.sender == s.sender && s4.sent == s.sent && s4.receiver == RRestored(0, s.cell) && Waiting(Next(s4, CompleteWait))
  {
    CompleteFirst(if s.cell == DETACHED then BrokenSender else Success);
  }

  lemma CompleteFirst(o: Outcome)
    ensures Complete([[]], 0, o) == [[o]]
  {
    assert [] + [o] == [o];
  }

  lemma FreshFacts<V>(s: State<V>)
    requires Inv(s) && Fresh(s) && AtRest(s)
    ensures s.cell == if s.sender == SAttached then EMPTY else if s.sent.Some? then ENGAGED else DETACHED
    ensures s.sender == SAttached ==> s.sent == None
  {
  }

  /** A receiver that is not waiting leaves: once the sender is gone too, the block is deleted. */
  lemma Leaves<V>(s: State<V>)
    requires Inv(s) && s.sender == SGone && (Fresh(s) || Waiting(s))
    ensures CanRun(s, LeaveRow(s))
    ensures var t := After(s, LeaveRow(s));
      && t.receiver == RGone && t.sender == SGone && t.sent == s.sent
      && t.deletions == 1 && t.payload == None && t.destroyed == t.constructed
  {
    hide Inv, CanRun, After, Fresh, Waiting, Outstanding;
    GoneFacts(s);
    IdleReceiver(s);
    var s1 := Next(s, DropReceiver);
    var s2 := Next(s1, DropReceiverReact);
    var holds := s.cell == ENGAGED || s.cell == SENT;
    var last: seq<Action<V>> := if holds then [ReceiverDelete] else [];
    MaybeOne(s2, holds, ReceiverDelete);
    FirstOfRow(s1, DropReceiverReact, last);
    FirstOfRow(s, DropReceiver, [DropReceiverReact] + last);
  }

  lemma IdleReceiver<V>(s: State<V>)
    requires Fresh(s) || Waiting(s)
    ensures s.receiver == RIdle
  {
  }

  lemma GoneFacts<V>(s: State<V>)
    requires Inv(s) && s.sender == SGone && (Fresh(s) || Waiting(s))
    ensures forall op: nat :: op < |s.outcomes| ==> !Outstanding(s, op)
    ensures if s.sent.Some? then s.cell in {ENGAGED, SENT} && s.payload == s.sent else s.cell == DETACHED && s.payload == None
    ensures s.deletions == 0 && s.destroyed + (if s.payload.Some? then 1 else 0) == s.constructed
  {
    assert Settled(s) == s.cell && !Leaving(s.receiver);
  }

  /** get(), after a wait: the value, exactly if the channel holds one. */
  lemma Gets<V>(s: State<V>)
    requires Inv(s) && s.receiver == RIdle && AtRest(s)
    ensures GetStoredObject(s) == match StateOf(s) case Holds(v) => Some(v) case _ => None
  {
    assert Settled(s) == s.cell;
  }

  // ---------------------------------------------------------------- calls and what the receiver knows

  /** A call of the sender keeps what the receiver is at: one that has not waited has not, and one that waits has been told. */
  lemma SendsKeep<V>(s: State<V>, v: V)
    requires Inv(s) && s.sender == SAttached
    ensures CanRun(s, SendRow(s, v))
    ensures var t := After(s, SendRow(s, v)); (Fresh(s) ==> Fresh(t)) && (Waiting(s) ==> Waiting(t))
  {
    hide CanRun, After, SendRow, Inv;
    Sends(s, v);
    if Waiting(s) {
      WaitingCell(s);
      CompleteFirst(Success);
    }
    if Fresh(s) {
      FreshFacts(s);
    }
  }

  lemma DropsKeep<V>(s: State<V>)
    requires Inv(s) && s.sender == SAttached
    ensures CanRun(s, DropRow(s))
    ensures var t := After(s, DropRow(s)); (Fresh(s) ==> Fresh(t)) && (Waiting(s) ==> Waiting(t))
  {
    hide CanRun, After, DropRow, Inv;
    Drops(s);
    if Waiting(s) {
      WaitingCell(s);
      CompleteFirst(BrokenSender);
    }
    if Fresh(s) {
      FreshFacts(s);
    }
  }

  // ---------------------------------------------------------------- the calls as functions

  function Send<V(!new)>(s: State<V>, v: V): (t: State<V>)
    requires Reached(s) && s.sender == SAttached
    ensures Reached(t) && AtRest(t) && t.sender == SGone && StateOf(t) == Holds(v)
    ensures (Fresh(s) ==> Fresh(t)) && (Waiting(s) ==> Waiting(t))
  {
    hide CanRun, After, SendRow, Fresh, Waiting, Reached;
    ReachedInv(s);
    Sends(s, v);
    SendsKeep(s, v);
    RowReached(s, SendRow(s, v));
    After(s, SendRow(s, v))
  }

  function Drop<V(!new)>(s: State<V>): (t: State<V>)
    requires Reached(s) && s.sender == SAttached
    ensures Reached(t) && AtRest(t) && t.sender == SGone && StateOf(t) == Broken
    ensures (Fresh(s) ==> Fresh(t)) && (Waiting(s) ==> Waiting(t))
  {
    hide CanRun, After, DropRow, Fresh, Waiting, Reached;
    ReachedInv(s);
    Drops(s);
    DropsKeep(s);
    RowReached(s, DropRow(s));
    After(s, DropRow(s))
  }

  function Wait<V(!new)>(s: State<V>): (t: State<V>)
    requires Reached(s) && AtRest(s) && Fresh(s)
    ensures Reached(t) && Waiting(t) && t.sender == s.sender && StateOf(t) == StateOf(s)
  {
    hide CanRun, After, WaitRow, Fresh, Waiting, Reached;
    ReachedInv(s);
    Waits(s);
    RowReached(s, WaitRow(s));
    After(s, WaitRow(s))
  }

  function Leave<V(!new)>(s: State<V>): (t: State<V>)
    requires Reached(s) && s.sender == SGone && (Fresh(s) || Waiting(s))
    ensures Reached(t) && AtRest(t) && t.sender == SGone && t.receiver == RGone && StateOf(t) == StateOf(s)
    ensures t.deletions == 1 && t.payload == None && t.destroyed == t.constructed
  {
    hide CanRun, After, LeaveRow, Fresh, Waiting, Reached;
    ReachedInv(s);
    Leaves(s);
    RowReached(s, LeaveRow(s));
    After(s, LeaveRow(s))
  }
}
