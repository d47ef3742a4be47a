/**
 The one-shot channel (inc/oneshot.hpp): a sender and a receiver that share one block, and settle by
 atomic operations on one byte who completes a wait, who destroys the payload and who deletes the block.

 A state holds the shared block and where each of the two actors is in its code. An action is one
 micro-step of one of them: an atomic operation, a reaction to what that operation returned, or a plain
 access. The receiver is one actor together with the cancellation of its waits, and is not destroyed
 while a wait is outstanding (line 336). Steps are sequentially consistent.
 */
module Oneshot {

  datatype Option<+T> = None | Some(value: T)

  // enum of shared_state
  const EMPTY := 0
  const ENGAGED := 1
  const WAITING := 2
  const SENT := 3
  const DETACHED := 4

  datatype Outcome = Success | Cancelled | BrokenSender | DuplicateWait

  /** Where the sender is. */
  datatype SenderPc =
    | SAttached            // holds the handle
    | SBuilt               // send(): payload constructed
    | SAdded(prev: nat)    // send(): fetch_add(1) returned prev
    | SDestroyed           // send(): payload destroyed, about to delete the block
    | SDropped(prev: nat)  // sender_detached(): exchange(detached) returned prev
    | SGone

  /** Where the receiver is. */
  datatype ReceiverPc =
    | RIdle
    | RChecking(op: nat)               // async_wait(): operation made, cancellation slot assigned
    | RArmed(op: nat)                  // async_wait(): wait_op_ set
    | RExchanged(op: nat, prev: nat)   // async_wait(): exchange(waiting) returned prev
    | RRestored(op: nat, prev: nat)    // async_wait(): prev stored back
    | RCancelling(prev: nat)           // cancel handler: exchange(empty) returned prev
    | RCompleted                       // cancel handler: operation completed, wait_op_ still set
    | RDropped(prev: nat)              // receiver_detached(): exchange(detached) returned prev
    | RDestroyed                       // receiver_detached(): payload destroyed, about to delete the block
    | RGone

  datatype State<T> = State(
    cell: nat,                   // state_
    payload: Option<T>,          // storage_: the live object, if any
    waitOp: Option<nat>,         // wait_op_
    sender: SenderPc,
    receiver: ReceiverPc,
    outcomes: seq<seq<Outcome>>, // what each wait was completed with, in order
    constructed: nat,
    destroyed: nat,
    deletions: nat,
    sent: Option<T>)             // the value given to send(), once its fetch_add is done

  datatype Action<T> =
    | Build(v: T)          // line 240
    | FetchAdd             // line 243
    | SenderReact          // lines 245-255
    | SenderDelete         // line 248
    | DropSender           // line 261
    | DropSenderReact      // lines 263-270
    | StartWait            // lines 281-286
    | CheckWait            // lines 311-314
    | ExchangeWaiting      // line 317
    | RestoreWait          // lines 321, 326
    | CompleteWait         // lines 322, 327
    | StartCancel          // lines 294-295
    | CancelReact          // lines 297-306
    | ClearOp              // line 300
    | DropReceiver         // line 337
    | DropReceiverReact    // lines 339-347
    | ReceiverDelete       // lines 340, 346

  function Init<T>(): State<T> {
    State(EMPTY, None, None, SAttached, RIdle, [], 0, 0, 0, None)
  }

  /** complete(): the operation is done with, whether or not it should be. */
  function Complete(outcomes: seq<seq<Outcome>>, op: nat, o: Outcome): seq<seq<Outcome>> {
    if op < |outcomes| then outcomes[op := outcomes[op] + [o]] else outcomes
  }

  function CompleteOp<T>(s: State<T>, o: Outcome): seq<seq<Outcome>> {
    if s.waitOp.Some? then Complete(s.outcomes, s.waitOp.value, o) else s.outcomes
  }

  /** A wait was begun and not completed. */
  predicate Outstanding<T>(s: State<T>, op: nat) {
    op < |s.outcomes| && s.outcomes[op] == []
  }

  predicate Enabled<T>(s: State<T>, a: Action<T>) {
    match a
    case Build(_) => s.sender.SAttached?
    case FetchAdd => s.sender.SBuilt?
    case SenderReact => s.sender.SAdded?
    case SenderDelete => s.sender.SDestroyed?
    case DropSender => s.sender.SAttached?
    case DropSenderReact => s.sender.SDropped?
    case StartWait => s.receiver.RIdle?
    case CheckWait => s.receiver.RChecking?
    case ExchangeWaiting => s.receiver.RArmed?
    case RestoreWait => s.receiver.RExchanged?
    case CompleteWait => s.receiver.RRestored?
    // the slot is assigned while a wait is outstanding; a late cancel, after the sender has settled
    // things, is allowed for as well
    case StartCancel => s.receiver.RIdle? &&
      ((s.waitOp.Some? && Outstanding(s, s.waitOp.value)) || s.cell in {ENGAGED, SENT, DETACHED})
    case CancelReact => s.receiver.RCancelling?
    case ClearOp => s.receiver.RCompleted?
    // line 336: not while a wait is outstanding
    case DropReceiver => s.receiver.RIdle? && forall op: nat :: op < |s.outcomes| ==> !Outstanding(s, op)
    case DropReceiverReact => s.receiver.RDropped?
    case ReceiverDelete => s.receiver.RDestroyed?
  }

  function Next<T>(s: State<T>, a: Action<T>): State<T>
    requires Enabled(s, a)
  {
    match a
    case Build(v) =>
      s.(payload := Some(v), constructed := s.constructed + 1, sender := SBuilt)
    case FetchAdd =>
      s.(cell := (s.cell + 1) % 256, sender := SAdded(s.cell), sent := s.payload)
    case SenderReact =>
      if s.sender.prev == DETACHED then
        s.(payload := None, destroyed := s.destroyed + 1, sender := SDestroyed)
      else if s.sender.prev == WAITING then
        s.(outcomes := CompleteOp(s, Success), sender := SGone)
      else
        s.(sender := SGone)
    case SenderDelete =>
      s.(deletions := s.deletions + 1, sender := SGone)
    case DropSender =>
      s.(cell := DETACHED, sender := SDropped(s.cell))
    case DropSenderReact =>
      if s.sender.prev == DETACHED then
        s.(deletions := s.deletions + 1, sender := SGone)
      else if s.sender.prev == WAITING then
        s.(outcomes := CompleteOp(s, BrokenSender), sender := SGone)
      else
        s.(sender := SGone)
    case StartWait =>
      s.(receiver := RChecking(|s.outcomes|), outcomes := s.outcomes + [[]])
    case CheckWait =>
      if s.waitOp.Some? then
        s.(outcomes := Complete(s.outcomes, s.receiver.op, DuplicateWait), receiver := RIdle)
      else
        s.(waitOp := Some(s.receiver.op), receiver := RArmed(s.receiver.op))
    case ExchangeWaiting =>
      s.(cell := WAITING, receiver := RExchanged(s.receiver.op, s.cell))
    case RestoreWait =>
      if s.receiver.prev == DETACHED || s.receiver.prev == ENGAGED then
        s.(cell := s.receiver.prev, receiver := RRestored(s.receiver.op, s.receiver.prev))
      else
        s.(receiver := RIdle)
    case CompleteWait =>
      s.(outcomes := Complete(s.outcomes, s.receiver.op, if s.receiver.prev == DETACHED then BrokenSender else Success),
         receiver := RIdle)
    case StartCancel =>
      s.(cell := EMPTY, receiver := RCancelling(s.cell))
    case CancelReact =>
      if s.receiver.prev == WAITING then
        s.(outcomes := CompleteOp(s, Cancelled), receiver := RCompleted)
      else
        s.(cell := s.receiver.prev, receiver := RIdle)
    case ClearOp =>
      s.(waitOp := None, receiver := RIdle)
    case DropReceiver =>
      s.(cell := DETACHED, receiver := RDropped(s.cell))
    case DropReceiverReact =>
      if s.receiver.prev == DETACHED then
        s.(deletions := s.deletions + 1, receiver := RGone)
      else if s.receiver.prev == ENGAGED || s.receiver.prev == SENT then
        s.(payload := None, destroyed := s.destroyed + 1, receiver := RDestroyed)
      else
        s.(receiver := RGone)
    case ReceiverDelete =>
      s.(deletions := s.deletions + 1, receiver := RGone)
  }

  /** The action reads or writes the shared block, or deletes it. */
  predicate Touches<T>(s: State<T>, a: Action<T>)
    requires Enabled(s, a)
  {
    match a
    case SenderReact => s.sender.prev == DETACHED || s.sender.prev == WAITING
    case DropSenderReact => s.sender.prev == DETACHED || s.sender.prev == WAITING
    case RestoreWait => s.receiver.prev == DETACHED || s.receiver.prev == ENGAGED
    case CompleteWait => false  // completes the operation, which is not part of the block
    case DropReceiverReact => s.receiver.prev != EMPTY
    case _ => true
  }

  // ---------------------------------------------------------------- the invariant

  /** The cell, but for the moment between an exchange of the receiver and the store that takes it back. */
  function Settled<T>(s: State<T>): nat {
    match s.receiver
    case RExchanged(_, prev) => if prev == EMPTY then s.cell else prev
    case RCancelling(prev) => if prev == WAITING then s.cell else prev
    case _ => s.cell
  }

  /** The sender has yet to do its atomic operation. */
  predicate Undecided(pc: SenderPc) {
    pc.SAttached? || pc.SBuilt?
  }

  /** The receiver has done its last atomic operation. */
  predicate Leaving(pc: ReceiverPc) {
    pc.RDropped? || pc.RDestroyed? || pc.RGone?
  }

  /** The waits that someone has still to complete. */
  function Pending<T>(s: State<T>): set<nat> {
    (match s.receiver
     case RChecking(op) => {op}
     case RArmed(op) => {op}
     case RRestored(op, _) => {op}
     case RExchanged(op, prev) => if prev == EMPTY then {} else {op}
     case _ => {})
    +
    (if s.waitOp.Some? &&
        (Settled(s) == WAITING || s.receiver == RCancelling(WAITING)
         || s.sender == SAdded(WAITING) || s.sender == SDropped(WAITING))
     then {s.waitOp.value} else {})
  }

  /** The block is gone. */
  ghost predicate Deleted<T>(s: State<T>) {
    || (s.receiver == RGone && s.sender in {SGone, SAdded(EMPTY), SDropped(EMPTY)})
    || (s.receiver == RDropped(EMPTY) && s.sender == SGone)
  }

  /** What the cell can be, by who has done what. */
  ghost predicate CellInv<T>(s: State<T>) {
    match s.sender
    case SAttached => NotDecided(s)
    case SBuilt => NotDecided(s)
    case SAdded(prev) => s.sent.Some? && prev in {EMPTY, WAITING, DETACHED} &&
      if prev == DETACHED then LeftFirst(s)
      else if prev == WAITING then Settled(s) == SENT && !Leaving(s.receiver) && s.waitOp.Some?
      else AfterSend(s)
    case SDestroyed => s.sent.Some? && LeftFirst(s)
    case SDropped(prev) => s.sent == None && prev in {EMPTY, WAITING, DETACHED} &&
      if prev == DETACHED then LeftFirst(s)
      else if prev == WAITING then Settled(s) == DETACHED && !Leaving(s.receiver) && s.waitOp.Some?
      else AfterDrop(s)
    case SGone =>
      || s.receiver == RDropped(EMPTY)
      || if s.sent.Some? then AfterSend(s) else AfterDrop(s)
  }

  ghost predicate NotDecided<T>(s: State<T>) {
    && s.sent == None
    && if Leaving(s.receiver) then LeftFirst(s)
       else
         && Settled(s) in {EMPTY, WAITING}
         && (s.receiver.RExchanged? ==> s.receiver.prev == EMPTY)
         && (s.receiver.RCancelling? ==> s.receiver.prev == WAITING)
         && !s.receiver.RRestored?
  }

  ghost predicate LeftFirst<T>(s: State<T>) {
    && s.receiver in {RDropped(EMPTY), RGone}
    && (Undecided(s.sender) ==> s.cell == DETACHED)
  }

  /** The value was sent before the receiver left. */
  ghost predicate AfterSend<T>(s: State<T>) {
    match s.receiver
    case RDropped(prev) => prev in {ENGAGED, SENT}
    case RDestroyed => true
    case RGone => true
    case _ => Settled(s) in {ENGAGED, SENT}
  }

  /** The sender was dropped before the receiver left. */
  ghost predicate AfterDrop<T>(s: State<T>) {
    match s.receiver
    case RDropped(prev) => prev == DETACHED
    case RDestroyed => false
    case RGone => true
    case _ => Settled(s) == DETACHED
  }

  /** The payload is built and destroyed once. */
  ghost predicate PayloadInv<T>(s: State<T>) {
    && s.destroyed <= s.constructed <= 1
    && (s.constructed == 1 <==> s.sender == SBuilt || s.sent.Some?)
    && (s.payload.Some? <==> s.constructed == 1 && s.destroyed == 0)
    && (s.sender == SBuilt ==> s.payload.Some?)
    && (s.sent.Some? ==>
          (s.payload.Some? <==> !Deleted(s) && s.sender != SDestroyed && s.receiver != RDestroyed))
    && (s.sent.Some? && s.payload.Some? ==> s.payload == s.sent)
  }

  /** Where the receiver is agrees with wait_op_. */
  ghost predicate ReceiverInv<T>(s: State<T>) {
    && (s.waitOp.Some? ==> s.waitOp.value < |s.outcomes|)
    && match s.receiver
       case RChecking(op) => op < |s.outcomes| && s.waitOp != Some(op)
         && (s.waitOp == None ==> Settled(s) in {EMPTY, ENGAGED, DETACHED})
       case RArmed(op) => s.waitOp == Some(op) && Settled(s) in {EMPTY, ENGAGED, DETACHED}
       case RExchanged(op, prev) => s.waitOp == Some(op) && prev in {EMPTY, ENGAGED, DETACHED}
         && (prev == EMPTY ==> Settled(s) in {WAITING, SENT, DETACHED})
       case RRestored(op, prev) => s.waitOp == Some(op) && prev in {ENGAGED, DETACHED} && Settled(s) == prev
       case RCancelling(prev) => prev in {WAITING, ENGAGED, SENT, DETACHED}
         && (prev in {WAITING, SENT} ==> s.waitOp.Some?)
         && (prev == WAITING ==> Settled(s) in {EMPTY, ENGAGED, DETACHED})
       case RCompleted => Settled(s) in {EMPTY, ENGAGED, DETACHED}
       case RIdle => s.waitOp == None ==> Settled(s) in {EMPTY, ENGAGED, DETACHED}
       case _ => Pending(s) == {}
  }

  /** Every wait is completed at most once, and is pending until then. */
  ghost predicate WaitInv<T>(s: State<T>) {
    && (forall op: nat :: op < |s.outcomes| ==> |s.outcomes[op]| <= 1)
    && (forall op: nat :: op < |s.outcomes| ==> (s.outcomes[op] == [] <==> op in Pending(s)))
    && (forall op: nat :: op in Pending(s) ==> op < |s.outcomes|)
    && (s.sender in {SAdded(WAITING), SDropped(WAITING)} ==>
          s.receiver.RIdle? || s.receiver.RChecking? || (s.receiver.RExchanged? && s.receiver.prev == EMPTY)
          || s.receiver in {RCancelling(SENT), RCancelling(DETACHED)})
  }

  /** What a wait was told is true. */
  ghost predicate OutcomeInv<T>(s: State<T>) {
    forall op: nat :: op < |s.outcomes| ==>
      && (Success in s.outcomes[op] ==> s.sent.Some?)
      && (BrokenSender in s.outcomes[op] ==> s.sent == None && !Undecided(s.sender))
  }

  ghost predicate Inv<T>(s: State<T>) {
    && CellInv(s) && PayloadInv(s) && ReceiverInv(s) && WaitInv(s) && OutcomeInv(s)
    && DeletedInv(s)
  }

  ghost predicate DeletedInv<T>(s: State<T>) {
    s.deletions == (if Deleted(s) then 1 else 0)
  }

  lemma InitInv<T>()
    ensures Inv(Init<T>())
  {
  }

  lemma BuildInv<T>(s: State<T>, a: Action<T>)
    requires Inv(s) && a.Build? && Enabled(s, a)
    ensures Inv(Next(s, a))
  {
  }

  lemma FetchAddInv<T>(s: State<T>, a: Action<T>)
    requires Inv(s) && a.FetchAdd? && Enabled(s, a)
    ensures Inv(Next(s, a))
  {
  }

  lemma SenderCompletesInv<T>(s: State<T>, a: Action<T>)
    requires Inv(s) && a.SenderReact? && s.sender == SAdded(WAITING)
    ensures Inv(Next(s, a))
  {
  }

  lemma SenderDestroysInv<T>(s: State<T>, a: Action<T>)
    requires Inv(s) && a.SenderReact? && s.sender == SAdded(DETACHED)
    ensures Inv(Next(s, a))
  {
  }

  lemma SenderReactInv<T>(s: State<T>, a: Action<T>)
    requires Inv(s) && a.SenderReact? && Enabled(s, a)
    ensures Inv(Next(s, a))
  {
    if s.sender.prev == WAITING {
      SenderCompletesInv(s, a);
    } else if s.sender.prev == DETACHED {
      SenderDestroysInv(s, a);
    }
  }

  lemma SenderDeleteInv<T>(s: State<T>, a: Action<T>)
    requires Inv(s) && a.SenderDelete? && Enabled(s, a)
    ensures Inv(Next(s, a))
  {
  }

  lemma DropSenderInv<T>(s: State<T>, a: Action<T>)
    requires Inv(s) && a.DropSender? && Enabled(s, a)
    ensures Inv(Next(s, a))
  {
  }

  lemma DropSenderReactPlaces<T>(s: State<T>, a: Action<T>)
    requires Inv(s) && a.DropSenderReact? && Enabled(s, a)
    ensures CellInv(Next(s, a)) && PayloadInv(Next(s, a)) && DeletedInv(Next(s, a))
  {
  }

  lemma DropSenderTells<T>(s: State<T>, a: Action<T>)
    requires Inv(s) && a.DropSenderReact? && s.sender == SDropped(WAITING)
    ensures ReceiverInv(Next(s, a)) && WaitInv(Next(s, a)) && OutcomeInv(Next(s, a))
  {
    hide PayloadInv, DeletedInv;
  }

  lemma DropSenderTellsNobody<T>(s: State<T>, a: Action<T>)
    requires Inv(s) && a.DropSenderReact? && Enabled(s, a) && s.sender.prev != WAITING
    ensures ReceiverInv(Next(s, a)) && WaitInv(Next(s, a)) && OutcomeInv(Next(s, a))
  {
    hide CellInv, PayloadInv, ReceiverInv, WaitInv, OutcomeInv, DeletedInv;
    SameReceiver(s, Next(s, a));
    SameWaits(s, Next(s, a));
  }

  /** A sender whose operation met no wait goes on alone. */
  ghost predicate OnlySenderGone<T>(s: State<T>, t: State<T>) {
    && s.sender !in {SAdded(WAITING), SDropped(WAITING)} && !Undecided(s.sender) && t.sender == SGone
    && t.cell == s.cell && t.waitOp == s.waitOp && t.receiver == s.receiver && t.outcomes == s.outcomes && t.sent == s.sent
  }

  lemma SameReceiver<T>(s: State<T>, t: State<T>)
    requires OnlySenderGone(s, t) && ReceiverInv(s)
    ensures ReceiverInv(t)
  {
  }

  lemma SameWaits<T>(s: State<T>, t: State<T>)
    requires OnlySenderGone(s, t) && WaitInv(s) && OutcomeInv(s)
    ensures WaitInv(t) && OutcomeInv(t)
  {
    assert Pending(t) == Pending(s);
  }

  lemma DropSenderReactWaits<T>(s: State<T>, a: Action<T>)
    requires Inv(s) && a.DropSenderReact? && Enabled(s, a)
    ensures ReceiverInv(Next(s, a)) && WaitInv(Next(s, a)) && OutcomeInv(Next(s, a))
  {
    hide CellInv, PayloadInv, ReceiverInv, WaitInv, OutcomeInv, DeletedInv, Next;
    if s.sender.prev == WAITING {
      DropSenderTells(s, a);
    } else {
      DropSenderTellsNobody(s, a);
    }
  }

  lemma DropSenderReactInv<T>(s: State<T>, a: Action<T>)
    requires Inv(s) && a.DropSenderReact? && Enabled(s, a)
    ensures Inv(Next(s, a))
  {
    hide CellInv, PayloadInv, ReceiverInv, WaitInv, OutcomeInv, DeletedInv, Next;
    DropSenderReactPlaces(s, a);
    DropSenderReactWaits(s, a);
  }

  lemma StartWaitPlaces<T>(s: State<T>, a: Action<T>)
    requires Inv(s) && a.StartWait? && Enabled(s, a)
    ensures CellInv(Next(s, a)) && PayloadInv(Next(s, a)) && DeletedInv(Next(s, a))
  {
  }

  lemma StartWaitWaits<T>(s: State<T>, a: Action<T>)
    requires Inv(s) && a.StartWait? && Enabled(s, a)
    ensures ReceiverInv(Next(s, a)) && WaitInv(Next(s, a)) && OutcomeInv(Next(s, a))
  {
    hide PayloadInv, DeletedInv;
  }

  lemma StartWaitInv<T>(s: State<T>, a: Action<T>)
    requires Inv(s) && a.StartWait? && Enabled(s, a)
    ensures Inv(Next(s, a))
  {
    hide CellInv, PayloadInv, ReceiverInv, WaitInv, OutcomeInv, DeletedInv, Next;
    StartWaitPlaces(s, a);
    StartWaitWaits(s, a);
  }

  lemma CheckWaitPlaces<T>(s: State<T>, a: Action<T>)
    requires Inv(s) && a.CheckWait? && Enabled(s, a)
    ensures CellInv(Next(s, a)) && PayloadInv(Next(s, a)) && DeletedInv(Next(s, a))
  {
  }

  lemma CheckWaitWaits<T>(s: State<T>, a: Action<T>)
    requires Inv(s) && a.CheckWait? && Enabled(s, a)
    ensures ReceiverInv(Next(s, a)) && WaitInv(Next(s, a)) && OutcomeInv(Next(s, a))
  {
    hide PayloadInv, DeletedInv;
  }

  lemma CheckWaitInv<T>(s: State<T>, a: Action<T>)
    requires Inv(s) && a.CheckWait? && Enabled(s, a)
    ensures Inv(Next(s, a))
  {
    hide CellInv, PayloadInv, ReceiverInv, WaitInv, OutcomeInv, DeletedInv, Next;
    CheckWaitPlaces(s, a);
    CheckWaitWaits(s, a);
  }

  lemma ExchangeWaitingInv<T>(s: State<T>, a: Action<T>)
    requires Inv(s) && a.ExchangeWaiting? && Enabled(s, a)
    ensures Inv(Next(s, a))
  {
  }

  lemma RestoreWaitPlaces<T>(s: State<T>, a: Action<T>)
    requires Inv(s) && a.RestoreWait? && Enabled(s, a)
    ensures CellInv(Next(s, a)) && PayloadInv(Next(s, a)) && DeletedInv(Next(s, a))
  {
  }

  lemma RestoreWaitWaits<T>(s: State<T>, a: Action<T>)
    requires Inv(s) && a.RestoreWait? && Enabled(s, a)
    ensures ReceiverInv(Next(s, a)) && WaitInv(Next(s, a)) && OutcomeInv(Next(s, a))
  {
    hide PayloadInv, DeletedInv;
  }

  lemma RestoreWaitInv<T>(s: State<T>, a: Action<T>)
    requires Inv(s) && a.RestoreWait? && Enabled(s, a)
    ensures Inv(Next(s, a))
  {
    hide CellInv, PayloadInv, ReceiverInv, WaitInv, OutcomeInv, DeletedInv, Next;
    RestoreWaitPlaces(s, a);
    RestoreWaitWaits(s, a);
  }

  lemma CompleteWaitInv<T>(s: State<T>, a: Action<T>)
    requires Inv(s) && a.CompleteWait? && Enabled(s, a)
    ensures Inv(Next(s, a))
  {
  }

  lemma StartCancelInv<T>(s: State<T>, a: Action<T>)
    requires Inv(s) && a.StartCancel? && Enabled(s, a)
    ensures Inv(Next(s, a))
  {
  }

  lemma CancelReactPlaces<T>(s: State<T>, a: Action<T>)
    requires Inv(s) && a.CancelReact? && Enabled(s, a)
    ensures CellInv(Next(s, a)) && PayloadInv(Next(s, a)) && DeletedInv(Next(s, a))
  {
  }

  lemma CancelReactWaits<T>(s: State<T>, a: Action<T>)
    requires Inv(s) && a.CancelReact? && Enabled(s, a)
    ensures ReceiverInv(Next(s, a)) && WaitInv(Next(s, a)) && OutcomeInv(Next(s, a))
  {
    hide PayloadInv, DeletedInv;
  }

  lemma CancelReactInv<T>(s: State<T>, a: Action<T>)
    requires Inv(s) && a.CancelReact? && Enabled(s, a)
    ensures Inv(Next(s, a))
  {
    hide CellInv, PayloadInv, ReceiverInv, WaitInv, OutcomeInv, DeletedInv, Next;
    CancelReactPlaces(s, a);
    CancelReactWaits(s, a);
  }

  lemma ClearOpInv<T>(s: State<T>, a: Action<T>)
    requires Inv(s) && a.ClearOp? && Enabled(s, a)
    ensures Inv(Next(s, a))
  {
  }

  lemma DropReceiverInv<T>(s: State<T>, a: Action<T>)
    requires Inv(s) && a.DropReceiver? && Enabled(s, a)
    ensures Inv(Next(s, a))
  {
    if s.waitOp.Some? {
      assert !Outstanding(s, s.waitOp.value);
    }
  }

  lemma DropReceiverReactPlaces<T>(s: State<T>, a: Action<T>)
    requires Inv(s) && a.DropReceiverReact? && Enabled(s, a)
    ensures CellInv(Next(s, a)) && PayloadInv(Next(s, a)) && DeletedInv(Next(s, a))
  {
  }

  lemma DropReceiverReactWaits<T>(s: State<T>, a: Action<T>)
    requires Inv(s) && a.DropReceiverReact? && Enabled(s, a)
    ensures ReceiverInv(Next(s, a)) && WaitInv(Next(s, a)) && OutcomeInv(Next(s, a))
  {
    hide CellInv, PayloadInv, ReceiverInv, WaitInv, OutcomeInv, DeletedInv;
    LeavingWaits(s, Next(s, a));
  }

  /** Once the receiver leaves, nobody waits. */
  lemma LeavingWaits<T>(s: State<T>, t: State<T>)
    requires Leaving(s.receiver) && Leaving(t.receiver) && t.cell == s.cell && t.waitOp == s.waitOp
    requires t.sender == s.sender && t.outcomes == s.outcomes && t.sent == s.sent
    requires ReceiverInv(s) && WaitInv(s) && OutcomeInv(s)
    ensures ReceiverInv(t) && WaitInv(t) && OutcomeInv(t)
  {
    assert Pending(t) == Pending(s);
  }

  lemma DropReceiverReactInv<T>(s: State<T>, a: Action<T>)
    requires Inv(s) && a.DropReceiverReact? && Enabled(s, a)
    ensures Inv(Next(s, a))
  {
    hide CellInv, PayloadInv, ReceiverInv, WaitInv, OutcomeInv, DeletedInv, Next;
    DropReceiverReactPlaces(s, a);
    DropReceiverReactWaits(s, a);
  }

  lemma ReceiverDeleteInv<T>(s: State<T>, a: Action<T>)
    requires Inv(s) && a.ReceiverDelete? && Enabled(s, a)
    ensures Inv(Next(s, a))
  {
  }

  /** The invariant holds after every micro-step. */
  lemma NextInv<T>(s: State<T>, a: Action<T>)
    requires Inv(s) && Enabled(s, a)
    ensures Inv(Next(s, a))
  {
    hide Inv, Enabled, Next;
    match a
    case Build(_) => BuildInv(s, a);
    case FetchAdd => FetchAddInv(s, a);
    case SenderReact => SenderReactInv(s, a);
    case SenderDelete => SenderDeleteInv(s, a);
    case DropSender => DropSenderInv(s, a);
    case DropSenderReact => DropSenderReactInv(s, a);
    case StartWait => StartWaitInv(s, a);
    case CheckWait => CheckWaitInv(s, a);
    case ExchangeWaiting => ExchangeWaitingInv(s, a);
    case RestoreWait => RestoreWaitInv(s, a);
    case CompleteWait => CompleteWaitInv(s, a);
    case StartCancel => StartCancelInv(s, a);
    case CancelReact => CancelReactInv(s, a);
    case ClearOp => ClearOpInv(s, a);
    case DropReceiver => DropReceiverInv(s, a);
    case DropReceiverReact => DropReceiverReactInv(s, a);
    case ReceiverDelete => ReceiverDeleteInv(s, a);
  }

  // ---------------------------------------------------------------- runs

  /** Any interleaving of the two actors, from a fresh channel. */
  ghost predicate Run<T>(states: seq<State<T>>, actions: seq<Action<T>>) {
    && |states| == |actions| + 1 && states[0] == Init()
    && forall i :: 0 <= i < |actions| ==> Enabled(states[i], actions[i]) && states[i + 1] == Next(states[i], actions[i])
  }

  lemma {:induction false} RunInv<T>(states: seq<State<T>>, actions: seq<Action<T>>, i: nat)
    requires Run(states, actions) && i < |states|
    ensures Inv(states[i])
  {
    hide Inv, Enabled, Next;
    if i == 0 {
      InitInv<T>();
    } else {
      RunInv(states, actions, i - 1);
      NextInv(states[i - 1], actions[i - 1]);
    }
  }

  /** The block is deleted at most once, by the last to leave, and nothing touches it afterwards. */
  lemma DeletedOnce<T>(states: seq<State<T>>, actions: seq<Action<T>>, i: nat)
    requires Run(states, actions) && i < |states|
    ensures states[i].deletions <= 1
    ensures states[i].deletions == 1 ==> Leaving(states[i].receiver) && !Undecided(states[i].sender)
    ensures states[i].sender == SGone && states[i].receiver == RGone ==> states[i].deletions == 1
    ensures i < |actions| && Touches(states[i], actions[i]) ==> states[i].deletions == 0
  {
    RunInv(states, actions, i);
  }

  /** A payload is constructed at most once and destroyed at most once, and is gone when both ends are. */
  lemma PayloadDestroyedOnce<T>(states: seq<State<T>>, actions: seq<Action<T>>, i: nat)
    requires Run(states, actions) && i < |states|
    ensures states[i].destroyed <= states[i].constructed <= 1
    ensures states[i].payload.Some? <==> states[i].constructed == 1 && states[i].destroyed == 0
    ensures states[i].deletions == 1 ==> states[i].destroyed == states[i].constructed
  {
    RunInv(states, actions, i);
  }

  /** What get() and is_ready() see between two calls of the receiver: the value, once it was sent. */
  function GetStoredObject<T>(s: State<T>): Option<T> {
    if s.cell == SENT || s.cell == ENGAGED then s.payload else None
  }

  lemma GetGivesWhatWasSent<T>(states: seq<State<T>>, actions: seq<Action<T>>, i: nat)
    requires Run(states, actions) && i < |states| && states[i].receiver == RIdle
    ensures GetStoredObject(states[i]) == states[i].sent
    ensures states[i].cell == SENT || states[i].cell == ENGAGED <==> states[i].sent.Some?
  {
    RunInv(states, actions, i);
  }

  /** Every wait is completed at most once; none is left waiting for a sender that has gone. */
  lemma WaitsSettle<T>(states: seq<State<T>>, actions: seq<Action<T>>, i: nat, op: nat)
    requires Run(states, actions) && i < |states| && op < |states[i].outcomes|
    ensures |states[i].outcomes[op]| <= 1
    ensures states[i].receiver == RIdle && states[i].sender == SGone ==> |states[i].outcomes[op]| == 1
    ensures Leaving(states[i].receiver) ==> |states[i].outcomes[op]| == 1
  {
    RunInv(states, actions, i);
  }

  /** What was sent and what a wait was told never changes again. */
  lemma {:induction false} Persists<T>(states: seq<State<T>>, actions: seq<Action<T>>, i: nat, j: nat, op: nat)
    requires Run(states, actions) && i <= j < |states| && op < |states[i].outcomes|
    ensures op < |states[j].outcomes| && states[i].outcomes[op] <= states[j].outcomes[op]
    ensures states[i].sent.Some? ==> states[j].sent == states[i].sent
  {
    if i < j {
      Persists(states, actions, i, j - 1, op);
      RunInv(states, actions, j - 1);
      StepPersists(states[j - 1], actions[j - 1], op);
    }
  }

  lemma StepPersists<T>(s: State<T>, a: Action<T>, op: nat)
    requires Inv(s) && Enabled(s, a) && op < |s.outcomes|
    ensures var s' := Next(s, a);
      && op < |s'.outcomes| && s.outcomes[op] <= s'.outcomes[op]
      && (s.sent.Some? ==> s'.sent == s.sent)
  {
  }

  /** After a wait succeeded, the value that was sent stays readable until the receiver leaves. */
  lemma SuccessIsLasting<T>(states: seq<State<T>>, actions: seq<Action<T>>, i: nat, j: nat, op: nat)
    requires Run(states, actions) && i <= j < |states|
    requires op < |states[i].outcomes| && Success in states[i].outcomes[op]
    ensures states[i].sent.Some? && states[j].sent == states[i].sent
    ensures !Leaving(states[j].receiver) ==> states[j].payload == states[i].sent
    ensures states[j].receiver == RIdle ==> GetStoredObject(states[j]) == states[i].sent
  {
    RunInv(states, actions, i);
    Persists(states, actions, i, j, op);
    RunInv(states, actions, j);
  }

  /** A wait is told "broken sender" only if the sender was dropped: nothing is sent, before or after. */
  lemma BrokenIsFinal<T>(states: seq<State<T>>, actions: seq<Action<T>>, i: nat, j: nat, op: nat)
    requires Run(states, actions) && i <= j < |states|
    requires op < |states[i].outcomes| && BrokenSender in states[i].outcomes[op]
    ensures states[j].sent == None && !Undecided(states[j].sender)
  {
    Persists(states, actions, i, j, op);
    RunInv(states, actions, j);
  }

  /** `i` is a step at which a cancel took the cell away from the waiting operation `op`. */
  ghost predicate CancelWins<T>(states: seq<State<T>>, actions: seq<Action<T>>, i: nat, op: nat) {
    && i < |actions| && i < |states| && actions[i] == StartCancel
    && states[i].cell == WAITING && states[i].waitOp == Some(op)
  }

  /** The wait was cancelled, or a cancel has taken the cell from it. */
  ghost predicate Ending<T>(s: State<T>, op: nat) {
    op < |s.outcomes| && (Cancelled in s.outcomes[op] || (s.receiver == RCancelling(WAITING) && s.waitOp == Some(op)))
  }

  /** A wait is told "cancelled" only if a cancel won the race for it. */
  lemma {:induction false} CancelledOnlyByCancel<T>(states: seq<State<T>>, actions: seq<Action<T>>, j: nat, op: nat)
    requires Run(states, actions) && j < |states| && Ending(states[j], op)
    ensures exists i: nat :: i < j && CancelWins(states, actions, i, op)
  {
    hide Inv, Enabled, Next, Ending;
    if j == 0 {
      NotEndingYet<T>(op);
    } else {
      RunInv(states, actions, j - 1);
      CancelStep(states[j - 1], actions[j - 1], op);
      if !CancelWins(states, actions, j - 1, op) {
        CancelledOnlyByCancel(states, actions, j - 1, op);
      }
    }
  }

  lemma NotEndingYet<T>(op: nat)
    ensures !Ending(Init<T>(), op)
  {
  }

  lemma CancelStep<T>(s: State<T>, a: Action<T>, op: nat)
    requires Inv(s) && Enabled(s, a) && Ending(Next(s, a), op)
    ensures (a == StartCancel && s.cell == WAITING && s.waitOp == Some(op)) || Ending(s, op)
  {
    hide CellInv, PayloadInv, DeletedInv, OutcomeInv;
  }

  /** A cancel that won goes on to end its wait, and nothing takes that back. */
  lemma EndingStays<T>(s: State<T>, a: Action<T>, op: nat)
    requires Inv(s) && Enabled(s, a) && Ending(s, op)
    ensures Ending(Next(s, a), op)
  {
    hide CellInv, PayloadInv, DeletedInv, OutcomeInv;
    var t := Next(s, a);
    assert op < |t.outcomes| && s.outcomes[op] <= t.outcomes[op];
  }

  lemma WonEnds<T>(s: State<T>, op: nat)
    requires Inv(s) && Enabled(s, StartCancel) && s.cell == WAITING && s.waitOp == Some(op)
    ensures Ending(Next(s, StartCancel), op)
  {
  }

  ghost predicate CancelledBefore<T>(states: seq<State<T>>, actions: seq<Action<T>>, n: nat, op: nat) {
    exists i: nat :: i < n && CancelWins(states, actions, i, op)
  }

  /** A wait is being ended or was ended as cancelled exactly if a cancel won the race for it. */
  lemma {:induction false} CancelledExactly<T>(states: seq<State<T>>, actions: seq<Action<T>>, n: nat, op: nat)
    requires Run(states, actions) && n < |states|
    ensures Ending(states[n], op) <==> CancelledBefore(states, actions, n, op)
  {
    hide Inv, Enabled, Next, Ending;
    if n == 0 {
      NotEndingYet<T>(op);
    } else {
      var s, a := states[n - 1], actions[n - 1];
      RunInv(states, actions, n - 1);
      CancelledExactly(states, actions, n - 1, op);
      if Ending(s, op) {
        EndingStays(s, a, op);
      } else if CancelWins(states, actions, n - 1, op) {
        WonEnds(s, op);
      } else if Ending(states[n], op) {
        CancelStep(s, a, op);
      }
    }
  }

  /** `i` is a step at which the wait `op` is refused, because another is there. */
  ghost predicate Refuses<T>(states: seq<State<T>>, actions: seq<Action<T>>, i: nat, op: nat) {
    && i < |actions| && i < |states| && actions[i] == CheckWait
    && states[i].receiver == RChecking(op) && states[i].waitOp.Some?
  }

  ghost predicate RefusedBefore<T>(states: seq<State<T>>, actions: seq<Action<T>>, n: nat, op: nat) {
    exists i: nat :: i < n && Refuses(states, actions, i, op)
  }

  predicate ToldDuplicate<T>(s: State<T>, op: nat) {
    op < |s.outcomes| && DuplicateWait in s.outcomes[op]
  }

  lemma DuplicateStep<T>(s: State<T>, a: Action<T>, op: nat)
    requires Inv(s) && Enabled(s, a)
    ensures ToldDuplicate(Next(s, a), op) <==>
      ToldDuplicate(s, op) || (a == CheckWait && s.receiver == RChecking(op) && s.waitOp.Some?)
  {
    hide CellInv, PayloadInv, DeletedInv, OutcomeInv;
    var t := Next(s, a);
    assert op < |s.outcomes| ==> op < |t.outcomes| && s.outcomes[op] <= t.outcomes[op];
  }

  /** A wait was told that it is a duplicate exactly if it was refused. */
  lemma {:induction false} RefusedExactly<T>(states: seq<State<T>>, actions: seq<Action<T>>, n: nat, op: nat)
    requires Run(states, actions) && n < |states|
    ensures ToldDuplicate(states[n], op) <==> RefusedBefore(states, actions, n, op)
  {
    hide Inv, Enabled, Next, ToldDuplicate;
    if n == 0 {
      NothingTold<T>(op);
    } else {
      RunInv(states, actions, n - 1);
      RefusedExactly(states, actions, n - 1, op);
      DuplicateStep(states[n - 1], actions[n - 1], op);
      assert Refuses(states, actions, n - 1, op) <==>
        actions[n - 1] == CheckWait && states[n - 1].receiver == RChecking(op) && states[n - 1].waitOp.Some?;
    }
  }

  lemma NothingTold<T>(op: nat)
    ensures !ToldDuplicate(Init<T>(), op)
  {
  }

  /** Main statement on waits: what a completed wait was told. It was refused, or a cancel won it, or else it was told whether
      the value was sent. */
  lemma ToldExactly<T>(states: seq<State<T>>, actions: seq<Action<T>>, n: nat, op: nat)
    requires Run(states, actions) && n < |states| && op < |states[n].outcomes| && states[n].outcomes[op] != []
    ensures states[n].outcomes[op] ==
      [if RefusedBefore(states, actions, n, op) then DuplicateWait
       else if CancelledBefore(states, actions, n, op) then Cancelled
       else if states[n].sent.Some? then Success
       else BrokenSender]
  {
    hide Inv, Run;
    RunInv(states, actions, n);
    CancelledExactly(states, actions, n, op);
    RefusedExactly(states, actions, n, op);
    Told(states[n], op);
  }

  /** What a completed wait was told is one of four, by the state alone. */
  lemma Told<T>(s: State<T>, op: nat)
    requires Inv(s) && op < |s.outcomes| && s.outcomes[op] != []
    ensures s.outcomes[op] ==
      [if ToldDuplicate(s, op) then DuplicateWait else if Ending(s, op) then Cancelled else if s.sent.Some? then Success else BrokenSender]
  {
    hide CellInv, PayloadInv, DeletedInv;
    var told := s.outcomes[op];
    assert told == [told[0]] && told[0] in told;
    assert forall o :: o in told ==> o == told[0];
    if Ending(s, op) {
      EndingIsTold(s, op);
    } else {
      assert Success in told || BrokenSender in told || DuplicateWait in told;
    }
  }

  /** While a cancel that won has not completed its wait, the wait was told nothing. */
  lemma EndingIsTold<T>(s: State<T>, op: nat)
    requires Inv(s) && op < |s.outcomes| && Ending(s, op)
    ensures s.outcomes[op] == if s.receiver == RCancelling(WAITING) && s.waitOp == Some(op) then [] else [Cancelled]
  {
    hide CellInv, PayloadInv, DeletedInv, OutcomeInv;
  }

  /** Once a cancel has won and the receiver is idle again, the wait was told so. */
  lemma CancelIsTold<T>(states: seq<State<T>>, actions: seq<Action<T>>, i: nat, n: nat, op: nat)
    requires Run(states, actions) && i < n < |states| && CancelWins(states, actions, i, op) && states[n].receiver == RIdle
    ensures op < |states[n].outcomes| && states[n].outcomes[op] == [Cancelled]
  {
    hide Inv;
    assert CancelledBefore(states, actions, n, op);
    RunInv(states, actions, n);
    CancelledExactly(states, actions, n, op);
    EndingIsTold(states[n], op);
  }

  // ---------------------------------------------------------------- duplicate waits

  /** A wait that was taken on, that is not told it is a duplicate, and that no cancel has ended. */
  predicate Kept<T>(s: State<T>, op: nat) {
    op < |s.outcomes| && DuplicateWait !in s.outcomes[op] && Cancelled !in s.outcomes[op]
  }

  /** Whether wait_op_ is set says whether a wait was taken on and not cancelled; the one being checked does not count. */
  ghost predicate DuplicateInv<T>(s: State<T>) {
    && (s.waitOp.Some? ==> Kept(s, s.waitOp.value) || s.receiver == RCompleted)
    && (s.waitOp.Some? ==> s.receiver != RChecking(s.waitOp.value))
    && (s.receiver == RCompleted ==> s.waitOp.Some? && !Kept(s, s.waitOp.value))
    && (forall op: nat :: Kept(s, op) && s.receiver != RChecking(op) ==> s.waitOp == Some(op))
  }

  lemma InitDuplicate<T>()
    ensures DuplicateInv(Init<T>())
  {
  }

  /** What the invariant says of the wait that is being checked and of a cancel that won. */
  lemma CheckedWait<T>(s: State<T>)
    requires Inv(s)
    ensures s.waitOp.Some? ==> s.waitOp.value < |s.outcomes|
    ensures s.receiver.RChecking? ==> s.receiver.op < |s.outcomes| && s.outcomes[s.receiver.op] == []
    ensures s.receiver == RCancelling(WAITING) ==> s.waitOp.Some?
    ensures s.receiver.RRestored? ==> s.receiver.op < |s.outcomes| && s.waitOp == Some(s.receiver.op)
  {
    if s.receiver.RChecking? {
      assert s.receiver.op in Pending(s);
    }
  }

  lemma NextDuplicate<T>(s: State<T>, a: Action<T>)
    requires Inv(s) && DuplicateInv(s) && Enabled(s, a)
    ensures DuplicateInv(Next(s, a))
  {
    hide Inv;
    CheckedWait(s);
    var t := Next(s, a);
    forall op: nat | Kept(t, op) && op < |s.outcomes|
      ensures Kept(s, op)
    {
      assert s.outcomes[op] <= t.outcomes[op];
    }
  }

  lemma {:induction false} RunDuplicate<T>(states: seq<State<T>>, actions: seq<Action<T>>, i: nat)
    requires Run(states, actions) && i < |states|
    ensures DuplicateInv(states[i])
  {
    hide DuplicateInv, Inv, Enabled, Next;
    if i == 0 {
      InitDuplicate<T>();
    } else {
      RunInv(states, actions, i - 1);
      RunDuplicate(states, actions, i - 1);
      NextDuplicate(states[i - 1], actions[i - 1]);
    }
  }

  /** A wait is refused as a duplicate exactly if an earlier one was taken on and not cancelled, be it completed or not. */
  lemma DuplicateExactly<T>(states: seq<State<T>>, actions: seq<Action<T>>, i: nat)
    requires Run(states, actions) && i < |actions| && actions[i] == CheckWait
    ensures states[i].receiver.op < |states[i + 1].outcomes|
    ensures states[i + 1].outcomes[states[i].receiver.op] == [DuplicateWait] <==>
      exists earlier: nat :: earlier != states[i].receiver.op && Kept(states[i], earlier)
  {
    RunInv(states, actions, i);
    RunDuplicate(states, actions, i);
  }

  // ---------------------------------------------------------------- the block, updated in place

  /** The shared block together with where the two actors are. */
  class Channel<T> {
    var cell: nat
    var payload: Option<T>
    var waitOp: Option<nat>
    var sender: SenderPc
    var receiver: ReceiverPc
    var outcomes: seq<seq<Outcome>>
    var constructed: nat
    var destroyed: nat
    var deletions: nat
    ghost var sent: Option<T>

    ghost function View(): State<T>
      reads this
    {
      State(cell, payload, waitOp, sender, receiver, outcomes, constructed, destroyed, deletions, sent)
    }

    /** create() */
    constructor ()
      ensures View() == Init() && Inv(View())
    {
      cell, payload, waitOp, sender, receiver := EMPTY, None, None, SAttached, RIdle;
      outcomes, constructed, destroyed, deletions, sent := [], 0, 0, 0, None;
      new;
      InitInv<T>();
    }

    /** fetch_add(1) on a byte */
    method FetchAddCell() returns (prev: nat)
      modifies `cell
      ensures prev == old(cell) && cell == (prev + 1) % 256
    {
      prev := cell;
      cell := (cell + 1) % 256;
    }

    /** exchange() */
    method ExchangeCell(value: nat) returns (prev: nat)
      modifies `cell
      ensures prev == old(cell) && cell == value
    {
      prev := cell;
      cell := value;
    }

    /** wait_op_->complete(ec) */
    method CompleteWaitOp(o: Outcome)
      modifies `outcomes
      ensures outcomes == CompleteOp(old(View()), o)
    {
      if waitOp.Some? {
        outcomes := Complete(outcomes, waitOp.value, o);
      }
    }

    /** The sender's micro-steps. */
    method SenderStep(a: Action<T>)
      requires Inv(View()) && Enabled(View(), a)
      requires a.Build? || a.FetchAdd? || a.SenderReact? || a.SenderDelete? || a.DropSender? || a.DropSenderReact?
      modifies this
      ensures View() == Next(old(View()), a) && Inv(View())
    {
      hide Inv;
      NextInv(View(), a);
      match a {
        case Build(v) =>
          payload, constructed, sender := Some(v), constructed + 1, SBuilt;
        case FetchAdd =>
          var prev := FetchAddCell();
          sent, sender := payload, SAdded(prev);
        case SenderReact =>
          if sender.prev == DETACHED {
            payload, destroyed, sender := None, destroyed + 1, SDestroyed;
          } else {
            if sender.prev == WAITING {
              CompleteWaitOp(Success);
            }
            sender := SGone;
          }
        case SenderDelete =>
          deletions, sender := deletions + 1, SGone;
        case DropSender =>
          var prev := ExchangeCell(DETACHED);
          sender := SDropped(prev);
        case DropSenderReact =>
          if sender.prev == DETACHED {
            deletions := deletions + 1;
          } else if sender.prev == WAITING {
            CompleteWaitOp(BrokenSender);
          }
          sender := SGone;
      }
    }

    /** The receiver's micro-steps in async_wait(). */
    method WaitStep(a: Action<T>)
      requires Inv(View()) && Enabled(View(), a)
      requires a.StartWait? || a.CheckWait? || a.ExchangeWaiting? || a.RestoreWait? || a.CompleteWait?
      modifies this
      ensures View() == Next(old(View()), a) && Inv(View())
    {
      hide Inv;
      NextInv(View(), a);
      match a {
        case StartWait =>
          receiver, outcomes := RChecking(|outcomes|), outcomes + [[]];
        case CheckWait =>
          var op := receiver.op;
          if waitOp.Some? {
            outcomes, receiver := Complete(outcomes, op, DuplicateWait), RIdle;
          } else {
            waitOp, receiver := Some(op), RArmed(op);
          }
        case ExchangeWaiting =>
          var prev := ExchangeCell(WAITING);
          receiver := RExchanged(receiver.op, prev);
        case RestoreWait =>
          var prev := receiver.prev;
          if prev == DETACHED || prev == ENGAGED {
            cell, receiver := prev, RRestored(receiver.op, prev);
          } else {
            receiver := RIdle;
          }
        case CompleteWait =>
          var o := if receiver.prev == DETACHED then BrokenSender else Success;
          outcomes, receiver := Complete(outcomes, receiver.op, o), RIdle;
      }
    }

    /** The receiver's micro-steps in a cancel handler and in receiver_detached(). */
    method LeaveStep(a: Action<T>)
      requires Inv(View()) && Enabled(View(), a)
      requires a.StartCancel? || a.CancelReact? || a.ClearOp? || a.DropReceiver? || a.DropReceiverReact? || a.ReceiverDelete?
      modifies this
      ensures View() == Next(old(View()), a) && Inv(View())
    {
      hide Inv;
      NextInv(View(), a);
      match a {
        case StartCancel =>
          var prev := ExchangeCell(EMPTY);
          receiver := RCancelling(prev);
        case CancelReact =>
          if receiver.prev == WAITING {
            CompleteWaitOp(Cancelled);
            receiver := RCompleted;
          } else {
            cell, receiver := receiver.prev, RIdle;
          }
        case ClearOp =>
          waitOp, receiver := None, RIdle;
        case DropReceiver =>
          var prev := ExchangeCell(DETACHED);
          receiver := RDropped(prev);
        case DropReceiverReact =>
          if receiver.prev == DETACHED {
            deletions, receiver := deletions + 1, RGone;
          } else if receiver.prev == ENGAGED || receiver.prev == SENT {
            payload, destroyed, receiver := None, destroyed + 1, RDestroyed;
          } else {
            receiver := RGone;
          }
        case ReceiverDelete =>
          deletions, receiver := deletions + 1, RGone;
      }
    }
  }
}
