/**
 Many requests over one socket: the calls of reqrep() as concurrent coroutines that step from one
 co_await to the next, with the router's maps between them, the sending coroutine and the receive loop.
 An action is what one of them does between two suspensions; every order of actions is a run.
 */
module ReqRep {
  import opened Numbering
  import opened OneshotCalls
  import opened Router

  datatype Option<+T> = None | Some(value: T)

  /** Where a call of reqrep() is. */
  datatype Phase =
    | Queueing                       // registered, handing its message to the sending coroutine
    | AwaitingSent                   // waiting on the first receiver
    | AwaitingReply                  // waiting on the second receiver
    | Finished(reply: Option<Body>)
    | Refused                        // its number was taken: nothing was registered

  datatype Call = Call(no: nat, req: Body, phase: Phase)

  /** What the sending coroutine is at: the call whose message it took, and how the send went once it is over. */
  datatype Sending = Idle | Taken(call: nat) | Done(call: nat, ok: bool)

  datatype State = State(
    mode: Mode,
    reqNo: nat,                    // _reqNo
    sent: Side<nat, bool>,         // _sendCompleteSignals of the socket
    reps: Side<nat, Message>,      // _netRepSignals of the socket
    calls: seq<Call>,              // every call ever made; a call's index names its two channels
    queue: seq<nat>,               // _dataapp: the calls whose messages wait to be sent
    sending: Sending,
    wire: seq<nat>,                // the calls whose messages were sent, in order
    received: seq<Message>,        // the packets that came in, in order
    delivered: seq<Option<nat>>)   // the call each packet was taken as the reply to, if any

  datatype Action =
    | Begin(req: Body)       // newReq, prepareReqRep
    | Enqueue(call: nat)     // addPackFromApp done
    | Take                   // the sending coroutine takes a message
    | Transmit(ok: bool)     // sendMessage done
    | NotifySent             // notifySendNetComplete
    | Unroutable             // no channel for the socket: nobody is notified
    | ResumeSent(call: nat)  // the first wait is over
    | Receive(m: Message)    // recvPack done, notifyNetRepComplete
    | ResumeReply(call: nat) // the second wait is over

  function Init(mode: Mode): State {
    State(mode, Drawn(mode, 0), NoSide(), NoSide(), [], [], Idle, [], [], [])
  }

  /** What NewReq makes of the counter. */
  function NextNo(s: State): nat {
    Drawn(s.mode, |s.calls| + 1)
  }

  predicate Going(phase: Phase) {
    phase.Queueing? || phase.AwaitingSent? || phase.AwaitingReply?
  }

  predicate Pending(calls: seq<Call>, c: nat) {
    c < |calls| && Going(calls[c].phase)
  }

  predicate Enabled(s: State, a: Action) {
    match a
    case Begin(_) => true
    case Enqueue(c) => c < |s.calls| && s.calls[c].phase.Queueing?
    case Take => s.sending.Idle? && s.queue != []
    case Transmit(_) => s.sending.Taken?
    case NotifySent => s.sending.Done? && s.sending.call < |s.calls|
    case Unroutable => s.sending.Taken?
    case ResumeSent(c) => c < |s.calls| && s.calls[c].phase.AwaitingSent? && c in s.sent.channels && s.sent.channels[c].Holds?
    case Receive(_) => true
    case ResumeReply(c) => c < |s.calls| && s.calls[c].phase.AwaitingReply? && c in s.reps.channels && s.reps.channels[c].Holds?
  }

  function SetPhase(s: State, c: nat, phase: Phase): State
    requires c < |s.calls|
  {
    s.(calls := s.calls[c := s.calls[c].(phase := phase)])
  }

  /** finishReqRep */
  function Finish(s: State, c: nat, reply: Option<Body>): State
    requires c < |s.calls|
  {
    var no := s.calls[c].no;
    SetPhase(s, c, Finished(reply)).(sent := Erased(s.sent, no), reps := Erased(s.reps, no))
  }

  function Next(s: State, a: Action): State
    requires Enabled(s, a)
  {
    match a
    case Begin(req) =>
      var no, c := NextNo(s), |s.calls|;
      if CanReqRep(s.sent, s.reps, no) then
        s.(reqNo := no, calls := s.calls + [Call(no, req, Queueing)],
           sent := Prepared(s.sent, no, c), reps := Prepared(s.reps, no, c))
      else
        s.(reqNo := no, calls := s.calls + [Call(no, req, Refused)])
    case Enqueue(c) => SetPhase(s, c, AwaitingSent).(queue := s.queue + [c])
    case Take => s.(sending := Taken(s.queue[0]), queue := s.queue[1..])
    case Transmit(ok) =>
      s.(sending := Done(s.sending.call, ok), wire := if ok then s.wire + [s.sending.call] else s.wire)
    case NotifySent => s.(sending := Idle, sent := Notified(s.sent, s.calls[s.sending.call].no, s.sending.ok))
    case Unroutable => s.(sending := Idle)
    case ResumeSent(c) => if s.sent.channels[c].value then SetPhase(s, c, AwaitingReply) else Finish(s, c, None)
    case Receive(m) =>
      var to := if Awaits(s.reps, m.no) then Some(s.reps.handles[m.no].chan) else None;
      s.(received := s.received + [m], delivered := s.delivered + [to], reps := Notified(s.reps, m.no, m))
    case ResumeReply(c) => Finish(s, c, Some(s.reps.channels[c].value.body))
  }

  // ------------------------------------------------------------ what every step keeps

  /** The numbers of the calls are the draws of the counter, in order. */
  ghost predicate Numbered(s: State) {
    && s.reqNo == Drawn(s.mode, |s.calls|)
    && forall c: nat :: c < |s.calls| ==> s.calls[c].no == Drawn(s.mode, c + 1)
  }

  /** A map holds exactly the pending calls, each under its own number. */
  ghost predicate Registers<V>(calls: seq<Call>, side: Side<nat, V>) {
    && (forall no: nat :: no in side.handles ==> Pending(calls, side.handles[no].chan) && calls[side.handles[no].chan].no == no)
    && (forall c: nat :: Pending(calls, c) ==> calls[c].no in side.handles && side.handles[calls[c].no].chan == c)
  }

  /** The sender of a pending call is used up exactly when its channel holds a value; no pending call's channel is broken. */
  ghost predicate Channelled<V>(calls: seq<Call>, side: Side<nat, V>) {
    && (forall c: nat :: c in side.channels ==> c < |calls|)
    && (forall c: nat :: Pending(calls, c) && calls[c].no in side.handles ==>
        c in side.channels && !side.channels[c].Broken? && (side.handles[calls[c].no].spent <==> side.channels[c].Holds?))
  }

  ghost predicate Kept<V>(calls: seq<Call>, side: Side<nat, V>) {
    Registers(calls, side) && Channelled(calls, side)
  }

  lemma KeptPhase<V>(calls: seq<Call>, side: Side<nat, V>, c: nat, phase: Phase)
    requires Kept(calls, side) && Pending(calls, c) && Going(phase)
    ensures Kept(calls[c := calls[c].(phase := phase)], side)
  {
    var after := calls[c := calls[c].(phase := phase)];
    assert forall d: nat :: Pending(after, d) <==> Pending(calls, d);
  }

  lemma KeptNotified<V>(calls: seq<Call>, side: Side<nat, V>, no: nat, value: V)
    requires Kept(calls, side)
    ensures Kept(calls, Notified(side, no, value))
  {
  }

  lemma KeptErased<V>(calls: seq<Call>, side: Side<nat, V>, c: nat, reply: Option<Body>)
    requires Kept(calls, side) && Pending(calls, c)
    ensures Kept(calls[c := calls[c].(phase := Finished(reply))], Erased(side, calls[c].no))
  {
    var after := calls[c := calls[c].(phase := Finished(reply))];
    assert forall d: nat :: Pending(after, d) <==> Pending(calls, d) && d != c;
  }

  lemma KeptBegun<V>(calls: seq<Call>, side: Side<nat, V>, no: nat, req: Body)
    requires Kept(calls, side) && no !in side.handles
    ensures Kept(calls + [Call(no, req, Queueing)], Prepared(side, no, |calls|))
  {
    var after := calls + [Call(no, req, Queueing)];
    assert forall d: nat :: Pending(after, d) <==> Pending(calls, d) || d == |calls|;
  }

  lemma KeptRefused<V>(calls: seq<Call>, side: Side<nat, V>, no: nat, req: Body)
    requires Kept(calls, side)
    ensures Kept(calls + [Call(no, req, Refused)], side)
  {
    var after := calls + [Call(no, req, Refused)];
    assert forall d: nat :: Pending(after, d) <==> Pending(calls, d);
  }

  /** The message of call c is on its way to the socket. */
  predicate OnItsWay(s: State, c: nat) {
    c in s.queue || s.sending == Taken(c) || (s.sending.Done? && s.sending.call == c)
  }

  /** A message on its way belongs to a call that waits for it, and no call has two. */
  ghost predicate Queued(s: State) {
    && (forall c: nat :: OnItsWay(s, c) ==> c < |s.calls| && s.calls[c].phase.AwaitingSent?)
    && (forall i, j :: 0 <= i < j < |s.queue| ==> s.queue[i] != s.queue[j])
    && (forall c: nat :: c in s.queue ==> s.sending != Taken(c) && (s.sending.Done? ==> s.sending.call != c))
    && (forall c: nat :: c < |s.calls| && (s.calls[c].phase.Queueing? || OnItsWay(s, c)) ==>
        c in s.sent.channels && s.sent.channels[c] == Open)
  }

  /** A message is sent at most once, by a call that got as far, and where a call is says whether it was sent. */
  ghost predicate Wired(s: State) {
    && (forall i, j :: 0 <= i < j < |s.wire| ==> s.wire[i] != s.wire[j])
    && (forall c: nat :: c in s.wire ==> c < |s.calls| && PastSending(s, c))
    && (forall c: nat :: c < |s.calls| ==> (WasSent(s, c) <==> c in s.wire))
  }

  /** Call c got past the sending of its message. */
  predicate PastSending(s: State, c: nat)
    requires c < |s.calls|
  {
    && !s.calls[c].phase.Queueing? && !s.calls[c].phase.Refused?
    && c !in s.queue && s.sending != Taken(c) && s.sending != Done(c, false)
  }

  predicate WasSent(s: State, c: nat)
    requires c < |s.calls|
  {
    || s.calls[c].phase.AwaitingReply? || (s.calls[c].phase.Finished? && s.calls[c].phase.reply.Some?)
    || s.sending == Done(c, true)
    || (s.calls[c].phase.AwaitingSent? && c in s.sent.channels && s.sent.channels[c] == Holds(true))
  }

  /** Packet i was taken as the reply to call c. */
  predicate Answers(s: State, i: nat, c: nat) {
    i < |s.delivered| && i < |s.received| && s.delivered[i] == Some(c)
  }

  /** What was delivered is in the channel of the call it was delivered to, once and for all. */
  ghost predicate Delivered(s: State) {
    && |s.delivered| == |s.received|
    && (forall i: nat, c: nat :: Answers(s, i, c) ==>
        c < |s.calls| && s.received[i].no == s.calls[c].no && c in s.reps.channels && s.reps.channels[c] == Holds(s.received[i]))
    && (forall i: nat, j: nat, c: nat :: Answers(s, i, c) && Answers(s, j, c) ==> i == j)
    && (forall c: nat :: c in s.reps.channels && s.reps.channels[c].Holds? ==> exists i: nat :: Answers(s, i, c))
    && (forall c: nat :: c < |s.calls| && s.calls[c].phase.Finished? && s.calls[c].phase.reply.Some? ==>
        c in s.reps.channels && s.reps.channels[c].Holds? && s.reps.channels[c].value.body == s.calls[c].phase.reply.value)
  }

  ghost predicate Inv(s: State) {
    && Numbered(s)
    && Kept(s.calls, s.sent) && Kept(s.calls, s.reps)
    && Queued(s) && Wired(s) && Delivered(s)
  }

  lemma InitInv(mode: Mode)
    ensures Inv(Init(mode))
  {
  }

  lemma NextInv(s: State, a: Action)
    requires Inv(s) && Enabled(s, a)
    ensures Inv(Next(s, a))
  {
    NumberedNext(s, a);
    KeptNext(s, a);
    QueuedNext(s, a);
    WiredNext(s, a);
    DeliveredNext(s, a);
  }

  lemma NumberedNext(s: State, a: Action)
    requires Numbered(s) && Enabled(s, a)
    ensures Numbered(Next(s, a))
  {
  }

  lemma KeptNext(s: State, a: Action)
    requires Kept(s.calls, s.sent) && Kept(s.calls, s.reps) && Queued(s) && Enabled(s, a)
    ensures Kept(Next(s, a).calls, Next(s, a).sent) && Kept(Next(s, a).calls, Next(s, a).reps)
  {
    hide Kept, Queued, Prepared, Notified, Erased, Drawn;
    match a {
      case Begin(req) =>
        var no, c := NextNo(s), |s.calls|;
        if CanReqRep(s.sent, s.reps, no) {
          KeptBegun(s.calls, s.sent, no, req);
          KeptBegun(s.calls, s.reps, no, req);
        } else {
          KeptRefused(s.calls, s.sent, no, req);
          KeptRefused(s.calls, s.reps, no, req);
        }
      case Enqueue(c) =>
        KeptPhase(s.calls, s.sent, c, AwaitingSent);
        KeptPhase(s.calls, s.reps, c, AwaitingSent);
      case NotifySent =>
        KeptNotified(s.calls, s.sent, s.calls[s.sending.call].no, s.sending.ok);
      case ResumeSent(c) =>
        if s.sent.channels[c].value {
          KeptPhase(s.calls, s.sent, c, AwaitingReply);
          KeptPhase(s.calls, s.reps, c, AwaitingReply);
        } else {
          KeptErased(s.calls, s.sent, c, None);
          KeptErased(s.calls, s.reps, c, None);
        }
      case Receive(m) =>
        KeptNotified(s.calls, s.reps, m.no, m);
      case ResumeReply(c) =>
        KeptErased(s.calls, s.sent, c, Some(s.reps.channels[c].value.body));
        KeptErased(s.calls, s.reps, c, Some(s.reps.channels[c].value.body));
      case _ =>
    }
  }

  lemma QueuedNext(s: State, a: Action)
    requires Inv(s) && Enabled(s, a)
    ensures Queued(Next(s, a))
  {
    hide Queued, Next, Enabled, Kept, Numbered, Wired, Delivered;
    match a {
      case Begin(req) => QueuedBegin(s, req);
      case NotifySent => QueuedNotify(s);
      case ResumeSent(c) => QueuedResume(s, a);
      case ResumeReply(c) => QueuedResume(s, a);
      case _ => QueuedMove(s, a);
    }
  }

  lemma QueuedBegin(s: State, req: Body)
    requires Inv(s)
    ensures Queued(Next(s, Begin(req)))
  {
    hide Wired, Delivered, Numbered, Drawn, Queued, Kept;
    BegunChannels(s, req);
    QueuedMore(s, Next(s, Begin(req)));
  }

  /** A new call's channel is open, and the others are as they were. */
  lemma BegunChannels(s: State, req: Body)
    requires Kept(s.calls, s.sent)
    ensures var t := Next(s, Begin(req));
      && (t.calls[|s.calls|].phase.Queueing? ==> |s.calls| in t.sent.channels && t.sent.channels[|s.calls|] == Open)
      && (forall c: nat :: c in s.sent.channels && c < |s.calls| ==> c in t.sent.channels && t.sent.channels[c] == s.sent.channels[c])
  {
    hide Drawn;
  }

  lemma QueuedMore(s: State, t: State)
    requires Queued(s) && t.queue == s.queue && t.sending == s.sending
    requires |t.calls| == |s.calls| + 1 && t.calls[..|s.calls|] == s.calls
    requires t.calls[|s.calls|].phase.Queueing? ==> |s.calls| in t.sent.channels && t.sent.channels[|s.calls|] == Open
    requires forall c: nat :: c in s.sent.channels && c < |s.calls| ==> c in t.sent.channels && t.sent.channels[c] == s.sent.channels[c]
    ensures Queued(t)
  {
    assert forall c: nat :: OnItsWay(t, c) <==> OnItsWay(s, c);
    assert forall c: nat :: c < |s.calls| ==> t.calls[c] == t.calls[..|s.calls|][c];
  }

  lemma QueuedNotify(s: State)
    requires Inv(s) && Enabled(s, NotifySent)
    ensures Queued(Next(s, NotifySent))
  {
    hide Wired, Delivered, Numbered, Drawn;
    var t, d := Next(s, NotifySent), s.sending.call;
    assert OnItsWay(s, d);
    assert forall c: nat :: OnItsWay(t, c) <==> c in s.queue;
    assert forall c: nat :: c in s.queue ==> OnItsWay(s, c);
  }

  /** The channels other than that of call c are alike. */
  ghost predicate SameBut<V>(before: map<nat, Slot<V>>, after: map<nat, Slot<V>>, c: nat) {
    forall d: nat :: d != c ==> (d in before <==> d in after) && (d in before ==> before[d] == after[d])
  }

  lemma ErasedOne<V>(calls: seq<Call>, side: Side<nat, V>, c: nat)
    requires Registers(calls, side) && Pending(calls, c)
    ensures SameBut(side.channels, Erased(side, calls[c].no).channels, c)
    ensures c in side.channels && side.handles[calls[c].no].spent ==> Erased(side, calls[c].no).channels == side.channels
  {
  }

  lemma QueuedResume(s: State, a: Action)
    requires Kept(s.calls, s.sent) && Queued(s) && Enabled(s, a) && (a.ResumeSent? || a.ResumeReply?)
    ensures Queued(Next(s, a))
  {
    hide Kept, Channelled, Drawn, Erased, Registers;
    var t := Next(s, a);
    assert !OnItsWay(s, a.call);
    assert forall c: nat :: OnItsWay(t, c) <==> OnItsWay(s, c);
    KeptRegisters(s.calls, s.sent);
    ErasedOne(s.calls, s.sent, a.call);
  }

  lemma KeptRegisters<V>(calls: seq<Call>, side: Side<nat, V>)
    requires Kept(calls, side)
    ensures Registers(calls, side)
  {
  }

  lemma QueuedMove(s: State, a: Action)
    requires Inv(s) && Enabled(s, a) && (a.Enqueue? || a.Take? || a.Transmit? || a.Unroutable? || a.Receive?)
    ensures Queued(Next(s, a))
  {
    hide Wired, Delivered, Numbered, Drawn, Kept;
    var t := Next(s, a);
    match a {
      case Enqueue(d) => assert forall c: nat :: OnItsWay(t, c) <==> OnItsWay(s, c) || c == d;
      case Unroutable => assert forall c: nat :: OnItsWay(t, c) ==> OnItsWay(s, c);
      case Take => assert forall c: nat :: OnItsWay(t, c) <==> OnItsWay(s, c);
      case Transmit(_) => assert forall c: nat :: OnItsWay(t, c) <==> OnItsWay(s, c);
      case Receive(_) => assert forall c: nat :: OnItsWay(t, c) <==> OnItsWay(s, c);
    }
  }

  lemma WiredNext(s: State, a: Action)
    requires Inv(s) && Enabled(s, a)
    ensures Wired(Next(s, a))
  {
    hide Queued, Next, Enabled, Kept, Numbered, Wired, Delivered;
    match a {
      case Begin(req) => WiredBegin(s, req);
      case NotifySent => WiredNotify(s);
      case ResumeSent(c) => WiredResume(s, a);
      case ResumeReply(c) => WiredResume(s, a);
      case _ => WiredMove(s, a);
    }
  }

  lemma WiredBegin(s: State, req: Body)
    requires Kept(s.calls, s.sent) && Queued(s) && Wired(s)
    ensures Wired(Next(s, Begin(req)))
  {
    hide Drawn, Registers;
    var t := Next(s, Begin(req));
    assert !OnItsWay(s, |s.calls|);
    assert !WasSent(t, |s.calls|);
    assert forall c: nat :: c < |s.calls| ==> (WasSent(t, c) <==> WasSent(s, c)) && (PastSending(t, c) <==> PastSending(s, c));
  }

  lemma NotifiedOne<V>(calls: seq<Call>, side: Side<nat, V>, c: nat, value: V)
    requires Registers(calls, side) && Pending(calls, c)
    ensures SameBut(side.channels, Notified(side, calls[c].no, value).channels, c)
    ensures c in Notified(side, calls[c].no, value).channels ==>
      (c in side.channels && Notified(side, calls[c].no, value).channels[c] == side.channels[c])
      || Notified(side, calls[c].no, value).channels[c] == Holds(value)
  {
  }

  /** The sender of a call whose channel is open takes the value. */
  lemma NotifiedOwn<V>(calls: seq<Call>, side: Side<nat, V>, c: nat, value: V)
    requires Kept(calls, side) && Pending(calls, c) && c in side.channels && side.channels[c] == Open
    ensures c in Notified(side, calls[c].no, value).channels && Notified(side, calls[c].no, value).channels[c] == Holds(value)
  {
  }

  lemma WiredNotify(s: State)
    requires Kept(s.calls, s.sent) && Queued(s) && Wired(s) && Enabled(s, NotifySent)
    ensures Wired(Next(s, NotifySent))
  {
    hide Drawn, Kept, Registers, Channelled, Notified;
    var t, d := Next(s, NotifySent), s.sending.call;
    assert OnItsWay(s, d);
    KeptRegisters(s.calls, s.sent);
    NotifiedOne(s.calls, s.sent, d, s.sending.ok);
    NotifiedOwn(s.calls, s.sent, d, s.sending.ok);
    assert forall c: nat :: c < |s.calls| ==> (WasSent(t, c) <==> WasSent(s, c));
  }

  lemma WiredResume(s: State, a: Action)
    requires Kept(s.calls, s.sent) && Queued(s) && Wired(s) && Enabled(s, a) && (a.ResumeSent? || a.ResumeReply?)
    ensures Wired(Next(s, a))
  {
    hide Kept, Channelled, Drawn, Erased, Registers;
    var t := Next(s, a);
    KeptRegisters(s.calls, s.sent);
    ErasedOne(s.calls, s.sent, a.call);
    assert s.sending != Done(a.call, true) by {
      assert !OnItsWay(s, a.call);
    }
    assert forall c: nat :: c < |s.calls| ==> (WasSent(t, c) <==> WasSent(s, c));
  }

  lemma WiredMove(s: State, a: Action)
    requires Queued(s) && Wired(s) && Enabled(s, a) && (a.Enqueue? || a.Take? || a.Transmit? || a.Unroutable? || a.Receive?)
    ensures Wired(Next(s, a))
  {
    hide Drawn, Notified;
    var t := Next(s, a);
    match a {
      case Enqueue(d) =>
        assert !OnItsWay(s, d);
        assert forall c: nat :: c < |s.calls| ==> (WasSent(t, c) <==> WasSent(s, c));
      case Take =>
        assert OnItsWay(s, s.queue[0]);
        assert forall c: nat :: c < |s.calls| ==> (WasSent(t, c) <==> WasSent(s, c));
      case Transmit(ok) =>
        var d := s.sending.call;
        assert OnItsWay(s, d);
        assert d !in s.wire;
        assert forall c: nat :: c in t.wire ==> c in s.wire || (ok && c == d);
        assert forall c: nat :: c < |s.calls| ==> (WasSent(t, c) <==> WasSent(s, c) || (ok && c == d));
      case Unroutable =>
        assert forall c: nat :: c < |s.calls| ==> (WasSent(t, c) <==> WasSent(s, c));
      case Receive(m) =>
    }
  }

  lemma DeliveredNext(s: State, a: Action)
    requires Inv(s) && Enabled(s, a)
    ensures Delivered(Next(s, a))
  {
    hide Queued, Next, Enabled, Kept, Numbered, Wired, Delivered;
    match a {
      case Begin(req) => DeliveredBegin(s, req);
      case Receive(m) => DeliveredReceive(s, m);
      case ResumeSent(c) => DeliveredResume(s, a);
      case ResumeReply(c) => DeliveredResume(s, a);
      case _ => DeliveredMove(s, a);
    }
  }

  lemma DeliveredBegin(s: State, req: Body)
    requires Kept(s.calls, s.reps) && Delivered(s)
    ensures Delivered(Next(s, Begin(req)))
  {
    hide Drawn, Registers;
    var t := Next(s, Begin(req));
    assert forall i: nat, c: nat :: Answers(t, i, c) <==> Answers(s, i, c);
  }

  /** A registered sender that is not used up belongs to a pending call that nothing was delivered to. */
  lemma AwaitingCall(calls: seq<Call>, side: Side<nat, Message>, no: nat)
    requires Kept(calls, side) && Awaits(side, no)
    ensures var c := side.handles[no].chan;
      Pending(calls, c) && calls[c].no == no && c in side.channels && !side.channels[c].Holds?
  {
  }

  lemma DeliveredReceive(s: State, m: Message)
    requires Kept(s.calls, s.reps) && Delivered(s)
    ensures Delivered(Next(s, Receive(m)))
  {
    hide Kept, Drawn;
    var t, n := Next(s, Receive(m)), |s.received|;
    if Awaits(s.reps, m.no) {
      AwaitingCall(s.calls, s.reps, m.no);
      var d := s.reps.handles[m.no].chan;
      assert forall i: nat :: !Answers(s, i, d);
      assert Answers(t, n, d);
      assert forall i: nat, c: nat :: Answers(t, i, c) <==> Answers(s, i, c) || (i == n && c == d);
    } else {
      assert forall i: nat, c: nat :: Answers(t, i, c) <==> Answers(s, i, c);
    }
  }

  /** Erasing the sender of a call that was answered leaves its channel alone. */
  lemma ErasedAnswered(calls: seq<Call>, side: Side<nat, Message>, c: nat)
    requires Kept(calls, side) && Pending(calls, c)
    ensures SameBut(side.channels, Erased(side, calls[c].no).channels, c)
    ensures c in side.channels
    ensures side.channels[c].Holds? ==> Erased(side, calls[c].no).channels == side.channels
    ensures !side.channels[c].Holds? ==> c in Erased(side, calls[c].no).channels && !Erased(side, calls[c].no).channels[c].Holds?
  {
    ErasedOne(calls, side, c);
  }

  lemma DeliveredResume(s: State, a: Action)
    requires Kept(s.calls, s.reps) && Delivered(s) && Enabled(s, a) && (a.ResumeSent? || a.ResumeReply?)
    ensures Delivered(Next(s, a))
  {
    hide Kept, Drawn, Erased;
    var t := Next(s, a);
    ErasedAnswered(s.calls, s.reps, a.call);
    assert forall i: nat, c: nat :: Answers(t, i, c) <==> Answers(s, i, c);
  }

  lemma DeliveredMove(s: State, a: Action)
    requires Delivered(s) && Enabled(s, a) && (a.Enqueue? || a.Take? || a.Transmit? || a.NotifySent? || a.Unroutable?)
    ensures Delivered(Next(s, a))
  {
    hide Drawn, Notified;
    var t := Next(s, a);
    assert forall i: nat, c: nat :: Answers(t, i, c) <==> Answers(s, i, c);
  }

  // ------------------------------------------------------------ runs

  ghost predicate Run(states: seq<State>, actions: seq<Action>) {
    && |states| == |actions| + 1
    && (exists mode: Mode :: states[0] == Init(mode))
    && (forall i :: 0 <= i < |actions| ==> Enabled(states[i], actions[i]) && states[i + 1] == Next(states[i], actions[i]))
  }

  lemma {:induction false} RunInv(states: seq<State>, actions: seq<Action>, i: nat)
    requires Run(states, actions) && i < |states|
    ensures Inv(states[i])
  {
    hide Inv, Next;
    if i == 0 {
      var mode: Mode :| states[0] == Init(mode);
      InitInv(mode);
    } else {
      RunInv(states, actions, i - 1);
      NextInv(states[i - 1], actions[i - 1]);
    }
  }

  /** In every state of every run a packet answers at most one call, a call is answered by at most one packet,
      and the packet bears the number that the call drew. */
  lemma AnsweredOnce(states: seq<State>, actions: seq<Action>, n: nat)
    requires Run(states, actions) && n < |states|
    ensures var s := states[n];
      && (forall i: nat, c: nat, d: nat :: Answers(s, i, c) && Answers(s, i, d) ==> c == d)
      && (forall i: nat, j: nat, c: nat :: Answers(s, i, c) && Answers(s, j, c) ==> i == j)
      && (forall i: nat, c: nat :: Answers(s, i, c) ==> c < |s.calls| && s.received[i].no == s.calls[c].no == Drawn(s.mode, c + 1))
  {
    hide Wired, Kept, Queued;
    RunInv(states, actions, n);
  }

  /** A call that returned a reply was sent, and returned the body of the one packet that answered it. */
  lemma RepliesAreReal(states: seq<State>, actions: seq<Action>, n: nat, c: nat)
    requires Run(states, actions) && n < |states|
    requires c < |states[n].calls| && states[n].calls[c].phase.Finished? && states[n].calls[c].phase.reply.Some?
    ensures c in states[n].wire
    ensures exists i: nat :: Answers(states[n], i, c) && states[n].received[i].body == states[n].calls[c].phase.reply.value
  {
    hide Kept, Queued;
    RunInv(states, actions, n);
    var s := states[n];
    assert WasSent(s, c);
    var i: nat :| Answers(s, i, c);
  }

  /** While calls are pending their numbers differ, and both maps hold these numbers and no others. */
  lemma RegisteredWhilePending(states: seq<State>, actions: seq<Action>, n: nat)
    requires Run(states, actions) && n < |states|
    ensures var s := states[n];
      && (forall c: nat, d: nat :: Pending(s.calls, c) && Pending(s.calls, d) && c != d ==> s.calls[c].no != s.calls[d].no)
      && (forall no: nat :: no in s.sent.handles <==> no in s.reps.handles)
      && (forall no: nat :: no in s.reps.handles <==> exists c: nat :: Pending(s.calls, c) && s.calls[c].no == no)
  {
    hide Wired, Queued, Delivered, Channelled;
    RunInv(states, actions, n);
  }

  /** A request is registered on both maps when its message is sent, its outcome reaches it alone, and no wait of a
      pending call is ever broken. */
  lemma RegisteredWhenSent(states: seq<State>, actions: seq<Action>, n: nat)
    requires Run(states, actions) && n < |states|
    ensures var s := states[n];
      && (s.sending.Taken? || s.sending.Done? ==>
        var c := s.sending.call;
        && Pending(s.calls, c) && s.calls[c].no in s.sent.handles && s.calls[c].no in s.reps.handles
        && s.sent.handles[s.calls[c].no] == Handle(c, false) && s.reps.handles[s.calls[c].no].chan == c)
      && (forall c: nat :: Pending(s.calls, c) ==>
        c in s.sent.channels && !s.sent.channels[c].Broken? && c in s.reps.channels && !s.reps.channels[c].Broken?)
  {
    hide Wired, Delivered;
    RunInv(states, actions, n);
    var s := states[n];
    if s.sending.Taken? || s.sending.Done? {
      assert OnItsWay(s, s.sending.call);
    }
  }

  /** A call that was sent and answered can go on, and returns the answer: no wake-up is lost. */
  lemma AnswerIsReturned(states: seq<State>, actions: seq<Action>, n: nat, i: nat, c: nat)
    requires Run(states, actions) && n < |states|
    requires Answers(states[n], i, c) && c < |states[n].calls| && states[n].calls[c].phase.AwaitingReply?
    ensures Enabled(states[n], ResumeReply(c))
    ensures var t := Next(states[n], ResumeReply(c));
      t.calls[c].phase == Finished(Some(states[n].received[i].body))
      && t.calls[c].no !in t.sent.handles && t.calls[c].no !in t.reps.handles
  {
    hide Wired, Kept, Queued;
    RunInv(states, actions, n);
  }

  /** A call that got past its first wait goes on to wait for its reply exactly if its message was sent, and one that has
      returned brings a reply exactly if it was. */
  lemma SentExactly(states: seq<State>, actions: seq<Action>, n: nat, c: nat)
    requires Run(states, actions) && n < |states| && c < |states[n].calls|
    ensures var s := states[n];
      && (s.calls[c].phase.Finished? ==> (s.calls[c].phase.reply.Some? <==> c in s.wire))
      && (s.calls[c].phase.AwaitingReply? ==> c in s.wire)
      && (Enabled(s, ResumeSent(c)) ==> (Next(s, ResumeSent(c)).calls[c].phase == AwaitingReply <==> c in s.wire))
      && (Enabled(s, ResumeSent(c)) && c !in s.wire ==> Next(s, ResumeSent(c)).calls[c].phase == Finished(None))
  {
    hide Delivered, Kept, Numbered;
    RunInv(states, actions, n);
    assert !OnItsWay(states[n], c) || states[n].calls[c].phase.AwaitingSent?;
  }

  // ------------------------------------------------------------ the order of sending

  /** The calls whose messages were queued in the first n steps, in order. */
  function Enqueued(actions: seq<Action>, n: nat): seq<nat>
    requires n <= |actions|
  {
    if n == 0 then [] else Enqueued(actions, n - 1) + if actions[n - 1].Enqueue? then [actions[n - 1].call] else []
  }

  function Takes(actions: seq<Action>, n: nat): nat
    requires n <= |actions|
  {
    if n == 0 then 0 else Takes(actions, n - 1) + if actions[n - 1].Take? then 1 else 0
  }

  /** `at` says where in the order of queueing the messages on the wire stood. */
  ghost predicate InOrder(wire: seq<nat>, order: seq<nat>, at: seq<nat>, taken: nat) {
    && |at| == |wire| && taken <= |order|
    && (forall i :: 0 <= i < |at| ==> at[i] < taken && order[at[i]] == wire[i])
    && (forall i, j :: 0 <= i < j < |at| ==> at[i] < at[j])
  }

  /** Messages are taken in the order in which they were queued, and go out in that order: what is left in the queue are the
      last that were queued, and the wire leaves some out but swaps none. */
  lemma {:induction false} FirstInFirstOut(states: seq<State>, actions: seq<Action>, n: nat) returns (at: seq<nat>)
    requires Run(states, actions) && n < |states|
    ensures var s, order, taken := states[n], Enqueued(actions, n), Takes(actions, n);
      InQueue(s, order, taken) && InOrder(s.wire, order, at, if s.sending.Taken? then taken - 1 else taken)
  {
    hide InOrder, InQueue, Next, Enabled;
    if n == 0 {
      at := [];
      var mode: Mode :| states[0] == Init(mode);
      NothingSent(mode);
    } else {
      at := FirstInFirstOut(states, actions, n - 1);
      at := OrderStep(states[n - 1], actions[n - 1], Enqueued(actions, n - 1), Takes(actions, n - 1), at);
    }
  }

  lemma NothingSent(mode: Mode)
    ensures InQueue(Init(mode), [], 0) && InOrder([], [], [], 0)
  {
  }

  lemma OrderStep(s: State, a: Action, order: seq<nat>, taken: nat, at: seq<nat>) returns (at': seq<nat>)
    requires Enabled(s, a)
    requires InQueue(s, order, taken) && InOrder(s.wire, order, at, if s.sending.Taken? then taken - 1 else taken)
    ensures var t := Next(s, a);
      var order', taken' := order + (if a.Enqueue? then [a.call] else []), taken + if a.Take? then 1 else 0;
      InQueue(t, order', taken') && InOrder(t.wire, order', at', if t.sending.Taken? then taken' - 1 else taken')
  {
    hide Next, Enabled, InOrder, InQueue;
    var order', taken' := order + (if a.Enqueue? then [a.call] else []), taken + if a.Take? then 1 else 0;
    QueueStep(s, a, order, taken);
    if a == Transmit(true) {
      SomeTaken(s, a, order, taken);
      at' := at + [taken - 1];
    } else {
      at' := at;
    }
    WireStep(s, a, order, taken, at, at');
  }

  lemma SomeTaken(s: State, a: Action, order: seq<nat>, taken: nat)
    requires Enabled(s, a) && a.Transmit? && InQueue(s, order, taken)
    ensures taken > 0
  {
  }

  /** What is left in the queue are the last that were queued, and what is being sent is the one before them. */
  ghost predicate InQueue(s: State, order: seq<nat>, taken: nat) {
    taken <= |order| && s.queue == order[taken..] && (!s.sending.Idle? ==> taken > 0 && s.sending.call == order[taken - 1])
  }

  lemma QueueStep(s: State, a: Action, order: seq<nat>, taken: nat)
    requires Enabled(s, a) && InQueue(s, order, taken)
    ensures InQueue(Next(s, a), order + (if a.Enqueue? then [a.call] else []), taken + if a.Take? then 1 else 0)
  {
    hide Prepared, Notified, Erased, Drawn, CanReqRep, Awaits;
  }

  lemma WireStep(s: State, a: Action, order: seq<nat>, taken: nat, at: seq<nat>, at': seq<nat>)
    requires Enabled(s, a) && InQueue(s, order, taken)
    requires InOrder(s.wire, order, at, if s.sending.Taken? then taken - 1 else taken)
    requires a == Transmit(true) ==> taken > 0 && at' == at + [taken - 1]
    requires a != Transmit(true) ==> at' == at
    ensures var t := Next(s, a);
      InOrder(t.wire, order + (if a.Enqueue? then [a.call] else []), at',
        if t.sending.Taken? then taken + (if a.Take? then 1 else 0) - 1 else taken + if a.Take? then 1 else 0)
  {
    hide Prepared, Notified, Erased, Drawn, CanReqRep, Awaits;
  }

  // ------------------------------------------------------------ waiting for the send

  /** The message of call c was taken, and there was no channel for the socket. */
  ghost predicate DroppedBefore(states: seq<State>, actions: seq<Action>, n: nat, c: nat) {
    exists i: nat :: i < n && DropsAt(states, actions, i, c)
  }

  ghost predicate DropsAt(states: seq<State>, actions: seq<Action>, i: nat, c: nat) {
    i < |actions| && i < |states| && actions[i] == Unroutable && states[i].sending == Taken(c)
  }

  /** A call that waits to hear of a send that is not under way, and was told nothing. */
  predicate Lost(s: State, c: nat) {
    c < |s.calls| && s.calls[c].phase.AwaitingSent? && !OnItsWay(s, c) && c in s.sent.channels && s.sent.channels[c] == Open
  }

  lemma LostStep(s: State, a: Action, c: nat)
    requires Inv(s) && Enabled(s, a)
    ensures Lost(Next(s, a), c) <==> Lost(s, c) || (a == Unroutable && s.sending == Taken(c))
  {
    hide Next, Enabled, Kept, Numbered, Wired, Delivered, Queued;
    match a {
      case Begin(req) => LostBegin(s, req, c);
      case NotifySent => LostNotify(s, c);
      case ResumeSent(d) => LostResume(s, a, c);
      case ResumeReply(d) => LostResume(s, a, c);
      case _ => LostMove(s, a, c);
    }
  }

  lemma LostBegin(s: State, req: Body, c: nat)
    requires Kept(s.calls, s.sent) && Queued(s)
    ensures Lost(Next(s, Begin(req)), c) <==> Lost(s, c)
  {
    hide Drawn;
    assert forall d: nat :: OnItsWay(Next(s, Begin(req)), d) <==> OnItsWay(s, d);
  }

  lemma LostNotify(s: State, c: nat)
    requires Kept(s.calls, s.sent) && Queued(s) && Enabled(s, NotifySent)
    ensures Lost(Next(s, NotifySent), c) <==> Lost(s, c)
  {
    hide Drawn, Kept, Registers, Channelled, Notified;
    var d := s.sending.call;
    assert OnItsWay(s, d);
    KeptRegisters(s.calls, s.sent);
    NotifiedOne(s.calls, s.sent, d, s.sending.ok);
    NotifiedOwn(s.calls, s.sent, d, s.sending.ok);
  }

  lemma LostResume(s: State, a: Action, c: nat)
    requires Kept(s.calls, s.sent) && Queued(s) && Enabled(s, a) && (a.ResumeSent? || a.ResumeReply?)
    ensures Lost(Next(s, a), c) <==> Lost(s, c)
  {
    hide Kept, Channelled, Drawn, Erased, Registers;
    KeptRegisters(s.calls, s.sent);
    ErasedOne(s.calls, s.sent, a.call);
  }

  lemma LostMove(s: State, a: Action, c: nat)
    requires Kept(s.calls, s.sent) && Queued(s) && Enabled(s, a)
    requires a.Enqueue? || a.Take? || a.Transmit? || a.Unroutable? || a.Receive?
    ensures Lost(Next(s, a), c) <==> Lost(s, c) || (a == Unroutable && s.sending == Taken(c))
  {
    hide Kept, Drawn, Notified;
    var t := Next(s, a);
    assert a.Enqueue? ==> (OnItsWay(t, c) <==> OnItsWay(s, c) || c == a.call);
    assert a.Take? || a.Transmit? || a.Receive? ==> (OnItsWay(t, c) <==> OnItsWay(s, c));
    assert s.sending == Taken(c) ==> OnItsWay(s, c) && c !in s.queue;
  }

  lemma {:induction false} LostExactly(states: seq<State>, actions: seq<Action>, n: nat, c: nat)
    requires Run(states, actions) && n < |states|
    ensures Lost(states[n], c) <==> DroppedBefore(states, actions, n, c)
  {
    hide Inv, Next, Enabled, Lost;
    if n == 0 {
      NothingLost(states[0].mode, c);
    } else {
      RunInv(states, actions, n - 1);
      LostExactly(states, actions, n - 1, c);
      LostStep(states[n - 1], actions[n - 1], c);
      assert DropsAt(states, actions, n - 1, c) <==> actions[n - 1] == Unroutable && states[n - 1].sending == Taken(c);
    }
  }

  lemma NothingLost(mode: Mode, c: nat)
    ensures !Lost(Init(mode), c)
  {
  }

  /** A call that waits to hear of its send either has its message on the way, or can go on, or waits for good: this last exactly
      if its message was dropped. */
  lemma WaitsForSend(states: seq<State>, actions: seq<Action>, n: nat, c: nat)
    requires Run(states, actions) && n < |states| && c < |states[n].calls| && states[n].calls[c].phase.AwaitingSent?
    ensures DroppedBefore(states, actions, n, c) <==> !OnItsWay(states[n], c) && !Enabled(states[n], ResumeSent(c))
    ensures !(OnItsWay(states[n], c) && Enabled(states[n], ResumeSent(c)))
  {
    hide Wired, Delivered, Numbered;
    RunInv(states, actions, n);
    LostExactly(states, actions, n, c);
  }

  /** A call that waits for its reply can go on exactly if a packet answered it. */
  lemma WaitsForReply(states: seq<State>, actions: seq<Action>, n: nat, c: nat)
    requires Run(states, actions) && n < |states| && c < |states[n].calls| && states[n].calls[c].phase.AwaitingReply?
    ensures Enabled(states[n], ResumeReply(c)) <==> exists i: nat :: Answers(states[n], i, c)
  {
    hide Wired, Kept, Queued;
    RunInv(states, actions, n);
  }

  /** A call is refused exactly when some pending call began a whole number of periods before it. */
  lemma RefusedExactly(states: seq<State>, actions: seq<Action>, n: nat)
    requires Run(states, actions) && n < |states|
    ensures var s := states[n];
      CanReqRep(s.sent, s.reps, NextNo(s)) <==>
      forall c: nat :: Pending(s.calls, c) ==> (|s.calls| - c) % Period(s.mode) != 0
  {
    hide Wired, Queued, Delivered, Channelled, Drawn, Period;
    RunInv(states, actions, n);
    RegisteredWhilePending(states, actions, n);
    var s := states[n];
    forall c: nat | Pending(s.calls, c) ensures s.calls[c].no == NextNo(s) <==> (|s.calls| - c) % Period(s.mode) == 0 {
      SameNumber(s.mode, c + 1, |s.calls| + 1);
    }
  }

  /** What came in and whom it answered is never changed, and a call that returned has returned. */
  lemma StepPersists(s: State, a: Action, c: nat)
    requires Enabled(s, a) && c < |s.calls|
    ensures var t := Next(s, a);
      && s.received <= t.received && s.delivered <= t.delivered && s.wire <= t.wire
      && c < |t.calls| && t.calls[c].no == s.calls[c].no && t.calls[c].req == s.calls[c].req
      && (s.calls[c].phase.Finished? || s.calls[c].phase.Refused? ==> t.calls[c].phase == s.calls[c].phase)
  {
    hide Notified, Erased, Prepared, Drawn;
  }

  /** Along a run too: what came in, whom it answered, what was sent and what was returned stays. */
  lemma {:induction false} RunPersists(states: seq<State>, actions: seq<Action>, i: nat, j: nat, c: nat)
    requires Run(states, actions) && i <= j < |states| && c < |states[i].calls|
    ensures var s, t := states[i], states[j];
      && s.received <= t.received && s.delivered <= t.delivered && s.wire <= t.wire
      && c < |t.calls| && t.calls[c].no == s.calls[c].no && t.calls[c].req == s.calls[c].req
      && (s.calls[c].phase.Finished? || s.calls[c].phase.Refused? ==> t.calls[c].phase == s.calls[c].phase)
  {
    hide Next, Enabled;
    if i < j {
      RunPersists(states, actions, i, j - 1, c);
      StepPersists(states[j - 1], actions[j - 1], c);
    }
  }

  // ------------------------------------------------------------ whom a packet answers

  /** A call that waits for its reply: it is pending and no packet answered it. */
  ghost predicate Unanswered(s: State, c: nat) {
    Pending(s.calls, c) && !exists i: nat :: Answers(s, i, c)
  }

  /** Whom the next packet would be taken as the reply to, if it bears the number. */
  function TakenBy(s: State, no: nat): Option<nat> {
    if Awaits(s.reps, no) then Some(s.reps.handles[no].chan) else None
  }

  /** The sender of a call is there and not used up exactly while the call waits for its reply. */
  lemma UnansweredAwaits(s: State, no: nat, c: nat)
    requires Kept(s.calls, s.reps) && Delivered(s)
    ensures TakenBy(s, no) == Some(c) <==> Unanswered(s, c) && s.calls[c].no == no
  {
    if TakenBy(s, no) == Some(c) {
      AwaitingCall(s.calls, s.reps, no);
      assert forall i: nat :: !Answers(s, i, c);
    }
    if Unanswered(s, c) && s.calls[c].no == no {
      assert c in s.reps.channels && !s.reps.channels[c].Holds?;
    }
  }

  /** Delivery: in every state of every run, the next packet is taken as the reply to call c exactly if c is pending,
      drew the packet's number, and was not answered before. */
  lemma DeliveredExactly(states: seq<State>, actions: seq<Action>, n: nat, m: Message, c: nat)
    requires Run(states, actions) && n < |states|
    ensures var s := states[n];
      Next(s, Receive(m)).delivered == s.delivered + [TakenBy(s, m.no)]
    ensures var s := states[n];
      TakenBy(s, m.no) == Some(c) <==>
        Pending(s.calls, c) && Drawn(s.mode, c + 1) == m.no && !exists i: nat :: Answers(s, i, c)
  {
    hide Kept, Wired, Queued, Delivered, Drawn;
    RunInv(states, actions, n);
    UnansweredAwaits(states[n], m.no, c);
  }

  /** The packet is taken by nobody, and is a request, exactly if no waiting call drew its number. */
  lemma RequestExactly(states: seq<State>, actions: seq<Action>, n: nat, m: Message)
    requires Run(states, actions) && n < |states|
    ensures var s := states[n];
      TakenBy(s, m.no) == None <==> forall c: nat :: Unanswered(s, c) ==> Drawn(s.mode, c + 1) != m.no
  {
    hide Drawn, Awaits;
    var s := states[n];
    forall c: nat ensures TakenBy(s, m.no) == Some(c) <==> Unanswered(s, c) && Drawn(s.mode, c + 1) == m.no {
      DeliveredExactly(states, actions, n, m, c);
    }
    assert TakenBy(s, m.no) == None || TakenBy(s, m.no) == Some(TakenBy(s, m.no).value);
  }

  // ------------------------------------------------------------ the other side's requests

  function OtherSide(mode: Mode): Mode {
    if mode == Initiative then Passive else Initiative
  }

  /** The own j-th draw and the other side's k-th give the same number. */
  predicate Meet(mode: Mode, j: nat, k: nat) {
    if mode == Initiative then j % Max == Half + k % (Half + 2) else Half + j % (Half + 2) == k % Max
  }

  /** The other side's k-th request is taken for a reply exactly if some waiting call's draw meets it. */
  lemma PeerRequestTaken(states: seq<State>, actions: seq<Action>, n: nat, k: nat, body: Body)
    requires Run(states, actions) && n < |states|
    ensures var s := states[n];
      Next(s, Receive(Message(Drawn(OtherSide(s.mode), k), body))).delivered != s.delivered + [None]
      <==> exists c: nat :: Unanswered(s, c) && Meet(s.mode, c + 1, k)
  {
    hide Awaits;
    var s, m := states[n], Message(Drawn(OtherSide(states[n].mode), k), body);
    RequestExactly(states, actions, n, m);
    DeliveredExactly(states, actions, n, m, 0);
    assert (s.delivered + [TakenBy(s, m.no)])[|s.delivered|] == TakenBy(s, m.no);
    assert forall j: nat :: Meet(s.mode, j, k) <==> Drawn(s.mode, j) == m.no;
  }

  /** Which draws can meet one of the other side at all: the initiative side's from the upper half on, and the passive
      side's but for the very last number. */
  lemma MeetExactly(mode: Mode, j: nat)
    ensures (exists k: nat :: Meet(mode, j, k)) <==> (if mode == Initiative then j % Max >= Half else j % (Half + 2) <= Half)
    ensures forall k: nat :: Meet(Passive, j, k) ==> k % Max >= Half
  {
    var no := Drawn(mode, j);
    if mode == Initiative {
      assert no >= Half ==> Meet(mode, j, no - Half);
    } else {
      assert no < Max ==> Meet(mode, j, no);
    }
  }

  /** In particular, no run takes a packet numbered by the other side for a reply before the initiative side has left
      the lower half of the numbers. */
  lemma PeerRequestsStayRequests(states: seq<State>, actions: seq<Action>, n: nat, i: nat)
    requires Run(states, actions) && n < |states| && i < |states[n].received|
    requires var s, no := states[n], states[n].received[i].no;
      if s.mode == Initiative then |s.calls| < Half && no >= Half else no < Half
    ensures i < |states[n].delivered| && states[n].delivered[i] == None
  {
    hide Wired, Kept, Queued;
    RunInv(states, actions, n);
    var s := states[n];
    assert forall c: nat :: Answers(s, i, c) ==> c < |s.calls| && s.received[i].no == Drawn(s.mode, c + 1);
    assert forall c: nat :: !Answers(s, i, c);
    assert s.delivered[i] == None || Answers(s, i, s.delivered[i].value);
  }

  /** Nothing is pending and nothing is under way. */
  ghost predicate Quiet(s: State) {
    && s.sent.handles == map[] && s.reps.handles == map[] && s.queue == [] && s.sending == Idle
    && s.reqNo == Drawn(s.mode, |s.calls|)
  }

  ghost predicate RunTo(states: seq<State>, actions: seq<Action>, s: State) {
    Run(states, actions) && states[|states| - 1] == s
  }

  lemma OneStepOn(states: seq<State>, actions: seq<Action>, s: State, a: Action) returns (states': seq<State>, actions': seq<Action>)
    requires RunTo(states, actions, s) && Enabled(s, a)
    ensures RunTo(states', actions', Next(s, a))
  {
    hide Enabled, Next;
    states', actions' := states + [Next(s, a)], actions + [a];
  }

  /** A call whose message could not be sent, from beginning to end. */
  lemma FailedCall(states: seq<State>, actions: seq<Action>, s: State) returns (states': seq<State>, actions': seq<Action>, t: State)
    requires RunTo(states, actions, s) && Quiet(s)
    ensures RunTo(states', actions', t) && Quiet(t) && t.mode == s.mode && |t.calls| == |s.calls| + 1
  {
    hide Run, Drawn;
    var c := |s.calls|;
    var s1 := Next(s, Begin([]));
    states', actions' := OneStepOn(states, actions, s, Begin([]));
    var s2 := Next(s1, Enqueue(c));
    states', actions' := OneStepOn(states', actions', s1, Enqueue(c));
    var s3 := Next(s2, Take);
    states', actions' := OneStepOn(states', actions', s2, Take);
    var s4 := Next(s3, Transmit(false));
    states', actions' := OneStepOn(states', actions', s3, Transmit(false));
    var s5 := Next(s4, NotifySent);
    states', actions' := OneStepOn(states', actions', s4, NotifySent);
    t := Next(s5, ResumeSent(c));
    states', actions' := OneStepOn(states', actions', s5, ResumeSent(c));
  }

  lemma {:induction false} QuietAfter(mode: Mode, n: nat) returns (states: seq<State>, actions: seq<Action>, s: State)
    ensures RunTo(states, actions, s) && Quiet(s) && s.mode == mode && |s.calls| == n
  {
    if n == 0 {
      s := Init(mode);
      states, actions := [s], [];
    } else {
      hide RunTo, Quiet;
      states, actions, s := QuietAfter(mode, n - 1);
      states, actions, s := FailedCall(states, actions, s);
    }
  }

  /** A run in which a packet with the number is taken as the reply to call c. */
  ghost predicate CanBeTaken(mode: Mode, c: nat, no: nat) {
    exists states: seq<State>, actions: seq<Action>, n: nat :: TakenIn(states, actions, n, mode, c, no)
  }

  ghost predicate TakenIn(states: seq<State>, actions: seq<Action>, n: nat, mode: Mode, c: nat, no: nat) {
    Run(states, actions) && n < |states| && states[n].mode == mode && TakenBy(states[n], no) == Some(c)
  }

  /** Some run takes the other side's k-th request for the reply to call c exactly if the two draws meet. */
  lemma MixUpExactly(mode: Mode, c: nat, k: nat)
    ensures CanBeTaken(mode, c, Drawn(OtherSide(mode), k)) <==> Meet(mode, c + 1, k)
  {
    if CanBeTaken(mode, c, Drawn(OtherSide(mode), k)) {
      TakenMeets(mode, c, k);
    }
    if Meet(mode, c + 1, k) {
      MetIsTaken(mode, c, k);
    }
  }

  lemma TakenMeets(mode: Mode, c: nat, k: nat)
    requires CanBeTaken(mode, c, Drawn(OtherSide(mode), k))
    ensures Meet(mode, c + 1, k)
  {
    hide Run, Next, Enabled, Awaits;
    var no := Drawn(OtherSide(mode), k);
    var states: seq<State>, actions: seq<Action>, n: nat :| TakenIn(states, actions, n, mode, c, no);
    DeliveredExactly(states, actions, n, Message(no, []), c);
  }

  lemma MetIsTaken(mode: Mode, c: nat, k: nat)
    requires Meet(mode, c + 1, k)
    ensures CanBeTaken(mode, c, Drawn(OtherSide(mode), k))
  {
    var no := Drawn(OtherSide(mode), k);
    var states, actions, s := QuietAfter(mode, c);
    var t := Next(s, Begin([]));
    states, actions := OneStepOn(states, actions, s, Begin([]));
    assert TakenIn(states, actions, |states| - 1, mode, c, no);
  }

  /** The first request of the passive side and the other side's request with the number 2^31, for example. */
  lemma MixUpHappens(mine: Body, theirs: Body)
    ensures var no := 0x8000_0000;
      var s := Next(Next(Init(Passive), Begin(mine)), Receive(Message(no, theirs)));
      && Drawn(Initiative, no) == no
      && s.calls[0].no == no && s.delivered == [Some(0)] && s.reps.channels[0] == Holds(Message(no, theirs))
  {
  }

  // ------------------------------------------------------------ requests of the other side

  /** The wait for the application's reply to a packet of the other side: its sender stays in the map for good. */
  datatype AppAction = Serve(no: nat) | Answer(m: Message)

  datatype Served = Served(no: nat, ok: bool)

  datatype AppState = AppState(app: Side<nat, Message>, served: seq<Served>)

  /** The state after a row of steps: prepareAppRep for each packet, notifyRecvAppRep for each answer. */
  function AppRun(actions: seq<AppAction>): AppState {
    if actions == [] then AppState(NoSide(), []) else AppNext(AppRun(actions[..|actions| - 1]), actions[|actions| - 1])
  }

  function AppNext(s: AppState, a: AppAction): AppState {
    match a
    case Serve(no) =>
      if no in s.app.handles then s.(served := s.served + [Served(no, false)])
      else s.(app := Prepared(s.app, no, |s.served|), served := s.served + [Served(no, true)])
    case Answer(m) => s.(app := Notified(s.app, m.no, m))
  }

  ghost predicate ServedBefore(served: seq<Served>, no: nat, k: nat) {
    exists j: nat :: j < k && j < |served| && served[j].no == no
  }

  lemma ServedNext(served: seq<Served>, x: Served)
    ensures forall no: nat, k: nat :: k <= |served| ==> (ServedBefore(served + [x], no, k) <==> ServedBefore(served, no, k))
    ensures forall no: nat :: ServedBefore(served + [x], no, |served| + 1) <==> ServedBefore(served, no, |served|) || no == x.no
  {
    var after := served + [x];
    forall no: nat, k: nat | k <= |served| ensures ServedBefore(after, no, k) <==> ServedBefore(served, no, k) {
      if ServedBefore(served, no, k) {
        var j: nat :| j < k && j < |served| && served[j].no == no;
        assert after[j].no == no;
      }
    }
    forall no: nat ensures ServedBefore(after, no, |served| + 1) <==> ServedBefore(served, no, |served|) || no == x.no {
      assert after[|served|] == x;
      if ServedBefore(served, no, |served|) {
        var j: nat :| j < |served| && served[j].no == no;
        assert after[j].no == no;
      }
    }
  }

  /** A request of the other side was served exactly if its number never came before. */
  ghost predicate ServedFirst(s: AppState) {
    && (forall no: nat :: no in s.app.handles <==> ServedBefore(s.served, no, |s.served|))
    && (forall k: nat :: k < |s.served| ==> (s.served[k].ok <==> !ServedBefore(s.served, s.served[k].no, k)))
  }

  /** In every run: numbers that come round again, or that a peer reuses, find their old entry and are refused. */
  lemma {:induction false} ServedExactly(actions: seq<AppAction>)
    ensures ServedFirst(AppRun(actions))
  {
    if actions == [] {
      NoneServed();
    } else {
      var last := |actions| - 1;
      ServedExactly(actions[..last]);
      ServedStep(AppRun(actions[..last]), actions[last]);
    }
  }

  lemma ServedStep(s: AppState, a: AppAction)
    requires ServedFirst(s)
    ensures ServedFirst(AppNext(s, a))
  {
    hide Prepared, Notified, ServedBefore;
    HandlesKept(s.app, a, |s.served|);
    var t := AppNext(s, a);
    match a
    case Serve(no) =>
      var x := Served(no, no !in s.app.handles);
      ServedNext(s.served, x);
      assert t.served == s.served + [x] && t.app.handles.Keys == s.app.handles.Keys + {no};
      assert forall n: nat :: n in t.app.handles <==> n in s.app.handles || n == no;
    case Answer(m) =>
      assert t.app.handles.Keys == s.app.handles.Keys && t.served == s.served;
      assert forall n: nat :: n in t.app.handles <==> n in s.app.handles;
  }

  /** A number that comes twice is refused the second time, even after its first request was answered. */
  lemma RefusedTheSecondTime(no: nat, body: Body)
    ensures AppRun([Serve(no), Answer(Message(no, body)), Serve(no)]).served == [Served(no, true), Served(no, false)]
  {
    var all := [Serve(no), Answer(Message(no, body)), Serve(no)];
    assert all[..2][..1] == [Serve(no)] && all[..2][1] == all[1] && [Serve(no)][..0] == [];
    var s1 := AppNext(AppState(NoSide(), []), Serve(no));
    assert AppRun([Serve(no)]) == s1;
    assert AppRun(all[..2]) == AppNext(s1, all[1]);
  }

  lemma NoneServed()
    ensures forall no: nat :: !ServedBefore([], no, 0)
  {
  }

  lemma HandlesKept(side: Side<nat, Message>, a: AppAction, chan: nat)
    ensures a.Serve? ==> Prepared(side, a.no, chan).handles.Keys == side.handles.Keys + {a.no}
    ensures a.Answer? ==> Notified(side, a.m.no, a.m).handles.Keys == side.handles.Keys
  {
  }
}
