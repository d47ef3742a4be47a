/**
 The requests of one socket as they run on the router: the coroutine of reqrep() between its suspensions, the sending
 coroutine, and the receive loop. Each method is what one of them does in one go, and is a step of the machine of all
 calls; several sockets share one router.
 */
module Connection {
  import opened Numbering
  import opened OneshotCalls
  import opened Router
  import opened ReqRep
  import Oneshot

  // ------------------------------------------------------------ calls and their blocks

  /** How far a call's two receivers are. */
  ghost predicate CallAgrees(phase: Phase, c: nat, sends: map<nat, Oneshot.State<bool>>, reps: map<nat, Oneshot.State<Message>>) {
    match phase
    case Queueing => c in sends && Fresh(sends[c]) && c in reps && Fresh(reps[c])
    case AwaitingSent => c in sends && Waiting(sends[c]) && c in reps && Fresh(reps[c])
    case AwaitingReply => c in sends && Waiting(sends[c]) && c in reps && Waiting(reps[c])
    case Finished(_) => c in sends && Released(sends[c]) && c in reps && Released(reps[c])
    case Refused => true
  }

  ghost predicate Agrees(calls: seq<Call>, sends: map<nat, Oneshot.State<bool>>, reps: map<nat, Oneshot.State<Message>>) {
    forall c: nat :: c < |calls| ==> CallAgrees(calls[c].phase, c, sends, reps)
  }

  /** Calls of a sender keep what the calls' receivers are at. */
  lemma AgreesKept(calls: seq<Call>, sends: map<nat, Oneshot.State<bool>>, reps: map<nat, Oneshot.State<Message>>,
                   sends': map<nat, Oneshot.State<bool>>, reps': map<nat, Oneshot.State<Message>>)
    requires Agrees(calls, sends, reps) && ReceiversKept(sends, sends') && ReceiversKept(reps, reps')
    ensures Agrees(calls, sends', reps')
  {
    hide Fresh, Waiting;
    forall c: nat | c < |calls| ensures CallAgrees(calls[c].phase, c, sends', reps') {
      assert CallAgrees(calls[c].phase, c, sends, reps);
      assert c in sends ==> ReceiverKept(sends[c], sends'[c]);
      assert c in reps ==> ReceiverKept(reps[c], reps'[c]);
    }
  }

  /** One call goes on; the blocks of the others are the same. */
  lemma AgreesOn(calls: seq<Call>, sends: map<nat, Oneshot.State<bool>>, reps: map<nat, Oneshot.State<Message>>,
                 sends': map<nat, Oneshot.State<bool>>, reps': map<nat, Oneshot.State<Message>>, c: nat, phase: Phase)
    requires Agrees(calls, sends, reps) && c < |calls|
    requires OthersSame(sends, sends', c) && OthersSame(reps, reps', c) && CallAgrees(phase, c, sends', reps')
    ensures Agrees(calls[c := calls[c].(phase := phase)], sends', reps')
  {
    hide Fresh, Waiting, Released;
    var calls' := calls[c := calls[c].(phase := phase)];
    forall d: nat | d < |calls'| ensures CallAgrees(calls'[d].phase, d, sends', reps') {
      assert d != c ==> CallAgrees(calls[d].phase, d, sends, reps);
    }
  }

  lemma NothingElseChanged<V>(blocks: map<nat, Oneshot.State<V>>, c: nat)
    ensures OthersSame(blocks, blocks, c)
  {
  }

  /** A wait that was told of success, or, if not, of nothing. */
  predicate ToldOnly<V>(s: Oneshot.State<V>, success: bool) {
    s.outcomes == if success then [[Oneshot.Success]] else [[]]
  }

  /** Erasing a pending call's sender closes its channel for good. */
  lemma ErasedClosed<V>(calls: seq<Call>, side: Side<nat, V>, c: nat)
    requires Kept(calls, side) && Pending(calls, c)
    ensures var no := calls[c].no; c in Erased(side, no).channels && Erased(side, no).channels[c] != Open
  {
  }

  /** The machine of all calls may take a step, and it leads from one state to the other. */
  ghost predicate Steps(s: State, a: ReqRep.Action, t: State) {
    Enabled(s, a) && t == Next(s, a)
  }

  class ChannelCombine {
    const sock: nat
    const router: MessageRouter
    const counter: Counter
    var calls: seq<Call>
    var queue: seq<nat>
    var sending: Sending
    ghost var wire: seq<nat>
    ghost var received: seq<Message>
    ghost var delivered: seq<ReqRep.Option<nat>>

    /** The state of the machine of all calls that this is. */
    ghost function View(): State
      reads this, counter, router, router.sendComplete, router.netRep
    {
      State(counter.mode, counter.reqNo, router.sendComplete.SideAt(sock), router.netRep.SideAt(sock),
            calls, queue, sending, wire, received, delivered)
    }

    ghost predicate Valid()
      reads this, counter, router, router.sendComplete, router.netRep, router.appRep
    {
      && router.Valid() && counter.Valid() && counter.draws == |calls|
      && Inv(View())
      && Agrees(calls, At(router.sendComplete.blocks, sock), At(router.netRep.blocks, sock))
    }

    /** Only this socket's part of the router has changed since. */
    ghost predicate Elsewhere(sends: map<nat, map<nat, Handle>>, sendBlocks: map<nat, map<nat, Oneshot.State<bool>>>,
                              reps: map<nat, map<nat, Handle>>, repBlocks: map<nat, map<nat, Oneshot.State<Message>>>)
      reads this, router, router.sendComplete, router.netRep
    {
      && OnlyAt(sends, router.sendComplete.signals, sock) && OnlyAt(sendBlocks, router.sendComplete.blocks, sock)
      && OnlyAt(reps, router.netRep.signals, sock) && OnlyAt(repBlocks, router.netRep.blocks, sock)
    }

    constructor (mode: Mode, sock: nat, router: MessageRouter)
      requires router.Valid()
      requires At(router.sendComplete.signals, sock) == map[] && At(router.sendComplete.blocks, sock) == map[]
      requires At(router.netRep.signals, sock) == map[] && At(router.netRep.blocks, sock) == map[]
      ensures Valid() && View() == Init(mode) && this.sock == sock && this.router == router && fresh(counter)
    {
      hide Inv, Signals.Valid, SideOf, Drawn;
      this.sock, this.router := sock, router;
      counter := new Counter(mode);
      calls, queue, sending, wire, received, delivered := [], [], Idle, [], [], [];
      new;
      InitInv(mode);
      EmptySide<bool>();
      EmptySide<Message>();
    }

    /** reqrep(), up to handing the message on: the number is drawn and the request registered. */
    method BeginCall(req: Body) returns (valid: bool)
      requires Valid()
      modifies this, counter, router.sendComplete, router.netRep
      ensures Valid() && Steps(old(View()), Begin(req), View())
      ensures valid == CanReqRep(old(View()).sent, old(View()).reps, NextNo(old(View())))
      ensures Elsewhere(old(router.sendComplete.signals), old(router.sendComplete.blocks), old(router.netRep.signals), old(router.netRep.blocks))
    {
      hide Inv, Agrees, OnlyAt, SideOf, Signals.Valid, Prepared, Drawn, Fresh, ReceiversKept, CanReqRep;
      NextInv(View(), Begin(req));
      NewChannel(View());
      ghost var sends, reps := At(router.sendComplete.blocks, sock), At(router.netRep.blocks, sock);
      var no := counter.NewReq();
      var c := |calls|;
      valid := router.PrepareReqRep(sock, no, c);
      AgreesKept(calls, sends, reps, At(router.sendComplete.blocks, sock), At(router.netRep.blocks, sock));
      ghost var before := calls;
      calls := calls + [Call(no, req, if valid then Queueing else Refused)];
      AgreesMore(before, calls, At(router.sendComplete.blocks, sock), At(router.netRep.blocks, sock));
    }

    /** addPackFromApp() is done: the message is queued, and the call waits to hear that it was sent. */
    method EnqueueCall(c: nat)
      requires Valid() && Enabled(View(), Enqueue(c))
      modifies this, router.sendComplete
      ensures Valid() && Steps(old(View()), Enqueue(c), View())
      ensures Elsewhere(old(router.sendComplete.signals), old(router.sendComplete.blocks), old(router.netRep.signals), old(router.netRep.blocks))
    {
      hide Inv, Agrees, OnlyAt, SideOf, Signals.Valid, Fresh, Waiting;
      NextInv(View(), Enqueue(c));
      ghost var sends, reps := At(router.sendComplete.blocks, sock), At(router.netRep.blocks, sock);
      CallIs(calls, sends, reps, c);
      router.sendComplete.StartWait(sock, c);
      NothingElseChanged(reps, c);
      NoneAt(router.sendComplete.signals, sock);
      NoneAt(router.netRep.signals, sock);
      NoneAt(router.netRep.blocks, sock);
      AgreesOn(calls, sends, reps, At(router.sendComplete.blocks, sock), reps, c, AwaitingSent);
      queue := queue + [c];
      calls := calls[c := calls[c].(phase := AwaitingSent)];
    }

    /** The sending coroutine takes a message, or is done with it, or finds no channel for the socket. */
    method SendingStep(a: ReqRep.Action)
      requires Valid() && Enabled(View(), a) && (a.Take? || a.Transmit? || a.Unroutable?)
      modifies this
      ensures Valid() && Steps(old(View()), a, View())
    {
      hide Inv, Agrees, SideOf, Signals.Valid;
      NextInv(View(), a);
      match a {
        case Take =>
          sending, queue := Taken(queue[0]), queue[1..];
        case Transmit(ok) =>
          wire := if ok then wire + [sending.call] else wire;
          sending := Done(sending.call, ok);
        case Unroutable =>
          sending := Idle;
      }
    }

    /** notifySendNetComplete(): it finds the sender of the very call whose message it was. */
    method NotifySentStep() returns (ok: bool)
      requires Valid() && Enabled(View(), NotifySent)
      modifies this, router.sendComplete
      ensures Valid() && Steps(old(View()), NotifySent, View()) && ok
      ensures Elsewhere(old(router.sendComplete.signals), old(router.sendComplete.blocks), old(router.netRep.signals), old(router.netRep.blocks))
    {
      hide Inv, Agrees, OnlyAt, SideOf, Signals.Valid, ReceiversKept, Notified, Awaits;
      NextInv(View(), NotifySent);
      OwnSender(View());
      ghost var sends, reps := At(router.sendComplete.blocks, sock), At(router.netRep.blocks, sock);
      ok := router.NotifySendNetComplete(sock, calls[sending.call].no, sending.ok);
      NoneChanged(At(router.netRep.signals, sock), reps);
      NoneAt(router.netRep.signals, sock);
      NoneAt(router.netRep.blocks, sock);
      AgreesKept(calls, sends, reps, At(router.sendComplete.blocks, sock), reps);
      sending := Idle;
    }

    /** The receive loop: a packet is handed to the call that waits for it, if there is one. */
    method ReceiveStep(m: Message) returns (taken: bool)
      requires Valid()
      modifies this, router.netRep
      ensures Valid() && Steps(old(View()), Receive(m), View())
      ensures taken <==> TakenBy(old(View()), m.no).Some?
      ensures Elsewhere(old(router.sendComplete.signals), old(router.sendComplete.blocks), old(router.netRep.signals), old(router.netRep.blocks))
    {
      hide Inv, Agrees, OnlyAt, SideOf, Signals.Valid, ReceiversKept, Notified, Awaits;
      NextInv(View(), Receive(m));
      ghost var sends, reps := At(router.sendComplete.blocks, sock), At(router.netRep.blocks, sock);
      received, delivered := received + [m], delivered + [TakenBy(View(), m.no)];
      taken := router.NotifyRecvNetRep(sock, m);
      NoneChanged(At(router.sendComplete.signals, sock), sends);
      NoneAt(router.sendComplete.signals, sock);
      NoneAt(router.sendComplete.blocks, sock);
      AgreesKept(calls, sends, reps, sends, At(router.netRep.blocks, sock));
    }

    /** finishReqRep(), and the end of the coroutine: the entries are erased, and both blocks are deleted. */
    method EndCall(c: nat, reply: ReqRep.Option<Body>)
      requires Valid() && Pending(calls, c) && !calls[c].phase.Queueing?
      modifies this`calls, router.sendComplete, router.netRep
      ensures router.Valid()
      ensures View() == Finish(old(View()), c, reply)
      ensures Agrees(calls, At(router.sendComplete.blocks, sock), At(router.netRep.blocks, sock))
      ensures Elsewhere(old(router.sendComplete.signals), old(router.sendComplete.blocks), old(router.netRep.signals), old(router.netRep.blocks))
    {
      hide Inv, Agrees, OnlyAt, SideOf, Signals.Valid, ReceiversKept, Erased, Kept, Fresh, Waiting, Released, OthersSame;
      BothKept(View());
      ErasedClosed(calls, router.sendComplete.SideAt(sock), c);
      ErasedClosed(calls, router.netRep.SideAt(sock), c);
      ghost var sends, reps := At(router.sendComplete.blocks, sock), At(router.netRep.blocks, sock);
      var done := router.FinishReqRep(sock, calls[c].no);
      ghost var sends1, reps1 := At(router.sendComplete.blocks, sock), At(router.netRep.blocks, sock);
      AgreesKept(calls, sends, reps, sends1, reps1);
      CallIs(calls, sends1, reps1, c);
      router.sendComplete.SenderGone(sock, c);
      router.netRep.SenderGone(sock, c);
      ghost var b1, b2 := router.sendComplete.blocks, router.netRep.blocks;
      router.DropReceivers(sock, c);
      OnlyAtOn(old(router.sendComplete.blocks), b1, router.sendComplete.blocks, sock);
      OnlyAtOn(old(router.netRep.blocks), b2, router.netRep.blocks, sock);
      AgreesOn(calls, sends1, reps1, At(router.sendComplete.blocks, sock), At(router.netRep.blocks, sock), c, Finished(reply));
      calls := calls[c := calls[c].(phase := Finished(reply))];
    }

    /** The message was sent: the call waits for its reply. */
    method AwaitReply(c: nat)
      requires Valid() && c < |calls| && calls[c].phase.AwaitingSent?
      modifies this`calls, router.netRep
      ensures router.Valid()
      ensures View() == SetPhase(old(View()), c, AwaitingReply)
      ensures Agrees(calls, At(router.sendComplete.blocks, sock), At(router.netRep.blocks, sock))
      ensures Elsewhere(old(router.sendComplete.signals), old(router.sendComplete.blocks), old(router.netRep.signals), old(router.netRep.blocks))
    {
      hide Inv, Agrees, OnlyAt, SideOf, Signals.Valid, Fresh, Waiting, StateOf;
      ghost var sends, reps := At(router.sendComplete.blocks, sock), At(router.netRep.blocks, sock);
      CallIs(calls, sends, reps, c);
      router.netRep.StartWait(sock, c);
      NothingElseChanged(sends, c);
      NoneAt(router.netRep.signals, sock);
      NoneAt(router.sendComplete.signals, sock);
      NoneAt(router.sendComplete.blocks, sock);
      AgreesOn(calls, sends, reps, sends, At(router.netRep.blocks, sock), c, AwaitingReply);
      calls := calls[c := calls[c].(phase := AwaitingReply)];
    }

    /** The first wait has succeeded: the call goes on to wait for its reply, or ends because the send failed. */
    method ResumeSentStep(c: nat)
      requires Valid() && c < |calls| && calls[c].phase.AwaitingSent? && c in At(router.sendComplete.blocks, sock)
      requires At(router.sendComplete.blocks, sock)[c].outcomes == [[Oneshot.Success]]
      modifies this, router.sendComplete, router.netRep
      ensures Valid() && Steps(old(View()), ResumeSent(c), View())
      ensures Elsewhere(old(router.sendComplete.signals), old(router.sendComplete.blocks), old(router.netRep.signals), old(router.netRep.blocks))
    {
      hide Inv, Agrees, OnlyAt, SideOf, Signals.Valid, Erased, Kept, Fresh, Waiting, StateOf;
      ghost var sends, reps := At(router.sendComplete.blocks, sock), At(router.netRep.blocks, sock);
      CallIs(calls, sends, reps, c);
      var bflag := router.sendComplete.Get(sock, c);
      SideHolds(At(router.sendComplete.signals, sock), sends, c);
      NextInv(View(), ResumeSent(c));
      if !bflag {
        EndCall(c, ReqRep.None);
      } else {
        AwaitReply(c);
      }
    }

    /** The second wait has succeeded: the call returns the reply. */
    method ResumeReplyStep(c: nat) returns (reply: Body)
      requires Valid() && c < |calls| && calls[c].phase.AwaitingReply? && c in At(router.netRep.blocks, sock)
      requires At(router.netRep.blocks, sock)[c].outcomes == [[Oneshot.Success]]
      modifies this, router.sendComplete, router.netRep
      ensures Valid() && Steps(old(View()), ResumeReply(c), View()) && c < |calls| && calls[c].phase == Finished(ReqRep.Some(reply))
      ensures Elsewhere(old(router.sendComplete.signals), old(router.sendComplete.blocks), old(router.netRep.signals), old(router.netRep.blocks))
    {
      hide Inv, Agrees, OnlyAt, SideOf, Signals.Valid, Erased, Kept, Fresh, Waiting, StateOf;
      ghost var sends, reps := At(router.sendComplete.blocks, sock), At(router.netRep.blocks, sock);
      CallIs(calls, sends, reps, c);
      var vv := router.netRep.Get(sock, c);
      SideHolds(At(router.netRep.signals, sock), reps, c);
      NextInv(View(), ResumeReply(c));
      reply := vv.body;
      EndCall(c, ReqRep.Some(reply));
    }

    /** The blocks say of a waiting call what the machine says: a wait has succeeded exactly if the call can go on, and
        otherwise it was told nothing. A call that returned has left no block behind. */
    lemma BlocksAgree(c: nat)
      requires Valid() && c < |calls|
      ensures var sends, reps := At(router.sendComplete.blocks, sock), At(router.netRep.blocks, sock);
        && (calls[c].phase.AwaitingSent? ==> c in sends && ToldOnly(sends[c], Enabled(View(), ResumeSent(c))))
        && (calls[c].phase.AwaitingReply? ==> c in reps && ToldOnly(reps[c], Enabled(View(), ResumeReply(c))))
        && (calls[c].phase.Finished? ==> c in sends && Released(sends[c]) && c in reps && Released(reps[c]))
    {
      hide Agrees, SideOf, Signals.Valid, Inv;
      var sends, reps := At(router.sendComplete.blocks, sock), At(router.netRep.blocks, sock);
      CallIs(calls, sends, reps, c);
      if Pending(calls, c) {
        SideHolds(At(router.sendComplete.signals, sock), sends, c);
        SideHolds(At(router.netRep.signals, sock), reps, c);
        BothKept(View());
        NotBroken(calls, View().sent, c);
        NotBroken(calls, View().reps, c);
      }
    }

    /** The number of the next call is no channel's yet. */
    lemma NewChannel(s: State)
      requires Inv(s) && s == View()
      ensures |calls| !in At(router.sendComplete.blocks, sock) && |calls| !in At(router.netRep.blocks, sock)
    {
      assert Channelled(s.calls, s.sent) && Channelled(s.calls, s.reps);
      assert |calls| in At(router.sendComplete.blocks, sock) ==> |calls| in s.sent.channels;
      assert |calls| in At(router.netRep.blocks, sock) ==> |calls| in s.reps.channels;
    }
  }

  lemma CallIs(calls: seq<Call>, sends: map<nat, Oneshot.State<bool>>, reps: map<nat, Oneshot.State<Message>>, c: nat)
    requires Agrees(calls, sends, reps) && c < |calls|
    ensures CallAgrees(calls[c].phase, c, sends, reps)
  {
  }

  /** The call whose send is over is pending, and its sender is there and not used up. */
  lemma OwnSender(s: State)
    requires Inv(s) && Enabled(s, NotifySent)
    ensures Awaits(s.sent, s.calls[s.sending.call].no)
  {
    assert OnItsWay(s, s.sending.call);
    assert Kept(s.calls, s.sent) && Queued(s);
  }

  lemma SideHolds<V>(handles: map<nat, Handle>, blocks: map<nat, Oneshot.State<V>>, c: nat)
    requires c in blocks
    ensures c in SideOf(handles, blocks).channels && SideOf(handles, blocks).channels[c] == StateOf(blocks[c])
  {
  }

  lemma BothKept(s: State)
    requires Inv(s)
    ensures Kept(s.calls, s.sent) && Kept(s.calls, s.reps)
  {
  }

  lemma NotBroken<V>(calls: seq<Call>, side: Side<nat, V>, c: nat)
    requires Kept(calls, side) && Pending(calls, c)
    ensures c in side.channels && !side.channels[c].Broken?
  {
  }

  /** Another socket on the same router is not disturbed by a packet; nor is it by any other step, by the same frame. */
  method ReceiveApart(one: ChannelCombine, other: ChannelCombine, m: Message)
    requires one.Valid() && other.Valid() && one.router == other.router && one.sock != other.sock
    requires one != other && one.counter != other.counter
    modifies one, one.router.netRep
    ensures one.Valid() && other.Valid() && other.View() == old(other.View())
  {
    hide Inv, Agrees, SideOf, Signals.Valid;
    var taken := one.ReceiveStep(m);
    var r := one.router;
    assert At(r.netRep.signals, other.sock) == old(At(r.netRep.signals, other.sock));
    assert At(r.netRep.blocks, other.sock) == old(At(r.netRep.blocks, other.sock));
  }

  lemma EmptySide<V>()
    ensures SideOf<V>(map[], map[]) == NoSide()
  {
  }

  lemma AgreesMore(calls: seq<Call>, more: seq<Call>, sends: map<nat, Oneshot.State<bool>>, reps: map<nat, Oneshot.State<Message>>)
    requires Agrees(calls, sends, reps) && |more| == |calls| + 1 && more[..|calls|] == calls
    requires CallAgrees(more[|calls|].phase, |calls|, sends, reps)
    ensures Agrees(more, sends, reps)
  {
    hide Fresh, Waiting, Released;
    forall c: nat | c < |more| ensures CallAgrees(more[c].phase, c, sends, reps) {
      if c < |calls| {
        assert more[c] == more[..|calls|][c] == calls[c];
      }
    }
  }
}
