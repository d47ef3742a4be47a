/** The message router: under each socket and number a one-shot sender, which is used up by one notification. */
module Router {
  import opened Bytes
  import opened OneshotCalls
  import Oneshot

  type Body = seq<Byte>

  datatype Message = Message(no: nat, body: Body)

  /** A sender kept in a map: the one-shot channel it belongs to, and whether it is used up. */
  datatype Handle = Handle(chan: nat, spent: bool)

  /** One of the router's maps, with the channels its senders belong to. */
  datatype Side<K(==), +V> = Side(handles: map<K, Handle>, channels: map<nat, Slot<V>>)

  function NoSide<K(==), V>(): Side<K, V> {
    Side(map[], map[])
  }

  /** The channels after the sender under a key is destroyed: one that was not used breaks its channel. */
  function Dropped<K, V>(side: Side<K, V>, key: K): map<nat, Slot<V>> {
    if key in side.handles && !side.handles[key].spent then side.channels[side.handles[key].chan := Broken] else side.channels
  }

  /** A new channel's sender put under a key. */
  function Prepared<K, V>(side: Side<K, V>, key: K, chan: nat): Side<K, V> {
    Side(side.handles[key := Handle(chan, false)], Dropped(side, key)[chan := Open])
  }

  /** Whether a value would find a sender that can take it: one that is used up throws, which counts as none. */
  predicate Awaits<K, V>(side: Side<K, V>, key: K) {
    key in side.handles && !side.handles[key].spent
  }

  /** A value passed to the sender under a key, if there is one to take it. */
  function Notified<K, V>(side: Side<K, V>, key: K, value: V): Side<K, V> {
    if Awaits(side, key) then
      var chan := side.handles[key].chan;
      Side(side.handles[key := Handle(chan, true)], side.channels[chan := Holds(value)])
    else side
  }

  function Erased<K, V>(side: Side<K, V>, key: K): Side<K, V> {
    Side(side.handles - {key}, Dropped(side, key))
  }

  /** Whether a request may be registered: both maps are free. */
  predicate CanReqRep<K, V, W>(sent: Side<K, V>, reps: Side<K, W>, key: K) {
    key !in sent.handles && key !in reps.handles
  }

  // ------------------------------------------------------------ the maps, and the blocks behind them

  /** operator[] on a map of maps: what is there, or nothing. */
  function At<X>(m: map<nat, map<nat, X>>, sock: nat): map<nat, X> {
    if sock in m then m[sock] else map[]
  }

  /** What one socket's senders and blocks come to. */
  function SideOf<V>(handles: map<nat, Handle>, blocks: map<nat, Oneshot.State<V>>): Side<nat, V> {
    Side(handles, map c | c in blocks :: StateOf(blocks[c]))
  }

  /** A sender belongs to a block of its own, and is used up exactly when the block's sender is gone. */
  ghost predicate Owns<V>(handles: map<nat, Handle>, blocks: map<nat, Oneshot.State<V>>) {
    && (forall no :: no in handles ==>
          handles[no].chan in blocks && blocks[handles[no].chan].sender == (if handles[no].spent then Oneshot.SGone else Oneshot.SAttached))
    && (forall no, other :: no in handles && other in handles && no != other ==> handles[no].chan != handles[other].chan)
  }

  /** Every block is as a run of the channel's steps leaves it, between two calls. */
  ghost predicate Sound<V(!new)>(blocks: map<nat, Oneshot.State<V>>) {
    forall c :: c in blocks ==> Reached(blocks[c]) && AtRest(blocks[c])
  }

  /** The receiver of a block is where it was, but for what a wait was told; a block without sender is as it was. */
  ghost predicate ReceiversKept<V>(before: map<nat, Oneshot.State<V>>, after: map<nat, Oneshot.State<V>>) {
    forall c :: c in before ==> c in after && ReceiverKept(before[c], after[c])
  }

  ghost predicate ReceiverKept<V>(s: Oneshot.State<V>, t: Oneshot.State<V>) {
    && (Fresh(s) ==> Fresh(t)) && (Waiting(s) ==> Waiting(t)) && (s.sender == Oneshot.SGone ==> t == s)
  }

  /** Only one socket's part of a map of maps has changed. */
  ghost predicate OnlyAt<X>(before: map<nat, map<nat, X>>, after: map<nat, map<nat, X>>, sock: nat) {
    forall other {:trigger At(after, other)} :: other != sock ==> At(after, other) == At(before, other)
  }

  lemma OnlyAtSock<X>(before: map<nat, map<nat, X>>, sock: nat, part: map<nat, X>)
    ensures OnlyAt(before, before[sock := part], sock) && At(before[sock := part], sock) == part
  {
  }

  /** One block changed, or added: what the side, the soundness and the receivers make of it. */
  lemma OneBlock<V(!new)>(handles: map<nat, Handle>, blocks: map<nat, Oneshot.State<V>>, c: nat, t: Oneshot.State<V>)
    requires Sound(blocks) && Reached(t) && AtRest(t) && (c in blocks ==> ReceiverKept(blocks[c], t))
    ensures Sound(blocks[c := t]) && ReceiversKept(blocks, blocks[c := t])
    ensures SideOf(handles, blocks[c := t]) == Side(handles, SideOf(handles, blocks).channels[c := StateOf(t)])
  {
    hide Reached, AtRest, Fresh, Waiting, StateOf;
    SideChannels(handles, blocks, c, t);
  }

  lemma SideChannels<V>(handles: map<nat, Handle>, blocks: map<nat, Oneshot.State<V>>, c: nat, t: Oneshot.State<V>)
    ensures SideOf(handles, blocks[c := t]).channels == SideOf(handles, blocks).channels[c := StateOf(t)]
  {
    hide StateOf;
  }

  /** The block of a sender that was not used. */
  lemma Owned<V(!new)>(handles: map<nat, Handle>, blocks: map<nat, Oneshot.State<V>>, no: nat)
    requires Owns(handles, blocks) && Sound(blocks) && no in handles && !handles[no].spent
    ensures var c := handles[no].chan;
      c in blocks && Reached(blocks[c]) && blocks[c].sender == Oneshot.SAttached
    ensures forall other :: other in handles && other != no ==> handles[other].chan in blocks && handles[other].chan != handles[no].chan
  {
    hide Reached;
  }

  /** The blocks after the sender under a number is destroyed. */
  function Destroyed<V(!new)>(handles: map<nat, Handle>, blocks: map<nat, Oneshot.State<V>>, no: nat): (after: map<nat, Oneshot.State<V>>)
    requires Owns(handles, blocks) && Sound(blocks)
    ensures Sound(after) && ReceiversKept(blocks, after) && after.Keys == blocks.Keys
    ensures SideOf(handles, after).channels == Dropped(SideOf(handles, blocks), no)
  {
    hide Reached, Fresh, Waiting, ReceiversKept, SideOf, Owns, Sound, StateOf, AtRest;
    if no in handles && !handles[no].spent then
      Owned(handles, blocks, no);
      var c := handles[no].chan;
      var t := Drop(blocks[c]);
      OneBlock(handles, blocks, c, t);
      SideKeeps(handles, blocks);
      blocks[c := t]
    else
      NoneChanged(handles, blocks);
      blocks
  }

  lemma DestroyedOthers<V(!new)>(handles: map<nat, Handle>, blocks: map<nat, Oneshot.State<V>>, no: nat)
    requires Owns(handles, blocks) && Sound(blocks)
    ensures var after := Destroyed(handles, blocks, no);
      forall other :: other in handles && other != no ==>
        handles[other].chan in after && handles[other].chan in blocks && after[handles[other].chan] == blocks[handles[other].chan]
  {
    hide Reached, AtRest;
  }

  lemma SideKeeps<V>(handles: map<nat, Handle>, blocks: map<nat, Oneshot.State<V>>)
    ensures SideOf(handles, blocks).handles == handles
  {
  }

  lemma NoneChanged<V>(handles: map<nat, Handle>, blocks: map<nat, Oneshot.State<V>>)
    ensures ReceiversKept(blocks, blocks) && SideOf(handles, blocks).handles == handles
  {
  }

  /** A new block and its sender under a number. */
  lemma PreparedFacts<V(!new)>(handles: map<nat, Handle>, blocks: map<nat, Oneshot.State<V>>, no: nat, chan: nat)
    requires Owns(handles, blocks) && Sound(blocks) && chan !in blocks
    ensures var h, b := handles[no := Handle(chan, false)], Destroyed(handles, blocks, no)[chan := Oneshot.Init()];
      && Owns(h, b) && Sound(b) && ReceiversKept(blocks, b) && Fresh(b[chan])
      && SideOf(h, b) == Prepared(SideOf(handles, blocks), no, chan)
  {
    hide Reached, Waiting, SideOf, Sound, ReceiversKept, Owns;
    InitReached<V>();
    var h, mine := handles[no := Handle(chan, false)], Destroyed(handles, blocks, no);
    OneBlock(h, mine, chan, Oneshot.Init());
    KeptOn(blocks, mine, mine[chan := Oneshot.Init()]);
    SideHandles(handles, h, mine);
    SideKeeps(handles, blocks);
    DestroyedOthers(handles, blocks, no);
    PreparedOwns(handles, blocks, mine, no, chan);
  }

  lemma KeptOn<V>(a: map<nat, Oneshot.State<V>>, b: map<nat, Oneshot.State<V>>, c: map<nat, Oneshot.State<V>>)
    requires ReceiversKept(a, b) && ReceiversKept(b, c)
    ensures ReceiversKept(a, c)
  {
    hide Fresh, Waiting;
  }

  lemma SideHandles<V>(handles: map<nat, Handle>, h: map<nat, Handle>, blocks: map<nat, Oneshot.State<V>>)
    ensures SideOf(h, blocks) == Side(h, SideOf(handles, blocks).channels)
  {
  }

  lemma PreparedOwns<V>(handles: map<nat, Handle>, blocks: map<nat, Oneshot.State<V>>, mine: map<nat, Oneshot.State<V>>, no: nat, chan: nat)
    requires Owns(handles, blocks) && chan !in blocks && mine.Keys == blocks.Keys
    requires forall other :: other in handles && other != no ==>
      handles[other].chan in mine && handles[other].chan in blocks && mine[handles[other].chan] == blocks[handles[other].chan]
    ensures Owns(handles[no := Handle(chan, false)], mine[chan := Oneshot.Init()])
  {
  }

  lemma SentOwns<V>(handles: map<nat, Handle>, blocks: map<nat, Oneshot.State<V>>, no: nat, t: Oneshot.State<V>)
    requires Owns(handles, blocks) && no in handles && t.sender == Oneshot.SGone
    ensures var c := handles[no].chan; Owns(handles[no := Handle(c, true)], blocks[c := t])
  {
  }

  /** A value sent by the sender under a number, if it is there and not used up. */
  function SentTo<V(!new)>(handles: map<nat, Handle>, blocks: map<nat, Oneshot.State<V>>, no: nat, v: V): (after: map<nat, Oneshot.State<V>>)
    requires Owns(handles, blocks) && Sound(blocks) && no in handles && !handles[no].spent
    ensures var h := handles[no := Handle(handles[no].chan, true)];
      Owns(h, after) && SideOf(h, after) == Notified(SideOf(handles, blocks), no, v)
    ensures Sound(after) && ReceiversKept(blocks, after)
  {
    hide Reached, Fresh, Waiting, SideOf, ReceiversKept, Owns, Sound, StateOf, AtRest;
    Owned(handles, blocks, no);
    var c := handles[no].chan;
    var t := Send(blocks[c], v);
    var h := handles[no := Handle(c, true)];
    SentOwns(handles, blocks, no, t);
    OneBlock(handles, blocks, c, t);
    SideHandles(handles, h, blocks[c := t]);
    SideKeeps(handles, blocks);
    blocks[c := t]
  }

  lemma ErasedFacts<V(!new)>(handles: map<nat, Handle>, blocks: map<nat, Oneshot.State<V>>, no: nat)
    requires Owns(handles, blocks) && Sound(blocks)
    ensures var h, b := handles - {no}, Destroyed(handles, blocks, no);
      && Owns(h, b) && Sound(b) && ReceiversKept(blocks, b)
      && SideOf(h, b) == Erased(SideOf(handles, blocks), no)
  {
    hide Reached, Fresh, Waiting;
    DestroyedOthers(handles, blocks, no);
  }

  /** The blocks but for one are the same. */
  ghost predicate OthersSame<V>(before: map<nat, Oneshot.State<V>>, after: map<nat, Oneshot.State<V>>, c: nat) {
    forall d :: d != c ==> (d in before <==> d in after) && (d in before ==> before[d] == after[d])
  }

  /** Both ends have left, and the block was deleted, once, with its payload destroyed. */
  predicate Released<V>(s: Oneshot.State<V>) {
    s.sender == Oneshot.SGone && s.receiver == Oneshot.RGone && s.deletions == 1 && s.payload.None? && s.destroyed == s.constructed
  }

  lemma ClosedGone<V(!new)>(s: Oneshot.State<V>)
    requires Reached(s) && AtRest(s) && StateOf(s) != Open
    ensures s.sender == Oneshot.SGone
  {
    hide Reached;
    ReachedInv(s);
    if s.sender == Oneshot.SAttached {
      SenderFacts(s);
    }
  }

  lemma ReceivesValue<V(!new)>(s: Oneshot.State<V>)
    requires Reached(s) && AtRest(s) && Waiting(s) && s.outcomes == [[Oneshot.Success]]
    ensures StateOf(s).Holds? && Oneshot.GetStoredObject(s) == Oneshot.Some(StateOf(s).value)
  {
    hide Reached;
    ReachedInv(s);
    assert s.outcomes[0] == Told(StateOf(s));
    Gets(s);
  }

  lemma SameSide<V(!new)>(handles: map<nat, Handle>, blocks: map<nat, Oneshot.State<V>>, c: nat, t: Oneshot.State<V>)
    requires Owns(handles, blocks) && Sound(blocks) && c in blocks && Reached(t) && AtRest(t)
    requires t.sender == blocks[c].sender && StateOf(t) == StateOf(blocks[c])
    ensures Owns(handles, blocks[c := t]) && Sound(blocks[c := t]) && SideOf(handles, blocks[c := t]) == SideOf(handles, blocks)
  {
    hide Reached, StateOf, AtRest;
    assert SideOf(handles, blocks[c := t]).channels == SideOf(handles, blocks).channels;
  }

  /** One of the router's three maps of maps, with the shared blocks of its senders. */
  class Signals<V(!new)> {
    var signals: map<nat, map<nat, Handle>>
    var blocks: map<nat, map<nat, Oneshot.State<V>>>

    ghost predicate Valid()
      reads this
    {
      forall sock {:trigger At(signals, sock)} {:trigger At(blocks, sock)} ::
        Owns(At(signals, sock), At(blocks, sock)) && Sound(At(blocks, sock))
    }

    /** What the map is for one socket. */
    ghost function SideAt(sock: nat): Side<nat, V>
      reads this
    {
      SideOf(At(signals, sock), At(blocks, sock))
    }

    constructor ()
      ensures Valid() && signals == map[] && blocks == map[]
    {
      signals, blocks := map[], map[];
    }

    lemma ValidStill(signals': map<nat, map<nat, Handle>>, blocks': map<nat, map<nat, Oneshot.State<V>>>, sock: nat)
      requires OnlyAt(signals', signals, sock) && OnlyAt(blocks', blocks, sock)
      requires forall other {:trigger At(signals', other)} :: Owns(At(signals', other), At(blocks', other)) && Sound(At(blocks', other))
      requires Owns(At(signals, sock), At(blocks, sock)) && Sound(At(blocks, sock))
      ensures Valid()
    {
      hide Owns, Sound;
      forall other ensures Owns(At(signals, other), At(blocks, other)) && Sound(At(blocks, other)) {
        assert other != sock ==> At(signals, other) == At(signals', other) && At(blocks, other) == At(blocks', other);
      }
    }

    /** _signals[sock].find(no) != end() */
    method Has(sock: nat, no: nat) returns (has: bool)
      requires Valid()
      modifies this
      ensures Valid() && has == (no in old(SideAt(sock)).handles)
      ensures blocks == old(blocks) && At(signals, sock) == old(At(signals, sock)) && OnlyAt(old(signals), signals, sock)
    {
      hide Owns, Sound;
      OnlyAtSock(signals, sock, At(signals, sock));
      signals := signals[sock := At(signals, sock)];
      ValidStill(old(signals), old(blocks), sock);
      has := no in signals[sock];
    }

    /** create(), and the sender put under a number; a sender that was there is destroyed. */
    method Prepare(sock: nat, no: nat, chan: nat)
      requires Valid() && chan !in At(blocks, sock)
      modifies this
      ensures Valid() && SideAt(sock) == Prepared(old(SideAt(sock)), no, chan)
      ensures ReceiversKept(old(At(blocks, sock)), At(blocks, sock)) && chan in At(blocks, sock) && Fresh(At(blocks, sock)[chan])
      ensures OnlyAt(old(signals), signals, sock) && OnlyAt(old(blocks), blocks, sock)
    {
      hide Owns, Sound, Fresh, ReceiversKept;
      var handles, mine := At(signals, sock), At(blocks, sock);
      PreparedFacts(handles, mine, no, chan);
      mine := Destroyed(handles, mine, no)[chan := Oneshot.Init()];
      handles := handles[no := Handle(chan, false)];
      OnlyAtSock(signals, sock, handles);
      OnlyAtSock(blocks, sock, mine);
      signals, blocks := signals[sock := handles], blocks[sock := mine];
      ValidStill(old(signals), old(blocks), sock);
    }

    /** find, and send: a sender that is used up throws, which is caught. */
    method Notify(sock: nat, no: nat, value: V) returns (ok: bool)
      requires Valid()
      modifies this
      ensures Valid() && ok == Awaits(old(SideAt(sock)), no) && SideAt(sock) == Notified(old(SideAt(sock)), no, value)
      ensures ReceiversKept(old(At(blocks, sock)), At(blocks, sock))
      ensures OnlyAt(old(signals), signals, sock) && OnlyAt(old(blocks), blocks, sock)
    {
      hide Owns, Sound, Fresh, Waiting;
      ok := Has(sock, no);
      if ok {
        var handles, mine := At(signals, sock), At(blocks, sock);
        if handles[no].spent {
          return false;
        }
        mine := SentTo(handles, mine, no, value);
        handles := handles[no := Handle(handles[no].chan, true)];
        OnlyAtSock(signals, sock, handles);
        OnlyAtSock(blocks, sock, mine);
        ghost var signals', blocks' := signals, blocks;
        signals, blocks := signals[sock := handles], blocks[sock := mine];
        ValidStill(signals', blocks', sock);
      }
    }

    /** async_wait() on a receiver: the wait is told at once, or as soon as the sender has done something. */
    method StartWait(sock: nat, chan: nat)
      requires Valid() && chan in At(blocks, sock) && Fresh(At(blocks, sock)[chan])
      modifies this
      ensures Valid() && SideAt(sock) == old(SideAt(sock)) && signals == old(signals)
      ensures chan in At(blocks, sock) && Waiting(At(blocks, sock)[chan]) && OthersSame(old(At(blocks, sock)), At(blocks, sock), chan)
      ensures OnlyAt(old(blocks), blocks, sock)
    {
      hide Fresh, Waiting, Reached;
      SetBlock(sock, chan, Wait(At(blocks, sock)[chan]));
    }

    /** A channel that is no longer open has lost its sender. */
    lemma SenderGone(sock: nat, chan: nat)
      requires Valid() && chan in SideAt(sock).channels && SideAt(sock).channels[chan] != Open
      ensures chan in At(blocks, sock) && At(blocks, sock)[chan].sender == Oneshot.SGone
    {
      hide Reached, StateOf;
      assert AtRest(At(blocks, sock)[chan]);
      ClosedGone(At(blocks, sock)[chan]);
    }

    /** get(), after the wait has succeeded. */
    method Get(sock: nat, chan: nat) returns (value: V)
      requires Valid() && chan in At(blocks, sock)
      requires Waiting(At(blocks, sock)[chan]) && At(blocks, sock)[chan].outcomes == [[Oneshot.Success]]
      ensures StateOf(At(blocks, sock)[chan]) == Holds(value)
    {
      var s := At(blocks, sock)[chan];
      ReceivesValue(s);
      value := Oneshot.GetStoredObject(s).value;
    }

    /** The receiver is destroyed after its sender: the block is deleted. */
    method DropReceiver(sock: nat, chan: nat)
      requires Valid() && chan in At(blocks, sock)
      requires var s := At(blocks, sock)[chan]; s.sender == Oneshot.SGone && (Fresh(s) || Waiting(s))
      modifies this
      ensures Valid() && SideAt(sock) == old(SideAt(sock)) && signals == old(signals)
      ensures chan in At(blocks, sock) && Released(At(blocks, sock)[chan]) && OthersSame(old(At(blocks, sock)), At(blocks, sock), chan)
      ensures OnlyAt(old(blocks), blocks, sock)
    {
      hide Fresh, Waiting, Reached;
      SetBlock(sock, chan, Leave(At(blocks, sock)[chan]));
    }

    /** A block goes on by a call of its receiver. */
    method SetBlock(sock: nat, chan: nat, t: Oneshot.State<V>)
      requires Valid() && chan in At(blocks, sock) && Reached(t) && AtRest(t)
      requires t.sender == At(blocks, sock)[chan].sender && StateOf(t) == StateOf(At(blocks, sock)[chan])
      modifies this
      ensures Valid() && SideAt(sock) == old(SideAt(sock)) && signals == old(signals)
      ensures At(blocks, sock) == old(At(blocks, sock))[chan := t] && OthersSame(old(At(blocks, sock)), At(blocks, sock), chan)
      ensures OnlyAt(old(blocks), blocks, sock)
    {
      hide Reached, StateOf, AtRest;
      var mine := At(blocks, sock)[chan := t];
      SameSide(At(signals, sock), At(blocks, sock), chan, t);
      NoneAt(signals, sock);
      OnlyAtSock(blocks, sock, mine);
      blocks := blocks[sock := mine];
      ValidStill(old(signals), old(blocks), sock);
    }

    /** _signals[sock].erase(no) */
    method Erase(sock: nat, no: nat)
      requires Valid()
      modifies this
      ensures Valid() && SideAt(sock) == Erased(old(SideAt(sock)), no)
      ensures ReceiversKept(old(At(blocks, sock)), At(blocks, sock))
      ensures OnlyAt(old(signals), signals, sock) && OnlyAt(old(blocks), blocks, sock)
    {
      hide Owns, Sound, Fresh, ReceiversKept;
      var handles, mine := At(signals, sock), At(blocks, sock);
      ErasedFacts(handles, mine, no);
      mine := Destroyed(handles, mine, no);
      handles := handles - {no};
      OnlyAtSock(signals, sock, handles);
      OnlyAtSock(blocks, sock, mine);
      signals, blocks := signals[sock := handles], blocks[sock := mine];
      ValidStill(old(signals), old(blocks), sock);
    }
  }

  /** The router: who is told what, for every socket. A socket's part of it is three sides, and a call for one socket does
      not touch another's. */
  class MessageRouter {
    const sendComplete: Signals<bool>
    const netRep: Signals<Message>
    const appRep: Signals<Message>

    ghost predicate Valid()
      reads this, sendComplete, netRep, appRep
    {
      netRep != appRep && sendComplete.Valid() && netRep.Valid() && appRep.Valid()
    }

    constructor ()
      ensures Valid() && fresh(sendComplete) && fresh(netRep) && fresh(appRep)
      ensures sendComplete.signals == map[] && sendComplete.blocks == map[] && netRep.signals == map[] && netRep.blocks == map[]
      ensures appRep.signals == map[] && appRep.blocks == map[]
    {
      sendComplete := new Signals<bool>();
      netRep := new Signals<Message>();
      appRep := new Signals<Message>();
    }

    method CanReqRepOn(sock: nat, no: nat) returns (can: bool)
      requires Valid()
      modifies sendComplete, netRep
      ensures Valid() && can == CanReqRep(old(sendComplete.SideAt(sock)), old(netRep.SideAt(sock)), no)
      ensures At(sendComplete.signals, sock) == old(At(sendComplete.signals, sock)) && sendComplete.blocks == old(sendComplete.blocks)
      ensures At(netRep.signals, sock) == old(At(netRep.signals, sock)) && netRep.blocks == old(netRep.blocks)
      ensures OnlyAt(old(sendComplete.signals), sendComplete.signals, sock) && OnlyAt(old(netRep.signals), netRep.signals, sock)
    {
      hide OnlyAt;
      NoneAt(netRep.signals, sock);
      var has := sendComplete.Has(sock, no);
      if has {
        return false;
      }
      has := netRep.Has(sock, no);
      can := !has;
    }

    /** prepareReqRep(): registers a request on both maps, or on neither. */
    method PrepareReqRep(sock: nat, no: nat, chan: nat) returns (valid: bool)
      requires Valid() && chan !in At(sendComplete.blocks, sock) && chan !in At(netRep.blocks, sock)
      modifies sendComplete, netRep
      ensures Valid() && valid == CanReqRep(old(sendComplete.SideAt(sock)), old(netRep.SideAt(sock)), no)
      ensures !valid ==> sendComplete.SideAt(sock) == old(sendComplete.SideAt(sock)) && netRep.SideAt(sock) == old(netRep.SideAt(sock))
      ensures !valid ==> sendComplete.blocks == old(sendComplete.blocks) && netRep.blocks == old(netRep.blocks)
      ensures valid ==>
        && sendComplete.SideAt(sock) == Prepared(old(sendComplete.SideAt(sock)), no, chan)
        && netRep.SideAt(sock) == Prepared(old(netRep.SideAt(sock)), no, chan)
        && chan in At(sendComplete.blocks, sock) && Fresh(At(sendComplete.blocks, sock)[chan])
        && chan in At(netRep.blocks, sock) && Fresh(At(netRep.blocks, sock)[chan])
      ensures ReceiversKept(old(At(sendComplete.blocks, sock)), At(sendComplete.blocks, sock))
      ensures ReceiversKept(old(At(netRep.blocks, sock)), At(netRep.blocks, sock))
      ensures OnlyAt(old(sendComplete.signals), sendComplete.signals, sock) && OnlyAt(old(sendComplete.blocks), sendComplete.blocks, sock)
      ensures OnlyAt(old(netRep.signals), netRep.signals, sock) && OnlyAt(old(netRep.blocks), netRep.blocks, sock)
    {
      hide OnlyAt, ReceiversKept, Fresh, Sound, Owns;
      valid := CanReqRepOn(sock, no);
      if !valid {
        NoneAt(sendComplete.blocks, sock);
        NoneAt(netRep.blocks, sock);
        NoneChanged(At(sendComplete.signals, sock), At(sendComplete.blocks, sock));
        NoneChanged(At(netRep.signals, sock), At(netRep.blocks, sock));
        return;
      }
      ghost var sends, reps := sendComplete.signals, netRep.signals;
      sendComplete.Prepare(sock, no, chan);
      netRep.Prepare(sock, no, chan);
      OnlyAtOn(old(sendComplete.signals), sends, sendComplete.signals, sock);
      OnlyAtOn(old(netRep.signals), reps, netRep.signals, sock);
    }

    /** prepareAppRep(): registers the wait for the application's reply; a number that was ever registered is refused. */
    method PrepareAppRep(sock: nat, no: nat, chan: nat) returns (valid: bool)
      requires Valid() && chan !in At(appRep.blocks, sock)
      modifies appRep
      ensures Valid() && (valid <==> no !in old(appRep.SideAt(sock)).handles)
      ensures appRep.SideAt(sock) == if valid then Prepared(old(appRep.SideAt(sock)), no, chan) else old(appRep.SideAt(sock))
      ensures OnlyAt(old(appRep.signals), appRep.signals, sock) && OnlyAt(old(appRep.blocks), appRep.blocks, sock)
    {
      hide OnlyAt, ReceiversKept, Fresh, Sound, Owns;
      var has := appRep.Has(sock, no);
      ghost var between := appRep.signals;
      valid := !has;
      if valid {
        appRep.Prepare(sock, no, chan);
        OnlyAtOn(old(appRep.signals), between, appRep.signals, sock);
      } else {
        NoneAt(appRep.blocks, sock);
      }
    }

    method NotifySendNetComplete(sock: nat, no: nat, flag: bool) returns (ok: bool)
      requires Valid()
      modifies sendComplete
      ensures Valid() && ok == Awaits(old(sendComplete.SideAt(sock)), no)
      ensures sendComplete.SideAt(sock) == Notified(old(sendComplete.SideAt(sock)), no, flag)
      ensures ReceiversKept(old(At(sendComplete.blocks, sock)), At(sendComplete.blocks, sock))
      ensures OnlyAt(old(sendComplete.signals), sendComplete.signals, sock) && OnlyAt(old(sendComplete.blocks), sendComplete.blocks, sock)
    {
      ok := sendComplete.Notify(sock, no, flag);
    }

    method NotifyRecvNetRep(sock: nat, message: Message) returns (ok: bool)
      requires Valid()
      modifies netRep
      ensures Valid() && ok == Awaits(old(netRep.SideAt(sock)), message.no)
      ensures netRep.SideAt(sock) == Notified(old(netRep.SideAt(sock)), message.no, message)
      ensures ReceiversKept(old(At(netRep.blocks, sock)), At(netRep.blocks, sock))
      ensures OnlyAt(old(netRep.signals), netRep.signals, sock) && OnlyAt(old(netRep.blocks), netRep.blocks, sock)
    {
      ok := netRep.Notify(sock, message.no, message);
    }

    method NotifyRecvAppRep(sock: nat, message: Message) returns (ok: bool)
      requires Valid()
      modifies appRep
      ensures Valid() && ok == Awaits(old(appRep.SideAt(sock)), message.no)
      ensures appRep.SideAt(sock) == Notified(old(appRep.SideAt(sock)), message.no, message)
      ensures OnlyAt(old(appRep.signals), appRep.signals, sock) && OnlyAt(old(appRep.blocks), appRep.blocks, sock)
    {
      ok := appRep.Notify(sock, message.no, message);
    }

    method FinishReqRep(sock: nat, no: nat) returns (ok: bool)
      requires Valid()
      modifies sendComplete, netRep
      ensures Valid() && ok
      ensures sendComplete.SideAt(sock) == Erased(old(sendComplete.SideAt(sock)), no)
      ensures netRep.SideAt(sock) == Erased(old(netRep.SideAt(sock)), no)
      ensures ReceiversKept(old(At(sendComplete.blocks, sock)), At(sendComplete.blocks, sock))
      ensures ReceiversKept(old(At(netRep.blocks, sock)), At(netRep.blocks, sock))
      ensures OnlyAt(old(sendComplete.signals), sendComplete.signals, sock) && OnlyAt(old(sendComplete.blocks), sendComplete.blocks, sock)
      ensures OnlyAt(old(netRep.signals), netRep.signals, sock) && OnlyAt(old(netRep.blocks), netRep.blocks, sock)
    {
      sendComplete.Erase(sock, no);
      netRep.Erase(sock, no);
      ok := true;
    }

    /** The end of the coroutine: both receivers are destroyed, after their senders. */
    method DropReceivers(sock: nat, chan: nat)
      requires Valid()
      requires chan in At(sendComplete.blocks, sock) && chan in At(netRep.blocks, sock)
      requires var s := At(sendComplete.blocks, sock)[chan]; s.sender == Oneshot.SGone && (Fresh(s) || Waiting(s))
      requires var s := At(netRep.blocks, sock)[chan]; s.sender == Oneshot.SGone && (Fresh(s) || Waiting(s))
      modifies sendComplete, netRep
      ensures Valid()
      ensures sendComplete.SideAt(sock) == old(sendComplete.SideAt(sock)) && sendComplete.signals == old(sendComplete.signals)
      ensures netRep.SideAt(sock) == old(netRep.SideAt(sock)) && netRep.signals == old(netRep.signals)
      ensures chan in At(sendComplete.blocks, sock) && Released(At(sendComplete.blocks, sock)[chan])
      ensures chan in At(netRep.blocks, sock) && Released(At(netRep.blocks, sock)[chan])
      ensures OthersSame(old(At(sendComplete.blocks, sock)), At(sendComplete.blocks, sock), chan)
      ensures OthersSame(old(At(netRep.blocks, sock)), At(netRep.blocks, sock), chan)
      ensures OnlyAt(old(sendComplete.blocks), sendComplete.blocks, sock) && OnlyAt(old(netRep.blocks), netRep.blocks, sock)
    {
      hide Fresh, Waiting, Released, OthersSame, OnlyAt, SideOf, Signals.Valid;
      sendComplete.DropReceiver(sock, chan);
      netRep.DropReceiver(sock, chan);
    }
  }

  lemma NoneAt<X>(m: map<nat, map<nat, X>>, sock: nat)
    ensures OnlyAt(m, m, sock)
  {
  }

  lemma OnlyAtOn<X>(a: map<nat, map<nat, X>>, b: map<nat, map<nat, X>>, c: map<nat, map<nat, X>>, sock: nat)
    requires OnlyAt(a, b, sock) && OnlyAt(b, c, sock)
    ensures OnlyAt(a, c, sock)
  {
    forall other | other != sock ensures At(c, other) == At(a, other) {
      assert At(c, other) == At(b, other);
    }
  }
}
