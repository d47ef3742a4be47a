/** Numbered packets over a byte stream: packing, sending, and reassembly from any cutting into reads. */
module Framing {
  import opened Bytes
  import opened Numbers

  const TwoTo31 := 0x8000_0000
  const TwoTo32 := 0x1_0000_0000
  const TwoTo64 := 0x1_0000_0000_0000_0000

  const HeadLen := 8

  /** The largest body that survives framing: header and body together fit an int. */
  const MaxBody := TwoTo31 - 9

  // ------------------------------------------------------------ integers of the machine

  /** A 32-bit word taken as a signed number. */
  function ToInt(x: nat): (i: int)
    requires x < TwoTo32
    ensures -TwoTo31 <= i < TwoTo31
  {
    if x < TwoTo31 then x else x - TwoTo32
  }

  /** The sum of header length and body length as an int, then as a size. */
  function Needed(len: int): (size: nat)
    requires -TwoTo31 <= len < TwoTo31
  {
    var sum := if HeadLen + len < TwoTo31 then HeadLen + len else HeadLen + len - TwoTo32;
    if sum < 0 then sum + TwoTo64 else sum
  }

  // ------------------------------------------------------------ packing 32-bit numbers

  /** Writes a number into four bytes of a buffer, the highest byte first. */
  method PackUint32(dst: array<Byte>, at: nat, src: nat)
    requires at + 4 <= dst.Length && src < TwoTo32
    modifies dst
    ensures dst[..] == old(dst[..at]) + BigBytes(src, 4) + old(dst[at + 4..])
    ensures src == 0x100_0000 * NumberOf(dst[at]) + 0x1_0000 * NumberOf(dst[at + 1]) + 0x100 * NumberOf(dst[at + 2]) + NumberOf(dst[at + 3])
  {
    hide ByteAt, LittleBytes, NumberOf;
    BigFour(src);
    for k := 0 to 4
      invariant forall i :: 0 <= i < dst.Length && !(at <= i < at + k) ==> dst[i] == old(dst[i])
      invariant forall i :: at <= i < at + k ==> dst[i] == BigBytes(src, 4)[i - at]
    {
      LittleBytesAt(src, 4, 3 - k);
      dst[at + k] := ByteAt(src, 3 - k);
    }
  }

  datatype Unpacked = Unpacked(ok: bool, value: nat, tail: seq<Byte>)

  /** Reads a number from the front of a view; a view that is too short gives an empty tail. */
  function UnpackUint32(src: seq<Byte>): (u: Unpacked)
    ensures u.ok <==> |src| >= 4
    ensures u.ok ==> u.value < TwoTo32 && src == BigBytes(u.value, 4) + u.tail
    ensures !u.ok ==> u.tail == []
  {
    if |src| < 4 then Unpacked(false, 0, [])
    else
      BigBytesOfNumber(src[..4]);
      Powers();
      Unpacked(true, BigNumber(src[..4]), src[4..])
  }

  /** Writing and reading back. */
  lemma PackThenUnpack(x: nat, rest: seq<Byte>)
    requires x < TwoTo32
    ensures UnpackUint32(BigBytes(x, 4) + rest) == Unpacked(true, x, rest)
  {
    hide BigBytes, BigNumber;
    Powers();
    BigNumberOfBytes(x, 4);
    assert (BigBytes(x, 4) + rest)[..4] == BigBytes(x, 4);
  }

  // ------------------------------------------------------------ the header

  /** The bytes of a header for a body of the given length. */
  function Head(no: nat, length: nat): (head: seq<Byte>)
    ensures |head| == HeadLen
  {
    BigBytes(length % TwoTo32, 4) + BigBytes(no, 4)
  }

  /** A frame: header and body. */
  function Frame(no: nat, body: seq<Byte>): (frame: seq<Byte>)
    ensures |frame| == HeadLen + |body|
  {
    Head(no, |body|) + body
  }

  /** The header, byte by byte: the length and then the number, each with its highest byte first. */
  lemma HeadPlaces(no: nat, length: nat, k: nat)
    requires no < TwoTo32 && k < 4
    ensures NumberOf(Head(no, length)[k]) == length % TwoTo32 / Power(3 - k) % 256
    ensures NumberOf(Head(no, length)[4 + k]) == no / Power(3 - k) % 256
  {
    hide BigBytes, NumberOf, Power;
    BigPlace(length % TwoTo32, 4, k);
    BigPlace(no, 4, k);
  }

  class StreamNetDealer {
    var len: int
    var no: nat

    /** The fields of a new dealer hold nothing in particular. */
    constructor ()
      ensures no < TwoTo32
    {
      var anyNo: nat :| anyNo < TwoTo32;
      len, no := *, anyNo;
    }

    method Pack(no: nat, length: nat, dst: array<Byte>)
      requires dst.Length == HeadLen && no < TwoTo32
      modifies this, dst
      ensures dst[..] == Head(no, length)
      ensures len == ToInt(length % TwoTo32) && this.no == no
    {
      hide BigBytes;
      len := ToInt(length % TwoTo32);
      this.no := no;
      PackUint32(dst, 0, if len < 0 then len + TwoTo32 else len);
      PackUint32(dst, 4, no);
    }

    method Unpack(src: seq<Byte>) returns (ok: bool)
      modifies this
      ensures ok <==> |src| >= HeadLen
      ensures ok ==> -TwoTo31 <= len < TwoTo31 && len == LengthIn(src) && no == NumberIn(src)
      ensures no < TwoTo32 || no == old(no)
    {
      ok := false;
      var u := UnpackUint32(src);
      if u.ok {
        len := ToInt(u.value);
        var v := UnpackUint32(u.tail);
        if v.ok {
          no := v.value;
          ok := true;
        }
      }
    }
  }

  /** The body length and the number that a header carries. */
  function LengthIn(stream: seq<Byte>): (len: int)
    requires |stream| >= HeadLen
    ensures -TwoTo31 <= len < TwoTo31
  {
    ToInt(UnpackUint32(stream).value)
  }

  function NumberIn(stream: seq<Byte>): (no: nat)
    requires |stream| >= HeadLen
    ensures no < TwoTo32
  {
    UnpackUint32(UnpackUint32(stream).tail).value
  }

  lemma HeadReadBack(no: nat, length: nat, rest: seq<Byte>)
    requires no < TwoTo32
    ensures var stream := Head(no, length) + rest;
      LengthIn(stream) == ToInt(length % TwoTo32) && NumberIn(stream) == no
  {
    hide UnpackUint32, BigBytes;
    assert Head(no, length) + rest == BigBytes(length % TwoTo32, 4) + (BigBytes(no, 4) + rest);
    PackThenUnpack(length % TwoTo32, BigBytes(no, 4) + rest);
    PackThenUnpack(no, rest);
  }

  // ------------------------------------------------------------ what a stream holds

  datatype Received = Packet(no: nat, body: seq<Byte>) | Failed | Thrown

  /** The next packet of a stream; a length that leaves no room for the header makes the code throw. */
  function Next(stream: seq<Byte>): (r: Received)
    ensures r.Thrown? ==> HeadLen <= |stream| && Needed(LengthIn(stream)) < HeadLen
    ensures r.Packet? ==> |stream| >= HeadLen && Needed(LengthIn(stream)) == HeadLen + |r.body| <= |stream|
  {
    if |stream| < HeadLen || |stream| < Needed(LengthIn(stream)) then Failed
    else if Needed(LengthIn(stream)) < HeadLen then Thrown
    else Packet(NumberIn(stream), stream[HeadLen..Needed(LengthIn(stream))])
  }

  /** What a receive makes of a header, by the length it carries as a 32-bit word: a packet once enough is there, never anything
      from 2^31 - 8 on, and an exception for the eight greatest. */
  lemma OutcomeByLength(stream: seq<Byte>, length: nat)
    requires HeadLen <= |stream| < TwoTo64 / 2 && length == BigNumber(stream[..4])
    ensures Next(stream).Packet? <==> length <= MaxBody && HeadLen + length <= |stream|
    ensures Next(stream).Packet? ==> Next(stream).no == BigNumber(stream[4..8]) && Next(stream).body == stream[8..8 + length]
    ensures Next(stream).Thrown? <==> length >= TwoTo32 - HeadLen
  {
    hide BigNumber, BigBytes;
    HeadNumbers(stream);
  }

  lemma HeadNumbers(stream: seq<Byte>)
    requires HeadLen <= |stream|
    ensures BigNumber(stream[..4]) < TwoTo32 && LengthIn(stream) == ToInt(BigNumber(stream[..4]))
    ensures NumberIn(stream) == BigNumber(stream[4..8])
  {
    hide BigNumber, BigBytes;
    BigBytesOfNumber(stream[..4]);
    BigBytesOfNumber(stream[4..8]);
    Powers();
    assert stream[4..][..4] == stream[4..8];
  }

  /** All packets that stand complete at the front of a stream. */
  function Packets(stream: seq<Byte>): seq<(nat, seq<Byte>)>
    decreases |stream|
  {
    match Next(stream)
    case Packet(no, body) => [(no, body)] + Packets(stream[HeadLen + |body|..])
    case _ => []
  }

  function Frames(packets: seq<(nat, seq<Byte>)>): seq<Byte> {
    if packets == [] then [] else Frame(packets[0].0, packets[0].1) + Frames(packets[1..])
  }

  /** A frame is read back exactly when its body is not longer than the limit; no string reaches 2^63 bytes. */
  lemma FrameReadBack(no: nat, body: seq<Byte>, rest: seq<Byte>)
    requires no < TwoTo32 && |body| < TwoTo64 / 2
    ensures Next(Frame(no, body) + rest) == Packet(no, body) <==> |body| <= MaxBody
  {
    hide LengthIn, NumberIn, Head;
    var stream := Frame(no, body) + rest;
    assert stream == Head(no, |body|) + (body + rest);
    HeadReadBack(no, |body|, body + rest);
    NeededIs(|body|);
    assert stream[HeadLen..HeadLen + |body|] == body;
  }

  /** The code asks for as many bytes as the frame has exactly up to the limit. */
  lemma NeededIs(length: nat)
    requires length < TwoTo64 / 2
    ensures Needed(ToInt(length % TwoTo32)) == HeadLen + length <==> length <= MaxBody
  {
  }

  /** The packets of a row of frames are those framed, in order; what follows is left. */
  lemma {:induction false} PacketsOfFrames(packets: seq<(nat, seq<Byte>)>, rest: seq<Byte>)
    requires forall k :: 0 <= k < |packets| ==> packets[k].0 < TwoTo32 && |packets[k].1| <= MaxBody
    ensures Packets(Frames(packets) + rest) == packets + Packets(rest)
  {
    hide Frame, Packets;
    if packets == [] {
      assert Frames(packets) + rest == rest;
    } else {
      var (no, body) := packets[0];
      var more := Frames(packets[1..]) + rest;
      assert Frames(packets) + rest == Frame(no, body) + more;
      FirstPacket(no, body, more);
      PacketsOfFrames(packets[1..], rest);
      assert packets == [(no, body)] + packets[1..];
    }
  }

  lemma FirstPacket(no: nat, body: seq<Byte>, more: seq<Byte>)
    requires no < TwoTo32 && |body| <= MaxBody
    ensures Packets(Frame(no, body) + more) == [(no, body)] + Packets(more)
  {
    hide Next, Head;
    FrameReadBack(no, body, more);
    assert (Frame(no, body) + more)[HeadLen + |body|..] == more;
  }

  // ------------------------------------------------------------ what reading brings

  /** A read that brings some bytes, or one that throws. */
  datatype Read = Brings(bytes: seq<Byte>) | Breaks

  /** The next read throws; so it does when the socket brings nothing more. */
  predicate Broken(incoming: seq<Read>) {
    incoming == [] || incoming[0].Breaks?
  }

  function LaterReads(incoming: seq<Read>): seq<Read> {
    if incoming == [] then [] else incoming[1..]
  }

  /** What counts as read after the next read: one that throws is caught, and leaves the read buffer and its length as
      the last read of the same call left them. */
  function Arrives(incoming: seq<Read>, last: seq<Byte>): seq<Byte> {
    if Broken(incoming) then last else incoming[0].bytes
  }

  /** Everything the reads will bring. */
  function Flat(incoming: seq<Read>): seq<Byte> {
    if incoming == [] then [] else (if incoming[0].Brings? then incoming[0].bytes else []) + Flat(incoming[1..])
  }

  /** What the reads bring up to the first that throws or brings nothing. */
  function Available(incoming: seq<Read>): seq<Byte> {
    if Broken(incoming) || incoming[0].bytes == [] then [] else incoming[0].bytes + Available(incoming[1..])
  }

  /** The first read that brings nothing is one that throws. */
  predicate BreaksOff(incoming: seq<Read>) {
    Broken(incoming) || (incoming[0].bytes != [] && BreaksOff(incoming[1..]))
  }

  /** After what is available, every read throws. */
  predicate Closed(incoming: seq<Read>) {
    incoming == [] || (if incoming[0].Breaks? then AllBreak(incoming[1..]) else incoming[0].bytes != [] && Closed(incoming[1..]))
  }

  predicate AllBreak(incoming: seq<Read>) {
    incoming == [] || (incoming[0].Breaks? && AllBreak(incoming[1..]))
  }

  ghost predicate NoneEmpty(incoming: seq<Read>) {
    forall k :: 0 <= k < |incoming| ==> incoming[k].Brings? && incoming[k].bytes != []
  }

  lemma {:induction false} AllAvailable(incoming: seq<Read>)
    requires NoneEmpty(incoming)
    ensures Available(incoming) == Flat(incoming) && BreaksOff(incoming)
  {
    if incoming != [] {
      AllAvailable(incoming[1..]);
    }
  }

  /** The receive buffer, the reads to come, and what counts as read last. */
  datatype Buffer = Buffer(recv: seq<Byte>, incoming: seq<Read>, last: seq<Byte>)

  function ReadOnce(s: Buffer): Buffer {
    var last := Arrives(s.incoming, s.last);
    Buffer(s.recv + last, LaterReads(s.incoming), last)
  }

  /** Reading until the buffer holds so many bytes, or nothing counts as read. */
  function Reading(s: Buffer, size: nat): Buffer
    decreases if size > |s.recv| then size - |s.recv| else 0
  {
    if |s.recv| >= size then s
    else if ReadOnce(s).last == [] then ReadOnce(s)
    else Reading(ReadOnce(s), size)
  }

  /** The bytes in the buffer and those to come. */
  function Whole(s: Buffer): seq<Byte> {
    s.recv + Flat(s.incoming)
  }

  function StreamOf(s: Buffer): seq<Byte> {
    s.recv + Available(s.incoming)
  }

  /** Something came in this call, or will before the reads stop. */
  predicate Fed(s: Buffer) {
    s.last != [] || Available(s.incoming) != []
  }

  /** Reading makes up bytes: it runs short, after something came, on a read that throws. */
  predicate MakesUp(s: Buffer, size: nat) {
    |StreamOf(s)| < size && Fed(s) && BreaksOff(s.incoming)
  }

  lemma OneRead(s: Buffer)
    requires !Broken(s.incoming)
    ensures Whole(ReadOnce(s)) == Whole(s)
    ensures ReadOnce(s).last != [] ==>
      StreamOf(ReadOnce(s)) == StreamOf(s) && Fed(s) && Fed(ReadOnce(s)) && BreaksOff(ReadOnce(s).incoming) == BreaksOff(s.incoming)
    ensures ReadOnce(s).last == [] ==> ReadOnce(s).recv == s.recv == StreamOf(s) && !BreaksOff(s.incoming)
  {
    assert s.recv + (s.incoming[0].bytes + Flat(s.incoming[1..])) == s.recv + s.incoming[0].bytes + Flat(s.incoming[1..]);
    assert s.recv + (s.incoming[0].bytes + Available(s.incoming[1..])) == s.recv + s.incoming[0].bytes + Available(s.incoming[1..]);
  }

  lemma BrokenRead(s: Buffer)
    requires Broken(s.incoming)
    ensures StreamOf(s) == s.recv && BreaksOff(s.incoming) && (Fed(s) <==> s.last != [])
    ensures ReadOnce(s).last == s.last && |Whole(ReadOnce(s))| == |Whole(s)| + |s.last|
    ensures s.last == [] ==> ReadOnce(s).recv == s.recv && Whole(ReadOnce(s)) == Whole(s)
  {
    if s.incoming != [] {
      assert Flat(s.incoming) == [] + Flat(s.incoming[1..]);
    }
  }

  /** With enough to come, reading takes what comes and stops in time. */
  lemma {:induction false} ReadingEnough(s: Buffer, size: nat)
    requires |StreamOf(s)| >= size
    ensures var t := Reading(s, size);
      && |t.recv| >= size && StreamOf(t) == StreamOf(s) && Whole(t) == Whole(s)
      && (Fed(t) <==> Fed(s)) && BreaksOff(t.incoming) == BreaksOff(s.incoming) && s.recv <= t.recv
    decreases if size > |s.recv| then size - |s.recv| else 0
  {
    hide StreamOf, Whole, Fed, BreaksOff, ReadOnce;
    if |s.recv| < size {
      if Broken(s.incoming) {
        BrokenRead(s);
        assert false;
      } else {
        OneRead(s);
        Grown(s);
        if ReadOnce(s).last != [] {
          ReadingEnough(ReadOnce(s), size);
        }
      }
    }
  }

  lemma Grown(s: Buffer)
    ensures s.recv <= ReadOnce(s).recv && |ReadOnce(s).recv| == |s.recv| + |ReadOnce(s).last|
  {
  }

  /** Bytes are never lost in reading. */
  lemma {:induction false} NeverLess(s: Buffer, size: nat)
    ensures var t := Reading(s, size); |Whole(t)| >= |Whole(s)| && s.recv <= t.recv
    decreases if size > |s.recv| then size - |s.recv| else 0
  {
    hide Whole, ReadOnce;
    if |s.recv| < size {
      Grown(s);
      if Broken(s.incoming) {
        BrokenRead(s);
      } else {
        OneRead(s);
      }
      if ReadOnce(s).last != [] {
        NeverLess(ReadOnce(s), size);
      }
    }
  }

  /** Running short: all that came is in the buffer, or more than that. */
  lemma {:induction false} ReadingShort(s: Buffer, size: nat)
    requires |StreamOf(s)| < size
    ensures !MakesUp(s, size) ==> Reading(s, size).recv == StreamOf(s) && Whole(Reading(s, size)) == Whole(s)
    ensures MakesUp(s, size) ==> |Whole(Reading(s, size))| > |Whole(s)|
    decreases if size > |s.recv| then size - |s.recv| else 0
  {
    hide StreamOf, Whole, Fed, BreaksOff, ReadOnce;
    StreamLonger(s);
    Grown(s);
    if Broken(s.incoming) {
      BrokenRead(s);
      if s.last != [] {
        NeverLess(ReadOnce(s), size);
      }
    } else {
      OneRead(s);
      if ReadOnce(s).last != [] {
        ReadingShort(ReadOnce(s), size);
      }
    }
  }

  lemma StreamLonger(s: Buffer)
    ensures |s.recv| <= |StreamOf(s)| && s.recv <= StreamOf(s)
  {
  }

  /** What a receive has in the buffer before it cuts off a packet: at least a header, then what the header asks for. */
  function Gathered(recv: seq<Byte>, incoming: seq<Read>): Buffer {
    var s := Reading(Buffer(recv, incoming, []), HeadLen);
    if |s.recv| < HeadLen then s else Reading(s, Needed(LengthIn(s.recv)))
  }

  /** The packet is not all there, something came, and then a read throws. */
  predicate CutShort(recv: seq<Byte>, incoming: seq<Read>) {
    Next(recv + Available(incoming)).Failed? && Available(incoming) != [] && BreaksOff(incoming)
  }

  /** Bytes are made up exactly if the packet is cut short. If it is all there, it is what is received; if it is not, and
      nothing is made up, all that came waits in the buffer. */
  lemma GatheredExactly(recv: seq<Byte>, incoming: seq<Read>)
    ensures var g, stream := Gathered(recv, incoming), recv + Available(incoming);
      && (Whole(g) == recv + Flat(incoming) <==> !CutShort(recv, incoming))
      && (CutShort(recv, incoming) ==> |Whole(g)| > |recv + Flat(incoming)|)
      && (!Next(stream).Failed? ==> Next(g.recv) == Next(stream) && g.recv + Available(g.incoming) == stream)
      && (Next(stream).Failed? && !CutShort(recv, incoming) ==> g.recv == stream)
  {
    hide Whole, BreaksOff, Available, Flat, Reading, LengthIn, NumberIn, Needed;
    var b := Buffer(recv, incoming, []);
    var stream := StreamOf(b);
    assert Whole(b) == recv + Flat(incoming) by {
      WholeIs(b);
    }
    if |stream| < HeadLen {
      ReadingShort(b, HeadLen);
      var s := Reading(b, HeadLen);
      if |s.recv| >= HeadLen {
        NeverLess(s, Needed(LengthIn(s.recv)));
      }
    } else {
      ReadingEnough(b, HeadLen);
      var s := Reading(b, HeadLen);
      StreamLonger(s);
      HeadOnly(s.recv, stream);
      var needed := Needed(LengthIn(s.recv));
      if |stream| < needed {
        ReadingShort(s, needed);
      } else {
        ReadingEnough(s, needed);
        var g := Reading(s, needed);
        StreamLonger(g);
        HeadOnly(g.recv, stream);
        SamePacket(g.recv, stream);
      }
    }
  }

  lemma WholeIs(s: Buffer)
    ensures Whole(s) == s.recv + Flat(s.incoming)
  {
  }

  lemma SamePacket(front: seq<Byte>, stream: seq<Byte>)
    requires HeadLen <= |front| && front <= stream && Needed(LengthIn(front)) <= |front|
    ensures Next(front) == Next(stream)
  {
    hide LengthIn, NumberIn, Needed;
    HeadOnly(front, stream);
    var n := Needed(LengthIn(front));
    if n >= HeadLen {
      assert front[HeadLen..n] == stream[HeadLen..n];
    }
  }

  /** Once the socket is closed, reading on makes up as many bytes as are asked for. */
  lemma {:induction false} ReadingClosed(s: Buffer, size: nat)
    requires Fed(s) && (Closed(s.incoming) || (AllBreak(s.incoming) && s.last != []))
    ensures |Reading(s, size).recv| >= size && StreamOf(s)[..if size < |StreamOf(s)| then size else |StreamOf(s)|] <= Reading(s, size).recv
    decreases if size > |s.recv| then size - |s.recv| else 0
  {
    StreamLonger(s);
    if |s.recv| < size {
      Grown(s);
      if Broken(s.incoming) {
        BrokenRead(s);
        ReadingClosed(ReadOnce(s), size);
        StreamLonger(ReadOnce(s));
        NeverLess(s, size);
      } else {
        OneRead(s);
        ReadingClosed(ReadOnce(s), size);
      }
    }
  }

  /** A frame of which the socket brought the header and a part, and was then closed, is received as a whole packet: its
      length is that in the header, and what was missing is made up. */
  lemma ClosedMakesUp(recv: seq<Byte>, incoming: seq<Read>)
    requires CutShort(recv, incoming) && Closed(incoming) && |recv + Available(incoming)| >= HeadLen
    ensures var stream := recv + Available(incoming);
      var packet := Next(Gathered(recv, incoming).recv);
      && packet.Packet? && packet.no == NumberIn(stream) && HeadLen + |packet.body| == Needed(LengthIn(stream))
      && stream[HeadLen..] <= packet.body
  {
    hide Whole, BreaksOff, Available, Flat, Reading, LengthIn, NumberIn, Needed, Closed, AllBreak;
    var b := Buffer(recv, incoming, []);
    var stream := StreamOf(b);
    ReadingEnough(b, HeadLen);
    StaysClosed(b, HeadLen);
    var s := Reading(b, HeadLen);
    StreamLonger(s);
    HeadOnly(s.recv, stream);
    var needed := Needed(LengthIn(s.recv));
    ReadingClosed(s, needed);
    var g := Reading(s, needed);
    assert stream[..|stream|] == stream;
    HeadOnly(stream, g.recv);
    assert g.recv[..|stream|] == stream;
  }

  lemma {:induction false} StaysClosed(s: Buffer, size: nat)
    requires |StreamOf(s)| >= size && Closed(s.incoming)
    ensures Closed(Reading(s, size).incoming)
    decreases if size > |s.recv| then size - |s.recv| else 0
  {
    if |s.recv| < size {
      if Broken(s.incoming) {
        BrokenRead(s);
        assert false;
      } else {
        OneRead(s);
        Grown(s);
        if ReadOnce(s).last != [] {
          StaysClosed(ReadOnce(s), size);
        }
      }
    }
  }

  /** The packet that is next is received, and what lies behind it is kept. */
  lemma PacketThere(recv: seq<Byte>, incoming: seq<Read>)
    requires Next(recv + Available(incoming)).Packet?
    ensures var g, stream := Gathered(recv, incoming), recv + Available(incoming);
      var size := HeadLen + |Next(stream).body|;
      Next(g.recv) == Next(stream) && size <= |g.recv| && g.recv[size..] + Available(g.incoming) == stream[size..]
  {
    hide Gathered, Next, Available, CutShort;
    GatheredExactly(recv, incoming);
    NextFits(Gathered(recv, incoming).recv);
  }

  lemma NextFits(stream: seq<Byte>)
    ensures Next(stream).Packet? ==> HeadLen + |Next(stream).body| <= |stream|
  {
  }

  /** A reply that comes in one piece but for its last two bytes, before the socket is closed: two bytes of the header are
      taken for them. */
  lemma MadeUpHappens(no: nat)
    requires no < TwoTo32
    ensures var head := Head(no, 4);
      var incoming := [Brings(head + [7, 9]), Breaks];
      Next(Gathered([], incoming).recv) == Packet(no, [7, 9] + head[..2])
  {
    hide Head, LengthIn, NumberIn, Gathered, Needed;
    var head := Head(no, 4);
    var chunk := head + [7, 9];
    HeadReadBack(no, 4, [7, 9]);
    NeededIs(4);
    HeadOnly(chunk, chunk + chunk);
    GatheredTwice(chunk);
    assert (chunk + chunk)[HeadLen..12] == [7, 9] + head[..2];
  }

  /** One read too few: what it brought is in the buffer twice. */
  lemma GatheredTwice(chunk: seq<Byte>)
    requires HeadLen <= |chunk| && |chunk| < Needed(LengthIn(chunk)) <= 2 * |chunk|
    ensures Gathered([], [Brings(chunk), Breaks]).recv == chunk + chunk
  {
    hide LengthIn, Needed;
    var b := Buffer([], [Brings(chunk), Breaks], []);
    assert [Brings(chunk), Breaks][1..] == [Breaks] && [Breaks][1..] == [] && [] + chunk == chunk;
    var s, t := Buffer(chunk, [Breaks], chunk), Buffer(chunk + chunk, [], chunk);
    assert ReadOnce(b) == s && ReadOnce(s) == t;
    OneMore(b, HeadLen);
    OneMore(s, Needed(LengthIn(chunk)));
  }

  /** One more read, when that is enough. */
  lemma OneMore(s: Buffer, size: nat)
    requires |s.recv| < size <= |ReadOnce(s).recv| && ReadOnce(s).last != []
    ensures Reading(s, size) == ReadOnce(s)
  {
    hide ReadOnce;
    assert Reading(ReadOnce(s), size) == ReadOnce(s);
  }

  class TcpChannel {
    var recv: seq<Byte>
    var recvMsg: seq<Byte>
    /** What the socket will deliver, read by read; the read buffer holds 512 bytes, here a read may bring any number. */
    var incoming: seq<Read>
    /** What was handed to the socket. */
    var wire: seq<Byte>
    /** What the socket will do with what it is given, write by write. */
    var outgoing: seq<Write>

    constructor (incoming: seq<Read>, outgoing: seq<Write>)
      ensures recv == [] && wire == [] && this.incoming == incoming && this.outgoing == outgoing
    {
      recv, recvMsg, wire := [], [], [];
      this.incoming, this.outgoing := incoming, outgoing;
    }

    /** The bytes received and not yet handed out, with those that reading on would bring. */
    ghost function Stream(): seq<Byte>
      reads this
    {
      recv + Available(incoming)
    }

    /** One read from the socket; what it leaves in the read buffer counts as read. */
    method ReadSome(before: seq<Byte>) returns (last: seq<Byte>)
      modifies this`incoming
      ensures last == Arrives(old(incoming), before) && incoming == LaterReads(old(incoming))
    {
      last := before;
      if incoming != [] {
        var read := incoming[0];
        incoming := incoming[1..];
        if read.Brings? {
          last := read.bytes;
        }
      }
    }

    /** Reads until the buffer holds the given number of bytes or nothing counts as read. */
    method ReadUpTo(size: nat, before: seq<Byte>) returns (last: seq<Byte>)
      modifies this`incoming, this`recv
      ensures Buffer(recv, incoming, last) == Reading(Buffer(old(recv), old(incoming), before), size)
    {
      var tryIndex, tryCount := 1, 2;
      last := before;
      while tryIndex < tryCount && |recv| < size
        invariant tryIndex == 1 || tryIndex == 2
        invariant tryIndex == 1 ==> Reading(Buffer(recv, incoming, last), size) == Reading(Buffer(old(recv), old(incoming), before), size)
        invariant tryIndex == 2 ==> Buffer(recv, incoming, last) == Reading(Buffer(old(recv), old(incoming), before), size)
        decreases if size > |recv| then size - |recv| else 0, tryCount - tryIndex
      {
        ghost var s := Buffer(recv, incoming, last);
        last := ReadSome(last);
        if |last| > 0 {
          tryIndex := 0;
          recv := recv + last;
        }
        assert Buffer(recv, incoming, last) == ReadOnce(s);
        tryIndex := tryIndex + 1;
      }
    }

    /** Cuts the first bytes off the buffer into the message buffer, by swapping the two. */
    method CutOff(size: nat)
      requires size <= |recv|
      modifies this`recv, this`recvMsg
      ensures recvMsg == old(recv[..size]) && recv == old(recv[size..])
    {
      recvMsg := [];
      recvMsg := recvMsg + recv[size..];
      recv := recv[..size];
      recvMsg, recv := recv, recvMsg;
    }

    /** The next packet, from what is left over and from as many reads as it takes; what lies behind it is kept.
        A failure is reported as an empty body, and everything gathered stays for the next call. */
    method RecvPack() returns (reply: Reply, ghost received: Received)
      modifies this`incoming, this`recv, this`recvMsg
      ensures var g := Gathered(old(recv), old(incoming));
        && received == Next(g.recv) && incoming == g.incoming
        && recv == match received
             case Packet(_, body) => g.recv[HeadLen + |body|..]
             case Failed => g.recv
             case Thrown => g.recv[Needed(LengthIn(g.recv))..]
      ensures match received
        case Packet(no, body) => reply == Returned(no, body)
        case Failed => reply.Returned? && reply.body == []
        case Thrown => reply.Threw?
      ensures Next(old(Stream())).Packet? ==>
        received == Next(old(Stream())) && Stream() == old(Stream())[HeadLen + |received.body|..]
      ensures Next(old(Stream())).Failed? && !CutShort(old(recv), old(incoming)) ==> received.Failed? && recv == old(Stream())
    {
      hide LengthIn, NumberIn, Flat, Needed, Reading, CutShort, BreaksOff, Available;
      GatheredExactly(recv, incoming);
      if Next(Stream()).Packet? {
        PacketThere(recv, incoming);
      }
      var netpack := new StreamNetDealer();
      recvMsg := [];
      var last := ReadUpTo(HeadLen, []);
      received := Failed;
      if |recv| >= HeadLen {
        var ok := netpack.Unpack(recv);
        ghost var head := recv;
        NeverLess(Buffer(recv, incoming, last), Needed(netpack.len));
        var needed := Needed(netpack.len);
        last := ReadUpTo(needed, last);
        HeadOnly(head, recv);
        received := Next(recv);
        if |recv| >= needed {
          CutOff(needed);
          if needed < HeadLen {
            reply := Threw;
          } else {
            reply := Returned(netpack.no, recvMsg[HeadLen..]);
          }
          return;
        }
      }
      reply := Returned(netpack.no, []);
    }

    /** The receive loop: for every cutting of a row of frames into reads, it gets exactly those packets, in order. */
    method ReceiveAll(count: nat, ghost packets: seq<(nat, seq<Byte>)>, ghost rest: seq<Byte>) returns (got: seq<Reply>)
      requires |packets| == count && Stream() == Frames(packets) + rest
      requires forall k :: 0 <= k < count ==> packets[k].0 < TwoTo32 && |packets[k].1| <= MaxBody
      modifies this`incoming, this`recv, this`recvMsg
      ensures |got| == count && forall k :: 0 <= k < count ==> got[k] == Returned(packets[k].0, packets[k].1)
      ensures Stream() == rest
    {
      hide Next, Frame, Gathered, Available, CutShort;
      got := [];
      for i := 0 to count
        invariant |got| == i && forall k :: 0 <= k < i ==> got[k] == Returned(packets[k].0, packets[k].1)
        invariant Stream() == Frames(packets[i..]) + rest
      {
        FirstFrame(packets[i..], rest);
        var reply, _ := RecvPack();
        got := got + [reply];
        assert packets[i..][1..] == packets[i + 1..];
      }
    }

    /** One write to the socket: it takes some of the bytes, or it throws, which is caught and leaves `len` as it was. */
    method AsyncSend(bytes: seq<Byte>, before: nat) returns (len: nat)
      modifies this`wire, this`outgoing
      ensures outgoing == Later(old(outgoing))
      ensures wire == old(wire) + bytes[..Taken(old(outgoing), bytes)]
      ensures len == if Throws(old(outgoing)) then before else Taken(old(outgoing), bytes)
    {
      len := before;
      if outgoing != [] {
        var write := outgoing[0];
        outgoing := outgoing[1..];
        if write.Takes? {
          len := if write.size < |bytes| then write.size else |bytes|;
          wire := wire + bytes[..len];
        }
      }
    }

    /** Writes bytes out; one try only, and `len` goes from one call to the next. */
    method SendAll(bytes: seq<Byte>, before: nat) returns (hadsend: nat, len: nat)
      modifies this`wire, this`outgoing
      ensures bytes == [] ==> hadsend == 0 && len == before && wire == old(wire) && outgoing == old(outgoing)
      ensures bytes != [] ==>
        && outgoing == Later(old(outgoing))
        && wire == old(wire) + bytes[..Taken(old(outgoing), bytes)]
        && len == hadsend == if Throws(old(outgoing)) then before else Taken(old(outgoing), bytes)
    {
      var tryIndex, tryCount := 1, 2;
      hadsend, len := 0, before;
      while tryIndex < tryCount && hadsend < |bytes|
        invariant tryIndex == 1 || tryIndex == 2
        invariant tryIndex == 1 ==> hadsend == 0 && len == before && wire == old(wire) && outgoing == old(outgoing)
        invariant tryIndex == 2 ==>
          && bytes != [] && outgoing == Later(old(outgoing))
          && wire == old(wire) + bytes[..Taken(old(outgoing), bytes)]
          && len == hadsend == if Throws(old(outgoing)) then before else Taken(old(outgoing), bytes)
        decreases tryCount - tryIndex
      {
        assert bytes[hadsend..] == bytes;
        len := AsyncSend(bytes[hadsend..], len);
        if len > 0 {
          hadsend := hadsend + len;
        }
        tryIndex := tryIndex + 1;
      }
    }

    /** Sends a frame. */
    method SendPack(src: seq<Byte>, no: nat) returns (ok: bool)
      requires no < TwoTo32
      modifies this`wire, this`outgoing
      ensures var sent := Sending(no, src, old(outgoing)); ok == sent.ok && wire == old(wire) + sent.bytes
    {
      hide Head;
      var netpack := new StreamNetDealer();
      var strhead := new Byte[HeadLen];
      netpack.Pack(no, |src|, strhead);
      var head := strhead[..];
      var len: nat := 0;
      var hadsend;
      hadsend, len := SendAll(head, len);
      if hadsend != HeadLen {
        return false;
      }
      assert head[..HeadLen] == head;
      hadsend, len := SendAll(src, len);
      ok := hadsend == |src|;
    }
  }

  // ------------------------------------------------------------ what a send comes to

  /** A write that takes at most so many bytes, or one that throws. */
  datatype Write = Takes(size: nat) | Fails

  /** The next write throws; so it does when the socket takes no more writes. */
  predicate Throws(outgoing: seq<Write>) {
    outgoing == [] || outgoing[0].Fails?
  }

  function Taken(outgoing: seq<Write>, bytes: seq<Byte>): (n: nat)
    ensures n <= |bytes|
  {
    if Throws(outgoing) then 0 else if outgoing[0].size < |bytes| then outgoing[0].size else |bytes|
  }

  function Later(outgoing: seq<Write>): seq<Write> {
    if outgoing == [] then [] else outgoing[1..]
  }

  datatype Sent = Sent(ok: bool, bytes: seq<Byte>)

  /** What a send reports and what of the frame is on the wire: the header by one write, the body by another. A body
      write that throws leaves the length of the header behind as what was written of the body. */
  function Sending(no: nat, src: seq<Byte>, outgoing: seq<Write>): Sent {
    var head := Head(no, |src|);
    var h := Taken(outgoing, head);
    if h < HeadLen then Sent(false, head[..h])
    else if src == [] then Sent(true, head)
    else
      var rest := Later(outgoing);
      var b := Taken(rest, src);
      Sent((if Throws(rest) then HeadLen else b) == |src|, head + src[..b])
  }

  /** What is written is always a front part of the frame. */
  lemma SendsAFront(no: nat, src: seq<Byte>, outgoing: seq<Write>)
    ensures Sending(no, src, outgoing).bytes <= Frame(no, src)
  {
    hide Head;
    var head := Head(no, |src|);
    var b := Taken(Later(outgoing), src);
    assert Frame(no, src)[..HeadLen + b] == head + src[..b];
  }

  /** Success means that the frame is on the wire, but for one case: a body of exactly eight bytes whose write throws
      after the whole header was taken. Failure means that a part of the frame is missing. */
  lemma SuccessMeansSent(no: nat, src: seq<Byte>, outgoing: seq<Write>)
    ensures var sent := Sending(no, src, outgoing);
      var lost := |src| == 8 && !Throws(outgoing) && outgoing[0].size >= HeadLen && Throws(Later(outgoing));
      && (sent.ok && sent.bytes != Frame(no, src) <==> lost)
      && (lost ==> sent.bytes == Head(no, 8))
      && (!sent.ok ==> |sent.bytes| < |Frame(no, src)|)
      && (sent.bytes == Frame(no, src) ==> sent.ok)
  {
    hide Head;
    var head := Head(no, |src|);
    var b := Taken(Later(outgoing), src);
    assert b == |src| ==> head + src[..b] == Frame(no, src);
    assert |src| > b ==> |head + src[..b]| < |Frame(no, src)|;
  }

  /** The case that happens: eight bytes are reported as sent, and none of them is. */
  lemma UnsentReportedSent(no: nat)
    ensures Sending(no, [1, 2, 3, 4, 5, 6, 7, 8], [Takes(8), Fails]) == Sent(true, Head(no, 8))
  {
    hide Head;
    assert [Takes(8), Fails][1..] == [Fails];
    var head := Head(no, 8);
    assert head[..8] == head && head + [] == head;
  }

  // ------------------------------------------------------------ two sends on one socket

  /** The bytes go on as the header and then as themselves, eight bytes before. */
  predicate Echoes(a: seq<Byte>, head: seq<Byte>)
    requires |head| == HeadLen
  {
    forall i :: 0 <= i < |a| ==> EchoesAt(a, head, i)
  }

  predicate EchoesAt(a: seq<Byte>, head: seq<Byte>, i: nat)
    requires |head| == HeadLen && i < |a|
  {
    a[i] == if i < HeadLen then head[i] else a[i - HeadLen]
  }

  lemma EchoesExactly(a: seq<Byte>, head: seq<Byte>, b: seq<Byte>)
    requires |head| == HeadLen
    ensures (head + a + b)[..|a|] == a <==> Echoes(a, head)
  {
    var front := (head + a + b)[..|a|];
    forall i | 0 <= i < |a| ensures front[i] == a[i] <==> EchoesAt(a, head, i) {
    }
  }

  /** Two frames whose headers go out before their bodies: the first is read right exactly if its body echoes the second
      header. */
  lemma InterleavedFrames(no: nat, a: seq<Byte>, other: nat, b: seq<Byte>)
    requires no < TwoTo32 && |a| <= MaxBody
    ensures Next(Head(no, |a|) + Head(other, |b|) + a + b) == Packet(no, a) <==> Echoes(a, Head(other, |b|))
  {
    hide LengthIn, NumberIn, Head, Echoes;
    var behind := Head(other, |b|) + a + b;
    var stream := Head(no, |a|) + behind;
    assert Head(no, |a|) + Head(other, |b|) + a + b == stream;
    HeadReadBack(no, |a|, behind);
    NeededIs(|a|);
    assert stream[HeadLen..HeadLen + |a|] == behind[..|a|];
    EchoesExactly(a, Head(other, |b|), b);
  }

  datatype Reply = Returned(no: nat, body: seq<Byte>) | Threw

  /** The first packet of a row of frames. */
  lemma FirstFrame(packets: seq<(nat, seq<Byte>)>, rest: seq<Byte>)
    requires packets != [] && packets[0].0 < TwoTo32 && |packets[0].1| <= MaxBody
    ensures var stream := Frames(packets) + rest;
      Next(stream) == Packet(packets[0].0, packets[0].1) && |stream| >= HeadLen + |packets[0].1|
      && stream[HeadLen + |packets[0].1|..] == Frames(packets[1..]) + rest
  {
    hide Next, Head;
    var (no, body) := packets[0];
    var more := Frames(packets[1..]) + rest;
    assert Frames(packets) + rest == Frame(no, body) + more;
    FrameReadBack(no, body, more);
  }

  /** The header of a stream is in its first bytes. */
  lemma HeadOnly(front: seq<Byte>, stream: seq<Byte>)
    requires HeadLen <= |front| <= |stream| && front == stream[..|front|]
    ensures LengthIn(stream) == LengthIn(front) && NumberIn(stream) == NumberIn(front)
  {
    assert stream[..4] == front[..4] && stream[4..][..4] == front[4..][..4];
  }
}
