/** The packet format and the stream parser, as functions on byte strings. A packet is a
    24-byte head, laid out as a 64-bit little-endian compiler lays out `command_head`, and its
    data:

      0     kind of the data        8..16  size of the whole packet
      1     check of the data       16..18 main id
      2..8  padding                 18..20 sub id         20..24  padding
 */
module FramingSpec {
  import opened Bytes

  const HEAD: nat := 24
  const CAPACITY: nat := 16384

  datatype Message = Message(mainId: nat, subId: nat, data: seq<Byte>) {
    ghost predicate Valid() { mainId < 0x1_0000 && subId < 0x1_0000 && HEAD + |data| <= CAPACITY }
  }

  // ----- Numbers

  function Little(bs: seq<Byte>): nat {
    if bs == [] then 0 else bs[0] + 256 * Little(bs[1..])
  }

  function Digits(n: nat, k: nat): (bs: seq<Byte>)
    ensures |bs| == k
  {
    if k == 0 then [] else [n % 256] + Digits(n / 256, k - 1)
  }

  function Power(k: nat): nat { if k == 0 then 1 else 256 * Power(k - 1) }

  lemma {:induction false} LittleOfDigits(n: nat, k: nat)
    requires n < Power(k)
    ensures Little(Digits(n, k)) == n
  {
    if k > 0 {
      LittleOfDigits(n / 256, k - 1);
    }
  }

  // ----- Packets

  /** The bytes the sender does not set to anything: the padding of the head. */
  datatype Padding = Padding(first: seq<Byte>, last: seq<Byte>) {
    ghost predicate Valid() { |first| == 6 && |last| == 4 }
  }

  function Packet(m: Message, p: Padding): seq<Byte> {
    [0, 0] + p.first + Digits(HEAD + |m.data|, 8) + Digits(m.mainId, 2) + Digits(m.subId, 2) + p.last + m.data
  }

  function SizeField(b: seq<Byte>): nat
    requires |b| >= HEAD
  {
    Little(b[8..16])
  }

  /** The message in a packet. */
  function Unpacked(packet: seq<Byte>): Message
    requires |packet| >= HEAD
  {
    Message(Little(packet[16..18]), Little(packet[18..20]), packet[HEAD..])
  }

  /** The numbers of the head, byte by byte. */
  lemma HeadInBytes(b: seq<Byte>)
    requires |b| >= 24
    ensures HEAD == 24
    ensures SizeField(b) == Four(b[8..12]) + 0x1_0000_0000 * Four(b[12..16])
    ensures Unpacked(b) == Message(Two(b[16..18]), Two(b[18..20]), b[24..])
  {
    TwoDigits(b[16..18]);
    TwoDigits(b[18..20]);
    FourDigits(b[8..12]);
    FourDigits(b[12..16]);
    LittleInParts(b[8..12], b[12..16]);
    assert b[8..12] + b[12..16] == b[8..16];
    assert Power(4) == 0x1_0000_0000;
  }

  function Two(b: seq<Byte>): nat
    requires |b| == 2
  {
    (b[0] as int) + (b[1] as int) * 0x100
  }

  function Four(b: seq<Byte>): nat
    requires |b| == 4
  {
    Two(b[..2]) + 0x1_0000 * Two(b[2..])
  }

  lemma TwoDigits(b: seq<Byte>)
    requires |b| == 2
    ensures Little(b) == Two(b)
  {
    assert Little(b[1..][1..]) == 0;
    assert Little(b[1..]) == (b[1] as int);
  }

  lemma FourDigits(b: seq<Byte>)
    requires |b| == 4
    ensures Little(b) == Four(b)
  {
    TwoDigits(b[..2]);
    TwoDigits(b[2..]);
    LittleInParts(b[..2], b[2..]);
    assert b[..2] + b[2..] == b;
    assert Power(2) == 0x1_0000;
  }

  lemma {:induction false} LittleInParts(a: seq<Byte>, b: seq<Byte>)
    ensures Little(a + b) == Little(a) + Power(|a|) * Little(b)
  {
    if a == [] {
      assert a + b == b;
    } else {
      LittleInParts(a[1..], b);
      assert (a + b)[1..] == a[1..] + b;
      assert 256 * (Power(|a| - 1) * Little(b)) == Power(|a|) * Little(b);
    }
  }

  /** The bytes of a number that needs two of them. */
  lemma SmallDigits(n: nat, k: nat)
    requires n < 0x1_0000 && k >= 2
    ensures Digits(n, k)[0] == n % 256 && Digits(n, k)[1] == n / 256
    ensures forall i | 2 <= i < k :: Digits(n, k)[i] == 0
  {
    NoDigits(k - 2);
    assert Digits(n, k) == [n % 256] + Digits(n / 256, k - 1);
    assert Digits(n / 256, k - 1) == [n / 256] + Digits(0, k - 2);
  }

  lemma {:induction false} NoDigits(k: nat)
    ensures forall i | 0 <= i < k :: Digits(0, k)[i] == 0
  {
    if k > 0 {
      NoDigits(k - 1);
    }
  }

  /** The layout of a packet, place by place. */
  lemma PacketLayout(m: Message, p: Padding)
    requires m.Valid() && p.Valid()
    ensures var b := Packet(m, p);
      && |b| == 24 + |m.data| && b[0] == b[1] == 0 && b[2..8] == p.first
      && b[8] == (24 + |m.data|) % 256 && b[9] == (24 + |m.data|) / 256
      && (forall i | 10 <= i < 16 :: b[i] == 0)
      && b[16] == m.mainId % 256 && b[17] == m.mainId / 256
      && b[18] == m.subId % 256 && b[19] == m.subId / 256
      && b[20..24] == p.last && b[24..] == m.data
  {
    var size := Digits(HEAD + |m.data|, 8);
    SmallDigits(HEAD + |m.data|, 8);
    SmallDigits(m.mainId, 2);
    SmallDigits(m.subId, 2);
    assert Packet(m, p)[16..18] == Digits(m.mainId, 2) && Packet(m, p)[18..20] == Digits(m.subId, 2);
    assert Packet(m, p)[8..16] == size;
    forall i | 10 <= i < 16 ensures Packet(m, p)[i] == 0 {
      assert Packet(m, p)[i] == size[i - 8];
    }
  }

  /** A packet carries its own length and unpacks to its message, whatever the padding. */
  lemma PacketFields(m: Message, p: Padding)
    requires m.Valid() && p.Valid()
    ensures var b := Packet(m, p);
      |b| == HEAD + |m.data| && SizeField(b) == |b| && Unpacked(b) == m
  {
    var b := Packet(m, p);
    assert b[8..16] == Digits(HEAD + |m.data|, 8);
    assert b[16..18] == Digits(m.mainId, 2);
    assert b[18..20] == Digits(m.subId, 2);
    assert Power(2) == 0x1_0000 && Power(8) >= Power(2);
    LittleOfDigits(HEAD + |m.data|, 8);
    LittleOfDigits(m.mainId, 2);
    LittleOfDigits(m.subId, 2);
  }

  // ----- The parser

  datatype Status = Waiting | TooShort | TooLong

  /** What the loop takes off the front of `b`: whole packets, the bytes left, and why it
      stopped. */
  datatype Drained = Drained(packets: seq<seq<Byte>>, rest: seq<Byte>, status: Status)

  function HeadStatus(b: seq<Byte>): Status {
    if |b| < HEAD then Waiting
    else if SizeField(b) < HEAD then TooShort
    else if SizeField(b) > CAPACITY then TooLong
    else Waiting
  }

  /** The tests of the loop, in the numbers of the head. */
  lemma TestsInNumbers(b: seq<Byte>)
    ensures |b| < 24 ==> HeadStatus(b) == Waiting && !Ready(b)
    ensures |b| >= 24 ==>
      var n := Four(b[8..12]) + 0x1_0000_0000 * Four(b[12..16]);
      && HeadStatus(b) == (if n < 24 then TooShort else if n > 16384 then TooLong else Waiting)
      && (Ready(b) <==> 24 <= n <= 16384 && n <= |b|)
  {
    if |b| >= 24 {
      HeadInBytes(b);
    }
  }

  /** A whole packet stands at the front. */
  predicate Ready(b: seq<Byte>) {
    |b| >= HEAD && HeadStatus(b) == Waiting && SizeField(b) <= |b|
  }

  function Drain(b: seq<Byte>): Drained
    decreases |b|
  {
    if Ready(b) then
      var n := SizeField(b);
      var d := Drain(b[n..]);
      Drained([b[..n]] + d.packets, d.rest, d.status)
    else Drained([], b, HeadStatus(b))
  }

  /** The packets a call hands to its callback, the bytes kept for the next call, and the error
      thrown, if any. */
  datatype Fed = Fed(packets: seq<seq<Byte>>, rest: seq<Byte>, error: Error)

  datatype Error = NoError | Overflow | BadPacket

  function Feed(rest: seq<Byte>, chunk: seq<Byte>): (f: Fed)
    requires |rest| <= CAPACITY
    ensures |f.rest| <= CAPACITY
  {
    if |chunk| > CAPACITY - |rest| then Fed([], rest, Overflow)
    else
      var d := Drain(rest + chunk);
      DrainStops(rest + chunk);
      Fed(d.packets, d.rest, if d.status == Waiting then NoError else BadPacket)
  }

  // ----- Nothing is lost, nothing is made up

  function Join(packets: seq<seq<Byte>>): seq<Byte> {
    if packets == [] then [] else packets[0] + Join(packets[1..])
  }

  ghost predicate IsPacket(p: seq<Byte>) {
    HEAD <= |p| <= CAPACITY && SizeField(p) == |p|
  }

  lemma {:induction false} DrainTakesPackets(b: seq<Byte>)
    ensures forall i | 0 <= i < |Drain(b).packets| :: IsPacket(Drain(b).packets[i])
    decreases |b|
  {
    if Ready(b) {
      var n := SizeField(b);
      DrainTakesPackets(b[n..]);
      assert b[..n][8..16] == b[8..16];
    }
  }

  lemma {:induction false} DrainStops(b: seq<Byte>)
    ensures !Ready(Drain(b).rest) && Drain(b).status == HeadStatus(Drain(b).rest)
    ensures |Drain(b).rest| <= |b|
    decreases |b|
  {
    if Ready(b) {
      DrainStops(b[SizeField(b)..]);
    }
  }

  lemma {:induction false} DrainJoins(b: seq<Byte>)
    ensures Join(Drain(b).packets) + Drain(b).rest == b
    decreases |b|
  {
    if Ready(b) {
      var n := SizeField(b);
      DrainJoins(b[n..]);
      assert b == b[..n] + b[n..];
    } else {
      assert [] + b == b;
    }
  }

  /** Whatever the bytes are, the packets taken off and the bytes left make up the input, each
      packet is as long as its head says, and the rest has no whole packet in front. */
  lemma DrainConserves(b: seq<Byte>)
    ensures var d := Drain(b);
      && Join(d.packets) + d.rest == b
      && (forall i | 0 <= i < |d.packets| :: IsPacket(d.packets[i]))
      && !Ready(d.rest) && d.status == HeadStatus(d.rest)
  {
    DrainJoins(b);
    DrainTakesPackets(b);
    DrainStops(b);
  }

  /** Between calls less than a full buffer is kept, so the next byte always fits. */
  lemma {:induction false} RestLeavesRoom(b: seq<Byte>)
    requires Drain(b).status == Waiting
    ensures |Drain(b).rest| < CAPACITY
  {
    DrainStops(b);
  }

  // ----- Chunks

  lemma FrontDecides(a: seq<Byte>, b: seq<Byte>)
    requires |a| >= HEAD
    ensures SizeField(a + b) == SizeField(a) && HeadStatus(a + b) == HeadStatus(a)
    ensures Ready(a) ==> Ready(a + b)
  {
    assert (a + b)[8..16] == a[8..16];
  }

  lemma ReadyInParts(a: seq<Byte>, b: seq<Byte>)
    requires Ready(a)
    ensures var n, d := SizeField(a), Drain(a[SizeField(a)..] + b);
      Drain(a + b) == Drained([a[..n]] + d.packets, d.rest, d.status)
  {
    var n := SizeField(a);
    FrontDecides(a, b);
    assert (a + b)[n..] == a[n..] + b;
    assert (a + b)[..n] == a[..n];
  }

  /** Parsing `a` and then what it leaves with `b` comes to the same as parsing `a + b`. */
  ghost predicate InParts(a: seq<Byte>, b: seq<Byte>) {
    var d, e := Drain(a), Drain(Drain(a).rest + b);
    Drain(a + b) == Drained(d.packets + e.packets, e.rest, e.status)
  }

  lemma {:induction false} DrainReady(a: seq<Byte>)
    requires Ready(a)
    ensures var n := SizeField(a);
      Drain(a) == Drained([a[..n]] + Drain(a[n..]).packets, Drain(a[n..]).rest, Drain(a[n..]).status)
  {
  }

  lemma {:induction false} ReadyStep(a: seq<Byte>, b: seq<Byte>)
    requires Ready(a) && InParts(a[SizeField(a)..], b)
    ensures InParts(a, b)
  {
    var n := SizeField(a);
    DrainReady(a);
    ReadyInParts(a, b);
    var d := Drain(a[n..]);
    AddInFront([a[..n]], d.packets, Drain(d.rest + b).packets);
  }

  lemma AddInFront(first: seq<seq<Byte>>, d: seq<seq<Byte>>, e: seq<seq<Byte>>)
    ensures first + d + e == first + (d + e)
  {
  }

  lemma {:induction false} UnreadyStep(a: seq<Byte>, b: seq<Byte>)
    requires !Ready(a)
    ensures InParts(a, b)
  {
    var e := Drain(a + b);
    assert [] + e.packets == e.packets;
  }

  /** Parsing a string in two parts, whatever the bytes: what the first part left waits for the
      second, a bad head included. */
  lemma {:induction false} DrainInParts(a: seq<Byte>, b: seq<Byte>)
    ensures InParts(a, b)
    decreases |a|
  {
    if Ready(a) {
      DrainInParts(a[SizeField(a)..], b);
      ReadyStep(a, b);
    } else {
      UnreadyStep(a, b);
    }
  }

  /** The calls of a run, one chunk each, from an empty parser: everything handed out so far,
      what is kept, and the errors in order. */
  datatype Session = Session(packets: seq<seq<Byte>>, rest: seq<Byte>, errors: seq<Error>)

  function NewSession(): Session { Session([], [], []) }

  function Step(s: Session, chunk: seq<Byte>): (r: Session)
    requires |s.rest| <= CAPACITY
    ensures |r.rest| <= CAPACITY
  {
    var f := Feed(s.rest, chunk);
    Session(s.packets + f.packets, f.rest, s.errors + [f.error])
  }

  function FeedAll(s: Session, chunks: seq<seq<Byte>>): (r: Session)
    requires |s.rest| <= CAPACITY
    ensures |r.rest| <= CAPACITY
  {
    if chunks == [] then s else Step(FeedAll(s, chunks[..|chunks| - 1]), chunks[|chunks| - 1])
  }

  ghost predicate NoErrors(errors: seq<Error>) {
    forall i | 0 <= i < |errors| :: errors[i] == NoError
  }

  ghost predicate NoOverflow(errors: seq<Error>) {
    forall i | 0 <= i < |errors| :: errors[i] != Overflow
  }

  /** One call loses nothing, whether it throws or not: a chunk that fits is either handed out in
      packets or kept, and one that does not fit changes nothing. */
  lemma FeedConserves(rest: seq<Byte>, chunk: seq<Byte>)
    requires |rest| <= CAPACITY
    ensures var f := Feed(rest, chunk);
      && (f.error == Overflow <==> |rest| + |chunk| > 16384)
      && (f.error == Overflow ==> f.packets == [] && f.rest == rest)
      && (f.error != Overflow ==> Join(f.packets) + f.rest == rest + chunk && !Ready(f.rest))
      && (f.error == BadPacket ==> HeadStatus(f.rest) != Waiting)
      && (f.error == NoError ==> HeadStatus(f.rest) == Waiting)
      && forall i | 0 <= i < |f.packets| :: IsPacket(f.packets[i])
  {
    if |chunk| <= CAPACITY - |rest| {
      DrainConserves(rest + chunk);
    }
  }

  /** What a session has handed out and keeps is what one pass over `all` takes off and leaves. */
  ghost predicate Parses(s: Session, all: seq<Byte>) {
    Drain(all) == Drained(s.packets, s.rest, HeadStatus(s.rest))
  }

  lemma StepParses(s: Session, all: seq<Byte>, chunk: seq<Byte>)
    requires |s.rest| <= CAPACITY && Parses(s, all) && Feed(s.rest, chunk).error != Overflow
    ensures Parses(Step(s, chunk), all + chunk)
  {
    DrainInParts(all, chunk);
    DrainStops(s.rest + chunk);
  }

  lemma NoOverflowBefore(chunks: seq<seq<Byte>>)
    requires chunks != [] && NoOverflow(FeedAll(NewSession(), chunks).errors)
    ensures var front, c := chunks[..|chunks| - 1], chunks[|chunks| - 1];
      var s := FeedAll(NewSession(), front);
      NoOverflow(s.errors) && Feed(s.rest, c).error != Overflow
  {
    var front, c := chunks[..|chunks| - 1], chunks[|chunks| - 1];
    var s, t := FeedAll(NewSession(), front), FeedAll(NewSession(), chunks);
    assert forall i | 0 <= i < |s.errors| :: s.errors[i] == t.errors[i];
    assert t.errors[|s.errors|] == Feed(s.rest, c).error;
  }

  /** As long as every chunk fits, cutting a stream into chunks makes no difference: the calls have
      handed out what one pass over the joined bytes takes off, and keep what it leaves, also after
      a bad head. */
  lemma {:induction false} ChunkingIrrelevant(chunks: seq<seq<Byte>>)
    requires NoOverflow(FeedAll(NewSession(), chunks).errors)
    ensures Parses(FeedAll(NewSession(), chunks), Concat(chunks))
  {
    if chunks != [] {
      var front, c := chunks[..|chunks| - 1], chunks[|chunks| - 1];
      NoOverflowBefore(chunks);
      ChunkingIrrelevant(front);
      StepParses(FeedAll(NewSession(), front), Concat(front), c);
    }
  }

  /** A call throws for a bad packet exactly if a bad head is in front when it is done. */
  lemma LastError(chunks: seq<seq<Byte>>)
    requires chunks != [] && NoOverflow(FeedAll(NewSession(), chunks).errors)
    ensures var s := FeedAll(NewSession(), chunks);
      s.errors != [] && (s.errors[|s.errors| - 1] == NoError <==> HeadStatus(s.rest) == Waiting)
  {
    NoOverflowBefore(chunks);
    FeedConserves(FeedAll(NewSession(), chunks[..|chunks| - 1]).rest, chunks[|chunks| - 1]);
  }

  lemma WithoutErrors(chunks: seq<seq<Byte>>)
    requires NoErrors(FeedAll(NewSession(), chunks).errors)
    ensures var s := FeedAll(NewSession(), chunks);
      Drain(Concat(chunks)) == Drained(s.packets, s.rest, Waiting)
  {
    ChunkingIrrelevant(chunks);
    if chunks != [] {
      LastError(chunks);
    }
  }
}
