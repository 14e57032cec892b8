/** What whole streams and whole runs of the parser keep: every message arrives, in order and
    once, whatever the chunks; which chunk sizes are safe; and what one bad head does. */
module FramingRuns {
  import opened Numbers
  import opened Bytes
  import opened FramingSpec

  datatype Sent = Sent(message: Message, padding: Padding) {
    ghost predicate Valid() { message.Valid() && padding.Valid() }

    function Wire(): seq<Byte> { Packet(message, padding) }
  }

  ghost predicate AllValid(sent: seq<Sent>) {
    forall i | 0 <= i < |sent| :: sent[i].Valid()
  }

  function Wires(sent: seq<Sent>): seq<seq<Byte>> {
    if sent == [] then [] else [sent[0].Wire()] + Wires(sent[1..])
  }

  function Stream(sent: seq<Sent>): seq<Byte> {
    if sent == [] then [] else sent[0].Wire() + Stream(sent[1..])
  }

  function Messages(sent: seq<Sent>): seq<Message> {
    if sent == [] then [] else [sent[0].message] + Messages(sent[1..])
  }

  /** The messages in the packets the parser hands out. */
  function Unpack(packets: seq<seq<Byte>>): seq<Message> {
    if packets == [] then []
    else (if |packets[0]| >= HEAD then [Unpacked(packets[0])] else []) + Unpack(packets[1..])
  }

  lemma {:induction false} UnpackSnoc(packets: seq<seq<Byte>>, p: seq<Byte>)
    ensures Unpack(packets + [p]) == Unpack(packets) + (if |p| >= HEAD then [Unpacked(p)] else [])
  {
    if packets == [] {
    } else {
      UnpackSnoc(packets[1..], p);
      assert (packets + [p])[1..] == packets[1..] + [p];
    }
  }

  lemma {:induction false} UnpackWires(sent: seq<Sent>)
    requires AllValid(sent)
    ensures Unpack(Wires(sent)) == Messages(sent)
  {
    if sent != [] {
      PacketFields(sent[0].message, sent[0].padding);
      UnpackWires(sent[1..]);
    }
  }

  /** A stream of packets parses into those packets, with nothing left. */
  lemma {:induction false} DrainStream(sent: seq<Sent>)
    requires AllValid(sent)
    ensures Drain(Stream(sent)) == Drained(Wires(sent), [], Waiting)
  {
    if sent != [] {
      var w, tail := sent[0].Wire(), Stream(sent[1..]);
      PacketFields(sent[0].message, sent[0].padding);
      FrontDecides(w, tail);
      DrainStream(sent[1..]);
    }
  }

  /** Every message sent arrives, in order and exactly once, through any chunking that the
      parser accepts, and nothing stays behind. */
  lemma RoundTrip(sent: seq<Sent>, chunks: seq<seq<Byte>>)
    requires AllValid(sent) && Concat(chunks) == Stream(sent)
    requires NoErrors(FeedAll(NewSession(), chunks).errors)
    ensures Unpack(FeedAll(NewSession(), chunks).packets) == Messages(sent)
    ensures FeedAll(NewSession(), chunks).rest == []
  {
    WithoutErrors(chunks);
    DrainStream(sent);
    UnpackWires(sent);
  }

  // ----- Prefixes of a stream

  /** A bad head in front stays, whatever follows. */
  lemma BadStays(a: seq<Byte>, b: seq<Byte>)
    requires Drain(a).status != Waiting
    ensures Drain(a + b) == Drained(Drain(a).packets, Drain(a).rest + b, Drain(a).status)
  {
    DrainInParts(a, b);
    DrainStops(a);
    FrontDecides(Drain(a).rest, b);
  }

  ghost predicate IsPrefix(a: seq<Byte>, sent: seq<Sent>) {
    a <= Stream(sent)
  }

  /** Part of a stream never looks bad, its packets are the first ones of the stream, and what
      is left is the beginning of the next. */
  lemma PrefixParses(a: seq<Byte>, sent: seq<Sent>) returns (e: Drained)
    requires AllValid(sent) && IsPrefix(a, sent)
    ensures Drain(a).status == Waiting
    ensures Drain(a).packets + e.packets == Wires(sent)
    ensures e == Drain(Drain(a).rest + Stream(sent)[|a|..]) && e.rest == []
  {
    var b := Stream(sent)[|a|..];
    assert a + b == Stream(sent);
    DrainStream(sent);
    if Drain(a).status != Waiting {
      BadStays(a, b);
    }
    DrainInParts(a, b);
    e := Drain(Drain(a).rest + b);
  }

  /** No packet of the stream is longer than `m`. */
  ghost predicate PacketsUpTo(sent: seq<Sent>, m: nat) {
    forall i | 0 <= i < |sent| :: HEAD + |sent[i].message.data| <= m
  }

  lemma {:induction false} WiresUpTo(sent: seq<Sent>, m: nat)
    requires AllValid(sent) && PacketsUpTo(sent, m)
    ensures forall i | 0 <= i < |Wires(sent)| :: |Wires(sent)[i]| <= m
  {
    if sent != [] {
      WiresUpTo(sent[1..], m);
    }
  }

  /** What the parser keeps is shorter than the longest packet of the stream. */
  lemma RestIsShort(a: seq<Byte>, sent: seq<Sent>, m: nat)
    requires AllValid(sent) && IsPrefix(a, sent) && PacketsUpTo(sent, m) && m > 0
    ensures Drain(a).status == Waiting && |Drain(a).rest| < m
  {
    var e := PrefixParses(a, sent);
    var rest, b := Drain(a).rest, Stream(sent)[|a|..];
    WiresUpTo(sent, m);
    DrainTakesPackets(rest + b);
    DrainStops(a);
    if rest != [] {
      var p := e.packets[0];
      assert Wires(sent)[|Drain(a).packets|] == p;
      NotReadyIsShorter(rest, b, p);
    }
  }

  lemma NotReadyIsShorter(rest: seq<Byte>, b: seq<Byte>, p: seq<Byte>)
    requires !Ready(rest) && IsPacket(p) && p <= rest + b
    ensures |rest| < |p|
  {
    var n := Min(|rest|, |p|);
    assert rest[..n] == p[..n];
    if n >= HEAD {
      assert rest[..n][8..16] == rest[8..16] && p[..n][8..16] == p[8..16];
    }
  }

  // ----- Chunk sizes

  ghost predicate ChunksUpTo(chunks: seq<seq<Byte>>, c: nat) {
    forall i | 0 <= i < |chunks| :: |chunks[i]| <= c
  }

  /** If a chunk always fits beside an unfinished packet, no call throws. */
  lemma {:induction false} SafeChunks(sent: seq<Sent>, chunks: seq<seq<Byte>>, m: nat, c: nat)
    requires AllValid(sent) && IsPrefix(Concat(chunks), sent)
    requires PacketsUpTo(sent, m) && ChunksUpTo(chunks, c) && m > 0 && m + c <= CAPACITY + 1
    ensures NoErrors(FeedAll(NewSession(), chunks).errors)
  {
    if chunks != [] {
      var front, last := chunks[..|chunks| - 1], chunks[|chunks| - 1];
      SafeChunks(sent, front, m, c);
      WithoutErrors(front);
      RestIsShort(Concat(front), sent, m);
      RestIsShort(Concat(chunks), sent, m);
      DrainInParts(Concat(front), last);
    }
  }

  /** `k` copies of one packet of length `m`. */
  function Copies(m: nat, k: nat): seq<Sent>
    requires m >= HEAD
  {
    if k == 0 then [] else [Sent(Message(1, 1, Zeros(m - HEAD)), Padding(Zeros(6), Zeros(4)))] + Copies(m, k - 1)
  }

  lemma {:induction false} CopiesStream(m: nat, k: nat)
    requires HEAD <= m <= CAPACITY
    ensures AllValid(Copies(m, k)) && PacketsUpTo(Copies(m, k), m)
    ensures |Stream(Copies(m, k))| >= m * k
    ensures k > 0 ==> |Stream(Copies(m, k))| >= m && SizeField(Stream(Copies(m, k))) == m
  {
    if k > 0 {
      CopiesStream(m, k - 1);
      var all := Copies(m, k);
      PacketFields(all[0].message, all[0].padding);
      FrontDecides(all[0].Wire(), Stream(all[1..]));
    }
  }

  /** A byte string cut into single bytes. */
  function Singles(b: seq<Byte>): seq<seq<Byte>> {
    if b == [] then [] else Singles(b[..|b| - 1]) + [[b[|b| - 1]]]
  }

  lemma {:induction false} SinglesJoin(b: seq<Byte>)
    ensures Concat(Singles(b)) == b && ChunksUpTo(Singles(b), 1)
  {
    if b != [] {
      SinglesJoin(b[..|b| - 1]);
    }
  }

  /** All of the first packet but its last byte, fed byte by byte, is kept and nothing else. */
  lemma ByteByByte(sent: seq<Sent>, m: nat)
    requires HEAD <= m <= CAPACITY && AllValid(sent) && PacketsUpTo(sent, m)
    requires |Stream(sent)| >= m && SizeField(Stream(sent)) == m
    ensures Concat(Singles(Stream(sent)[..m - 1])) == Stream(sent)[..m - 1]
    ensures FeedAll(NewSession(), Singles(Stream(sent)[..m - 1])).rest == Stream(sent)[..m - 1]
  {
    var a := Stream(sent)[..m - 1];
    SinglesJoin(a);
    SafeChunks(sent, Singles(a), m, 1);
    WithoutErrors(Singles(a));
    UnfinishedWaits(Stream(sent), m);
  }

  lemma UnsafeWith(sent: seq<Sent>, m: nat, c: nat) returns (chunks: seq<seq<Byte>>)
    requires HEAD <= m <= CAPACITY && m + c > CAPACITY + 1 && AllValid(sent) && PacketsUpTo(sent, m)
    requires |Stream(sent)| >= m && |Stream(sent)| >= m - 1 + c && SizeField(Stream(sent)) == m
    ensures IsPrefix(Concat(chunks), sent) && ChunksUpTo(chunks, c)
    ensures Overflow in FeedAll(NewSession(), chunks).errors
  {
    var all := Stream(sent);
    ByteByByte(sent, m);
    chunks := CutNearEnd(all, m - 1, c);
  }

  lemma CutNearEnd(all: seq<Byte>, k: nat, c: nat) returns (chunks: seq<seq<Byte>>)
    requires k + c <= |all| && c > 0
    ensures chunks == Singles(all[..k]) + [all[k..k + c]]
    ensures Concat(chunks) <= all && ChunksUpTo(chunks, c)
  {
    SinglesJoin(all[..k]);
    chunks := Singles(all[..k]) + [all[k..k + c]];
    ConcatSnoc(Singles(all[..k]), all[k..k + c]);
    assert all[..k] + all[k..k + c] == all[..k + c];
  }

  /** Otherwise some stream of such packets, cut into such chunks, makes a call throw: all of a
      packet but its last byte, byte by byte, and then one full chunk. */
  lemma UnsafeChunks(m: nat, c: nat) returns (sent: seq<Sent>, chunks: seq<seq<Byte>>)
    requires HEAD <= m <= CAPACITY && m + c > CAPACITY + 1
    ensures AllValid(sent) && IsPrefix(Concat(chunks), sent) && PacketsUpTo(sent, m) && ChunksUpTo(chunks, c)
    ensures Overflow in FeedAll(NewSession(), chunks).errors
  {
    var k := c + 1;
    sent := Copies(m, k);
    CopiesStream(m, k);
    LongEnough(m, c);
    chunks := UnsafeWith(sent, m, c);
  }

  lemma LongEnough(m: nat, c: nat)
    requires m >= 1
    ensures m * (c + 1) >= m - 1 + c
  {
  }

  lemma UnfinishedWaits(all: seq<Byte>, m: nat)
    requires HEAD <= m <= |all| && SizeField(all) == m
    ensures Drain(all[..m - 1]).packets == [] && Drain(all[..m - 1]).rest == all[..m - 1]
  {
    if m - 1 >= HEAD {
      assert all[..m - 1][8..16] == all[8..16];
    }
  }

  /** The parser accepts every stream of packets of up to `m` bytes in every cutting into chunks
      of up to `c` bytes exactly when `m + c` is at most one more than its capacity. */
  lemma ChunkSizesSafeIff(m: nat, c: nat)
    requires HEAD <= m <= CAPACITY
    ensures (forall sent, chunks |
               AllValid(sent) && IsPrefix(Concat(chunks), sent) && PacketsUpTo(sent, m) && ChunksUpTo(chunks, c)
               :: NoErrors(FeedAll(NewSession(), chunks).errors))
       <==> m + c <= CAPACITY + 1
  {
    if m + c <= CAPACITY + 1 {
      forall sent, chunks |
        AllValid(sent) && IsPrefix(Concat(chunks), sent) && PacketsUpTo(sent, m) && ChunksUpTo(chunks, c)
        ensures NoErrors(FeedAll(NewSession(), chunks).errors)
      {
        SafeChunks(sent, chunks, m, c);
      }
    } else {
      var sent, chunks := UnsafeChunks(m, c);
      var errors := FeedAll(NewSession(), chunks).errors;
      var i :| 0 <= i < |errors| && errors[i] == Overflow;
    }
  }

  // ----- After an error

  /** A chunk is refused exactly if it does not fit, and then everything goes on as if it had
      never been handed in. */
  lemma {:induction false} OverflowLeavesNoTrace(s: Session, chunk: seq<Byte>, more: seq<seq<Byte>>)
    requires |s.rest| <= CAPACITY
    ensures Feed(s.rest, chunk).error == Overflow <==> |chunk| > CAPACITY - |s.rest|
    ensures Feed(s.rest, chunk).error == Overflow ==>
      var with, without := FeedAll(Step(s, chunk), more), FeedAll(s, more);
      && with.packets == without.packets && with.rest == without.rest
      && s.errors <= without.errors
      && with.errors == s.errors + [Overflow] + without.errors[|s.errors|..]
  {
    if more == [] {
      assert s.errors[|s.errors|..] == [];
    } else {
      OverflowLeavesNoTrace(s, chunk, more[..|more| - 1]);
    }
  }

  lemma DrainBadTail(sent: seq<Sent>, bad: seq<Byte>)
    requires AllValid(sent) && HeadStatus(bad) != Waiting
    ensures Drain(Stream(sent) + bad) == Drained(Wires(sent), bad, HeadStatus(bad))
  {
    DrainStream(sent);
    DrainInParts(Stream(sent), bad);
    assert [] + bad == bad;
    assert Wires(sent) + [] == Wires(sent);
  }

  /** Before a call throws for a bad head it hands out every message that stands in front of it. */
  lemma MessagesBeforeBadHead(rest: seq<Byte>, chunk: seq<Byte>, sent: seq<Sent>, bad: seq<Byte>)
    requires AllValid(sent) && HeadStatus(bad) != Waiting
    requires |rest| + |chunk| <= CAPACITY && rest + chunk == Stream(sent) + bad
    ensures var f := Feed(rest, chunk);
      Unpack(f.packets) == Messages(sent) && f.rest == bad && f.error == BadPacket
  {
    DrainBadTail(sent, bad);
    UnpackWires(sent);
  }

  /** The same over many calls: the messages in front of a bad head all arrive, in order and once,
      in whatever chunks they come, and nothing behind them does. */
  lemma RoundTripToBadHead(sent: seq<Sent>, bad: seq<Byte>, chunks: seq<seq<Byte>>)
    requires AllValid(sent) && HeadStatus(bad) != Waiting && Concat(chunks) == Stream(sent) + bad
    requires NoOverflow(FeedAll(NewSession(), chunks).errors)
    ensures var s := FeedAll(NewSession(), chunks);
      && Unpack(s.packets) == Messages(sent) && s.rest == bad
      && s.errors != [] && s.errors[|s.errors| - 1] == BadPacket
  {
    ChunkingIrrelevant(chunks);
    DrainBadTail(sent, bad);
    UnpackWires(sent);
    assert bad != [];
    LastError(chunks);
    var s := FeedAll(NewSession(), chunks);
    assert s.errors[|s.errors| - 1] != Overflow;
  }

  /** After a bad head every further call throws and hands out nothing, for ever. */
  lemma {:induction false} BadPacketIsForever(s: Session, chunks: seq<seq<Byte>>)
    requires |s.rest| <= CAPACITY && HeadStatus(s.rest) != Waiting
    ensures var t := FeedAll(s, chunks);
      && t.packets == s.packets && s.rest <= t.rest && |t.errors| == |s.errors| + |chunks|
      && forall i | |s.errors| <= i < |t.errors| :: t.errors[i] != NoError
  {
    if chunks != [] {
      var front, last := chunks[..|chunks| - 1], chunks[|chunks| - 1];
      BadPacketIsForever(s, front);
      var t := FeedAll(s, front);
      FrontDecides(s.rest, t.rest[|s.rest|..]);
      assert s.rest + t.rest[|s.rest|..] == t.rest;
      FrontDecides(t.rest, last);
    }
  }

  /** That is the state the first `BadPacket` leaves the parser in. */
  lemma BadPacketLeavesBadHead(s: Session, chunk: seq<Byte>)
    requires |s.rest| <= CAPACITY
    ensures Feed(s.rest, chunk).error == BadPacket ==> HeadStatus(Step(s, chunk).rest) != Waiting
  {
    DrainStops(s.rest + chunk);
  }
}
