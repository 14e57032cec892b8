/** One parser for all connections: the server engine hands the chunks of every client to the same
    parser, and names as the sender of a packet the client whose chunk ended it. */
module SharedParser {
  import opened Bytes
  import opened FramingSpec
  import opened FramingRuns

  type Client = nat

  datatype Arrival = Arrival(client: Client, chunk: seq<Byte>)

  /** A packet as the engine hands it on. */
  datatype Delivery = Delivery(client: Client, packet: seq<Byte>)

  datatype Engine = Engine(rest: seq<Byte>, out: seq<Delivery>, errors: seq<Error>)

  function InNameOf(packets: seq<seq<Byte>>, c: Client): seq<Delivery> {
    seq(|packets|, i requires 0 <= i < |packets| => Delivery(c, packets[i]))
  }

  function Received(e: Engine, a: Arrival): (r: Engine)
    requires |e.rest| <= CAPACITY
    ensures |r.rest| <= CAPACITY
  {
    var f := Feed(e.rest, a.chunk);
    Engine(f.rest, e.out + InNameOf(f.packets, a.client), e.errors + [f.error])
  }

  function Serve(arrivals: seq<Arrival>): (r: Engine)
    ensures |r.rest| <= CAPACITY
  {
    if arrivals == [] then Engine([], [], [])
    else Received(Serve(arrivals[..|arrivals| - 1]), arrivals[|arrivals| - 1])
  }

  /** The sender changes only when the parser keeps nothing. */
  ghost predicate CleanSwitches(arrivals: seq<Arrival>) {
    forall k | 0 < k < |arrivals| && arrivals[k].client != arrivals[k - 1].client :: Serve(arrivals[..k]).rest == []
  }

  // ----- A parser for each client

  function ChunksOf(arrivals: seq<Arrival>, c: Client): seq<seq<Byte>> {
    if arrivals == [] then []
    else
      var last := arrivals[|arrivals| - 1];
      ChunksOf(arrivals[..|arrivals| - 1], c) + (if last.client == c then [last.chunk] else [])
  }

  function PacketsOf(out: seq<Delivery>, c: Client): seq<seq<Byte>> {
    if out == [] then []
    else
      var last := out[|out| - 1];
      PacketsOf(out[..|out| - 1], c) + (if last.client == c then [last.packet] else [])
  }

  lemma {:induction false} PacketsOfMore(out: seq<Delivery>, packets: seq<seq<Byte>>, d: Client, c: Client)
    ensures PacketsOf(out + InNameOf(packets, d), c) == PacketsOf(out, c) + if c == d then packets else []
  {
    if packets == [] {
      assert out + InNameOf(packets, d) == out;
    } else {
      var k := |packets| - 1;
      PacketsOfMore(out, packets[..k], d, c);
      var all := out + InNameOf(packets, d);
      assert all[..|all| - 1] == out + InNameOf(packets[..k], d);
    }
  }

  /** What a parser of its own would have made of the chunks of `c`. */
  function Own(arrivals: seq<Arrival>, c: Client): Session {
    FeedAll(NewSession(), ChunksOf(arrivals, c))
  }

  lemma {:induction false} OwnStep(front: seq<Arrival>, a: Arrival, c: Client)
    ensures Own(front + [a], c) == if a.client == c then Step(Own(front, c), a.chunk) else Own(front, c)
  {
    assert (front + [a])[..|front|] == front;
    var before, chunks := ChunksOf(front, c), ChunksOf(front + [a], c);
    assert chunks == before + if a.client == c then [a.chunk] else [];
    if a.client == c {
      assert chunks[..|chunks| - 1] == before;
    } else {
      assert chunks == before;
    }
  }

  lemma {:induction false} PrefixesClean(arrivals: seq<Arrival>)
    requires arrivals != [] && CleanSwitches(arrivals)
    ensures CleanSwitches(arrivals[..|arrivals| - 1])
    ensures var front, a := arrivals[..|arrivals| - 1], arrivals[|arrivals| - 1];
      && front + [a] == arrivals
      && (front != [] && front[|front| - 1].client != a.client ==> Serve(front).rest == [])
  {
    var front := arrivals[..|arrivals| - 1];
    forall k | 0 < k < |front| && front[k].client != front[k - 1].client ensures Serve(front[..k]).rest == [] {
      assert front[..k] == arrivals[..k];
    }
  }

  /** What the shared parser did for `c` is what a parser of its own would have done. */
  ghost predicate Separate(arrivals: seq<Arrival>, c: Client) {
    && PacketsOf(Serve(arrivals).out, c) == Own(arrivals, c).packets
    && Own(arrivals, c).rest ==
       if arrivals != [] && arrivals[|arrivals| - 1].client == c then Serve(arrivals).rest else []
  }

  lemma {:induction false} SeparateStep(front: seq<Arrival>, a: Arrival, c: Client)
    requires Separate(front, c)
    requires front != [] && front[|front| - 1].client != a.client ==> Serve(front).rest == []
    ensures Separate(front + [a], c)
  {
    assert (front + [a])[..|front|] == front;
    OwnStep(front, a, c);
    PacketsOfMore(Serve(front).out, Feed(Serve(front).rest, a.chunk).packets, a.client, c);
  }

  /** As long as the sender changes only when nothing is kept, the shared parser does for every
      client what a parser of its own would do, errors or not; what it keeps belongs to the last
      sender. */
  lemma {:induction false} AsIfSeparate(arrivals: seq<Arrival>, c: Client)
    requires CleanSwitches(arrivals)
    ensures Separate(arrivals, c)
  {
    if arrivals != [] {
      var front := arrivals[..|arrivals| - 1];
      PrefixesClean(arrivals);
      AsIfSeparate(front, c);
      SeparateStep(front, arrivals[|arrivals| - 1], c);
    }
  }

  /** Then the messages of every client arrive complete, in order and in its name. */
  lemma {:induction false} ClientsArrive(arrivals: seq<Arrival>, c: Client, sent: seq<Sent>)
    requires CleanSwitches(arrivals) && AllValid(sent)
    requires Concat(ChunksOf(arrivals, c)) == Stream(sent) && NoErrors(Own(arrivals, c).errors)
    ensures Unpack(PacketsOf(Serve(arrivals).out, c)) == Messages(sent)
  {
    AsIfSeparate(arrivals, c);
    RoundTrip(sent, ChunksOf(arrivals, c));
  }

  /** Whatever was kept, and whether the call throws or not, the packets it hands on are handed on
      for the client whose chunk it was, and are those the parser takes off. */
  lemma {:induction false} NamedByEnder(front: seq<Arrival>, a: Arrival)
    ensures var e, r := Serve(front), Serve(front + [a]);
      && e.out <= r.out && |r.out| - |e.out| == |Feed(e.rest, a.chunk).packets|
      && forall i | |e.out| <= i < |r.out| ::
           r.out[i].client == a.client && r.out[i].packet == Feed(e.rest, a.chunk).packets[i - |e.out|]
  {
    assert (front + [a])[..|front|] == front;
  }

  // ----- Whose bytes a packet is made of

  function Chunks(arrivals: seq<Arrival>): seq<seq<Byte>> {
    if arrivals == [] then [] else Chunks(arrivals[..|arrivals| - 1]) + [arrivals[|arrivals| - 1].chunk]
  }

  /** The client that sent each byte of the joined chunks. */
  function Senders(arrivals: seq<Arrival>): (cs: seq<Client>)
    ensures |cs| == |Concat(Chunks(arrivals))|
  {
    if arrivals == [] then []
    else
      var last := arrivals[|arrivals| - 1];
      Senders(arrivals[..|arrivals| - 1]) + seq(|last.chunk|, _ => last.client)
  }

  function Packets(out: seq<Delivery>): seq<seq<Byte>> {
    seq(|out|, i requires 0 <= i < |out| => out[i].packet)
  }

  /** The bytes handed on so far. */
  function Size(out: seq<Delivery>): nat {
    if out == [] then 0 else Size(out[..|out| - 1]) + |out[|out| - 1].packet|
  }

  ghost predicate AllFrom(senders: seq<Client>, from: nat, to: nat, c: Client) {
    forall i | from <= i < to && i < |senders| :: senders[i] == c
  }

  /** Every packet consists of bytes of the client it is handed on as the packet of. */
  ghost predicate Unmixed(out: seq<Delivery>, senders: seq<Client>) {
    out != [] ==>
      var front, last := out[..|out| - 1], out[|out| - 1];
      Unmixed(front, senders) && AllFrom(senders, Size(front), Size(out), last.client)
  }

  lemma {:induction false} ServeFeeds(arrivals: seq<Arrival>)
    ensures var e, s := Serve(arrivals), FeedAll(NewSession(), Chunks(arrivals));
      Packets(e.out) == s.packets && e.rest == s.rest && e.errors == s.errors
  {
    if arrivals != [] {
      var front, a := arrivals[..|arrivals| - 1], arrivals[|arrivals| - 1];
      ServeFeeds(front);
      var chunks := Chunks(arrivals);
      assert chunks[..|chunks| - 1] == Chunks(front);
    }
  }

  lemma {:induction false} SizeIsJoin(out: seq<Delivery>)
    ensures Size(out) == |Join(Packets(out))|
  {
    if out != [] {
      var front := out[..|out| - 1];
      SizeIsJoin(front);
      JoinSnoc(Packets(front), out[|out| - 1].packet);
      assert Packets(out) == Packets(front) + [out[|out| - 1].packet];
    }
  }

  lemma {:induction false} JoinSnoc(packets: seq<seq<Byte>>, p: seq<Byte>)
    ensures Join(packets + [p]) == Join(packets) + p
  {
    if packets == [] {
      assert [p][1..] == [];
    } else {
      JoinSnoc(packets[1..], p);
      assert (packets + [p])[1..] == packets[1..] + [p];
    }
  }

  /** The bytes handed on and the bytes kept are the bytes received. */
  lemma {:induction false} NothingMissing(arrivals: seq<Arrival>)
    requires NoErrors(Serve(arrivals).errors)
    ensures Size(Serve(arrivals).out) + |Serve(arrivals).rest| == |Senders(arrivals)|
    ensures Drain(Concat(Chunks(arrivals))) == Drained(Packets(Serve(arrivals).out), Serve(arrivals).rest, Waiting)
  {
    ServeFeeds(arrivals);
    WithoutErrors(Chunks(arrivals));
    DrainConserves(Concat(Chunks(arrivals)));
    SizeIsJoin(Serve(arrivals).out);
  }

  lemma {:induction false} UnmixedLonger(out: seq<Delivery>, senders: seq<Client>, more: seq<Client>)
    requires Unmixed(out, senders) && Size(out) <= |senders|
    ensures Unmixed(out, senders + more)
  {
    if out != [] {
      UnmixedLonger(out[..|out| - 1], senders, more);
    }
  }

  lemma {:induction false} UnmixedMore(out: seq<Delivery>, packets: seq<seq<Byte>>, c: Client, senders: seq<Client>)
    requires Unmixed(out, senders) && AllFrom(senders, Size(out), |senders|, c)
    ensures Unmixed(out + InNameOf(packets, c), senders) && Size(out + InNameOf(packets, c)) >= Size(out)
  {
    if packets == [] {
      assert out + InNameOf(packets, c) == out;
    } else {
      var k := |packets| - 1;
      UnmixedMore(out, packets[..k], c, senders);
      var all := out + InNameOf(packets, c);
      assert all[..|all| - 1] == out + InNameOf(packets[..k], c);
    }
  }

  /** The packets handed on are unmixed, and what is kept is all from the last sender. */
  ghost predicate Sorted(arrivals: seq<Arrival>) {
    var out, senders := Serve(arrivals).out, Senders(arrivals);
    && Unmixed(out, senders)
    && (arrivals != [] ==> AllFrom(senders, Size(out), |senders|, arrivals[|arrivals| - 1].client))
  }

  lemma {:induction false} SortedStep(front: seq<Arrival>, a: Arrival)
    requires NoErrors(Serve(front).errors) && Sorted(front)
    requires front != [] && front[|front| - 1].client != a.client ==> Serve(front).rest == []
    ensures Sorted(front + [a])
  {
    var e, senders := Serve(front), Senders(front + [a]);
    assert (front + [a])[..|front|] == front;
    NothingMissing(front);
    UnmixedLonger(e.out, Senders(front), seq(|a.chunk|, _ => a.client));
    assert AllFrom(senders, Size(e.out), |senders|, a.client);
    UnmixedMore(e.out, Feed(e.rest, a.chunk).packets, a.client, senders);
  }

  lemma {:induction false} CleanIsSorted(arrivals: seq<Arrival>)
    requires CleanSwitches(arrivals) && NoErrors(Serve(arrivals).errors)
    ensures Sorted(arrivals)
  {
    if arrivals != [] {
      var front := arrivals[..|arrivals| - 1];
      PrefixesClean(arrivals);
      FewerErrors(arrivals);
      CleanIsSorted(front);
      SortedStep(front, arrivals[|arrivals| - 1]);
    }
  }

  lemma {:induction false} FewerErrors(arrivals: seq<Arrival>)
    requires arrivals != [] && NoErrors(Serve(arrivals).errors)
    ensures NoErrors(Serve(arrivals[..|arrivals| - 1]).errors)
  {
    var e, r := Serve(arrivals[..|arrivals| - 1]), Serve(arrivals);
    forall i | 0 <= i < |e.errors| ensures e.errors[i] == NoError {
      assert r.errors[i] == e.errors[i];
    }
  }

  lemma {:induction false} PrefixServed(arrivals: seq<Arrival>, k: nat)
    requires k <= |arrivals| && NoErrors(Serve(arrivals).errors)
    ensures NoErrors(Serve(arrivals[..k]).errors)
    ensures Serve(arrivals[..k]).out <= Serve(arrivals).out
  {
    if k == |arrivals| {
      assert arrivals[..k] == arrivals;
    } else {
      var front := arrivals[..|arrivals| - 1];
      FewerErrors(arrivals);
      PrefixServed(front, k);
      assert front[..k] == arrivals[..k];
    }
  }

  lemma {:induction false} SendersOfPrefix(arrivals: seq<Arrival>, k: nat)
    requires k <= |arrivals|
    ensures Senders(arrivals[..k]) <= Senders(arrivals)
  {
    if k == |arrivals| {
      assert arrivals[..k] == arrivals;
    } else {
      SendersOfPrefix(arrivals[..|arrivals| - 1], k);
      assert arrivals[..|arrivals| - 1][..k] == arrivals[..k];
    }
  }

  lemma {:induction false} UnmixedAt(out: seq<Delivery>, senders: seq<Client>, j: nat)
    requires Unmixed(out, senders) && j < |out|
    ensures Size(out[..j]) + |out[j].packet| <= Size(out)
    ensures AllFrom(senders, Size(out[..j]), Size(out[..j]) + |out[j].packet|, out[j].client)
  {
    if j < |out| - 1 {
      UnmixedAt(out[..|out| - 1], senders, j);
      assert out[..|out| - 1][..j] == out[..j];
    }
  }

  lemma {:induction false} SendersSnoc(front: seq<Arrival>, a: Arrival)
    requires a.chunk != []
    ensures var n, all := |Senders(front)|, Senders(front + [a]);
      |all| == n + |a.chunk| && all[..n] == Senders(front) && all[n] == all[|all| - 1] == a.client
  {
    assert (front + [a])[..|front|] == front;
  }

  lemma {:induction false} NextSender(arrivals: seq<Arrival>, k: nat)
    requires k < |arrivals| && arrivals[k].chunk != []
    ensures var q := |Senders(arrivals[..k])|;
      q < |Senders(arrivals)| && Senders(arrivals)[q] == arrivals[k].client
  {
    assert arrivals[..k] + [arrivals[k]] == arrivals[..k + 1];
    SendersSnoc(arrivals[..k], arrivals[k]);
    SendersOfPrefix(arrivals, k + 1);
  }

  lemma {:induction false} LastSender(arrivals: seq<Arrival>, k: nat)
    requires 0 < k <= |arrivals| && arrivals[k - 1].chunk != []
    ensures var q := |Senders(arrivals[..k])|;
      0 < q <= |Senders(arrivals)| && Senders(arrivals)[q - 1] == arrivals[k - 1].client
  {
    assert arrivals[..k - 1] + [arrivals[k - 1]] == arrivals[..k];
    SendersSnoc(arrivals[..k - 1], arrivals[k - 1]);
    SendersOfPrefix(arrivals, k);
  }

  lemma {:induction false} ChunksInParts(arrivals: seq<Arrival>, k: nat) returns (later: seq<Byte>)
    requires k <= |arrivals|
    ensures Concat(Chunks(arrivals)) == Concat(Chunks(arrivals[..k])) + later
  {
    if k == |arrivals| {
      assert arrivals[..k] == arrivals;
      later := [];
    } else {
      later := ChunksInParts(arrivals[..|arrivals| - 1], k);
      assert arrivals[..|arrivals| - 1][..k] == arrivals[..k];
      ConcatSnoc(Chunks(arrivals[..|arrivals| - 1]), arrivals[|arrivals| - 1].chunk);
      later := later + arrivals[|arrivals| - 1].chunk;
    }
  }

  /** The packet that is unfinished after `k` arrivals ends in a later one. */
  lemma {:induction false} UnfinishedPacket(arrivals: seq<Arrival>, k: nat)
    requires k <= |arrivals| && NoErrors(Serve(arrivals).errors) && Serve(arrivals).rest == []
    requires Serve(arrivals[..k]).rest != []
    ensures var j, out := |Serve(arrivals[..k]).out|, Serve(arrivals).out;
      j < |out| && |out[j].packet| > |Serve(arrivals[..k]).rest|
  {
    var e, r := Serve(arrivals[..k]), Serve(arrivals);
    PrefixServed(arrivals, k);
    NothingMissing(arrivals[..k]);
    NothingMissing(arrivals);
    var later := ChunksInParts(arrivals, k);
    DrainInParts(Concat(Chunks(arrivals[..k])), later);
    var d := Drain(e.rest + later);
    assert Packets(r.out) == Packets(e.out) + d.packets && d.rest == [];
    DrainTakesPackets(e.rest + later);
    DrainStops(Concat(Chunks(arrivals[..k])));
    var p := d.packets[0];
    assert Packets(r.out)[|e.out|] == p;
    NotReadyIsShorter(e.rest, later, p);
  }

  lemma {:induction false} SwitchIsInside(arrivals: seq<Arrival>, k: nat)
    requires NoErrors(Serve(arrivals).errors) && Serve(arrivals).rest == []
    requires k <= |arrivals| && Serve(arrivals[..k]).rest != []
    ensures var j, q, out := |Serve(arrivals[..k]).out|, |Senders(arrivals[..k])|, Serve(arrivals).out;
      j < |out| && Size(out[..j]) < q < Size(out[..j]) + |out[j].packet|
  {
    PrefixServed(arrivals, k);
    NothingMissing(arrivals[..k]);
    UnfinishedPacket(arrivals, k);
    assert Serve(arrivals).out[..|Serve(arrivals[..k]).out|] == Serve(arrivals[..k]).out;
  }

  lemma {:induction false} DirtySwitchMixes(arrivals: seq<Arrival>, k: nat)
    requires NoErrors(Serve(arrivals).errors) && Serve(arrivals).rest == []
    requires 0 < k < |arrivals| && arrivals[k].client != arrivals[k - 1].client
    requires arrivals[k - 1].chunk != [] && arrivals[k].chunk != [] && Serve(arrivals[..k]).rest != []
    ensures !Unmixed(Serve(arrivals).out, Senders(arrivals))
  {
    SwitchIsInside(arrivals, k);
    LastSender(arrivals, k);
    NextSender(arrivals, k);
    MixedAt(Serve(arrivals).out, Senders(arrivals), |Serve(arrivals[..k]).out|, |Senders(arrivals[..k])|);
  }

  lemma {:induction false} MixedAt(out: seq<Delivery>, senders: seq<Client>, j: nat, q: nat)
    requires j < |out| && Size(out[..j]) < q < Size(out[..j]) + |out[j].packet|
    requires q < |senders| && senders[q - 1] != senders[q]
    ensures !Unmixed(out, senders)
  {
    if Unmixed(out, senders) {
      UnmixedAt(out, senders, j);
    }
  }

  /** Once everything received has been handed on, each packet consists of bytes of the client it
      was handed on for exactly if the sender changed only when nothing was kept. */
  lemma {:induction false} RightNamesIff(arrivals: seq<Arrival>)
    requires NoErrors(Serve(arrivals).errors) && Serve(arrivals).rest == []
    requires forall a | a in arrivals :: a.chunk != []
    ensures Unmixed(Serve(arrivals).out, Senders(arrivals)) <==> CleanSwitches(arrivals)
  {
    if CleanSwitches(arrivals) {
      CleanIsSorted(arrivals);
    } else {
      var k :| 0 < k < |arrivals| && arrivals[k].client != arrivals[k - 1].client && Serve(arrivals[..k]).rest != [];
      DirtySwitchMixes(arrivals, k);
    }
  }

  /** One client's packet is ended by bytes of another: it is handed on as the other's. */
  lemma {:induction false} OtherEndsPacket(p: seq<Byte>, k: nat, x: seq<Byte>, c: Client, d: Client)
    requires IsPacket(p) && HEAD <= k < |p| && |x| == |p| - k
    ensures Serve([Arrival(c, p[..k]), Arrival(d, x)]) == Engine([], [Delivery(d, p[..k] + x)], [NoError, NoError])
  {
    var both := [Arrival(c, p[..k]), Arrival(d, x)];
    assert p[..k][8..16] == p[8..16];
    assert both[..1][..0] == [] && Serve(both[..0]) == Engine([], [], []);
    assert [] + p[..k] == p[..k];
    assert Serve(both[..1]) == Engine(p[..k], [], [NoError]);
    var b := p[..k] + x;
    FrontDecides(p[..k], x);
    assert b[|b|..] == [] && b[..|b|] == b;
    assert Drain(b) == Drained([b], [], Waiting);
  }
}
