/** Sending a buffer through a socket that takes it in pieces: `async_write` offers the whole
    buffer once, and each completion commits what was taken and offers the rest. */
module SocketWrite {
  import opened Numbers
  import opened Bytes
  import S = BufferSpec

  /** How one `async_write_some` ended: the bytes taken, and whether there was an error. */
  datatype Completion = Completion(count: nat, error: bool)

  /** `offered` is where the outstanding operation reads from; `report` is what the caller's
      handler was told, once it was. */
  datatype Sending = Sending(buffer: S.Buffer, offered: nat, wire: seq<Byte>, report: Report)

  datatype Report = Running | Ended(error: bool, count: nat)

  function Begin(buffer: S.Buffer): Sending {
    Sending(buffer, 0, [], Running)
  }

  /** A socket takes at most what it is offered. */
  ghost predicate Possible(s: Sending, c: Completion) {
    s.report == Running && s.offered <= |s.buffer.bytes| && c.count <= |s.buffer.bytes| - s.offered
  }

  /** `handler_write` */
  function Completed(s: Sending, c: Completion): Sending
    requires Possible(s, c)
  {
    var b := S.Committed(s.buffer, c.count);
    var wire := s.wire + s.buffer.bytes[s.offered..s.offered + c.count];
    if c.error || c.count == 0 || b.pos >= |b.bytes| then
      Sending(b, s.offered, wire, Ended(c.error, if c.count != 0 then b.pos else c.count))
    else Sending(b, b.pos, wire, Running)
  }

  ghost predicate PossibleRun(s: Sending, cs: seq<Completion>)
    decreases |cs|, 0
  {
    cs == [] || (PossibleRun(s, cs[..|cs| - 1]) && Possible(After(s, cs[..|cs| - 1]), cs[|cs| - 1]))
  }

  ghost function After(s: Sending, cs: seq<Completion>): Sending
    requires PossibleRun(s, cs)
    decreases |cs|, 1
  {
    if cs == [] then s else Completed(After(s, cs[..|cs| - 1]), cs[|cs| - 1])
  }

  /** The report that reads as success: no error, and as many bytes as the buffer has. */
  predicate ReportsAll(s: Sending) {
    s.report == Ended(false, |s.buffer.bytes|)
  }

  /** What holds after at least one completion: the first one took a prefix, every later one
      continued at the cursor. */
  ghost predicate Progress(b: S.Buffer, first: nat, s: Sending) {
    var start := Min(|b.bytes|, b.pos + first);
    && s.buffer.bytes == b.bytes && first <= |b.bytes|
    && start <= s.buffer.pos <= |b.bytes|
    && s.wire == b.bytes[..first] + b.bytes[start..s.buffer.pos]
    && (s.report == Running ==> s.offered == s.buffer.pos)
  }

  lemma NextCompletion(b: S.Buffer, first: nat, s: Sending, c: Completion)
    requires b.Valid() && Progress(b, first, s) && Possible(s, c)
    ensures Progress(b, first, Completed(s, c))
  {
    S.CommitSaturates(s.buffer, c.count);
  }

  lemma {:induction false} WireFollowsCursor(b: S.Buffer, cs: seq<Completion>)
    requires b.Valid() && cs != [] && PossibleRun(Begin(b), cs)
    ensures Progress(b, cs[0].count, After(Begin(b), cs))
  {
    if |cs| == 1 {
    } else {
      WireFollowsCursor(b, cs[..|cs| - 1]);
      NextCompletion(b, cs[0].count, After(Begin(b), cs[..|cs| - 1]), cs[|cs| - 1]);
    }
  }

  function TakenBytes(cs: seq<Completion>): nat {
    if cs == [] then 0 else TakenBytes(cs[..|cs| - 1]) + cs[|cs| - 1].count
  }

  /** After any completions: the cursor has moved by all that was taken and stopped at the end; the
      sending goes on exactly if the last completion took something without an error and the end is
      not reached; and otherwise the caller is told of that error, and of the cursor unless nothing
      was taken. */
  lemma {:induction false} ReportOfRun(b: S.Buffer, cs: seq<Completion>)
    requires b.Valid() && cs != [] && PossibleRun(Begin(b), cs)
    ensures var s, c := After(Begin(b), cs), cs[|cs| - 1];
      var done := Min(|b.bytes|, b.pos + TakenBytes(cs));
      && s.buffer == b.(pos := done)
      && (s.report == Running <==> !c.error && c.count > 0 && done < |b.bytes|)
      && (s.report != Running ==> s.report == Ended(c.error, if c.count == 0 then 0 else done))
  {
    var front, c := cs[..|cs| - 1], cs[|cs| - 1];
    if front == [] {
      assert After(Begin(b), front) == Begin(b);
    } else {
      ReportOfRun(b, front);
    }
    S.CommitSaturates(After(Begin(b), front).buffer, c.count);
  }

  /** What is on the wire when the caller is told that everything was sent: the first piece,
      and the rest of the buffer from where the cursor then stood. */
  lemma WireAtEnd(b: S.Buffer, cs: seq<Completion>)
    requires b.Valid() && b.bytes != []
    requires cs != [] && PossibleRun(Begin(b), cs) && ReportsAll(After(Begin(b), cs))
    ensures cs[0].count <= |b.bytes|
    ensures After(Begin(b), cs).wire == b.bytes[..cs[0].count] + b.bytes[Min(|b.bytes|, b.pos + cs[0].count)..]
  {
    WireFollowsCursor(b, cs);
  }

  /** A report of success is true exactly if the cursor started at zero or the first operation
      took the whole buffer. */
  lemma DeliveredIff(b: S.Buffer, cs: seq<Completion>)
    requires b.Valid() && b.bytes != []
    requires cs != [] && PossibleRun(Begin(b), cs) && ReportsAll(After(Begin(b), cs))
    ensures After(Begin(b), cs).wire == b.bytes <==> (b.pos == 0 || cs[0].count == |b.bytes|)
  {
    WireAtEnd(b, cs);
  }

  /** A first operation that took nothing ended the sending without success. */
  lemma {:induction false} FirstTakesSomething(b: S.Buffer, cs: seq<Completion>)
    requires cs != [] && PossibleRun(Begin(b), cs) && cs[0].count == 0
    ensures |cs| == 1 && After(Begin(b), cs).report == Ended(cs[0].error, 0)
  {
    if |cs| > 1 {
      FirstTakesSomething(b, cs[..|cs| - 1]);
    } else {
      assert After(Begin(b), cs[..0]) == Begin(b);
    }
  }

  lemma OneByteFirst(b: S.Buffer) returns (cs: seq<Completion>)
    requires b.Valid() && b.pos > 0 && |b.bytes| > 1
    ensures PossibleRun(Begin(b), cs) && ReportsAll(After(Begin(b), cs))
    ensures cs != [] && cs[0].count == 1
  {
    cs := [Completion(1, false)];
    assert cs[..0] == [];
    assert PossibleRun(Begin(b), []) && After(Begin(b), []) == Begin(b);
    var s := After(Begin(b), cs);
    S.CommitSaturates(b, 1);
    if s.report == Running {
      var rest := Completion(|b.bytes| - s.buffer.pos, false);
      assert (cs + [rest])[..1] == cs;
      S.CommitSaturates(s.buffer, rest.count);
      cs := cs + [rest];
    }
  }

  /** What a caller can check before it sends: a report of success will be true, however the
      socket takes the buffer apart, exactly if the cursor is at zero or there is only one byte. */
  lemma TruthfulIff(b: S.Buffer)
    requires b.Valid() && b.bytes != []
    ensures (forall cs: seq<Completion> | PossibleRun(Begin(b), cs) && ReportsAll(After(Begin(b), cs)) ::
               After(Begin(b), cs).wire == b.bytes)
       <==> (b.pos == 0 || |b.bytes| == 1)
  {
    if b.pos == 0 || |b.bytes| == 1 {
      forall cs: seq<Completion> | PossibleRun(Begin(b), cs) && ReportsAll(After(Begin(b), cs))
        ensures After(Begin(b), cs).wire == b.bytes
      {
        WireAtEnd(b, cs);
        if cs[0].count == 0 { FirstTakesSomething(b, cs); }
        DeliveredIff(b, cs);
      }
    } else {
      var cs := OneByteFirst(b);
      DeliveredIff(b, cs);
    }
  }

  /** A buffer built from a string or from memory has its cursor at the end already, so the
      first completion that takes anything ends the sending and reports the full size. */
  lemma BuiltBuffersEndAtOnce(data: seq<Byte>, c: Completion)
    requires 0 < |data| <= S.MAX_SIZE && 0 < c.count <= |data| && !c.error
    ensures S.FromString(data) == S.FromMemory(data)
    ensures var s := Completed(Begin(S.FromMemory(data)), c);
      ReportsAll(s) && s.wire == data[..c.count]
  {
  }
}
