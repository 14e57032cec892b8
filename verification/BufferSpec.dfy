/** The byte buffer as a value: its bytes, its cursor, and the arithmetic of each operation in
    64-bit `size_t`, wrap-around included. */
module BufferSpec {
  import opened Numbers
  import opened Bytes

  /** The largest size a vector of `char` accepts. */
  const MAX_SIZE: nat := 0x7FFF_FFFF_FFFF_FFFF

  datatype Buffer = Buffer(bytes: seq<Byte>, pos: nat) {
    ghost predicate Valid() { pos <= |bytes| <= MAX_SIZE }

    function Available(): nat { Minus(|bytes|, pos) }

    /** `memory()` is null. */
    predicate Full() { |bytes| == pos }

    /** What has been written so far. */
    function Written(): seq<Byte>
      requires pos <= |bytes|
    {
      bytes[..pos]
    }
  }

  datatype Op =
    | Alloc(length: nat)
    | Clear
    | Commit(length: nat)
    | Append(str: seq<Byte>)
    | Assign(str: seq<Byte>)

  function Alloced(b: Buffer, length: nat): Buffer {
    if length > MAX_SIZE || length < |b.bytes| then b
    else b.(bytes := b.bytes + Zeros(length - |b.bytes|))
  }

  /** What `alloc` returns: after the resize it compares the new size with the length once
      more. */
  function AllocReturns(b: Buffer, length: nat): bool {
    if length > MAX_SIZE then false
    else if length < |b.bytes| then true
    else |Alloced(b, length).bytes| > length
  }

  function Committed(b: Buffer, length: nat): Buffer {
    b.(pos := if length > Minus(|b.bytes|, b.pos) then |b.bytes| else Plus(length, b.pos))
  }

  function Apply(b: Buffer, op: Op): Buffer {
    match op
    case Alloc(length) => Alloced(b, length)
    case Clear => Buffer(Zeros(|b.bytes|), 0)
    case Commit(length) => Committed(b, length)
    case Append(str) => b.(bytes := b.bytes + str)
    case Assign(str) => b.(bytes := str)
  }

  /** Lengths are `size_t` values; the vector must be able to hold what it is given; and an
      assignment leaves the cursor alone, so it must not cut the written part. */
  ghost predicate Allowed(b: Buffer, op: Op) {
    match op
    case Alloc(length) => length < SIZE_T
    case Clear => true
    case Commit(length) => length < SIZE_T
    case Append(str) => |b.bytes| + |str| <= MAX_SIZE
    case Assign(str) => b.pos <= |str| <= MAX_SIZE
  }

  function Run(b: Buffer, ops: seq<Op>): Buffer {
    if ops == [] then b else Apply(Run(b, ops[..|ops| - 1]), ops[|ops| - 1])
  }

  ghost predicate AllowedRun(b: Buffer, ops: seq<Op>) {
    ops == [] || (AllowedRun(b, ops[..|ops| - 1]) && Allowed(Run(b, ops[..|ops| - 1]), ops[|ops| - 1]))
  }

  // ----- The cursor

  /** With the cursor inside the buffer neither the subtraction nor the addition of `commit`
      wraps: the cursor moves by the length and stops at the end. */
  lemma CommitSaturates(b: Buffer, length: nat)
    requires b.Valid() && length < SIZE_T
    ensures Committed(b, length) == b.(pos := Min(|b.bytes|, b.pos + length))
    ensures b.Available() == |b.bytes| - b.pos
    ensures length <= b.Available() ==> Plus(length, b.pos) == length + b.pos
  {
  }

  /** With the cursor outside the buffer, `commit` adds without a bound until the sum wraps, and
      then the cursor comes back inside or stops at the size. */
  lemma CommitOutside(b: Buffer, length: nat)
    requires |b.bytes| < b.pos < SIZE_T && |b.bytes| <= MAX_SIZE && length < SIZE_T
    ensures b.Available() == SIZE_T - (b.pos - |b.bytes|)
    ensures Committed(b, length) == b.(pos :=
      if b.pos + length < SIZE_T then b.pos + length else Min(|b.bytes|, b.pos + length - SIZE_T))
  {
  }

  function CommitAll(b: Buffer, lengths: seq<nat>): Buffer {
    if lengths == [] then b
    else Committed(CommitAll(b, lengths[..|lengths| - 1]), lengths[|lengths| - 1])
  }

  /** Any list of commits leaves the cursor at the true sum, cut at the size. */
  lemma {:induction false} CommitsAddUp(b: Buffer, lengths: seq<nat>)
    requires b.Valid() && forall i | 0 <= i < |lengths| :: lengths[i] < SIZE_T
    ensures CommitAll(b, lengths) == b.(pos := Min(|b.bytes|, b.pos + Sum(lengths)))
  {
    if lengths != [] {
      var front := lengths[..|lengths| - 1];
      CommitsAddUp(b, front);
      CommitSaturates(CommitAll(b, front), lengths[|lengths| - 1]);
    }
  }

  /** Every run of operations keeps the cursor inside the buffer. */
  lemma {:induction false} CursorStaysInside(b: Buffer, ops: seq<Op>)
    requires b.Valid() && AllowedRun(b, ops)
    ensures Run(b, ops).Valid()
  {
    if ops != [] {
      CursorStaysInside(b, ops[..|ops| - 1]);
    }
  }

  /** An assignment keeps the cursor inside exactly when the new string covers it. */
  lemma AssignKeepsCursorIff(b: Buffer, str: seq<Byte>)
    requires b.Valid() && |str| <= MAX_SIZE
    ensures Apply(b, Assign(str)).Valid() <==> b.pos <= |str|
  {
  }

  /** What goes wrong otherwise: three bytes written, two assigned, and the next commit of one
      byte moves the cursor to four, past the end. */
  lemma CursorEscapes()
    ensures var b := Buffer([1, 2, 3], 3);
      b.Valid() && Run(b, [Assign([4, 5]), Commit(1)]) == Buffer([4, 5], 4)
  {
  }

  // ----- What each operation leaves

  /** Clearing any buffer leaves zeros only, as many as there were bytes, and the cursor at zero. */
  lemma ClearErases(b: Buffer)
    ensures var c := Apply(b, Clear);
      c.pos == 0 && |c.bytes| == |b.bytes| && forall i | 0 <= i < |b.bytes| :: c.bytes[i] == 0
  {
  }

  /** Appending to any buffer keeps its bytes in place and puts the string after them; the cursor
      stays. */
  lemma AppendAdds(b: Buffer, str: seq<Byte>)
    ensures var c := Apply(b, Append(str));
      && c.pos == b.pos && |c.bytes| == |b.bytes| + |str|
      && (forall i | 0 <= i < |b.bytes| :: c.bytes[i] == b.bytes[i])
      && forall i | 0 <= i < |str| :: c.bytes[|b.bytes| + i] == str[i]
  {
  }

  /** Assigning to any buffer leaves the string alone; the cursor stays. */
  lemma AssignReplaces(b: Buffer, str: seq<Byte>)
    ensures var c := Apply(b, Assign(str));
      c.pos == b.pos && |c.bytes| == |str| && forall i | 0 <= i < |str| :: c.bytes[i] == str[i]
  {
  }

  /** A request grows any buffer to its length with zeros, or changes nothing. */
  lemma AllocGrows(b: Buffer, length: nat)
    ensures var c := Apply(b, Alloc(length));
      && c.pos == b.pos
      && |c.bytes| == (if length <= MAX_SIZE && length > |b.bytes| then length else |b.bytes|)
      && (forall i | 0 <= i < |b.bytes| :: c.bytes[i] == b.bytes[i])
      && forall i | |b.bytes| <= i < |c.bytes| :: c.bytes[i] == 0
  {
  }

  // ----- alloc

  /** The answer of `alloc` agrees with whether the room is there afterwards exactly when the
      request was shorter than the buffer, or too large for any. */
  lemma AllocAnswerIff(b: Buffer, length: nat)
    requires b.Valid()
    ensures AllocReturns(b, length) <==> length < |b.bytes|
    ensures (AllocReturns(b, length) <==> length <= |Alloced(b, length).bytes|)
       <==> (length < |b.bytes| || length > MAX_SIZE)
  {
  }

  /** A one-byte buffer is grown to three, and the answer is that it was not. */
  lemma AllocDeniesGrowth()
    ensures Alloced(Buffer([7], 1), 3) == Buffer([7, 0, 0], 1) && !AllocReturns(Buffer([7], 1), 3)
  {
  }

  function AllocAll(b: Buffer, lengths: seq<nat>): Buffer {
    if lengths == [] then b else Alloced(AllocAll(b, lengths[..|lengths| - 1]), lengths[|lengths| - 1])
  }

  /** The largest of the starting size and the requests a vector can meet. */
  function Largest(size: nat, lengths: seq<nat>): nat {
    if lengths == [] then size
    else
      var before, last := Largest(size, lengths[..|lengths| - 1]), lengths[|lengths| - 1];
      if last <= MAX_SIZE then Max(before, last) else before
  }

  /** Any list of `alloc` calls grows the buffer to the largest accepted request, keeps its
      bytes and cursor, and fills the new part with zeros. */
  lemma {:induction false} AllocsKeepBytes(b: Buffer, lengths: seq<nat>)
    requires b.Valid()
    ensures |b.bytes| <= Largest(|b.bytes|, lengths)
    ensures AllocAll(b, lengths) == b.(bytes := b.bytes + Zeros(Largest(|b.bytes|, lengths) - |b.bytes|))
  {
    if lengths == [] {
    } else {
      AllocsKeepBytes(b, lengths[..|lengths| - 1]);
    }
  }

  // ----- Filling through memory() and commit()

  /** A writer copies as much of `chunk` as fits to `memory()` and commits the length it had. */
  function Filled(b: Buffer, chunk: seq<Byte>): Buffer
    requires b.Valid()
  {
    var k := Min(|chunk|, b.Available());
    Committed(b.(bytes := b.bytes[..b.pos] + chunk[..k] + b.bytes[b.pos + k..]), |chunk|)
  }

  lemma FilledStep(b: Buffer, chunk: seq<Byte>)
    requires b.Valid() && |chunk| < SIZE_T
    ensures var k, f := Min(|chunk|, |b.bytes| - b.pos), Filled(b, chunk);
      && f.Valid() && |f.bytes| == |b.bytes| && f.pos == b.pos + k
      && f.Written() == b.Written() + chunk[..k]
      && f.bytes[f.pos..] == b.bytes[f.pos..]
  {
    var k := Min(|chunk|, b.Available());
    CommitSaturates(b.(bytes := b.bytes[..b.pos] + chunk[..k] + b.bytes[b.pos + k..]), |chunk|);
  }

  function FillAll(b: Buffer, chunks: seq<seq<Byte>>): (r: Buffer)
    requires b.Valid() && forall c | c in chunks :: |c| < SIZE_T
    ensures r.Valid() && |r.bytes| == |b.bytes|
  {
    if chunks == [] then b
    else
      assert forall c | c in chunks[..|chunks| - 1] :: c in chunks;
      var before := FillAll(b, chunks[..|chunks| - 1]);
      FilledStep(before, chunks[|chunks| - 1]);
      Filled(before, chunks[|chunks| - 1])
  }

  /** The buffer of `size` bytes that holds as much of `all` as fits, and zeros after it. */
  function Cut(size: nat, all: seq<Byte>): Buffer {
    var k := Min(size, |all|);
    Buffer(all[..k] + Zeros(size - k), k)
  }

  lemma CutStep(size: nat, done: seq<Byte>, c: seq<Byte>)
    requires size <= MAX_SIZE && |c| < SIZE_T
    ensures Cut(size, done).Valid() && Filled(Cut(size, done), c) == Cut(size, done + c)
  {
    var b := Cut(size, done);
    FilledStep(b, c);
    var f, k := Filled(b, c), Min(size, |done + c|);
    assert f.pos == k;
    assert f.Written() == (done + c)[..k];
    assert f.bytes[k..] == Zeros(size - k);
    assert f.bytes == f.bytes[..k] + f.bytes[k..];
  }

  /** After any buffer is cleared, any chunks fill it like an append that stops at the size: the bytes
      are the joined chunks, cut at the size, and zeros after them. */
  lemma {:induction false} FillIsTruncatedAppend(b: Buffer, chunks: seq<seq<Byte>>)
    requires |b.bytes| <= MAX_SIZE && forall c | c in chunks :: |c| < SIZE_T
    ensures FillAll(Apply(b, Clear), chunks) == Cut(|b.bytes|, Concat(chunks))
  {
    ClearErases(b);
    if chunks == [] {
      assert Apply(b, Clear).bytes == Zeros(|b.bytes|);
    } else {
      var front, c := chunks[..|chunks| - 1], chunks[|chunks| - 1];
      FillIsTruncatedAppend(b, front);
      CutStep(|b.bytes|, Concat(front), c);
    }
  }

  /** `memory()` is null exactly when the chunks were enough to fill the buffer. */
  lemma FullWhenEnough(b: Buffer, chunks: seq<seq<Byte>>)
    requires |b.bytes| <= MAX_SIZE && forall c | c in chunks :: |c| < SIZE_T
    ensures FillAll(Apply(b, Clear), chunks).Full() <==> |Concat(chunks)| >= |b.bytes|
  {
    FillIsTruncatedAppend(b, chunks);
  }

  // ----- Construction

  /** The three ways the original builds a buffer: `buffer(size)`, `buffer(string)` and
      `buffer(pointer, size)`. */
  function Sized(size: nat): Buffer {
    Alloced(Apply(Buffer([], 0), Clear), size)
  }

  function FromString(data: seq<Byte>): Buffer {
    Committed(Apply(Apply(Buffer([], 0), Clear), Assign(data)), |data|)
  }

  function FromMemory(data: seq<Byte>): Buffer
    requires |data| <= MAX_SIZE
  {
    var b := Apply(Alloced(Buffer([], 0), |data|), Clear);
    Committed(b.(bytes := data + b.bytes[|data|..]), |data|)
  }

  /** A size no vector accepts leaves the buffer empty. */
  lemma SizedIsZeros(size: nat)
    ensures Sized(size) == Buffer(Zeros(if size <= MAX_SIZE then size else 0), 0)
    ensures Apply(Sized(size), Clear) == Sized(size)
  {
    assert Apply(Buffer([], 0), Clear).bytes == [];
  }

  /** All three ways lead to the same full buffer, the sized one through any chunking. */
  lemma ConstructionsAgree(chunks: seq<seq<Byte>>)
    requires |Concat(chunks)| <= MAX_SIZE && forall c | c in chunks :: |c| < SIZE_T
    ensures var data := Concat(chunks);
      && FromString(data) == Buffer(data, |data|) == FromMemory(data)
      && Sized(|data|).Valid() && FillAll(Sized(|data|), chunks) == Buffer(data, |data|)
  {
    var data := Concat(chunks);
    var b := Sized(|data|);
    SizedIsZeros(|data|);
    FillIsTruncatedAppend(b, chunks);
    CommitSaturates(Buffer(data, 0), |data|);
  }

  /** `buffer + str` followed by `commit` of its length, over a list of strings. */
  function AppendAll(b: Buffer, strs: seq<seq<Byte>>): Buffer {
    if strs == [] then b
    else
      var str := strs[|strs| - 1];
      Committed(Apply(AppendAll(b, strs[..|strs| - 1]), Append(str)), |str|)
  }

  /** A full buffer extended this way holds its bytes and the strings, and is full again. */
  lemma {:induction false} AppendsKeepFull(b: Buffer, strs: seq<seq<Byte>>)
    requires b.Valid() && b.Full() && |b.bytes| + |Concat(strs)| <= MAX_SIZE
    ensures AppendAll(b, strs) == Buffer(b.bytes + Concat(strs), |b.bytes| + |Concat(strs)|)
  {
    if strs == [] {
    } else {
      var front, str := strs[..|strs| - 1], strs[|strs| - 1];
      AppendsKeepFull(b, front);
      assert b.bytes + Concat(front) + str == b.bytes + (Concat(front) + str);
    }
  }

  // ----- Reading through get(off, count)

  datatype Callback = NotCalled | Called(window: seq<Byte>)

  /** What `get(off, count)` passes to its callback. */
  function Get(b: Buffer, off: nat, count: nat): Callback
    requires b.Valid()
  {
    if off > |b.bytes| then NotCalled
    else
      var minCount := Minus(|b.bytes|, off);
      var realCount := if minCount < count then minCount else count;
      Called(b.bytes[off..off + realCount])
  }

  /** The windows of width `c` from `off` on, joined. */
  function Windows(b: Buffer, off: nat, c: nat): seq<Byte>
    requires b.Valid() && c > 0
    decreases |b.bytes| - off
  {
    if off >= |b.bytes| then [] else Get(b, off, c).window + Windows(b, off + c, c)
  }

  lemma WindowIsSlice(b: Buffer, off: nat, count: nat)
    requires b.Valid()
    ensures Get(b, off, count).Called? <==> off <= |b.bytes|
    ensures off <= |b.bytes| ==> Get(b, off, count).window == b.bytes[off..Min(|b.bytes|, off + count)]
  {
  }

  lemma {:induction false} WindowsCoverRest(b: Buffer, off: nat, c: nat)
    requires b.Valid() && c > 0 && off <= |b.bytes|
    ensures Windows(b, off, c) == b.bytes[off..]
    decreases |b.bytes| - off
  {
    if off < |b.bytes| {
      var next := Min(|b.bytes|, off + c);
      if next == off + c {
        WindowsCoverRest(b, next, c);
      }
    }
  }

  /** What is written in chunks, however they are cut, up to the size of the buffer is read back
      exactly once through windows of any width. */
  lemma WriteReadRoundTrip(b: Buffer, chunks: seq<seq<Byte>>, c: nat)
    requires |b.bytes| <= MAX_SIZE && c > 0
    requires |Concat(chunks)| == |b.bytes| && forall d | d in chunks :: |d| < SIZE_T
    ensures Windows(FillAll(Apply(b, Clear), chunks), 0, c) == Concat(chunks)
  {
    FillIsTruncatedAppend(b, chunks);
    WindowsCoverRest(FillAll(Apply(b, Clear), chunks), 0, c);
  }
}
