/** The buffer as it is written: a vector and a cursor, changed in place by one writer. */
module ByteBuffer {
  import opened Numbers
  import opened Bytes
  import S = BufferSpec

  class Buffer {
    var bytes: seq<Byte>
    var pos: nat

    ghost predicate Valid()
      reads this
    {
      State().Valid()
    }

    ghost function State(): S.Buffer
      reads this
    {
      S.Buffer(bytes, pos)
    }

    /** `buffer(size)`: a size no vector accepts leaves the buffer empty. */
    constructor (size: nat)
      requires size < SIZE_T
      ensures Valid() && State() == S.Sized(size)
      ensures State() == S.Buffer(Zeros(if size <= S.MAX_SIZE then size else 0), 0)
    {
      bytes, pos := [], 0;
      new;
      Clear();
      var ok := Alloc(size);
    }

    /** `buffer(string)`: a string is never longer than a vector can be. */
    constructor FromString(data: seq<Byte>)
      requires |data| <= S.MAX_SIZE
      ensures Valid() && State() == S.FromString(data) == S.Buffer(data, |data|)
    {
      bytes, pos := [], 0;
      new;
      Clear();
      Assign(data);
      Commit(|data|);
    }

    /** `buffer(pointer, size)`, with `data` the bytes at the pointer. */
    constructor FromMemory(data: seq<Byte>)
      requires |data| <= S.MAX_SIZE
      ensures Valid() && State() == S.FromMemory(data) == S.Buffer(data, |data|)
    {
      bytes, pos := [], 0;
      new;
      var ok := Alloc(|data|);
      Clear();
      bytes := data + bytes[|data|..];
      Commit(|data|);
    }

    method Alloc(length: nat) returns (ok: bool)
      requires length < SIZE_T
      modifies `bytes
      ensures State() == S.Apply(old(State()), S.Alloc(length))
      ensures ok == S.AllocReturns(old(State()), length)
      ensures ok <==> length < |old(bytes)| && length <= S.MAX_SIZE
      ensures bytes == old(bytes)
        + Zeros(if |old(bytes)| < length <= S.MAX_SIZE then length - |old(bytes)| else 0)
    {
      if length > S.MAX_SIZE {
        return false;
      }
      if length < |bytes| {
        return true;
      }
      bytes := bytes + Zeros(length - |bytes|);
      ok := |bytes| > length;
    }

    method Clear()
      modifies this
      ensures State() == S.Apply(old(State()), S.Clear)
      ensures pos == 0 && |bytes| == |old(bytes)| && forall i | 0 <= i < |bytes| :: bytes[i] == 0
    {
      pos := 0;
      for i := 0 to |bytes|
        invariant pos == 0 && |bytes| == |old(bytes)|
        invariant forall j | 0 <= j < i :: bytes[j] == 0
      {
        bytes := bytes[i := 0];
      }
    }

    /** Where the next byte goes, or nothing when `memory()` is null. */
    method Memory() returns (at: nat, isNull: bool)
      ensures isNull <==> State().Full()
      ensures isNull <==> |bytes| == pos
      ensures at == pos && (Valid() && !isNull ==> at < |bytes|)
    {
      isNull := |bytes| == pos;
      at := pos;
    }

    method Commit(length: nat)
      requires length < SIZE_T
      modifies `pos
      ensures State() == S.Apply(old(State()), S.Commit(length))
      ensures old(Valid()) ==> Valid() && pos == Min(|bytes|, old(pos) + length)
    {
      if old(Valid()) {
        S.CommitSaturates(State(), length);
      }
      pos := if length > Minus(|bytes|, pos) then |bytes| else Plus(length, pos);
    }

    /** A writer stores `piece` at the place `at`, byte by byte. */
    method Store(at: nat, piece: seq<Byte>)
      requires at + |piece| <= |bytes|
      modifies `bytes
      ensures bytes == old(bytes)[..at] + piece + old(bytes)[at + |piece|..]
    {
      for i := 0 to |piece|
        invariant bytes == old(bytes)[..at] + piece[..i] + old(bytes)[at + i..]
      {
        bytes := bytes[at + i := piece[i]];
      }
    }

    /** A writer stores what fits of `chunk` at `memory()` and commits. */
    method Fill(chunk: seq<Byte>)
      requires Valid() && |chunk| < SIZE_T
      modifies this
      ensures Valid() && State() == S.Filled(old(State()), chunk)
      ensures var k := Min(|chunk|, |old(bytes)| - old(pos));
        && pos == old(pos) + k
        && bytes == old(bytes)[..old(pos)] + chunk[..k] + old(bytes)[old(pos) + k..]
    {
      var at, full := Memory();
      var k := Min(|chunk|, Minus(|bytes|, pos));
      assert k == Min(|chunk|, |bytes| - pos);
      Store(at, chunk[..k]);
      assert |bytes| == |old(bytes)|;
      Commit(|chunk|);
    }

    method Get(off: nat, count: nat) returns (r: S.Callback)
      requires Valid() && off < SIZE_T && count < SIZE_T
      ensures r == S.Get(State(), off, count)
      ensures r.Called? <==> off <= |bytes|
      ensures r.Called? ==> r.window == bytes[off..Min(|bytes|, off + count)]
    {
      if off > |bytes| {
        return S.NotCalled;
      }
      var minCount := Minus(|bytes|, off);
      var realCount := if minCount < count then minCount else count;
      r := S.Called(bytes[off..off + realCount]);
    }

    /** A reader walks the buffer in windows of width `c`. */
    method ReadAll(c: nat) returns (all: seq<Byte>)
      requires Valid() && 0 < c < SIZE_T
      ensures all == S.Windows(State(), 0, c) == bytes
    {
      all := [];
      var off := 0;
      S.WindowsCoverRest(State(), 0, c);
      while off < |bytes|
        invariant all == bytes[..Min(|bytes|, off)]
        decreases |bytes| - off
      {
        var r := Get(off, c);
        assert bytes[..off] + bytes[off..Min(|bytes|, off + c)] == bytes[..Min(|bytes|, off + c)];
        all := all + r.window;
        off := off + c;
      }
    }

    method Append(str: seq<Byte>)
      requires |bytes| + |str| <= S.MAX_SIZE
      modifies `bytes
      ensures State() == S.Apply(old(State()), S.Append(str))
      ensures bytes == old(bytes) + str
    {
      for i := 0 to |str|
        invariant bytes == old(bytes) + str[..i]
      {
        bytes := bytes + [str[i]];
      }
    }

    method Assign(str: seq<Byte>)
      requires |str| <= S.MAX_SIZE
      modifies `bytes
      ensures State() == S.Apply(old(State()), S.Assign(str))
      ensures bytes == str
    {
      bytes := str;
    }
  }
}
