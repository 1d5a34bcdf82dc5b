/**
 * `ByteSpan`: an immutable, non-owning view of a contiguous run of bytes.
 *
 * The bytes a span refers to live in memory the span does not own, so every
 * reading operation takes that memory as a parameter; nothing here changes
 * it, and a copy of a span is the same value and so refers to the same bytes.
 */
module ByteSpans {
  import opened ByteOrder

  /** A `const std::byte*`: null, or the index of a byte in memory. */
  datatype Pointer = Null | Address(index: nat)

  /** Pointer arithmetic `p + k`; `nullptr + 0` is `nullptr`. */
  function Advance(p: Pointer, k: nat): (q: Pointer)
    requires p.Address? || k == 0
    ensures p.Null? ==> q == Null
    ensures p.Address? ==> q == Address(p.index + k)
  {
    if p.Null? then p else Address(p.index + k)
  }

  /** The `size` bytes starting at `data` all lie inside `memory`. */
  predicate Readable(memory: seq<byte>, data: Pointer, size: nat) {
    size == 0 || (data.Address? && data.index + size <= |memory|)
  }

  /** The bytes in `[data, data + size)`, in order. */
  function Referenced(memory: seq<byte>, data: Pointer, size: nat): (s: seq<byte>)
    requires Readable(memory, data, size)
    ensures |s| == size
    ensures forall i | 0 <= i < size :: data.Address? && s[i] == memory[data.index + i]
  {
    if size == 0 then [] else memory[data.index..data.index + size]
  }

  /** The two members of the C++ class: `m_data` and `m_size`. */
  datatype ByteSpan = ByteSpan(data: Pointer, size: nat)

  /** A span whose pointer is null only when it is empty (pointer arithmetic on it is defined). */
  predicate WellFormed(s: ByteSpan) {
    s.data.Address? || s.size == 0
  }

  /** `s` refers to bytes that exist in `memory`. */
  predicate RefersInto(memory: seq<byte>, s: ByteSpan) {
    Readable(memory, s.data, s.size)
  }

  /** The bytes `s` refers to. */
  function Contents(memory: seq<byte>, s: ByteSpan): seq<byte>
    requires RefersInto(memory, s)
  {
    Referenced(memory, s.data, s.size)
  }

  /** `ByteSpan()`: refers to nothing. */
  function EmptySpan(): (s: ByteSpan)
    ensures GetData(s) == Null && GetSize(s) == 0
    ensures WellFormed(s)
  {
    ByteSpan(Null, 0)
  }

  /** `ByteSpan(data, size)`. */
  function MakeSpan(data: Pointer, size: nat): (s: ByteSpan)
    ensures GetData(s) == data && GetSize(s) == size
  {
    ByteSpan(data, size)
  }

  /** `getData()`: points at the first byte the span refers to. */
  function GetData(s: ByteSpan): (p: Pointer)
    ensures forall memory: seq<byte> | RefersInto(memory, s) && s.size > 0 ::
      p.Address? && p.index + s.size <= |memory| && Contents(memory, s) == memory[p.index..p.index + s.size]
  {
    s.data
  }

  /** `getSize()`: the number of bytes the span refers to. */
  function GetSize(s: ByteSpan): (n: nat)
    ensures forall memory: seq<byte> | RefersInto(memory, s) :: |Contents(memory, s)| == n
  {
    s.size
  }

  /** `operator[]`: the `index`-th byte referred to. */
  function At(memory: seq<byte>, s: ByteSpan, index: nat): (b: byte)
    requires RefersInto(memory, s) && index < GetSize(s)
    ensures s.data.Address? && b == memory[s.data.index + index]
  {
    memory[s.data.index + index]
  }

  /** `begin()`: the iterator to the first byte, which is the data pointer. */
  function Begin(s: ByteSpan): (p: Pointer)
    ensures p == GetData(s)
    ensures forall memory: seq<byte> | RefersInto(memory, s) && s.size > 0 ::
      p.Address? && At(memory, s, 0) == memory[p.index]
  {
    s.data
  }

  /** `end()`: the placeholder one past the last byte. */
  function End(s: ByteSpan): (p: Pointer)
    requires WellFormed(s)
    ensures Begin(s).Address? ==> p.Address? && p.index == Begin(s).index + GetSize(s)
    ensures Begin(s).Null? ==> p.Null?
    ensures GetSize(s) == 0 ==> p == Begin(s)
  {
    Advance(s.data, s.size)
  }

  /** `subspan(offset, size)`: the `size` bytes starting `offset` bytes in. */
  function Subspan(s: ByteSpan, offset: nat, size: nat): (r: ByteSpan)
    requires WellFormed(s) && offset + size <= GetSize(s)
    ensures GetSize(r) == size && WellFormed(r)
  {
    ByteSpan(Advance(s.data, offset), size)
  }

  /** A span built over memory reads exactly that memory. */
  lemma MakeSpanContents(memory: seq<byte>, start: nat, size: nat)
    requires start + size <= |memory|
    ensures RefersInto(memory, MakeSpan(Address(start), size))
    ensures Contents(memory, MakeSpan(Address(start), size)) == memory[start..start + size]
  {
  }

  /** The default span refers to no byte of any memory. */
  lemma EmptySpanContents(memory: seq<byte>)
    ensures RefersInto(memory, EmptySpan()) && Contents(memory, EmptySpan()) == []
  {
  }

  /** `end()` is `getSize()` bytes after `begin()`, and no index of the span reaches it. */
  lemma EndIsPastEveryByte(memory: seq<byte>, s: ByteSpan, index: nat)
    requires RefersInto(memory, s) && WellFormed(s) && index < GetSize(s)
    ensures End(s).Address? && At(memory, s, index) == memory[Begin(s).index + index]
    ensures Begin(s).index + index < End(s).index <= |memory|
  {
    assert Begin(s) == s.data && GetSize(s) == s.size;
    assert End(s) == Address(s.data.index + s.size);
    assert At(memory, s, index) == memory[s.data.index + index];
  }

  /** Byte `j` of a subspan is byte `offset + j` of the original. */
  lemma SubspanAt(memory: seq<byte>, s: ByteSpan, offset: nat, size: nat, j: nat)
    requires RefersInto(memory, s) && WellFormed(s) && offset + size <= GetSize(s) && j < size
    ensures RefersInto(memory, Subspan(s, offset, size))
    ensures At(memory, Subspan(s, offset, size), j) == At(memory, s, offset + j)
  {
  }

  /** A subspan refers to a slice of its original's bytes. */
  lemma SubspanContents(memory: seq<byte>, s: ByteSpan, offset: nat, size: nat)
    requires RefersInto(memory, s) && WellFormed(s) && offset + size <= GetSize(s)
    ensures RefersInto(memory, Subspan(s, offset, size))
    ensures Contents(memory, Subspan(s, offset, size)) == Contents(memory, s)[offset..offset + size]
  {
    var sub := Subspan(s, offset, size);
    forall j | 0 <= j < size
      ensures Contents(memory, sub)[j] == Contents(memory, s)[offset + j]
    {
      SubspanAt(memory, s, offset, size, j);
    }
  }

  /** Taking a subspan of a subspan is one subspan of the original. */
  lemma SubspanOfSubspan(s: ByteSpan, o1: nat, n1: nat, o2: nat, n2: nat)
    requires WellFormed(s) && o1 + n1 <= GetSize(s) && o2 + n2 <= n1
    ensures Subspan(Subspan(s, o1, n1), o2, n2) == Subspan(s, o1 + o2, n2)
  {
  }
}
