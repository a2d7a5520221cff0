/** The `Beef` trait: how a borrowed sequence and an owned buffer are taken
    apart into the three parts a `Cow` stores, and how an owned buffer is
    rebuilt from them. Its two implementations, for `str` and for `[T]`,
    differ only in that the `str` one trusts the bytes to be UTF-8; both
    are modelled here by one definition over the element type `T`. */
module Beef {
  import opened Bits
  import opened Wrappers
  import opened Capacity

  /** A `NonNull` pointer, as an opaque allocation id. */
  type Ptr = nat

  /** A reference `&[T]` (or `&str`): where its elements start and how
      many there are. The elements themselves live in memory. */
  datatype RawSlice = RawSlice(ptr: Ptr, len: usize)

  /** An owned `Vec<T>` (or `String`): its pointer, its elements and the
      capacity of its allocation. */
  datatype Buffer<T> = Buffer(ptr: Ptr, contents: seq<T>, capacity: usize)

  /** A `Vec` never holds more elements than its capacity. */
  predicate ValidBuffer<T>(b: Buffer<T>)
  {
    |b.contents| <= b.capacity
  }

  /** The three parts of a `Cow`: pointer, length word, capacity field. */
  datatype Parts = Parts(ptr: Ptr, fat: usize, cap: Field)

  /** What can be read at each pointer: the initialised elements there. */
  type Memory<T> = map<Ptr, seq<T>>

  /** Dereferencing the slice reads live memory (an empty slice reads nothing). */
  predicate Readable<T>(mem: Memory<T>, s: RawSlice)
  {
    s.len == 0 || (s.ptr in mem && s.len <= |mem[s.ptr]|)
  }

  /** The elements a slice shows: `&*slice`. */
  function Read<T>(mem: Memory<T>, s: RawSlice): (r: seq<T>)
    requires Readable(mem, s)
    ensures |r| == s.len
  {
    if s.len == 0 then [] else mem[s.ptr][..s.len]
  }

  /** `ref_into_parts`: the reference's own pointer, and the length word
      and field that `empty` builds, so the parts decode as borrowed. */
  function RefIntoParts(u: Strategy, r: RawSlice): (p: Parts)
    ensures p.ptr == r.ptr
    ensures FieldOf(u, p.cap) && Maybe(u, p.fat, p.cap).None?
  {
    EmptyIsBorrowed(u, r.len);
    var (fat, cap) := Empty(u, r.len);
    Parts(r.ptr, fat, cap)
  }

  /** `ref_from_parts`: the slice `as_ref` makes from pointer and word. */
  function RefFromParts(u: Strategy, ptr: Ptr, fat: usize): (r: RawSlice)
    ensures r.ptr == ptr
  {
    RawSlice(ptr, AsRef(u, fat))
  }

  /** `owned_into_parts`: the buffer's pointer, and the word and field that
      `store` packs from its true length and capacity; the buffer itself is
      not freed, its allocation now belongs to the parts. Panics as `store`
      does. */
  function OwnedIntoParts<T>(u: Strategy, b: Buffer<T>): (r: Result<Parts>)
    requires ValidBuffer(b)
    ensures r.Panic? <==> !Representable(u, b.capacity)
    ensures r.Ok? ==> r.value.ptr == b.ptr && FieldOf(u, r.value.cap)
    ensures r.Ok? ==> Store(u, |b.contents|, b.capacity) == Ok((r.value.fat, r.value.cap))
  {
    match Store(u, |b.contents|, b.capacity)
    case Ok((fat, cap)) => Ok(Parts(b.ptr, fat, cap))
    case Panic(m) => Panic(m)
  }

  /** `owned_from_parts`: `Vec::from_raw_parts` with the length and
      capacity `unpack` returns. It is sound only on parts that describe
      live memory, which the precondition states. */
  function OwnedFromParts<T>(mem: Memory<T>, u: Strategy, ptr: Ptr, fat: usize, capacity: NonZero): (b: Buffer<T>)
    requires NonZeroOf(u, capacity)
    requires Unpack(u, fat, capacity).0 <= Unpack(u, fat, capacity).1
    requires Readable(mem, RawSlice(ptr, Unpack(u, fat, capacity).0))
    ensures ValidBuffer(b) && b.ptr == ptr
    ensures (|b.contents|, b.capacity) == Unpack(u, fat, capacity)
    ensures b.contents == Read(mem, RawSlice(ptr, Unpack(u, fat, capacity).0))
  {
    var (len, cap) := Unpack(u, fat, capacity);
    Buffer(ptr, Read(mem, RawSlice(ptr, len)), cap)
  }

  /** Viewing the parts of a reference gives the reference back whenever
      its length fits the strategy; otherwise only the low 32 bits of the
      length survive. No element is copied: the pointer is the same. */
  lemma RefRoundTrip(u: Strategy, r: RawSlice)
    ensures var p := RefIntoParts(u, r);
      RefFromParts(u, p.ptr, p.fat) ==
        (if LengthFits(u, r.len) then r else RawSlice(r.ptr, r.len % HALF))
  {
    EmptyIsBorrowed(u, r.len);
  }

  /** Taking an owned buffer apart and rebuilding it gives the same
      pointer, elements and capacity, when its capacity is nonzero and
      representable and its allocation holds its elements. */
  lemma OwnedRoundTrip<T>(mem: Memory<T>, u: Strategy, b: Buffer<T>)
    requires ValidBuffer(b) && b.capacity != 0 && Representable(u, b.capacity)
    requires b.ptr in mem && mem[b.ptr] == b.contents
    ensures OwnedIntoParts(u, b).Ok?
    ensures var p := OwnedIntoParts(u, b).value;
      Maybe(u, p.fat, p.cap).Some? &&
      Unpack(u, p.fat, Maybe(u, p.fat, p.cap).value) == (|b.contents|, b.capacity)
    ensures var p := OwnedIntoParts(u, b).value;
      OwnedFromParts(mem, u, p.ptr, p.fat, Maybe(u, p.fat, p.cap).value) == b
  {
    var len: usize := |b.contents|;
    StoreRoundTrip(u, len, b.capacity);
    var p := OwnedIntoParts(u, b).value;
    var n := Maybe(u, p.fat, p.cap).value;
    assert Unpack(u, p.fat, n) == (len, b.capacity);
    assert Read(mem, RawSlice(b.ptr, len)) == b.contents;
  }

  /** A buffer of capacity 0 never allocated, and its parts are exactly
      those of a borrowed empty slice at the same pointer: treating it as
      borrowed releases nothing and leaks nothing. */
  lemma OwnedZeroCapacityIsBorrowed<T>(u: Strategy, b: Buffer<T>)
    requires ValidBuffer(b) && b.capacity == 0
    ensures b.contents == []
    ensures OwnedIntoParts(u, b) == Ok(RefIntoParts(u, RawSlice(b.ptr, 0)))
  {
    ZeroCapacityCollision(u, 0);
  }
}
