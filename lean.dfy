/** The two-word strategy of 64-bit targets: one word holds the length in
    its low half and the capacity in its high half; an all-zero high half
    is the borrowed sentinel. The capacity field is zero-sized, so it is
    left out of every signature here. */
module Lean {
  import opened Bits
  import opened Wrappers

  /** `u32::max_value() as usize` */
  const MASK_LO: usize := Widen(U32_MAX)
  /** `!(u32::max_value() as usize)` */
  const MASK_HI: usize := Not64(Widen(U32_MAX))

  const OUT_OF_BOUNDS: string := "beef::lean::Cow: Capacity out of bounds"

  /** The two masks are disjoint, cover the word, and split every word. */
  lemma MasksPartitionWord()
    ensures MASK_LO == HALF - 1 && MASK_HI == WORD - HALF
    ensures And(MASK_LO, MASK_HI) == 0
    ensures Or(MASK_LO, MASK_HI) == USIZE_MAX
    ensures forall w: usize :: And(w, MASK_LO) + And(w, MASK_HI) == w
  {
    assert MASK_LO == HALF - 1 && MASK_HI == WORD - HALF;
    HighHalf(MASK_LO);
    JoinHalves(MASK_LO, HALF - 1);
    assert Shl32(HALF - 1) == MASK_HI;
    forall w: usize ensures And(w, MASK_LO) + And(w, MASK_HI) == w {
      LowHalf(w);
      HighHalf(w);
    }
  }

  /** `as_ref`: the view length is the low half of the length word. */
  function AsRef(len: usize): (n: usize)
    ensures n == len % HALF
  {
    LowHalf(len);
    And(len, MASK_LO)
  }

  /** `empty`: only the low 32 bits of the length are kept. */
  function Empty(len: usize): (w: usize)
    ensures w == len % HALF
    ensures Maybe(w).None?
  {
    LowHalf(len);
    And(len, MASK_LO)
  }

  /** `store`: panics when the capacity has a bit at position 32 or above;
      otherwise packs the low half of `len` beside the capacity. */
  function Store(len: usize, capacity: usize): (r: Result<usize>)
    ensures r.Panic? <==> capacity > U32_MAX
    ensures r.Panic? ==> r.message == OUT_OF_BOUNDS
    ensures r.Ok? ==> r.value == len % HALF + capacity * HALF
  {
    HighHalf(capacity);
    if And(capacity, MASK_HI) != 0 then
      Panic(OUT_OF_BOUNDS)
    else
      LowHalf(len);
      LowHalf(capacity);
      JoinHalves(And(len, MASK_LO), And(capacity, MASK_LO));
      Ok(Or(And(len, MASK_LO), Shl32(And(capacity, MASK_LO))))
  }

  /** `unpack`: the low half is the length, the high half the capacity. */
  function Unpack(len: usize): (r: (usize, usize))
    ensures r == (len % HALF, len / HALF)
  {
    LowHalf(len);
    HighHalf(len);
    ShrHigh(len);
    (And(len, MASK_LO), Shr32(And(len, MASK_HI)))
  }

  /** `maybe`: owned exactly when the high half is not all zero. */
  function Maybe(len: usize): (r: Option<()>)
    ensures r.Some? <==> len >= HALF
  {
    HighHalf(len);
    if And(len, MASK_HI) != 0 then Some(()) else None
  }

  /** Round trip: a length and a capacity that both fit in 32 bits come
      back out of `unpack` unchanged, and the word is owned iff the
      capacity is nonzero. */
  lemma StoreRoundTrip(len: usize, capacity: usize)
    requires len <= U32_MAX && capacity <= U32_MAX
    ensures Store(len, capacity).Ok?
    ensures Unpack(Store(len, capacity).value) == (len, capacity)
    ensures AsRef(Store(len, capacity).value) == len
    ensures Maybe(Store(len, capacity).value).Some? <==> capacity != 0
  {
    StoreJoins(len, capacity);
    JoinedWord(len, capacity);
  }

  /** A length below 2^32 is stored as it is, beside the capacity. */
  lemma StoreJoins(len: usize, capacity: usize)
    requires len <= U32_MAX && capacity <= U32_MAX
    ensures Store(len, capacity) == Ok(len + capacity * HALF)
  {
    assert len % HALF == len;
  }

  /** A word with halves `lo` and `hi` decodes into those halves. */
  lemma JoinedWord(lo: usize, hi: usize)
    requires lo < HALF && hi < HALF
    ensures Unpack(lo + hi * HALF) == (lo, hi)
    ensures AsRef(lo + hi * HALF) == lo
    ensures Maybe(lo + hi * HALF).Some? <==> hi != 0
  {
    SplitWord(lo, hi);
  }

  /** `store` does not check the length: a length of 2^32 or more is
      silently cut down to its low 32 bits. */
  lemma StoreTruncatesLength(len: usize, capacity: usize)
    requires capacity <= U32_MAX
    ensures Store(len, capacity).Ok?
    ensures Unpack(Store(len, capacity).value).0 == len % HALF
  {
    var r := Store(len, capacity);
    SplitWord(len % HALF, capacity);
    assert r.value == len % HALF + capacity * HALF;
  }

  /** The view length and the unpacked length are the same half-word,
      for borrowed and for owned words. */
  lemma ViewIsUnpackedLength(w: usize)
    ensures AsRef(w) == Unpack(w).0
  {
  }

  /** Capacity 0 packs exactly like a borrowed value. */
  lemma ZeroCapacityIsBorrowed(len: usize)
    ensures Store(len, 0) == Ok(Empty(len))
  {
  }
}
