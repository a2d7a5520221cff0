/** The "skinny" two-word strategy (type `Cursed`): a fixed 32/32 split of
    the length word. Its file still uses an older, pointer-taking
    signature; only its word arithmetic is modelled here, in the
    `(len) -> word` shape of the other strategies.

    As written, `MASK_HI` is `!u32::max_value() as usize`: unary `!`
    binds tighter than `as`, so the mask is the zero-extension of
    `!u32::MAX`, which is 0. On top of that `store` shifts
    `capacity & MASK_HI` into the high half, which is 0 for every
    capacity it accepts whatever the mask is. The functions below model
    that code; the `...Intended` ones model the evident intent (the
    layout of the Lean strategy) and are the ones the rest of the
    model uses. */
module Skinny {
  import opened Bits
  import opened Wrappers

  /** `u32::max_value() as usize` */
  const MASK_LO: usize := Widen(U32_MAX)
  /** `!u32::max_value() as usize`, i.e. `(!u32::MAX) as usize` */
  const MASK_HI: usize := Widen(Not32(U32_MAX))
  /** `!(u32::max_value() as usize)`, the mask evidently meant */
  const MASK_HI_INTENDED: usize := Not64(Widen(U32_MAX))

  const OUT_OF_BOUNDS: string := "beef::skinny::Cow: Capacity out of bounds"

  /** The high mask as written is empty, unlike the one evidently meant. */
  lemma MaskHiIsZero()
    ensures MASK_HI == 0
    ensures MASK_HI_INTENDED == WORD - HALF
  {
  }

  /** `empty`: only the low 32 bits of the length are kept. */
  function Empty(len: usize): (w: usize)
    ensures w == len % HALF
    ensures MaybeIntended(w).None?
  {
    LowHalf(len);
    And(len, MASK_LO)
  }

  /** The view of a word `empty` built is that word: taking the low
      half again changes nothing. */
  lemma EmptyIsItsOwnView(len: usize)
    ensures Empty(Empty(len)) == Empty(len)
    ensures len <= U32_MAX ==> Empty(len) == len
  {
    var w := Empty(len);
    assert w < HALF;
  }

  /** The word `store` packs once its capacity check has passed, with the
      high mask given as a parameter: `(len & MASK_LO) | ((capacity & hi) << 32)`. */
  function Packed(len: usize, capacity: usize, hi: usize): usize
  {
    Or(And(len, MASK_LO), Shl32(And(capacity, hi)))
  }

  /** `store` as written: panics when the capacity exceeds `u32::MAX`,
      and otherwise packs a word in which no capacity survives. */
  function Store(len: usize, capacity: usize): (r: Result<usize>)
    ensures r.Panic? <==> capacity > U32_MAX
    ensures r.Panic? ==> r.message == OUT_OF_BOUNDS
    ensures r.Ok? ==> r.value == Empty(len)
  {
    if capacity > MASK_LO then
      Panic(OUT_OF_BOUNDS)
    else
      PackedDropsCapacity(len, capacity, MASK_HI);
      Ok(Packed(len, capacity, MASK_HI))
  }

  /** `unpack` as written: the capacity it returns is always 0. */
  function Unpack(len: usize): (r: (usize, usize))
    ensures r == (len % HALF, 0)
  {
    LowHalf(len);
    (And(len, MASK_LO), Shr32(And(len, MASK_HI)))
  }

  /** `maybe` as written: never reports ownership. */
  function Maybe(len: usize): (r: Option<()>)
    ensures r.None?
  {
    if And(len, MASK_HI) != 0 then Some(()) else None
  }

  /** Whichever high mask is used, `(capacity & hi) << 32` is 0 for every
      capacity the check lets through, so the packed word is the one
      `empty` builds. */
  lemma PackedDropsCapacity(len: usize, capacity: usize, hi: usize)
    requires hi == MASK_HI || hi == MASK_HI_INTENDED
    requires capacity <= U32_MAX
    ensures Packed(len, capacity, hi) == Empty(len)
  {
    if hi == MASK_HI_INTENDED {
      HighHalf(capacity);
    }
    assert And(capacity, hi) == 0;
    assert Shl32(0) == 0;
  }

  /** The defect on a concrete input: an owned buffer of length 5 and
      capacity 16 packs into the word 5, which decodes as borrowed with
      capacity 0, so its allocation would never be released. */
  lemma OwnedBufferReadsAsBorrowed()
    ensures Store(5, 16) == Ok(5)
    ensures Maybe(5).None? && Unpack(5) == (5, 0)
  {
  }

  /** `store` with the evident intent: the capacity goes, masked with
      `MASK_LO`, into the high half (as in the Lean strategy). */
  function StoreIntended(len: usize, capacity: usize): (r: Result<usize>)
    ensures r.Panic? <==> capacity > U32_MAX
    ensures r.Panic? ==> r.message == OUT_OF_BOUNDS
    ensures r.Ok? ==> r.value == len % HALF + capacity * HALF
  {
    if capacity > MASK_LO then
      Panic(OUT_OF_BOUNDS)
    else
      LowHalf(len);
      LowHalf(capacity);
      assert And(capacity, MASK_LO) == capacity;
      JoinHalves(And(len, MASK_LO), capacity);
      Ok(Or(And(len, MASK_LO), Shl32(And(capacity, MASK_LO))))
  }

  /** `unpack` with the intended high mask. */
  function UnpackIntended(len: usize): (r: (usize, usize))
    ensures r == (len % HALF, len / HALF)
  {
    LowHalf(len);
    HighHalf(len);
    ShrHigh(len);
    (And(len, MASK_LO), Shr32(And(len, MASK_HI_INTENDED)))
  }

  /** `maybe` with the intended high mask: owned iff the high half is set. */
  function MaybeIntended(len: usize): (r: Option<()>)
    ensures r.Some? <==> len >= HALF
  {
    HighHalf(len);
    if And(len, MASK_HI_INTENDED) != 0 then Some(()) else None
  }

  /** The round trip the intended layout achieves for 32-bit lengths and
      capacities; the empty word is borrowed. */
  lemma IntendedRoundTrip(len: usize, capacity: usize)
    requires len <= U32_MAX && capacity <= U32_MAX
    ensures StoreIntended(len, capacity).Ok?
    ensures UnpackIntended(StoreIntended(len, capacity).value) == (len, capacity)
    ensures MaybeIntended(StoreIntended(len, capacity).value).Some? <==> capacity != 0
    ensures MaybeIntended(Empty(len)).None?
  {
    assert len % HALF == len;
    IntendedJoinedWord(len, capacity);
    assert MaybeIntended(Empty(len)).None?;
  }

  /** A word with halves `lo` and `hi` decodes into those halves under
      the intended masks. */
  lemma IntendedJoinedWord(lo: usize, hi: usize)
    requires lo < HALF && hi < HALF
    ensures UnpackIntended(lo + hi * HALF) == (lo, hi)
    ensures MaybeIntended(lo + hi * HALF).Some? <==> hi != 0
  {
    SplitWord(lo, hi);
  }
}
