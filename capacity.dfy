/** The `Capacity` trait: the interface every strategy offers, as a closed
    choice among the three strategies. The Skinny strategy is taken with
    its intended masks (see module Skinny). All words are those of a
    64-bit target. */
module Capacity {
  import opened Bits
  import opened Wrappers
  import W = Wide
  import L = Lean
  import S = Skinny

  datatype Strategy = Wide | Lean | Skinny

  /** `Self::Field`: Wide's optional capacity, or the zero-sized marker of
      the two-word strategies. */
  datatype Field = WideField(opt: Option<W.NonZeroUsize>) | ZeroSized

  /** `Self::NonZero`: Wide's nonzero capacity, or the zero-sized marker. */
  datatype NonZero = WideCapacity(n: W.NonZeroUsize) | Marker

  /** The field type belongs to the strategy (a fact of Rust's types). */
  predicate FieldOf(u: Strategy, f: Field)
  {
    u.Wide? <==> f.WideField?
  }

  predicate NonZeroOf(u: Strategy, n: NonZero)
  {
    u.Wide? <==> n.WideCapacity?
  }

  /** Lengths the strategy represents exactly. */
  predicate LengthFits(u: Strategy, len: usize)
  {
    u.Wide? || len <= U32_MAX
  }

  /** Capacities `store` accepts. */
  predicate Representable(u: Strategy, capacity: usize)
  {
    u.Wide? || capacity <= U32_MAX
  }

  /** `as_ref`: the length of the view that the length word describes. */
  function AsRef(u: Strategy, len: usize): (n: usize)
    ensures n == (if u.Wide? then len else len % HALF)
  {
    match u
    case Wide => W.AsRef(len)
    case Lean => L.AsRef(len)
    // The Skinny file has no `as_ref`: its view is the `len & MASK_LO` that `empty` builds.
    case Skinny => S.Empty(len)
  }

  /** `empty`: the parts of a borrowed value of length `len`. */
  function Empty(u: Strategy, len: usize): (r: (usize, Field))
    ensures FieldOf(u, r.1)
  {
    match u
    case Wide => var (w, f) := W.Empty(len); (w, WideField(f))
    case Lean => (L.Empty(len), ZeroSized)
    case Skinny => (S.Empty(len), ZeroSized)
  }

  /** `store`: the parts of an owned buffer, or the out-of-bounds panic. */
  function Store(u: Strategy, len: usize, capacity: usize): (r: Result<(usize, Field)>)
    ensures r.Panic? <==> !Representable(u, capacity)
    ensures r.Ok? ==> FieldOf(u, r.value.1)
  {
    match u
    case Wide => var (w, f) := W.Store(len, capacity); Ok((w, WideField(f)))
    case Lean =>
      (match L.Store(len, capacity)
       case Ok(w) => Ok((w, ZeroSized))
       case Panic(m) => Panic(m))
    case Skinny =>
      (match S.StoreIntended(len, capacity)
       case Ok(w) => Ok((w, ZeroSized))
       case Panic(m) => Panic(m))
  }

  /** `unpack`: length and true capacity of an owned value. */
  function Unpack(u: Strategy, len: usize, capacity: NonZero): (r: (usize, usize))
    requires NonZeroOf(u, capacity)
    ensures u.Wide? ==> r == (len, capacity.n) && r.1 != 0
    ensures !u.Wide? ==> r == (len % HALF, len / HALF)
  {
    match u
    case Wide => W.Unpack(len, capacity.n)
    case Lean => L.Unpack(len)
    case Skinny => S.UnpackIntended(len)
  }

  /** `maybe`: the ownership test, `None` for borrowed. */
  function Maybe(u: Strategy, len: usize, capacity: Field): (r: Option<NonZero>)
    requires FieldOf(u, capacity)
    ensures r.Some? ==> NonZeroOf(u, r.value)
  {
    match u
    case Wide => (match W.Maybe(len, capacity.opt) case Some(n) => Some(WideCapacity(n)) case None => None)
    case Lean => (match L.Maybe(len) case Some(_) => Some(Marker) case None => None)
    case Skinny => (match S.MaybeIntended(len) case Some(_) => Some(Marker) case None => None)
  }

  /** `empty` builds a borrowed value under every strategy, whose view
      has the original length when the length fits and its low 32 bits
      otherwise. */
  lemma EmptyIsBorrowed(u: Strategy, len: usize)
    ensures Maybe(u, Empty(u, len).0, Empty(u, len).1).None?
    ensures AsRef(u, Empty(u, len).0) == (if u.Wide? then len else len % HALF)
    ensures LengthFits(u, len) ==> AsRef(u, Empty(u, len).0) == len
  {
    match u
    case Wide =>
    case Lean =>
      var w := L.Empty(len);
      assert w < HALF;
    case Skinny =>
      S.EmptyIsItsOwnView(len);
  }

  /** Round trip: a representable nonzero capacity and a fitting length
      come back out of `unpack`, the word is owned, and its view has the
      stored length. */
  lemma StoreRoundTrip(u: Strategy, len: usize, capacity: usize)
    requires Representable(u, capacity) && LengthFits(u, len) && capacity != 0
    ensures Store(u, len, capacity).Ok?
    ensures var (w, f) := Store(u, len, capacity).value;
      Maybe(u, w, f).Some? &&
      Unpack(u, w, Maybe(u, w, f).value) == (len, capacity) &&
      AsRef(u, w) == len
  {
    match u
    case Wide =>
    case Lean => L.StoreRoundTrip(len, capacity);
    case Skinny => S.IntendedRoundTrip(len, capacity);
  }

  /** Capacity 0 packs exactly like `empty`: an owned buffer that never
      allocated is indistinguishable from a borrowed value. */
  lemma ZeroCapacityCollision(u: Strategy, len: usize)
    ensures Store(u, len, 0) == Ok(Empty(u, len))
  {
    match u
    case Wide =>
    case Lean => L.ZeroCapacityIsBorrowed(len);
    case Skinny => assert S.StoreIntended(len, 0) == Ok(S.Empty(len));
  }

  /** Whenever `maybe` reports ownership, the unpacked capacity is nonzero
      and the unpacked length is the view length. */
  lemma OwnedWordDecodes(u: Strategy, len: usize, f: Field)
    requires FieldOf(u, f) && Maybe(u, len, f).Some?
    ensures Unpack(u, len, Maybe(u, len, f).value).1 != 0
    ensures Unpack(u, len, Maybe(u, len, f).value).0 == AsRef(u, len)
  {
  }

  /** Every length a view can have is a capacity `store` accepts. */
  lemma ViewLengthIsRepresentable(u: Strategy, len: usize)
    ensures Representable(u, AsRef(u, len)) && LengthFits(u, AsRef(u, len))
  {
  }
}
