/** The three-word strategy: the length word is stored as it is and the
    capacity sits in its own `Option<NonZeroUsize>` field, whose `None`
    is the borrowed sentinel. */
module Wide {
  import opened Bits
  import opened Wrappers

  /** `NonZeroUsize`. */
  type NonZeroUsize = x: usize | x != 0 witness 1

  /** `NonZeroUsize::new`: `None` exactly for zero. */
  function NewNonZero(n: usize): (r: Option<NonZeroUsize>)
    ensures r.None? <==> n == 0
    ensures r.Some? ==> r.value == n
  {
    if n == 0 then None else Some(n)
  }

  /** `as_ref`: the length of the view made from a length word. */
  function AsRef(len: usize): (n: usize)
    ensures forall c: NonZeroUsize :: Unpack(len, c).0 == n
  {
    len
  }

  /** `empty`: the parts of a borrowed value of length `len`. */
  function Empty(len: usize): (r: (usize, Option<NonZeroUsize>))
    ensures Maybe(r.0, r.1).None?
    ensures AsRef(r.0) == len
  {
    (len, None)
  }

  /** `store`: the parts of an owned buffer; total, no capacity is refused. */
  function Store(len: usize, capacity: usize): (r: (usize, Option<NonZeroUsize>))
    ensures AsRef(r.0) == len
    ensures Maybe(r.0, r.1).Some? <==> capacity != 0
    ensures capacity != 0 ==> Unpack(r.0, Maybe(r.0, r.1).value) == (len, capacity)
  {
    (len, NewNonZero(capacity))
  }

  /** `unpack`: length and true capacity of an owned value. */
  function Unpack(len: usize, capacity: NonZeroUsize): (r: (usize, usize))
    ensures r.1 != 0
  {
    (len, capacity)
  }

  /** `maybe`: the ownership test; it looks only at the capacity field. */
  function Maybe(len: usize, capacity: Option<NonZeroUsize>): (r: Option<NonZeroUsize>)
    ensures r.Some? <==> capacity.Some?
    ensures r.Some? ==> Unpack(len, r.value) == (len, capacity.value)
  {
    capacity
  }

  /** An owned buffer with capacity 0 packs exactly like a borrowed value. */
  lemma ZeroCapacityIsBorrowed(len: usize)
    ensures Store(len, 0) == Empty(len)
    ensures Maybe(Store(len, 0).0, Store(len, 0).1).None?
  {
  }

  /** Ownership does not depend on the length word. */
  lemma MaybeIgnoresLength(len1: usize, len2: usize, capacity: Option<NonZeroUsize>)
    ensures Maybe(len1, capacity) == Maybe(len2, capacity)
  {
  }
}
