/** The generic `Cow<T, U>`: a pointer, a length word and a capacity field.
    Whether a value is owned is never stored; it is computed from the
    word and the field by the strategy's `maybe`. This module holds the
    parts of `Cow` that only read those three fields; allocating,
    copying and freeing are in module Lifecycle. */
module Generic {
  import opened Bits
  import opened Wrappers
  import opened Capacity
  import opened Beef

  /** `Cow { ptr, fat, cap, marker }`; the lifetime marker is left out. */
  datatype Cow = Cow(ptr: Ptr, fat: usize, cap: Field)

  /** `core::cmp::Ordering`. */
  datatype Ordering = Less | Equal | Greater

  /** The capacity field has the strategy's field type. */
  predicate WellFormed(u: Strategy, c: Cow)
  {
    FieldOf(u, c.cap)
  }

  /** `from_parts` */
  function FromParts(p: Parts): (c: Cow)
    ensures ToParts(c) == p
  {
    Cow(p.ptr, p.fat, p.cap)
  }

  /** `to_parts` */
  function ToParts(c: Cow): (p: Parts)
  {
    Parts(c.ptr, c.fat, c.cap)
  }

  /** `to_parts` and `from_parts` are inverse to each other. */
  lemma PartsRoundTrip(c: Cow, p: Parts)
    ensures FromParts(ToParts(c)) == c
    ensures ToParts(FromParts(p)) == p
  {
  }

  /** `capacity`: `U::maybe(self.fat, self.cap)`. */
  function CapacityOf(u: Strategy, c: Cow): (r: Option<NonZero>)
    requires WellFormed(u, c)
    ensures r.Some? ==> NonZeroOf(u, r.value)
  {
    Maybe(u, c.fat, c.cap)
  }

  /** `is_borrowed` */
  predicate IsBorrowed(u: Strategy, c: Cow): (r: bool)
    requires WellFormed(u, c)
    ensures r <==> (if u.Wide? then c.cap.opt.None? else c.fat < HALF)
  {
    CapacityOf(u, c).None?
  }

  /** `is_owned` */
  predicate IsOwned(u: Strategy, c: Cow): (r: bool)
    requires WellFormed(u, c)
    ensures r <==> !IsBorrowed(u, c)
  {
    CapacityOf(u, c).Some?
  }

  /** `borrow` (and `Deref`, `AsRef`, `Borrow`): the slice the parts describe. */
  function Borrow(u: Strategy, c: Cow): (r: RawSlice)
    ensures r.ptr == c.ptr
    ensures r.len == (if u.Wide? then c.fat else c.fat % HALF)
  {
    RefFromParts(u, c.ptr, c.fat)
  }

  /** The elements `&*cow` shows. */
  function View<T>(mem: Memory<T>, u: Strategy, c: Cow): (s: seq<T>)
    requires Readable(mem, Borrow(u, c))
    ensures |s| == AsRef(u, c.fat)
  {
    Read(mem, Borrow(u, c))
  }

  /** What the source's `unsafe` blocks rely on: the view is live memory,
      and an owned value's unpacked length is within its capacity. */
  predicate Sound<T>(mem: Memory<T>, u: Strategy, c: Cow)
  {
    WellFormed(u, c) && Readable(mem, Borrow(u, c)) &&
    (IsOwned(u, c) ==> Unpack(u, c.fat, CapacityOf(u, c).value).0 <= Unpack(u, c.fat, CapacityOf(u, c).value).1)
  }

  /** `borrowed` (and `From<&T>`): the parts of the reference. */
  function Borrowed(u: Strategy, r: RawSlice): (c: Cow)
    ensures WellFormed(u, c) && IsBorrowed(u, c) && c.ptr == r.ptr
  {
    FromParts(RefIntoParts(u, r))
  }

  /** `owned` (and `From<String>`, `From<Vec<T>>`): the parts of the
      buffer, which now owns its allocation; panics when the strategy
      cannot represent the capacity. */
  function Owned<T>(u: Strategy, b: Buffer<T>): (r: Result<Cow>)
    requires ValidBuffer(b)
    ensures r.Panic? <==> !Representable(u, b.capacity)
    ensures r.Ok? ==> WellFormed(u, r.value) && r.value.ptr == b.ptr
  {
    match OwnedIntoParts(u, b)
    case Ok(p) => Ok(FromParts(p))
    case Panic(m) => Panic(m)
  }

  /** `Default`: a borrowed empty sequence. */
  function Default(u: Strategy, ptr: Ptr): (c: Cow)
    ensures WellFormed(u, c) && IsBorrowed(u, c)
    ensures Borrow(u, c) == RawSlice(ptr, 0)
  {
    EmptyIsBorrowed(u, 0);
    Borrowed(u, RawSlice(ptr, 0))
  }

  /** `as_borrowed`: the reference, when the value is borrowed. */
  function AsBorrowed(u: Strategy, c: Cow): (r: Option<RawSlice>)
    requires WellFormed(u, c)
    ensures r.Some? <==> IsBorrowed(u, c)
    ensures r.Some? ==> r.value == Borrow(u, c)
  {
    if IsBorrowed(u, c) then Some(Borrow(u, c)) else None
  }

  const UNWRAP_OWNED: string := "Can not turn owned beef::Cow into a borrowed value"

  /** `unwrap_borrowed`: the reference, or a panic when the value is owned. */
  function UnwrapBorrowed(u: Strategy, c: Cow): (r: Result<RawSlice>)
    requires WellFormed(u, c)
    ensures r.Panic? <==> IsOwned(u, c)
    ensures r.Panic? ==> r.message == UNWRAP_OWNED
    ensures r.Ok? ==> r.value == Borrow(u, c)
  {
    if IsBorrowed(u, c) then Ok(Borrow(u, c)) else Panic(UNWRAP_OWNED)
  }

  /** Slice equality under the element type's `PartialEq`, `eq`: equal
      lengths and `eq` at every index. `eq` need not be an equivalence
      (`f64`'s is not reflexive at NaN). */
  predicate SliceEq<T>(eq: (T, T) -> bool, s: seq<T>, t: seq<T>)
  {
    |s| == |t| && forall i :: 0 <= i < |s| ==> eq(s[i], t[i])
  }

  /** When `eq` is identity (as for `str`'s bytes), slice equality is
      sequence equality. */
  lemma SliceEqIsIdentity<T>(eq: (T, T) -> bool, s: seq<T>, t: seq<T>)
    requires forall x, y :: eq(x, y) <==> x == y
    ensures SliceEq(eq, s, t) <==> s == t
  {
  }

  /** `PartialEq<Cow<B, V>> for Cow<A, U>`: the two views are equal under
      the element type's `eq`; the strategies may differ. */
  predicate Eq<T>(eq: (T, T) -> bool, mem: Memory<T>, u: Strategy, a: Cow, v: Strategy, b: Cow): (r: bool)
    requires Readable(mem, Borrow(u, a)) && Readable(mem, Borrow(v, b))
    ensures r <==> EqSeq(eq, mem, u, a, View(mem, v, b))
    ensures r ==> AsRef(u, a.fat) == AsRef(v, b.fat)
  {
    SliceEq(eq, View(mem, u, a), View(mem, v, b))
  }

  /** `PartialEq<[T]>`, `PartialEq<&str>`, `PartialEq<Vec<T>>`, ... and
      their mirrors: the view equals the plain sequence under `eq`. */
  predicate EqSeq<T>(eq: (T, T) -> bool, mem: Memory<T>, u: Strategy, a: Cow, s: seq<T>): (r: bool)
    requires Readable(mem, Borrow(u, a))
    ensures r <==> |s| == AsRef(u, a.fat) && forall i :: 0 <= i < |s| ==> eq(View(mem, u, a)[i], s[i])
  {
    SliceEq(eq, View(mem, u, a), s)
  }

  /** `PartialOrd::partial_cmp`, given the element type's own. */
  function PartialCmp<T>(pcmp: (seq<T>, seq<T>) -> Option<Ordering>,
                         mem: Memory<T>, u: Strategy, a: Cow, v: Strategy, b: Cow): (r: Option<Ordering>)
    requires Readable(mem, Borrow(u, a)) && Readable(mem, Borrow(v, b))
    ensures View(mem, u, a) == View(mem, v, b) ==> r == pcmp(View(mem, u, a), View(mem, u, a))
  {
    pcmp(View(mem, u, a), View(mem, v, b))
  }

  /** `Ord::cmp`, given the element type's own. */
  function Cmp<T>(cmp: (seq<T>, seq<T>) -> Ordering,
                  mem: Memory<T>, u: Strategy, a: Cow, b: Cow): (r: Ordering)
    requires Readable(mem, Borrow(u, a)) && Readable(mem, Borrow(u, b))
    ensures View(mem, u, a) == View(mem, u, b) ==> r == cmp(View(mem, u, a), View(mem, u, a))
  {
    cmp(View(mem, u, a), View(mem, u, b))
  }

  /** `Hash::hash`: the hash of the viewed sequence under `hash`, which
      stands for the element type's own hashing into a `Hasher`. */
  function Hash<T, H>(hash: seq<T> -> H, mem: Memory<T>, u: Strategy, a: Cow): (r: H)
    requires Readable(mem, Borrow(u, a))
    ensures AsRef(u, a.fat) == 0 ==> r == hash([])
  {
    hash(View(mem, u, a))
  }

  /** `borrowed(r)` is borrowed and shows the elements of `r`, when the
      length of `r` fits the strategy. */
  lemma BorrowedViewsReference<T>(mem: Memory<T>, u: Strategy, r: RawSlice)
    requires Readable(mem, r) && LengthFits(u, r.len)
    ensures IsBorrowed(u, Borrowed(u, r)) && !IsOwned(u, Borrowed(u, r))
    ensures Borrow(u, Borrowed(u, r)) == r
    ensures View(mem, u, Borrowed(u, r)) == Read(mem, r)
    ensures Sound(mem, u, Borrowed(u, r))
  {
    RefRoundTrip(u, r);
  }

  /** `owned(b)` keeps the buffer's allocation, shows its elements, and is
      owned exactly when the capacity is nonzero. So `owned(String::new())`
      reports borrowed. */
  lemma OwnedViewsBuffer<T>(mem: Memory<T>, u: Strategy, b: Buffer<T>)
    requires ValidBuffer(b) && Representable(u, b.capacity) && LengthFits(u, |b.contents|)
    requires b.capacity != 0 ==> b.ptr in mem && mem[b.ptr] == b.contents
    ensures Owned(u, b).Ok?
    ensures IsOwned(u, Owned(u, b).value) <==> b.capacity != 0
    ensures IsBorrowed(u, Owned(u, b).value) <==> b.capacity == 0
    ensures Readable(mem, Borrow(u, Owned(u, b).value))
    ensures View(mem, u, Owned(u, b).value) == b.contents
    ensures Sound(mem, u, Owned(u, b).value)
    ensures var c := Owned(u, b).value;
      IsOwned(u, c) ==> Unpack(u, c.fat, CapacityOf(u, c).value) == (|b.contents|, b.capacity)
  {
    var len: usize := |b.contents|;
    if b.capacity == 0 {
      OwnedZeroCapacityIsBorrowed(u, b);
      RefRoundTrip(u, RawSlice(b.ptr, 0));
    } else {
      StoreRoundTrip(u, len, b.capacity);
      var c := Owned(u, b).value;
      assert AsRef(u, c.fat) == len;
      assert Read(mem, RawSlice(b.ptr, len)) == b.contents;
    }
  }

  /** A borrowed and an owned value compare under `eq` as their elements
      do, whatever their strategies; with the same elements and a
      reflexive `eq` they are equal, and they hash the same. */
  lemma BorrowedEqualsOwned<T, H>(eq: (T, T) -> bool, hash: seq<T> -> H, mem: Memory<T>,
                                  u: Strategy, r: RawSlice, v: Strategy, b: Buffer<T>)
    requires Readable(mem, r) && LengthFits(u, r.len)
    requires ValidBuffer(b) && Representable(v, b.capacity) && LengthFits(v, |b.contents|)
    requires b.capacity != 0 ==> b.ptr in mem && mem[b.ptr] == b.contents
    ensures Owned(v, b).Ok?
    ensures Readable(mem, Borrow(u, Borrowed(u, r))) && Readable(mem, Borrow(v, Owned(v, b).value))
    ensures Eq(eq, mem, u, Borrowed(u, r), v, Owned(v, b).value) == SliceEq(eq, Read(mem, r), b.contents)
    ensures Eq(eq, mem, v, Owned(v, b).value, u, Borrowed(u, r)) == SliceEq(eq, b.contents, Read(mem, r))
    ensures (forall x :: eq(x, x)) && Read(mem, r) == b.contents ==>
      Eq(eq, mem, u, Borrowed(u, r), v, Owned(v, b).value) && Eq(eq, mem, v, Owned(v, b).value, u, Borrowed(u, r))
    ensures Read(mem, r) == b.contents ==>
      Hash(hash, mem, u, Borrowed(u, r)) == Hash(hash, mem, v, Owned(v, b).value)
    ensures Hash(hash, mem, u, Borrowed(u, r)) == hash(Read(mem, r))
  {
    BorrowedViewsReference(mem, u, r);
    OwnedViewsBuffer(mem, v, b);
  }

  /** Equality, ordering and hashing see only the elements: two values
      with the same view are interchangeable in all of them. */
  lemma ComparisonsSeeOnlyContents<T, H>(eq: (T, T) -> bool,
    pcmp: (seq<T>, seq<T>) -> Option<Ordering>, cmp: (seq<T>, seq<T>) -> Ordering, hash: seq<T> -> H,
    mem: Memory<T>, u: Strategy, a: Cow, b: Cow, v: Strategy, c: Cow)
    requires Readable(mem, Borrow(u, a)) && Readable(mem, Borrow(u, b)) && Readable(mem, Borrow(v, c))
    requires View(mem, u, a) == View(mem, u, b)
    ensures Eq(eq, mem, u, a, v, c) <==> Eq(eq, mem, u, b, v, c)
    ensures PartialCmp(pcmp, mem, u, a, v, c) == PartialCmp(pcmp, mem, u, b, v, c)
    ensures Cmp(cmp, mem, u, a, b) == cmp(View(mem, u, a), View(mem, u, a))
    ensures forall x :: Readable(mem, Borrow(u, x)) ==>
      Cmp(cmp, mem, u, a, x) == Cmp(cmp, mem, u, b, x) && Cmp(cmp, mem, u, x, a) == Cmp(cmp, mem, u, x, b)
    ensures Hash(hash, mem, u, a) == Hash(hash, mem, u, b)
  {
  }

  /** `partial_cmp` of a borrowed and an owned value, either way round,
      is the element order on their elements, whatever those are. */
  lemma PartialCmpOfContents<T>(pcmp: (seq<T>, seq<T>) -> Option<Ordering>, mem: Memory<T>,
                                u: Strategy, r: RawSlice, v: Strategy, b: Buffer<T>)
    requires Readable(mem, r) && LengthFits(u, r.len)
    requires ValidBuffer(b) && Representable(v, b.capacity) && LengthFits(v, |b.contents|)
    requires b.capacity != 0 ==> b.ptr in mem && mem[b.ptr] == b.contents
    ensures Owned(v, b).Ok?
    ensures Readable(mem, Borrow(u, Borrowed(u, r))) && Readable(mem, Borrow(v, Owned(v, b).value))
    ensures PartialCmp(pcmp, mem, u, Borrowed(u, r), v, Owned(v, b).value) == pcmp(Read(mem, r), b.contents)
    ensures PartialCmp(pcmp, mem, v, Owned(v, b).value, u, Borrowed(u, r)) == pcmp(b.contents, Read(mem, r))
  {
    BorrowedViewsReference(mem, u, r);
    OwnedViewsBuffer(mem, v, b);
  }

  /** `cmp` of two borrowed values, and of a borrowed and an owned value,
      is the element order on their elements, whatever those are. */
  lemma CmpOfContents<T>(cmp: (seq<T>, seq<T>) -> Ordering, mem: Memory<T>,
                         u: Strategy, r: RawSlice, q: RawSlice, b: Buffer<T>)
    requires Readable(mem, r) && LengthFits(u, r.len) && Readable(mem, q) && LengthFits(u, q.len)
    requires ValidBuffer(b) && Representable(u, b.capacity) && LengthFits(u, |b.contents|)
    requires b.capacity != 0 ==> b.ptr in mem && mem[b.ptr] == b.contents
    ensures Owned(u, b).Ok?
    ensures Readable(mem, Borrow(u, Borrowed(u, r))) && Readable(mem, Borrow(u, Borrowed(u, q)))
    ensures Readable(mem, Borrow(u, Owned(u, b).value))
    ensures Cmp(cmp, mem, u, Borrowed(u, r), Borrowed(u, q)) == cmp(Read(mem, r), Read(mem, q))
    ensures Cmp(cmp, mem, u, Borrowed(u, r), Owned(u, b).value) == cmp(Read(mem, r), b.contents)
    ensures Cmp(cmp, mem, u, Owned(u, b).value, Borrowed(u, r)) == cmp(b.contents, Read(mem, r))
  {
    BorrowedViewsReference(mem, u, r);
    BorrowedViewsReference(mem, u, q);
    OwnedViewsBuffer(mem, u, b);
  }

  /** `std::borrow::Cow` over the same element type. */
  datatype StdCow<T> = StdBorrowed(r: RawSlice) | StdOwned(b: Buffer<T>)

  /** The elements a std `Cow` shows. */
  function StdView<T>(mem: Memory<T>, s: StdCow<T>): seq<T>
    requires s.StdBorrowed? ==> Readable(mem, s.r)
  {
    match s
    case StdBorrowed(r) => Read(mem, r)
    case StdOwned(b) => b.contents
  }

  /** A std `Cow` whose reference is readable, or whose buffer is valid
      and, when it allocated, holds its elements in memory. */
  ghost predicate StdValid<T>(mem: Memory<T>, s: StdCow<T>)
  {
    match s
    case StdBorrowed(r) => Readable(mem, r)
    case StdOwned(b) => ValidBuffer(b) && (b.capacity != 0 ==> b.ptr in mem && mem[b.ptr] == b.contents)
  }

  /** `std_into_parts`: `ref_into_parts` for a borrowed std `Cow`,
      `owned_into_parts` for an owned one. */
  function StdIntoParts<T>(u: Strategy, s: StdCow<T>): (r: Result<Parts>)
    requires s.StdOwned? ==> ValidBuffer(s.b)
    ensures r.Panic? <==> s.StdOwned? && !Representable(u, s.b.capacity)
    ensures r.Ok? ==> FieldOf(u, r.value.cap)
    ensures r.Ok? ==> r.value.ptr == (if s.StdBorrowed? then s.r.ptr else s.b.ptr)
  {
    match s
    case StdBorrowed(r) => Ok(RefIntoParts(u, r))
    case StdOwned(b) => OwnedIntoParts(u, b)
  }

  /** `from_std_cow` (and `From<StdCow>`): the runtime path,
      `rt_from_cow(std_into_parts(cow))`. */
  function FromStdCow<T>(u: Strategy, s: StdCow<T>): (r: Result<Cow>)
    requires s.StdOwned? ==> ValidBuffer(s.b)
    ensures r.Panic? <==> s.StdOwned? && !Representable(u, s.b.capacity)
    ensures r.Ok? ==> WellFormed(u, r.value)
  {
    match StdIntoParts(u, s)
    case Ok(p) => Ok(FromParts(p))
    case Panic(m) => Panic(m)
  }

  /** `into_std_cow` (and `From<Cow> for StdCow`): the std `Cow` that the
      runtime path `rt_into_cow(to_parts())` builds. What becomes of `self`
      afterwards is a heap effect, modelled by `Lifecycle.Heap.IntoStdCow`. */
  function IntoStdCow<T>(mem: Memory<T>, u: Strategy, c: Cow): (s: StdCow<T>)
    requires Sound(mem, u, c)
    ensures s.StdOwned? <==> IsOwned(u, c)
    ensures s.StdOwned? ==> s.b.ptr == c.ptr && ValidBuffer(s.b)
    ensures s.StdBorrowed? ==> s.r == Borrow(u, c) && Readable(mem, s.r)
    ensures s.StdBorrowed? || Readable(mem, Borrow(u, c))
    ensures StdView(mem, s) == View(mem, u, c)
  {
    var p := ToParts(c);
    match Maybe(u, p.fat, p.cap)
    case Some(n) =>
      OwnedWordDecodes(u, p.fat, p.cap);
      StdOwned(OwnedFromParts(mem, u, p.ptr, p.fat, n))
    case None => StdBorrowed(RefFromParts(u, p.ptr, p.fat))
  }

  /** Converting a std `Cow` in and back out gives it back, except that
      an owned buffer of capacity 0 comes back as a borrowed empty slice
      at the same pointer: its variant is not preserved. */
  lemma StdCowRoundTrip<T>(mem: Memory<T>, u: Strategy, s: StdCow<T>)
    requires StdValid(mem, s)
    requires s.StdBorrowed? ==> LengthFits(u, s.r.len)
    requires s.StdOwned? ==> Representable(u, s.b.capacity) && LengthFits(u, |s.b.contents|)
    ensures FromStdCow(u, s).Ok?
    ensures Sound(mem, u, FromStdCow(u, s).value)
    ensures IntoStdCow(mem, u, FromStdCow(u, s).value) ==
      (if s.StdOwned? && s.b.capacity == 0 then StdBorrowed(RawSlice(s.b.ptr, 0)) else s)
  {
    match s
    case StdBorrowed(r) =>
      BorrowedViewsReference(mem, u, r);
    case StdOwned(b) =>
      OwnedViewsBuffer(mem, u, b);
      if b.capacity != 0 {
        OwnedRoundTrip(mem, u, b);
      } else {
        OwnedZeroCapacityIsBorrowed(u, b);
        RefRoundTrip(u, RawSlice(b.ptr, 0));
      }
  }
}
