/** The effectful half of `Cow`: the operations that allocate, hand over
    or free a buffer. Memory is a `Heap` object; a ghost ledger records
    every allocation ever made and every release, so that "freed exactly
    once when owned, never when borrowed" and "a clone never shares its
    allocation" can be stated. */
module Lifecycle {
  import opened Bits
  import opened Wrappers
  import opened Capacity
  import opened Beef
  import opened Generic

  /** The pointer of a buffer that never allocated (`NonNull::dangling()`). */
  const DANGLING: Ptr := 0

  /** The smallest nonzero capacity `RawVec` grows to for byte-sized elements. */
  const MIN_NON_ZERO_CAP: nat := 8

  function Max(a: nat, b: nat): nat
  {
    if a < b then b else a
  }

  /** The capacity `RawVec::grow_amortized` picks when `required` elements
      do not fit: at least double, at least what is required, and never
      less than the minimum. */
  function Grown(capacity: nat, required: nat): (r: nat)
    ensures r >= required && r >= 2 * capacity && r >= MIN_NON_ZERO_CAP
    ensures r == required || r == 2 * capacity || r == MIN_NON_ZERO_CAP
  {
    Max(MIN_NON_ZERO_CAP, Max(2 * capacity, required))
  }

  /** Adding a fresh block to memory leaves every readable view as it was. */
  lemma FreshBlockKeepsView<T>(mem: Memory<T>, p: Ptr, s: seq<T>, u: Strategy, c: Cow)
    requires Readable(mem, Borrow(u, c)) && p !in mem
    ensures Readable(mem[p := s], Borrow(u, c))
    ensures View(mem[p := s], u, c) == View(mem, u, c)
  {
    if Borrow(u, c).len != 0 {
      assert c.ptr in mem && c.ptr != p;
    }
  }

  /** Removing one key and setting another commute. */
  lemma RemoveOther<K, V>(m: map<K, V>, gone: K, k: K, v: V)
    requires gone != k
    ensures m[k := v] - {gone} == (m - {gone})[k := v]
  {
  }

  class Heap<T> {
    /** Everything readable: static data, borrowed data and allocations. */
    var mem: Memory<T>
    /** The live heap allocations and their capacities. */
    var allocs: map<Ptr, usize>
    /** Pointers at or above `next` have never been handed out. */
    var next: Ptr
    /** Every allocation ever made. */
    ghost var issued: set<Ptr>
    /** Every release ever made, with its multiplicity. */
    ghost var released: multiset<Ptr>

    /** Each allocation ever made is either live or was released exactly
        once; a live allocation holds at most its capacity. */
    ghost predicate Valid()
      reads this
    {
      DANGLING < next &&
      (forall p :: p in mem ==> p < next) &&
      (forall p :: p in issued ==> DANGLING < p < next) &&
      (forall p :: p in allocs ==> p in issued && p in mem && 0 < allocs[p] && |mem[p]| <= allocs[p]) &&
      (forall p :: p in released ==> p in issued && p !in allocs && released[p] == 1) &&
      (forall p :: p in issued ==> p in allocs || p in released)
    }

    /** The value's parts describe live memory, and an owned value's
        parts describe a live allocation: its elements and its capacity. */
    ghost predicate Holds(u: Strategy, c: Cow)
      reads this
    {
      Sound(mem, u, c) &&
      (IsOwned(u, c) ==>
         c.ptr in allocs && c.ptr in mem &&
         Unpack(u, c.fat, CapacityOf(u, c).value) == (|mem[c.ptr]|, allocs[c.ptr]))
    }

    /** The buffer's allocation is live and holds its elements, or the
        buffer never allocated. */
    ghost predicate HoldsBuffer(b: Buffer<T>)
      reads this
    {
      ValidBuffer(b) &&
      (b.capacity != 0 ==>
         b.ptr in allocs && b.ptr in mem && allocs[b.ptr] == b.capacity && mem[b.ptr] == b.contents)
    }

    /** The one change an allocation makes: a fresh pointer `p`, taken
        from `next`, now holds `s` with the given capacity. */
    twostate predicate AllocatedAt(p: Ptr, s: seq<T>, capacity: usize)
      reads this
    {
      p == old(next) && p !in old(mem) && p !in old(issued) &&
      mem == old(mem)[p := s] && allocs == old(allocs)[p := capacity] &&
      issued == old(issued) + {p} && released == old(released) && next == old(next) + 1
    }

    /** The one change a release makes: `p` leaves memory and the live
        allocations, and is recorded as released for the first time. */
    twostate predicate ReleasedAt(p: Ptr)
      reads this
    {
      p in old(allocs) && old(released)[p] == 0 &&
      mem == old(mem) - {p} && allocs == old(allocs) - {p} &&
      released == old(released) + multiset{p} && issued == old(issued) && next == old(next)
    }

    constructor (statics: Memory<T>, start: Ptr)
      requires DANGLING < start
      requires forall p :: p in statics ==> p < start
      ensures Valid()
      ensures mem == statics && allocs == map[] && next == start
      ensures issued == {} && released == multiset{}
    {
      mem := statics;
      allocs := map[];
      next := start;
      issued := {};
      released := multiset{};
    }

    /** The allocator: a fresh block of `capacity` elements holding `s`. */
    method Alloc(s: seq<T>, capacity: usize) returns (b: Buffer<T>)
      requires Valid() && 0 < capacity && |s| <= capacity
      modifies this
      ensures Valid() && HoldsBuffer(b)
      ensures b == Buffer(b.ptr, s, capacity) && AllocatedAt(b.ptr, s, capacity)
    {
      b := Buffer(next, s, capacity);
      mem := mem[next := s];
      allocs := allocs[next := capacity];
      issued := issued + {next};
      next := next + 1;
    }

    /** The deallocator. */
    method Free(p: Ptr)
      requires Valid() && p in allocs
      modifies this
      ensures Valid() && ReleasedAt(p)
    {
      mem := mem - {p};
      allocs := allocs - {p};
      released := released + multiset{p};
    }

    /** `<[T]>::to_owned` / `<str>::to_owned`: a copy with capacity equal
        to its length; an empty one does not allocate. */
    method ToOwned(s: seq<T>) returns (b: Buffer<T>)
      requires Valid() && |s| < WORD
      modifies this
      ensures Valid() && HoldsBuffer(b)
      ensures b.contents == s && b.capacity == |s|
      ensures |s| == 0 ==> b.ptr == DANGLING && unchanged(this)
      ensures |s| != 0 ==> AllocatedAt(b.ptr, s, |s|)
    {
      if |s| == 0 {
        b := Buffer(DANGLING, [], 0);
      } else {
        b := Alloc(s, |s|);
      }
    }

    /** `Drop for Vec`: releases the allocation, if there is one. */
    method DropBuffer(b: Buffer<T>)
      requires Valid() && HoldsBuffer(b)
      modifies this
      ensures Valid()
      ensures b.capacity != 0 ==> ReleasedAt(b.ptr)
      ensures b.capacity == 0 ==> unchanged(this)
    {
      if b.capacity != 0 {
        Free(b.ptr);
      }
    }

    /** `Clone`: a borrowed value is copied bit for bit and nothing is
        allocated; an owned value is copied into a fresh allocation of
        capacity equal to its length (none when it is empty, so the clone
        of an empty owned value is borrowed). It never panics, because a
        view's length is a capacity every strategy accepts. */
    method Clone(u: Strategy, c: Cow) returns (d: Cow)
      requires Valid() && Holds(u, c)
      modifies this
      ensures Valid() && Holds(u, c) && Holds(u, d)
      ensures View(mem, u, d) == old(View(mem, u, c)) == View(mem, u, c)
      ensures IsBorrowed(u, c) ==> d == c && unchanged(this)
      ensures IsOwned(u, c) && |View(mem, u, c)| == 0 ==> IsBorrowed(u, d) && unchanged(this)
      ensures IsOwned(u, c) && |View(mem, u, c)| != 0 ==>
        IsOwned(u, d) && d.ptr != c.ptr && AllocatedAt(d.ptr, View(mem, u, c), |View(mem, u, c)|)
    {
      match CapacityOf(u, c)
      case Some(_) =>
        var s := View(mem, u, c);
        ViewLengthIsRepresentable(u, c.fat);
        var b := ToOwned(s);
        if |s| != 0 {
          FreshBlockKeepsView(old(mem), b.ptr, s, u, c);
          assert c.ptr in old(allocs);
        }
        OwnedViewsBuffer(mem, u, b);
        d := Owned(u, b).value;
      case None =>
        d := c;
    }

    /** `into_owned`: an owned value hands over its own allocation, with
        no copy and no change to the heap; a borrowed one is copied. The
        value is consumed without running its destructor, so its
        allocation is handed out exactly once. */
    method IntoOwned(u: Strategy, c: Cow) returns (b: Buffer<T>)
      requires Valid() && Holds(u, c)
      modifies this
      ensures Valid() && HoldsBuffer(b)
      ensures b.contents == old(View(mem, u, c))
      ensures IsOwned(u, c) ==> b.ptr == c.ptr && b.capacity == old(allocs)[c.ptr] && unchanged(this)
      ensures IsBorrowed(u, c) ==> b.capacity == |b.contents|
      ensures IsBorrowed(u, c) && b.capacity == 0 ==> unchanged(this)
      ensures IsBorrowed(u, c) && b.capacity != 0 ==> AllocatedAt(b.ptr, b.contents, b.capacity)
    {
      match CapacityOf(u, c)
      case Some(n) =>
        OwnedWordDecodes(u, c.fat, c.cap);
        b := OwnedFromParts(mem, u, c.ptr, c.fat, n);
      case None =>
        b := ToOwned(View(mem, u, c));
    }

    /** `Drop for Cow`: an owned value rebuilds its buffer and drops it,
        releasing the allocation for the first and only time; a borrowed
        value releases nothing. */
    method Drop(u: Strategy, c: Cow)
      requires Valid() && Holds(u, c)
      modifies this
      ensures Valid()
      ensures IsOwned(u, c) ==> ReleasedAt(c.ptr)
      ensures IsBorrowed(u, c) ==> unchanged(this)
    {
      match CapacityOf(u, c)
      case Some(n) =>
        OwnedWordDecodes(u, c.fat, c.cap);
        var b := OwnedFromParts(mem, u, c.ptr, c.fat, n);
        DropBuffer(b);
      case None =>
    }

    /** `into_std_cow` as written: `rt_into_cow(self.to_parts())` takes
        `self` by value but does not wrap it in `ManuallyDrop`, so `self`
        is dropped on return. For an owned value the returned `Owned`
        buffer then points at an allocation that has just been released. */
    method IntoStdCowDropping(u: Strategy, c: Cow) returns (s: StdCow<T>)
      requires Valid() && Holds(u, c)
      modifies this
      ensures Valid()
      ensures s == old(Generic.IntoStdCow(mem, u, c))
      ensures IsOwned(u, c) ==> s.StdOwned? && s.b.ptr == c.ptr && ReleasedAt(c.ptr) && !HoldsBuffer(s.b)
      ensures IsBorrowed(u, c) ==> unchanged(this)
    {
      s := Generic.IntoStdCow(mem, u, c);
      Drop(u, c);
    }

    /** `into_std_cow` as evidently intended (`ManuallyDrop::new(self).to_parts()`,
        as on its `const` path): the allocation passes to the returned
        buffer, which holds it, and nothing is released. */
    method IntoStdCow(u: Strategy, c: Cow) returns (s: StdCow<T>)
      requires Valid() && Holds(u, c)
      ensures s == Generic.IntoStdCow(mem, u, c)
      ensures s.StdOwned? <==> IsOwned(u, c)
      ensures s.StdOwned? ==> s.b.ptr == c.ptr && HoldsBuffer(s.b)
    {
      s := Generic.IntoStdCow(mem, u, c);
      if IsOwned(u, c) {
        OwnedWordDecodes(u, c.fat, c.cap);
        assert s.b.contents == mem[c.ptr];
      }
    }

    /** `String::push_str` / `Vec::extend_from_slice`: appends in place when
        the capacity suffices; otherwise grows, moving the elements to a
        fresh allocation and releasing the old one. */
    method PushStr(b: Buffer<T>, s: seq<T>) returns (r: Buffer<T>)
      requires Valid() && HoldsBuffer(b)
      requires |b.contents| + |s| <= b.capacity || Grown(b.capacity, |b.contents| + |s|) < WORD
      modifies this
      ensures Valid() && HoldsBuffer(r)
      ensures r.contents == b.contents + s
      ensures |b.contents| + |s| <= b.capacity ==> r.ptr == b.ptr && r.capacity == b.capacity
      ensures |b.contents| + |s| <= b.capacity && b.capacity != 0 ==>
        mem == old(mem)[b.ptr := r.contents] && allocs == old(allocs) &&
        issued == old(issued) && released == old(released) && next == old(next)
      ensures |b.contents| + |s| <= b.capacity && b.capacity == 0 ==> unchanged(this)
      ensures |b.contents| + |s| > b.capacity ==>
        r.capacity == Grown(b.capacity, |b.contents| + |s|) && r.ptr == old(next) && r.ptr !in old(issued) &&
        mem == (old(mem) - (if b.capacity != 0 then {b.ptr} else {}))[r.ptr := r.contents] &&
        allocs == (old(allocs) - (if b.capacity != 0 then {b.ptr} else {}))[r.ptr := r.capacity] &&
        issued == old(issued) + {r.ptr} && next == old(next) + 1 &&
        released == old(released) + (if b.capacity != 0 then multiset{b.ptr} else multiset{})
    {
      var need := |b.contents| + |s|;
      if need <= b.capacity {
        if b.capacity != 0 {
          mem := mem[b.ptr := b.contents + s];
        }
        r := Buffer(b.ptr, b.contents + s, b.capacity);
      } else {
        r := Reallocate(b, s);
      }
    }

    /** The growing half of `PushStr`: the elements move to a fresh
        allocation of the grown capacity and the old one is released. */
    method Reallocate(b: Buffer<T>, s: seq<T>) returns (r: Buffer<T>)
      requires Valid() && HoldsBuffer(b)
      requires |b.contents| + |s| > b.capacity && Grown(b.capacity, |b.contents| + |s|) < WORD
      modifies this
      ensures Valid() && HoldsBuffer(r)
      ensures r.contents == b.contents + s
      ensures r.capacity == Grown(b.capacity, |b.contents| + |s|) && r.ptr == old(next) && r.ptr !in old(issued)
      ensures mem == (old(mem) - (if b.capacity != 0 then {b.ptr} else {}))[r.ptr := r.contents]
      ensures allocs == (old(allocs) - (if b.capacity != 0 then {b.ptr} else {}))[r.ptr := r.capacity]
      ensures issued == old(issued) + {r.ptr} && next == old(next) + 1
      ensures released == old(released) + (if b.capacity != 0 then multiset{b.ptr} else multiset{})
    {
      var grown: usize := Grown(b.capacity, |b.contents| + |s|);
      r := Alloc(b.contents + s, grown);
      DropBuffer(b);
      if b.capacity != 0 {
        RemoveOther(old(mem), b.ptr, r.ptr, r.contents);
        RemoveOther(old(allocs), b.ptr, r.ptr, r.capacity);
      }
    }
  }
}
