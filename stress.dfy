/** The `stress_test_owned` test shared by the Wide and Lean strategies,
    stated for every strategy: 1024 rounds of clone-and-drop (every third
    round), `into_owned`, `push_str` and `into`, checked against a plain
    string built alongside. */
module Stress {
  import opened Bits
  import opened Wrappers
  import opened Capacity
  import opened Beef
  import opened Generic
  import opened Lifecycle

  const HELLO: string := "Hello... "
  const APPENDED: string := "Hello?.. "
  const ROUNDS: nat := 1024

  /** `n` copies of `s`, one after the other. */
  function Repeat(s: string, n: nat): (r: string)
    ensures |r| == n * |s|
  {
    if n == 0 then [] else Repeat(s, n - 1) + s
  }

  /** Releasing a block other than the one a value views leaves its view. */
  lemma OtherBlockKeepsView<T>(mem: Memory<T>, p: Ptr, u: Strategy, c: Cow)
    requires Readable(mem, Borrow(u, c)) && (Borrow(u, c).len != 0 ==> c.ptr != p)
    ensures Readable(mem - {p}, Borrow(u, c))
    ensures View(mem - {p}, u, c) == View(mem, u, c)
  {
  }

  /** What holds between rounds: `cow` is live and shows `expected`; an
      owned `cow` was allocated during the test, with a capacity of at
      most twice its length plus the growth minimum; the live allocations
      are those of the start plus the one `cow` owns. */
  ghost predicate Tracking(h: Heap<char>, u: Strategy, cow: Cow, expected: string,
                           allocs0: map<Ptr, usize>, issued0: set<Ptr>)
    reads h
  {
    h.Valid() && h.Holds(u, cow) && View(h.mem, u, cow) == expected &&
    (IsOwned(u, cow) ==> cow.ptr in h.allocs && h.allocs[cow.ptr] <= 2 * |expected| + 8 && cow.ptr !in issued0) &&
    (forall p :: p in allocs0 ==> p in issued0) && issued0 <= h.issued &&
    (forall p :: p in h.allocs <==> p in allocs0 || (IsOwned(u, cow) && p == cow.ptr)) &&
    (forall p :: p in allocs0 ==> h.allocs[p] == allocs0[p])
  }

  /** `let old = cow; cow = old.clone(); drop(old);` */
  method CloneAndDrop(h: Heap<char>, u: Strategy, cow: Cow, ghost expected: string,
                      ghost allocs0: map<Ptr, usize>, ghost issued0: set<Ptr>) returns (next: Cow)
    requires Tracking(h, u, cow, expected, allocs0, issued0) && |expected| != 0
    modifies h
    ensures Tracking(h, u, next, expected, allocs0, issued0)
  {
    if IsOwned(u, cow) {
      next := CloneAndDropOwned(h, u, cow, expected, allocs0, issued0);
    } else {
      next := h.Clone(u, cow);
      h.Drop(u, cow);
    }
  }

  /** `CloneAndDrop` for an owned value: the clone has its own block (or
      none), and the old block is released. */
  method CloneAndDropOwned(h: Heap<char>, u: Strategy, cow: Cow, ghost expected: string,
                           ghost allocs0: map<Ptr, usize>, ghost issued0: set<Ptr>) returns (next: Cow)
    requires Tracking(h, u, cow, expected, allocs0, issued0) && |expected| != 0 && IsOwned(u, cow)
    modifies h
    ensures Tracking(h, u, next, expected, allocs0, issued0)
  {
    next := h.Clone(u, cow);
    ghost var between := h.mem;
    h.Drop(u, cow);
    OtherBlockKeepsView(between, cow.ptr, u, next);
  }

  /** What holds of the `String` in hand during a round: it is live and
      holds `expected`; if it allocated, it did so during the test, with
      a capacity of at most twice its length plus the growth minimum; the
      live allocations are those of the start plus its own. */
  ghost predicate TrackingBuffer(h: Heap<char>, b: Buffer<char>, expected: string,
                                 allocs0: map<Ptr, usize>, issued0: set<Ptr>)
    reads h
  {
    h.Valid() && h.HoldsBuffer(b) && b.contents == expected &&
    (b.capacity != 0 ==> b.capacity <= 2 * |expected| + 8 && b.ptr !in issued0) &&
    (forall p :: p in allocs0 ==> p in issued0) && issued0 <= h.issued &&
    (forall p :: p in h.allocs <==> p in allocs0 || (b.capacity != 0 && p == b.ptr)) &&
    (forall p :: p in allocs0 ==> h.allocs[p] == allocs0[p])
  }

  /** `let mut owned = cow.into_owned();` */
  method TakeOwned(h: Heap<char>, u: Strategy, cow: Cow, ghost expected: string,
                   ghost allocs0: map<Ptr, usize>, ghost issued0: set<Ptr>) returns (owned: Buffer<char>)
    requires Tracking(h, u, cow, expected, allocs0, issued0)
    modifies h
    ensures TrackingBuffer(h, owned, expected, allocs0, issued0)
  {
    owned := h.IntoOwned(u, cow);
  }

  /** `owned.push_str("Hello?.. ");` */
  method Append(h: Heap<char>, owned: Buffer<char>, ghost expected: string,
                ghost allocs0: map<Ptr, usize>, ghost issued0: set<Ptr>) returns (grown: Buffer<char>)
    requires TrackingBuffer(h, owned, expected, allocs0, issued0) && |expected| <= 100_000
    modifies h
    ensures TrackingBuffer(h, grown, expected + APPENDED, allocs0, issued0)
  {
    grown := h.PushStr(owned, APPENDED);
  }

  /** `cow = owned.into();` */
  method GiveOwned(h: Heap<char>, u: Strategy, owned: Buffer<char>, ghost expected: string,
                   ghost allocs0: map<Ptr, usize>, ghost issued0: set<Ptr>) returns (cow: Cow)
    requires TrackingBuffer(h, owned, expected, allocs0, issued0) && |expected| <= 100_000
    ensures Tracking(h, u, cow, expected, allocs0, issued0)
  {
    assert Representable(u, owned.capacity) && LengthFits(u, |owned.contents|);
    OwnedViewsBuffer(h.mem, u, owned);
    cow := Owned(u, owned).value;
  }

  /** The `String` that `assert_eq!` compares is dropped after it: the
      live allocations are back to those of the start. */
  method DropLast(h: Heap<char>, owned: Buffer<char>, ghost expected: string,
                  ghost allocs0: map<Ptr, usize>, ghost issued0: set<Ptr>)
    requires TrackingBuffer(h, owned, expected, allocs0, issued0)
    modifies h
    ensures h.Valid() && h.allocs == allocs0 && issued0 <= h.issued
    ensures forall p :: p in h.issued && p !in issued0 ==> h.released[p] == 1
  {
    h.DropBuffer(owned);
    assert h.allocs.Keys == allocs0.Keys;
  }

  /** One round of the test: clone-and-drop every third round, then
      `into_owned`, `push_str` and `into`; the value now shows one more
      copy of the appended text. */
  method Round(h: Heap<char>, u: Strategy, cow: Cow, i: nat, ghost expected: string,
               ghost allocs0: map<Ptr, usize>, ghost issued0: set<Ptr>) returns (next: Cow)
    requires Tracking(h, u, cow, expected, allocs0, issued0) && 0 < |expected| <= 99_000
    modifies h
    ensures Tracking(h, u, next, expected + APPENDED, allocs0, issued0)
  {
    next := cow;
    if i % 3 == 0 {
      next := CloneAndDrop(h, u, next, expected, allocs0, issued0);
    }
    var owned := TakeOwned(h, u, next, expected, allocs0, issued0);
    owned := Append(h, owned, expected, allocs0, issued0);
    next := GiveOwned(h, u, owned, expected + APPENDED, allocs0, issued0);
  }

  lemma RepeatStep(i: nat)
    ensures HELLO + Repeat(APPENDED, i + 1) == (HELLO + Repeat(APPENDED, i)) + APPENDED
    ensures |HELLO + Repeat(APPENDED, i)| == 9 + 9 * i
  {
  }

  /** The test, from a heap in which `literal` holds the string literal.
      It returns the final `into_owned` result and the expected string,
      which agree; every allocation it makes is released exactly once,
      and the live allocations end as they began. */
  method StressTestOwned(h: Heap<char>, u: Strategy, literal: Ptr) returns (result: string, expected: string)
    requires h.Valid() && literal in h.mem && h.mem[literal] == HELLO
    modifies h
    ensures result == expected
    ensures expected == HELLO + Repeat(APPENDED, ROUNDS)
    ensures h.Valid() && h.allocs == old(h.allocs)
    ensures forall p :: p in h.issued && p !in old(h.issued) ==> h.released[p] == 1
  {
    ghost var allocs0, issued0 := h.allocs, h.issued;
    expected := HELLO;
    var literalRef := RawSlice(literal, |HELLO|);
    BorrowedViewsReference(h.mem, u, literalRef);
    var cow := Borrowed(u, literalRef);

    var i := 0;
    while i < ROUNDS
      invariant 0 <= i <= ROUNDS
      invariant Tracking(h, u, cow, expected, allocs0, issued0)
      invariant expected == HELLO + Repeat(APPENDED, i)
    {
      RepeatStep(i);
      cow := Round(h, u, cow, i, expected, allocs0, issued0);
      expected := expected + APPENDED;
      i := i + 1;
    }

    var last := TakeOwned(h, u, cow, expected, allocs0, issued0);
    result := last.contents;
    DropLast(h, last, expected, allocs0, issued0);
  }
}
