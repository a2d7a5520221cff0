# beef, modelled in Dafny

`beef` is a compact clone-on-write value for Rust. A `Cow` stores only a
pointer, a length word and a capacity field. Whether a value is borrowed
or owned is never stored. It is computed from the length word and the
capacity field by the capacity strategy:

- **Wide**: three words. The capacity is an `Option<NonZeroUsize>`, and `None` means borrowed.
- **Lean**: two words. The length word keeps the length in its low half and the capacity in its high half. An all-zero high half means borrowed.
- **Skinny**: the same 32/32 layout as Lean, written with different masks.

The model has these parts, one module each:

- `Bits`: 64-bit `usize` words as naturals below 2^64. The bitwise `&`, `|`, `!`, `<< 32` and `>> 32` are defined on them, with the lemmas that split a word into its halves.
- `Wide`, `Lean`, `Skinny`: the strategy functions `as_ref`, `empty`, `store`, `unpack` and `maybe`. `store`'s out-of-bounds panic is a `Result`.
- `Capacity`: the `Capacity` trait, as a closed choice among the three strategies.
- `Beef`: the `Beef` trait. The `str` and `[T]` implementations are one definition over the element type. A buffer is (allocation id, elements, capacity). Memory maps allocation ids to their elements.
- `Generic`: the `Cow` value and everything that only reads its three fields:
  - construction (`borrowed`, `owned`, `Default`);
  - ownership queries;
  - the borrowed view;
  - equality, ordering and hashing;
  - conversion from `std::borrow::Cow`, and the std `Cow` that the conversion back builds.
- `Lifecycle`: the operations that allocate, hand over or free a buffer (`clone`, `into_owned`, `into_std_cow`, `Drop`, `push_str`). They are methods of a `Heap` class. The heap keeps a ghost ledger of every allocation ever made and every release.
- `Stress`: the `stress_test_owned` test shared by Wide and Lean. It is stated for every strategy and proved against a plain string built alongside.

The Skinny strategy is modelled twice: as written, and as evidently intended. See "## Findings". The trait dispatcher and the `Cow` use the intended version.
`into_std_cow` is also modelled both as written (it drops `self` after handing its allocation to the result) and as intended. Everything else uses the intended one.

## Model

| member | source | states |
|---|---|---|
| Wide.NewNonZero | src/wide.rs:31 | `NonZeroUsize::new` is `None` exactly for 0, and otherwise holds the value |
| Wide.AsRef | src/wide.rs:19-22 | the view length is the length word itself, the same length `unpack` returns for any capacity |
| Wide.Empty | src/wide.rs:24-27 | the parts of a borrowed value: `maybe` of them is `None`, and the view length is `len` |
| Wide.Store | src/wide.rs:29-32 | total: it never fails; the view length is the stored length; owned iff capacity is nonzero; `unpack` gives back (len, capacity) |
| Wide.Unpack | src/wide.rs:34-37 | the capacity returned is nonzero |
| Wide.Maybe | src/wide.rs:39-42 | owned iff the capacity field holds a capacity, which `unpack` then returns with the length |
| Wide.ZeroCapacityIsBorrowed | src/wide.rs:29-32 | `store(len, 0)` equals `empty(len)` and reads as borrowed |
| Wide.MaybeIgnoresLength | src/wide.rs:39-42 | ownership does not depend on the length word |
| Lean.MasksPartitionWord | src/lean.rs:22-23 | `MASK_LO` is 2^32-1 and `MASK_HI` is 2^64-2^32; they are disjoint; their union is the whole word; every word is the sum of its two masked parts |
| Lean.AsRef | src/lean.rs:29-32 | the view length is the word modulo 2^32 |
| Lean.Empty | src/lean.rs:34-37 | keeps the low 32 bits of `len`; the result reads as borrowed |
| Lean.Store | src/lean.rs:39-49 | panics iff capacity > u32::MAX, with the source's message; otherwise the word is `len mod 2^32 + capacity * 2^32` |
| Lean.Unpack | src/lean.rs:51-54 | the result is (low half, high half) of the word |
| Lean.Maybe | src/lean.rs:56-63 | owned iff the word is at least 2^32, i.e. its high half is nonzero |
| Lean.StoreRoundTrip | src/lean.rs:40-63 | for a length and capacity below 2^32: `store` succeeds; `unpack` returns them; `as_ref` returns the length; owned iff capacity is nonzero |
| Lean.JoinedWord | src/lean.rs:51-63 | a word built from two halves decodes into those halves, and is owned iff its high half is nonzero |
| Lean.StoreTruncatesLength | src/lean.rs:46 | `store` does not check the length: the unpacked length is `len mod 2^32` |
| Lean.ViewIsUnpackedLength | src/lean.rs:30-32 | for every word, the view length equals the unpacked length |
| Lean.ZeroCapacityIsBorrowed | src/lean.rs:40-49 | `store(len, 0)` succeeds with exactly the word `empty(len)` |
| Skinny.MaskHiIsZero | src/skinny.rs:22-23 | `MASK_HI` as written is 0; the parenthesised mask would be 2^64-2^32 |
| Skinny.Empty | src/skinny.rs:28-31 | keeps the low 32 bits of `len`; the word reads as borrowed under both the written and the intended masks |
| Skinny.EmptyIsItsOwnView | src/skinny.rs:29-30 | the view of a word `empty` built is that word, and a length below 2^32 is kept as it is |
| Skinny.Store | src/skinny.rs:33-46 | panics iff capacity > u32::MAX, with the source's message; otherwise the word is exactly `empty(len)` |
| Skinny.Unpack | src/skinny.rs:48-51 | the length is the word modulo 2^32, and the capacity is always 0 |
| Skinny.Maybe | src/skinny.rs:53-60 | as written, it never reports ownership |
| Skinny.PackedDropsCapacity | src/skinny.rs:39-43 | under either mask, `(capacity & MASK_HI) << 32` is 0 for every accepted capacity, so the packed word equals `empty`'s |
| Skinny.OwnedBufferReadsAsBorrowed | src/skinny.rs:33-60 | length 5 and capacity 16 pack into the word 5, which reads as borrowed with capacity 0 |
| Skinny.StoreIntended | src/skinny.rs:33-46 | corrected `store`: same panic condition and message; the word is `len mod 2^32 + capacity * 2^32` |
| Skinny.UnpackIntended | src/skinny.rs:48-51 | corrected `unpack`: (low half, high half) of the word |
| Skinny.MaybeIntended | src/skinny.rs:53-60 | corrected `maybe`: owned iff the high half is nonzero |
| Skinny.IntendedRoundTrip | src/skinny.rs:33-60 | corrected round trip for 32-bit length and capacity: owned iff capacity is nonzero; `empty` reads as borrowed |
| Skinny.IntendedJoinedWord | src/skinny.rs:48-60 | with the corrected masks, a word decodes into its halves |
| Capacity.AsRef | src/traits.rs:15 | the view length is the length word for Wide and its low 32 bits for the two-word strategies |
| Capacity.Unpack | src/traits.rs:21 | Wide returns the length word and the nonzero capacity; the two-word strategies return the low and the high half (Skinny: the corrected version) |
| Capacity.Empty | src/traits.rs:17 | the field has the strategy's field type |
| Capacity.Store | src/traits.rs:19 | panics iff the strategy cannot represent the capacity (never for Wide; above u32::MAX for Lean and Skinny) |
| Capacity.Maybe | src/traits.rs:23 | an ownership result carries the strategy's nonzero type |
| Capacity.EmptyIsBorrowed | src/traits.rs:17-23 | for every strategy (Skinny: the corrected version), `empty` reads as borrowed; its view length is `len`, or `len mod 2^32` for the two-word strategies |
| Capacity.StoreRoundTrip | src/traits.rs:19-23 | for every strategy (Skinny: the corrected version), a nonzero representable capacity and a fitting length are stored as owned; `unpack` and `as_ref` give them back |
| Capacity.ZeroCapacityCollision | src/traits.rs:29-33 | for every strategy (Skinny: the corrected version), `store(len, 0)` is exactly `empty(len)` |
| Capacity.OwnedWordDecodes | src/traits.rs:21-23 | when `maybe` reports ownership, the unpacked capacity is nonzero and the unpacked length is the view length |
| Capacity.ViewLengthIsRepresentable | src/traits.rs:15-19 | every view length is a capacity `store` accepts and a length it keeps |
| Beef.Read | src/traits.rs:76-81 | the slice read has the slice's length |
| Beef.RefIntoParts | src/traits.rs:62-73 | keeps the reference's own pointer; the parts read as borrowed under every strategy |
| Beef.RefFromParts | src/traits.rs:126-131 | views from the given pointer |
| Beef.OwnedIntoParts | src/traits.rs:84-93 | panics iff `store` does; otherwise keeps the buffer's pointer and packs exactly its length and capacity |
| Beef.OwnedFromParts | src/traits.rs:96-105 | rebuilds at the same pointer, with the (length, capacity) that `unpack` returns and the elements in memory |
| Beef.RefRoundTrip | src/traits.rs:112-131 | viewing the parts of a reference gives back the reference when its length fits, and otherwise its low 32 bits |
| Beef.OwnedRoundTrip | src/traits.rs:134-153 | for a nonzero representable capacity, taking a buffer apart and rebuilding it gives back the same pointer, elements and capacity |
| Beef.OwnedZeroCapacityIsBorrowed | src/traits.rs:29-33 | a capacity-0 buffer is empty, and its parts are exactly those of a borrowed empty slice |
| Generic.FromParts | src/generic.rs:75-87 | `to_parts` inverts `from_parts` |
| Generic.PartsRoundTrip | src/generic.rs:75-87 | `to_parts` and `from_parts` are inverse to each other, both ways |
| Generic.CapacityOf | src/generic.rs:224-229 | a reported capacity has the strategy's nonzero type |
| Generic.IsBorrowed | src/generic.rs:178-183 | borrowed iff the capacity field is `None` (Wide) or the high half of the length word is zero (two-word strategies) |
| Generic.IsOwned | src/generic.rs:203-208 | owned is exactly not borrowed |
| Generic.Borrow | src/generic.rs:214-219 | the view starts at the value's pointer, with the length word (Wide) or its low 32 bits as its length |
| Generic.View | src/generic.rs:214-219 | the view has the length `as_ref` gives the length word |
| Generic.Borrowed | src/generic.rs:103-109 | the result is borrowed and keeps the reference's pointer |
| Generic.Owned | src/generic.rs:57-66 | panics iff the capacity is not representable; otherwise keeps the buffer's pointer |
| Generic.Default | src/generic.rs:530-540 | borrowed, viewing an empty slice |
| Generic.AsBorrowed | src/generic.rs:128-138 | `Some` iff borrowed, and then the view's reference |
| Generic.UnwrapBorrowed | src/generic.rs:147-158 | panics iff owned, with the source's message; otherwise the view's reference |
| Generic.Eq | src/generic.rs:683-696 | two values are equal iff the second equals the first's elements under the element type's `eq`; equal values have equal lengths |
| Generic.SliceEqIsIdentity | src/generic.rs:759-762 | when the element `eq` is identity (as for `str`), slice equality is sequence equality |
| Generic.EqSeq | src/generic.rs:733-766 | a value equals a sequence iff the lengths agree and the element type's `eq` holds at every index |
| Generic.PartialCmp | src/generic.rs:553-565 | two values with the same elements compare as the element order compares that sequence with itself |
| Generic.Cmp | src/generic.rs:567-577 | two values with the same elements compare as the element order compares that sequence with itself |
| Generic.Hash | src/generic.rs:518-527 | an empty value hashes as the empty sequence, whatever its pointer |
| Generic.BorrowedViewsReference | src/generic.rs:103-109 | `borrowed(r)` is borrowed, not owned, and views exactly `r` when its length fits |
| Generic.OwnedViewsBuffer | src/generic.rs:161-208 | `owned(b)` is owned iff capacity is nonzero (so `owned(String::new())` is borrowed); it views the buffer's elements and unpacks to its length and capacity |
| Generic.BorrowedEqualsOwned | src/generic.rs:682-696 | a borrowed and an owned value, in either order and across strategies, are equal iff their elements are equal under `eq`; with the same elements and a reflexive `eq` they are equal, and they hash the same |
| Generic.ComparisonsSeeOnlyContents | src/generic.rs:518-577 | `eq`, `partial_cmp`, `cmp` and `hash` give the same answer for any two values with the same view, against every third value and on either side for `cmp` |
| Generic.StdIntoParts | src/generic.rs:233-242 | panics iff owned and not representable; keeps the reference's or buffer's pointer |
| Generic.FromStdCow | src/generic.rs:298-311 | panics iff `std_into_parts` does; the result is well formed |
| Generic.PartialCmpOfContents | src/generic.rs:553-565 | a borrowed and an owned value, in either order, compare as the element order compares their elements, whatever those are |
| Generic.CmpOfContents | src/generic.rs:567-577 | two borrowed values, and a borrowed and an owned value in either order, compare as the element order compares their elements |
| Generic.IntoStdCow | src/generic.rs:354-364 | the std `Cow` built from the parts: `Owned` iff owned, at the same pointer; `Borrowed` is the view; the std view equals the view |
| Generic.StdCowRoundTrip | src/generic.rs:233-370 | std to beef and back (by the corrected `into_std_cow`, whose result is `Generic.IntoStdCow`) is the identity, except that an owned capacity-0 buffer comes back as a borrowed empty slice |
| Lifecycle.Heap.IntoStdCowDropping | src/generic.rs:366-370 | as written: the result is the std `Cow` built from the parts, but for an owned value `self` is then dropped, so the allocation the returned buffer points at is released and no longer held |
| Lifecycle.Heap.IntoStdCow | src/generic.rs:366-380 | as intended (`ManuallyDrop`, as on the `const` path): nothing on the heap changes; an owned value's allocation passes to the returned buffer, which holds it |
| Lifecycle.Grown | src/wide.rs:65 | the growth capacity covers the requirement, at least doubles, and is at least 8 |
| Lifecycle.Heap.Alloc | src/generic.rs:635 | a fresh allocation holds the elements; nothing else changes |
| Lifecycle.Heap.Free | src/generic.rs:620-624 | releases a live allocation for the first and only time |
| Lifecycle.Heap.ToOwned | src/generic.rs:121 | copies the elements with capacity equal to length; an empty copy does not allocate |
| Lifecycle.Heap.DropBuffer | src/generic.rs:622 | releases the buffer's allocation iff its capacity is nonzero |
| Lifecycle.Heap.Clone | src/generic.rs:627-639 | borrowed: bit-for-bit copy, and nothing allocated; owned: a fresh allocation, never the original's, with equal elements; the clone of an empty owned value is borrowed |
| Lifecycle.Heap.IntoOwned | src/generic.rs:116-123 | owned: hands over the same allocation, with no copy and no heap change; borrowed: a copy; in both cases the elements are the view |
| Lifecycle.Heap.Drop | src/generic.rs:614-625 | owned: releases its allocation exactly once; borrowed: changes nothing |
| Lifecycle.Heap.PushStr | src/wide.rs:65 | appends the elements, in place when they fit (only that block changes), otherwise moving to a grown allocation and releasing the old one; every other block of memory keeps its elements |
| Lifecycle.Heap.Reallocate | src/wide.rs:65 | the growing path of the append: a fresh allocation of the grown capacity holding the elements, the old one released, and every other block of memory unchanged |
| Stress.CloneAndDrop | src/wide.rs:55-60 | clone-then-drop keeps the view and the live allocations tracked |
| Stress.CloneAndDropOwned | src/wide.rs:55-60 | for an owned value, the clone has its own block (or none) and the old block is released, keeping the view and the tracked allocations |
| Stress.TakeOwned | src/wide.rs:62 | `into_owned` gives a string holding the expected text, with the tracked allocations kept |
| Stress.Append | src/wide.rs:65 | `push_str` appends exactly the text, with the tracked allocations kept |
| Stress.GiveOwned | src/wide.rs:67 | `owned.into()` gives a value whose view is the string's text, with the tracked allocations kept |
| Stress.Round | src/wide.rs:54-68 | one round appends exactly one copy of the text to the view |
| Stress.DropLast | src/wide.rs:70 | after the final drop, the live allocations are those of the start, and every allocation the test made was released exactly once |
| Stress.StressTestOwned | src/wide.rs:50-71 | for every strategy (Skinny: the corrected version; the same test is src/lean.rs:72-94): after 1024 rounds the result equals the reference string; the live allocations end as they began, and each one the test made was released exactly once |

## Left out

- src/serde.rs, benches, and the `cfg_const_deref`/`cfg_fix` macros: adapters and build configuration with no behaviour of their own.
- The `const` evaluation paths of src/generic.rs (`std_into_parts_const`, `ct_from_cow`, `ct_into_cow`, `const_eval_select`) and `const_str`/`const_slice` (src/generic.rs:389-516): only the runtime path is modelled. The latter call `Lean::mask_len`, which src/lean.rs does not define.
- src/fat.rs: an older copy of the Wide strategy, with signatures that no longer match the trait. Wide is modelled once, from src/wide.rs.
- src/error.rs, `Debug`/`Display`, `Send`/`Sync`/`Unpin`, lifetimes and `PhantomData`: type-system facts and formatting, not runtime behaviour.
- `str` is modelled as a sequence of elements. The UTF-8 trust of `from_utf8_unchecked` is not modelled.
- Pointers are opaque allocation ids. `NonNull::dangling()` is id 0. Raw-pointer validity is a precondition (`Sound`, `Readable`).
- The Wide strategy on 32-bit targets: every word here is 64 bits.
- Skinny: its file uses an older pointer-taking signature. Only its word arithmetic is modelled, in the `(len) -> word` shape of the other strategies. It has no `as_ref`; its view length is the `len & MASK_LO` that its `empty` builds, so `Skinny.Empty` serves for both.
- The standard allocator and `RawVec` growth policy are modelled only as far as the stress test needs: capacity at least doubles, with a minimum of 8, which assumes byte-sized elements. `isize::MAX` limits and allocation failure are not modelled.
- Lifecycle.Heap.PushStr: a growing append is modelled as allocate, copy and release. An in-place `realloc` that keeps the pointer is not modelled.
- Generic.PartialCmp, Generic.Cmp, Generic.Hash: the element type's ordering and the `Hasher` are parameters (functions of the viewed sequence). Their own laws are not modelled.
- Generic.Eq, Generic.EqSeq, Generic.BorrowedEqualsOwned: the element type's `PartialEq` is a parameter `eq` on elements, which need not be reflexive (`f64` at NaN). Both sides have the same element type; `A: PartialEq<B>` across two element types is not modelled.
- Lifecycle.Heap.ToOwned, Lifecycle.Heap.DropBuffer, Lifecycle.Heap.Clone: zero-sized element types (such as `[()]`) are not modelled. Their `Vec` reports capacity `usize::MAX` and allocates nothing, so for them an empty copy is owned, `to_owned` does not give capacity equal to length, and Lean's `store` panics on that capacity.
- Generic.IntoStdCow: the source documents no panic for this conversion. The model needs `Sound` (the parts describe live memory), as the source's `unsafe` blocks do.
- Generic.StdCowRoundTrip: the std `Cow`'s variant is not preserved for an owned buffer of capacity 0. The source's trait contract (src/traits.rs:29-33) allows this, and the model states it rather than a plain identity.
- Stress.StressTestOwned: the `assert_eq!` is stated as an `ensures` (result equals expected), not as a panic.

## Findings

| source | as written | input that shows it | evidently intended | confidence | as-written member | corrected member |
|---|---|---|---|---|---|---|
| src/skinny.rs:23 | `!u32::max_value() as usize` applies `!` to the `u32` before widening, so `MASK_HI` is 0 and `maybe` never reports ownership | any owned word, e.g. the word 2^32 + 5 (length 5, capacity 1): `maybe` gives `None` | `!(u32::max_value() as usize)`, as in src/lean.rs:23, so that `maybe` is `Some` iff the high half is nonzero | high; not executed | Skinny.Maybe | Skinny.MaybeIntended |
| src/generic.rs:366-370 | `into_std_cow` takes `self` by value and calls `self.to_parts()` without `ManuallyDrop`, so `Drop` runs on return and frees the allocation that the returned `Owned` buffer now owns: a use after free, then a second free | `StdCow::from(Cow::<str, Wide>::owned(String::from("Hello")))` | `ManuallyDrop::new(self).to_parts()`, as on the `const_deref` path at src/generic.rs:380 | high; not executed | Lifecycle.Heap.IntoStdCowDropping | Lifecycle.Heap.IntoStdCow |
| src/skinny.rs:42 | `store` packs `(capacity & MASK_HI) << 32`, which is 0 for every capacity that passes the check, whichever mask is used; every owned buffer reads as borrowed and its allocation is never released | length 5, capacity 16: the packed word is 5, which decodes as borrowed with capacity 0 | `(capacity & MASK_LO) << 32`, as in src/lean.rs:46 | high; not executed | Skinny.OwnedBufferReadsAsBorrowed | Skinny.IntendedRoundTrip |
