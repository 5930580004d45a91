# SimpleVector and ArrayPtr in Dafny

A model of a hand-written dynamic array in C++. It has two layers:

- `ArrayPtr` (module `Ownership`, `array_ptr.dfy`) is a single-owner handle over one heap
  array, or over none. Ownership is modelled as the array its `raw` field references.
  "Owns nothing" is `null`, and every allocation is a `fresh` array.
- `SimpleVector` (module `Vector`, `simple_vector.dfy`) is a class with the source's three
  members: the `ArrayPtr` subobject `items`, `size` and `capacity`.
  - Its invariant `Valid()` says `size <= capacity`, that the buffer has exactly `capacity`
    slots, and that capacity 0 means no buffer at all.
  - Its logical contents are `Elements() == items.raw[..size]`.
  - Every mutating method states the new contents and the new capacity in terms of the old
    ones. It also states whether the buffer stayed the same or was freshly allocated.
  - Iterators become indices in `[0, size]`.
  - `std::copy`, `std::copy_backward` and `std::fill` are loops over the buffers
    (`CopyRange`, `CopyBackward`, `CopyWithin`, `Fill`).
- The comparison operators sit on the standard range algorithms in module `Algorithms`
  (`algorithms.dfy`). `std::equal` and `std::lexicographical_compare` are recursive functions
  over the logical sequences.
  - Lexicographic order has a separate reference definition, `LexLess`, built on the length of
    the common prefix (`Mismatch`).
  - Irreflexivity, transitivity and trichotomy are proved from it.
- Module `Scenarios` (`scenarios.dfy`) is client code. It derives the examples from
  the contracts alone: growth 0, 1, 2, 4, 8; insert and erase at the front, middle and end;
  equality and ordering examples; copy independence; the move-from state.

Elements are `int`. The value-initialised element `Type{}` is therefore `Default == 0`, and
the comparison operators use the integer order.

## Model

| member | source | states |
|---|---|---|
| `Ownership.ArrayPtr.constructor` | simple-vector/array_ptr.h:10 | a default handle owns nothing |
| `Ownership.ArrayPtr.Sized` | simple-vector/array_ptr.h:14-18 | size 0 allocates nothing (null); size > 0 gives a fresh array of exactly that length, every element value-initialised |
| `Ownership.ArrayPtr.FromRaw` | simple-vector/array_ptr.h:21-23 | the handle holds exactly the given pointer, null included |
| `Ownership.ArrayPtr.Move` | simple-vector/array_ptr.h:36-40 | the new handle gets the source's buffer and the source is left null |
| `Ownership.ArrayPtr.MoveAssign` | simple-vector/array_ptr.h:43-44 | the two buffers are exchanged; a self-move leaves the buffer unchanged |
| `Ownership.ArrayPtr.Release` | simple-vector/array_ptr.h:77-81 | returns the held buffer and leaves the handle null |
| `Scenarios.ReleaseTwice` | simple-vector/array_ptr.h:77-81 | a second `Release` returns null |
| `Ownership.ArrayPtr.Read` | simple-vector/array_ptr.h:88-91 | reads element `index`; no bounds check, so the index must lie in the buffer |
| `Ownership.ArrayPtr.Write` | simple-vector/array_ptr.h:84-86 | writes element `index` and nothing else |
| `Ownership.ArrayPtr.IsOwning` | simple-vector/array_ptr.h:93-100 | true exactly when a buffer is held |
| `Ownership.ArrayPtr.Get` | simple-vector/array_ptr.h:103-105 | returns the held buffer, ownership unchanged |
| `Ownership.ArrayPtr.Swap` | simple-vector/array_ptr.h:107-113 | exchanges the two buffers; no element is touched (arrays are outside the frame) |
| `Vector.Reserve` | simple-vector/simple_vector.h:386-388 | the hint carries exactly the requested capacity |
| `Vector.Grown` | simple-vector/simple_vector.h:118-119 | a growth step strictly increases capacity: 1 from 0, else exactly double |
| `Vector.DoublingGrowth` | simple-vector/simple_vector.h:116-128 | from empty, after n >= 1 appends the capacity is a power of two with n <= capacity < 2n |
| `Vector.InsertGrowthRoom` | simple-vector/simple_vector.h:159-171 | in Insert's full branch the nested PushBack onto the grown vector never regrows, and old size + 1 fits |
| `Vector.Inserted` | simple-vector/simple_vector.h:149-157 | insertion at pos: one longer, prefix kept, value at pos, tail shifted right by one |
| `Vector.Erased` | simple-vector/simple_vector.h:216-225 | erasure at pos: one shorter, prefix kept, tail shifted left by one |
| `Vector.EraseInserted` | simple-vector/simple_vector.h:216-225 | erasing at pos what was inserted at pos restores the sequence |
| `Vector.InsertAtEnd` | simple-vector/simple_vector.h:150 | inserting at the end position is appending |
| `Vector.Resized` | simple-vector/simple_vector.h:344-364 | resize to n: length n, the first min(old size, n) elements kept, slots from old size to n value-initialised |
| `Vector.ResizeRoundTrip` | simple-vector/simple_vector.h:355-363 | resizing to the current size is the identity; growing then shrinking back restores the sequence |
| `Vector.CopyRange` | simple-vector/simple_vector.h:122 | `std::copy` between distinct buffers: the target range gets the source range, every other slot unchanged |
| `Vector.CopyBackward` | simple-vector/simple_vector.h:153 | `std::copy_backward` one slot right: slots (first, last] get their left neighbour's old value, the rest unchanged |
| `Vector.CopyWithin` | simple-vector/simple_vector.h:222 | overlapping left `std::copy`: the target range gets the old source range, the rest unchanged |
| `Vector.Fill` | simple-vector/simple_vector.h:45 | `std::fill`: the range holds the value, the rest unchanged |
| `Vector.SimpleVector.constructor` | simple-vector/simple_vector.h:31 | empty, capacity 0, no buffer |
| `Vector.SimpleVector.Sized` | simple-vector/simple_vector.h:34-39 | size == capacity == n, all elements value-initialised, fresh storage |
| `Vector.SimpleVector.Filled` | simple-vector/simple_vector.h:42-46 | size == capacity == n, every element equal to value |
| `Vector.SimpleVector.FromList` | simple-vector/simple_vector.h:49-53 | size == capacity == list length, elements in list order |
| `Vector.SimpleVector.Copy` | simple-vector/simple_vector.h:56-62 | the source's elements and capacity in fresh storage, independent of the source |
| `Vector.SimpleVector.Reserved` | simple-vector/simple_vector.h:65-67 | no elements, capacity exactly the hint |
| `Vector.SimpleVector.Move` | simple-vector/simple_vector.h:70-75 | takes the source's buffer, elements and capacity; the source is left valid with no buffer, size 0, capacity 0 |
| `Vector.SimpleVector.GetSize` | simple-vector/simple_vector.h:371-374 | the number of logical elements |
| `Vector.SimpleVector.GetCapacity` | simple-vector/simple_vector.h:376-379 | at least the size, and 0 exactly when no buffer is held |
| `Vector.SimpleVector.IsEmpty` | simple-vector/simple_vector.h:381-384 | true exactly when there are no elements |
| `Vector.SimpleVector.PushBack` | simple-vector/simple_vector.h:116-143 | contents become old ++ [item]; capacity grows to max(1, 2 x capacity) only when full; with room the buffer is kept |
| `Vector.SimpleVector.Insert` | simple-vector/simple_vector.h:149-175 | contents become old[..pos] ++ [value] ++ old[pos..]; returns pos; capacity kept when there is room, else grown; with room the buffer is kept |
| `Vector.SimpleVector.InsertMove` | simple-vector/simple_vector.h:178-206 | the move overload as written: with room, as `Insert`; when full, capacity grown and contents old ++ [Type{}] for pos < size (the value is overwritten), old ++ [value] for pos == size; returns pos |
| `Scenarios.InsertMoveLosesValue` | simple-vector/simple_vector.h:188-204 | concrete case, with `int` standing in for a class element type (see Left out): moving an element into the front of a full two-element vector leaves the old elements followed by one value-initialised element (for `{"a", "b"}` and `"c"`: `{"a", "b", ""}`); the copy overload gives the element in front |
| `Vector.SimpleVector.PopBack` | simple-vector/simple_vector.h:209-213 | drops the last element; no-op when empty; capacity and buffer kept |
| `Vector.SimpleVector.Erase` | simple-vector/simple_vector.h:216-225 | contents become old[..pos] ++ old[pos+1..]; returns pos; capacity and buffer kept |
| `Vector.SimpleVector.Reserve` | simple-vector/simple_vector.h:228-235 | capacity becomes exactly the request when larger, else unchanged (never shrinks); contents kept |
| `Vector.SimpleVector.Resize` | simple-vector/simple_vector.h:344-364 | contents become `Resized(old, n)`; capacity becomes exactly n when n > capacity, else unchanged and the buffer kept |
| `Vector.SimpleVector.Clear` | simple-vector/simple_vector.h:366-369 | no elements; capacity and buffer kept |
| `Vector.SimpleVector.Get` | simple-vector/simple_vector.h:242-245 | unchecked read: requires index < size (the source asserts it), returns that element |
| `Vector.SimpleVector.Set` | simple-vector/simple_vector.h:237-240 | unchecked write: requires index < size, replaces exactly that element |
| `Vector.SimpleVector.At` | simple-vector/simple_vector.h:256-263 | `OutOfRange` exactly when index >= size, otherwise that element |
| `Vector.SimpleVector.AtSet` | simple-vector/simple_vector.h:247-254 | `OutOfRange` exactly when index >= size, and then nothing changes; otherwise replaces that element |
| `Vector.SimpleVector.Swap` | simple-vector/simple_vector.h:289-293 | exchanges buffers, sizes, capacities and therefore contents |
| `Vector.SimpleVector.CopyAssign` | simple-vector/simple_vector.h:295-301 | contents become rhs's; equal contents keep the old buffer and capacity; different contents take rhs's capacity; rhs is unchanged |
| `Vector.SimpleVector.MoveAssign` | simple-vector/simple_vector.h:86 | the target gets rhs's buffer, size, capacity and contents; rhs gets the target's old buffer but keeps its own size and capacity |
| `Scenarios.MoveAssignBreaksSource` | simple-vector/simple_vector.h:86 | concrete case: after moving [1, 2] into an empty vector the source claims size 2 with no buffer, so its invariant fails |
| `Vector.SimpleVector.MoveAssignEmptying` | simple-vector/simple_vector.h:70-75 | corrected move assignment: target as above, rhs left valid and empty with capacity 0 |
| `Scenarios.MoveAssignEmptiesSource` | simple-vector/simple_vector.h:70-75 | concrete case: the corrected assignment leaves the source valid and empty |
| `Algorithms.EqualRange` | simple-vector/simple_vector.h:315 | `std::equal`: true exactly when the first range equals the same-length prefix of the second |
| `Algorithms.LexicographicalCompare` | simple-vector/simple_vector.h:325 | `std::lexicographical_compare` agrees with `LexLess`: a proper prefix, or smaller at the first difference |
| `Algorithms.LexIrreflexive` | simple-vector/simple_vector.h:323-326 | no sequence is less than itself |
| `Algorithms.LexTransitive` | simple-vector/simple_vector.h:323-326 | lexicographic order is transitive |
| `Algorithms.LexTrichotomy` | simple-vector/simple_vector.h:328-341 | exactly one of a < b, a == b, b < a holds |
| `Algorithms.LexPrefixLess` | simple-vector/simple_vector.h:325 | a proper prefix is smaller |
| `Vector.Equal` | simple-vector/simple_vector.h:310-316 | true exactly when the logical element sequences are equal (same size, pairwise equal) |
| `Vector.NotEqual` | simple-vector/simple_vector.h:318-321 | true exactly when the element sequences differ |
| `Vector.Less` | simple-vector/simple_vector.h:323-326 | lexicographic order on the elements |
| `Vector.GreaterOrEqual` | simple-vector/simple_vector.h:328-331 | `!(<)`, which is proved to mean "greater or equal" |
| `Vector.Greater` | simple-vector/simple_vector.h:333-336 | `<` with the arguments swapped |
| `Vector.LessOrEqual` | simple-vector/simple_vector.h:338-341 | `!(>)`, which is proved to mean "less or equal" |

## Left out

- The destructor's `delete[]` and the allocation itself are not modelled. Dafny is garbage-collected, so ownership is which handle's field references which array. Leaks and double frees are outside the model.
- Allocation failure (`std::bad_alloc`) and the `noexcept` markers are not modelled.
- The element type is `int`. A generic element type has no fixed value-initialised value in Dafny, so "default-valued slots" could not be stated for it.
- `size_t` is modelled as an unbounded `nat`. `2 * capacity` never wraps around in the model.
- The copy and move overloads of `PushBack` are one method. On the logical sequence they behave the same, and moved-from slots are unspecified.
- The move overload of `Insert` is `InsertMove`. Its in-place branch moves through `std::make_move_iterator` on the output side too (simple_vector.h:182); it is modelled as the same right shift as the copy overload. For a built-in element type such as `int` that line does not compile, because it assigns through the `int&&` the output iterator yields; the overload can only be instantiated for class element types such as `std::string`. `InsertMove` and `Scenarios.InsertMoveLosesValue` therefore use `int` only as a stand-in for such a type, with `Default` standing for its value-initialised element (the empty string for `std::string`).
- Nothing is stated about slots at index >= size.
- `begin`/`end`/`cbegin`/`cend`, `const_cast` and iterator invalidation are not modelled. Positions are indices.
- The const and non-const overloads of `operator[]` and `At` are modelled as a read method and a write method.
- Element aliasing is out of reach because elements are passed by value. Examples are `PushBack(v[0])` on a full vector, or inserting an element of the same vector.
- The deleted copy operations of `ArrayPtr` have no counterpart. Nothing in the model copies a handle.
- Commented-out code is not modelled.
- The `assert` calls in the source become preconditions (`pos <= size`, `pos < size`, `index < size`).
- Two-vector operations require distinct vectors to have distinct `ArrayPtr` subobjects. This is true of any two C++ objects.
- The reservation constructor gives exactly the hint, not merely at least it (simple_vector.h:65-67, 228-235).
- Copy assignment skips whenever the contents are equal, not only on self-assignment (simple_vector.h:296).
- `Resize` fills the new slots by copying from a temporary value-initialised buffer, as the code does.
- `Vector.SimpleVector.MoveAssign` does not ensure `rhs.Valid()`. The code does not keep it; see Findings.

## Findings

| source | as written | input that shows it | evidently intended | confidence | as-written member | corrected member |
|---|---|---|---|---|---|---|
| simple-vector/simple_vector.h:86 | the defaulted move assignment moves `items_` by the handle's exchange but copies `size_` and `capacity_`, so the moved-from vector keeps its size and capacity while holding the target's old buffer | move `[1, 2]` (capacity 2) into a default-constructed vector: the source then has size 2, capacity 2 and no buffer, and indexing or appending to it dereferences null | the source is left empty, as the move constructor (simple_vector.h:70-75) leaves it | medium; not executed | `Scenarios.MoveAssignBreaksSource` (over `Vector.SimpleVector.MoveAssign`) | `Vector.SimpleVector.MoveAssignEmptying` |
| simple-vector/simple_vector.h:188-204 | in the full branch of the move `Insert`, the value is written at index pos but the size stays pos, so the tail copy to `doubled_vector.end()` (line 200) starts at pos again and overwrites it; the last slot keeps its value-initialised element | `SimpleVector<std::string>{"a", "b"}` (capacity 2), `Insert(begin(), std::string("c"))`: the result is `{"a", "b", ""}` and the returned position holds `"a"` (for `Type = int` the overload does not compile, see Left out; the model uses `int` as a stand-in, giving `[1, 2, 0]` for 5 into `[1, 2]`) | `{"c", "a", "b"}`, as the copy overload gives through its `PushBack` (line 167) | high; not executed | `Vector.SimpleVector.InsertMove` (shown by `Scenarios.InsertMoveLosesValue`) | `Vector.SimpleVector.Insert` |
