# Ring buffer with iteration helpers, in Dafny

This project models `CircularBuffer<T>` from `src/circularBuffer.ts`: a fixed-capacity ring
buffer that overwrites on overflow. It also models the scan helpers the buffer inherits from
`IterableBase<T>` in `src/iterable.ts`.

- `iterable.dfy` (module `Iterable`) works on the sequence a container's iterator yields.
  - `_find` is a loop with a running counter and an early return, proved against a recursive
    first-match function and the declarative predicates `NoMatch` and `IsFirstMatch`.
  - `find`, `findIndex`, `indexOf` and the generic `getEelementAt` are functions built on that scan.
  - `forEach` threads the callback's side effects through as a state value.
  - `toArray` fills a fresh array, proved equal to `forEach` with the source's `arr[i] = ele`
    callback. That callback grows the array when `i` is past its end.
- `circular_buffer.dfy` (module `CircularBuffers`) is a class with:
  - the source's fields: `capacity` and `items` (both read-only, so `const`), and `size` and `start`;
  - a ghost `Contents`, the elements oldest first.
- `Valid()` is the central invariant: logical element `i` is in physical slot `start + i`,
  wrapped once past the end of storage. `GetIndex`'s contract shows this slot equals
  `(i + start) % capacity`.
- `items` holds `Option<T>`, where `None` is JavaScript's `undefined` (a slot never written).
  This lets `pop`'s return value be modelled exactly as the source computes it.
- Each state-changing operation states the new `Contents` as a sequence equation on the old one.
  It also states what happens to `start` and `size`.
- `scenarios.dfy` (module `Scenarios`) holds clients that derive concrete behaviours of the buffer
  from the contracts alone: round trips, eviction at both ends, the two constructor paths, and
  `toArray`. They also exhibit the `pop` defect below.

Constructor errors are a `Result` with `InvalidCapacity`. Indexed access on an empty buffer gives
`IndexOutOfRange`. Empty `pop` and `shift` return `None`.

## Model

| member | source | states |
|---|---|---|
| `Iterable.FirstMatchFrom` | src/iterable.ts:46-55 | the scan from position `from` returns -1 exactly when no later element matches, else a matching position with no earlier match after `from` |
| `Iterable.FindEntry` | src/iterable.ts:46-55 | `_find`'s loop returns the first matching element and its index, or `(undefined, -1)` when nothing matches |
| `Iterable.FindIndex` | src/iterable.ts:8-10 | the result is -1 or in `[0, n)`; it is -1 iff no element matches; otherwise it is the first match |
| `Iterable.Find` | src/iterable.ts:4-6 | the result is undefined iff no element matches; otherwise it is the element at the first match |
| `Iterable.IndexOf` | src/iterable.ts:17-19 | -1 iff `e` does not occur; otherwise `xs[k] == e` and `e` does not occur before `k` |
| `Iterable.ElementAt` | src/iterable.ts:12-15 | the generic element access yields `xs[index]` for `0 <= index < n` and undefined for every other index |
| `Iterable.ForEachFromRecords` | src/iterable.ts:21-26 | continuing a scan from `from` with a recording callback completes the log of calls `(xs[i], i)` for every position |
| `Iterable.ForEachCallsInOrder` | src/iterable.ts:21-26 | `forEach` calls the callback exactly once per element, in order, with indices `0..n-1`, with no early exit |
| `Iterable.ForEachFromStores` | src/iterable.ts:28-33 | continuing `forEach` with the `arr[i] = ele` callback from a partly filled array ends with every element stored at its position |
| `Iterable.ToArrayByForEach` | src/iterable.ts:28-33 | filling `new Array(len)` through `forEach` gives `max(len, n)` slots, element `i` in slot `i` and holes only past the end |
| `Iterable.ToArray` | src/iterable.ts:28-33 | `toArray` returns a fresh array equal to what `forEach` with the storing callback produces: length `max(len, n)`, `arr[i]` is element `i` |
| `CircularBuffers.Latest` | src/circularBuffer.ts:22 | keeping the tail of the initial array gives `min(n, capacity)` elements, exactly the last ones of the array in order |
| `CircularBuffers.PushKeepsLatest` | src/circularBuffer.ts:21-28 | one push onto the latest `capacity` elements of a prefix gives the latest `capacity` elements of the prefix extended by one, so pushing an iterable one by one keeps the same tail the array path keeps |
| `CircularBuffers.Create` | src/circularBuffer.ts:13-18 | a negative capacity fails with `InvalidCapacity` and produces no buffer; otherwise a valid fresh buffer with that capacity and the constructor's contents |
| `CircularBuffers.CircularBuffer.constructor` | src/circularBuffer.ts:13-29 | without items the buffer is empty; from an array or any iterable the contents are the last `capacity` elements, in order; without items or from an array, `start == 0` and storage holds the elements in slots `0..size-1` and `undefined` after them |
| `CircularBuffers.CircularBuffer.Length` | src/circularBuffer.ts:5-7 | the `length` getter is the number of elements |
| `CircularBuffers.CircularBuffer.GuessLength` | src/circularBuffer.ts:135-138 | the buffer's length guess is exactly its number of elements |
| `CircularBuffers.CircularBuffer.Clear` | src/circularBuffer.ts:44-47 | `start` and `size` become 0 and the buffer is empty; storage is not touched |
| `CircularBuffers.CircularBuffer.GetElementAt` | src/circularBuffer.ts:49-54 | fails with `IndexOutOfRange` iff the buffer is empty; for `index < size` yields `Contents[index]`, agreeing with the inherited generic version; any index whose remainder modulo capacity is below `size` wraps to that element |
| `CircularBuffers.CircularBuffer.Push` | src/circularBuffer.ts:56-63 | not full: `Contents' == Contents + [x]` with `start` unchanged; full: the oldest element is evicted, `Contents' == Contents[1..] + [x]`, and `start` advances modulo capacity; returns the new size; storage changes only in slot `(start + size) % capacity` of the old state, which receives `x` |
| `CircularBuffers.CircularBuffer.Pop` | src/circularBuffer.ts:65-70 | empty: returns undefined and changes nothing; otherwise drops the last element, keeps `start`, and returns physical slot `size - 1`, which is the last element when `start == 0` |
| `CircularBuffers.CircularBuffer.PopLast` | src/circularBuffer.ts:65-70 | the corrected `pop`: drops the last element, keeps `start`, and returns that last element |
| `CircularBuffers.CircularBuffer.SetElementAt` | src/circularBuffer.ts:72-77 | fails with `IndexOutOfRange` iff empty, changing nothing; otherwise writes only the slot `GetIndex(index)`; for `index < size` this replaces `Contents[index]`; an index wrapping outside the live range changes no element |
| `CircularBuffers.CircularBuffer.Shift` | src/circularBuffer.ts:79-90 | empty: returns undefined and changes nothing; otherwise returns `Contents[0]`, `Contents' == Contents[1..]`, and `start` advances by one modulo capacity |
| `CircularBuffers.CircularBuffer.Unshift` | src/circularBuffer.ts:92-102 | not full: `Contents' == [x] + Contents`; full: the newest element is evicted, `[x] + Contents[..size-1]`; `start` steps back by one modulo capacity; returns the new size; storage changes only in the new slot `start`, which receives `x` |
| `CircularBuffers.CircularBuffer.Iterate` | src/circularBuffer.ts:104-129 | walking `size` slots from `start` with wraparound yields exactly `Contents`, in order |
| `CircularBuffers.CircularBuffer.GetIndex` | src/circularBuffer.ts:131-133 | the physical slot is below capacity and, for a logical index below capacity, is `start + index` wrapped once |
| `CircularBuffers.CircularBuffer.GetIndexWraps` | src/circularBuffer.ts:131-133 | any index reaches the same physical slot as its remainder modulo capacity |
| `CircularBuffers.CircularBuffer.ToArray` | src/iterable.ts:28-33 | the inherited `toArray`, with the buffer's length guess, returns a fresh array of length `size` equal to `Contents` |
| `Scenarios.PushThenShift` | src/circularBuffer.ts:56-90 | on an empty buffer, `push(x)` then `shift()` returns `x` and leaves the buffer empty |
| `Scenarios.UnshiftThenShift` | src/circularBuffer.ts:79-102 | on a non-full buffer, `unshift(x)` then `shift()` returns `x` and restores the contents |
| `Scenarios.EvictionAtBothEnds` | src/circularBuffer.ts:56-102 | capacity 3: pushing 1, 2, 3, 4 leaves `[2, 3, 4]`; then `unshift(9)` leaves `[9, 2, 3]` |
| `Scenarios.ConstructorKeepsLatest` | src/circularBuffer.ts:19-29 | capacity 2 over `[10, 20, 30]` holds `[20, 30]`, both as an array and as a plain iterable |
| `Scenarios.ToArrayOfPartlyFilled` | src/iterable.ts:28-33 | `toArray` on a capacity-5 buffer holding `a, b, c` gives exactly `[a, b, c]` |
| `Scenarios.EmptyBufferAccess` | src/circularBuffer.ts:49-90 | on an empty buffer `pop` and `shift` return undefined; `getEelementAt` and `setEelementAt` fail with `IndexOutOfRange` |
| `Scenarios.UnshiftThenPopReturnsHole` | src/circularBuffer.ts:65-102 | after `unshift(1)` on an empty capacity-3 buffer, `pop` as written returns undefined (a never-written slot) and empties the buffer, while `PopLast` returns 1 |
| `Scenarios.PopReturnsWrongSlot` | src/circularBuffer.ts:65-70 | after pushing 1, 2, 3 into capacity 2, `pop` as written returns 2, while the last element, which the corrected `PopLast` returns, is 3 |

## Left out

- The per-slot indexer defined with `Object.defineProperty` (src/circularBuffer.ts:30-41) is runtime reflection. Indexed access is modelled only through `GetElementAt` and `SetElementAt`, to which it delegates.
- The base class's `guessLength` detects `length` or `size` by duck typing and can throw "Can not guess length" (src/iterable.ts:35-44). A typed model cannot express this. `Iterable.ToArray` takes the length guess as a parameter, and the buffer supplies its own override.
- The iterator protocol objects are not modelled. Iteration is the whole sequence `Iterate` returns. Mutation during an iteration is not modelled: the source's iterator snapshots `len` and `start` but shares `items`.
- The container itself, passed as the callbacks' third argument, is not modelled. Callback side effects are a state threaded through `(S, T, nat) -> S`.
- `IndexOf` uses Dafny equality for `===`. JavaScript's `NaN !== NaN` is not modelled.
- `CircularBuffers.CircularBuffer.Push`: requires `capacity > 0`. With capacity 0 the source computes `% 0` (NaN) and leaves `size` at 1, above the capacity.
- `CircularBuffers.CircularBuffer.Unshift`: requires `capacity > 0`. With capacity 0 the source sets `start` to -1 and `size` to 1.
- `CircularBuffers.CircularBuffer.constructor`: with capacity 0, a non-array iterable must be empty, because each element would go through that broken `push`.
- `CircularBuffers.Create`: carries the constructor's requirement that, with capacity 0, a non-array iterable be empty.
- `CircularBuffers.CircularBuffer.GetIndex`: requires `capacity > 0`. The source divides by zero (NaN) there.
- Indices are natural numbers. Negative or fractional indices, and JavaScript `%` on them, are not modelled. Fractional capacities are not modelled either.
- In the source, `items` starts shorter than `capacity` and JavaScript grows it on write. The model allocates `capacity` slots up front, with `None` for never-written slots. Reads give the same results.
- `Iterable.ToArray` allocates `max(len, n)` slots at once. JavaScript grows the array on each write past its end. `ToArrayByForEach` proves the two give the same contents.
- Infinite iterables passed to the constructor are not modelled. Initial elements are a finite sequence.
- The `List<T>` interface (src/iterable.ts:58-61) is a type declaration only.

A capacity-0 buffer is not a no-op sink: `push` computes `% 0` and `unshift` sets `start` to -1, and either leaves `size` at 1. The model excludes that case with the preconditions above.

Pushing an arbitrary iterable keeps the same elements as the array path (`PushKeepsLatest`, the constructor's contract) but not the same `start`. The array path always leaves `start == 0`; the push path may leave it elsewhere. This is one reason `pop`'s return value depends on how the buffer was built.

## Findings

| source | as written | input that shows it | evidently intended | confidence | as-written member | corrected member |
|---|---|---|---|---|---|---|
| src/circularBuffer.ts:69 | `pop` returns `items[--size]`, physical slot `size - 1`, ignoring `start` | capacity 2, push 1, 2, 3: contents `[2, 3]` with `start == 1`; `pop` returns 2. Capacity 3, `unshift(1)`: `pop` returns undefined | return the logical last element, `items[getIndex(size - 1)]`, here 3 | high (proved from the contracts; not executed) | `CircularBuffers.CircularBuffer.Pop`, `Scenarios.PopReturnsWrongSlot`, `Scenarios.UnshiftThenPopReturnsHole` | `CircularBuffers.CircularBuffer.PopLast` |

The state change of `pop` is correct as written. Only the returned value is wrong. `unshift` calls `pop` on a full buffer and discards the value, so `Unshift` has the intended effect with either member.
