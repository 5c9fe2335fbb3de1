# FixedCapacityCache in Dafny

A verified model of `FixedCapacityCache<TKey, TValue>`, a key/value cache that
holds at most `maxSize` entries and evicts the least recently used entry when a
new key would take it over that bound.

The cache keeps two collections in step:

- `cache`, the value table (a JavaScript `Map`), modelled as a `map<K, V>`;
- `keySet`, the recency queue (a JavaScript `Set`, whose insertion order runs
  from the oldest key to the newest), modelled as a `seq<K>` without duplicates.

Reading or overwriting a key moves it to the newest end of `keySet` by deleting
it and adding it again; a new key is appended, and when the count then exceeds
`maxSize` the first (oldest) key of `keySet` is removed from both collections.

Files:

- `insertion_ordered_set.dfy`, module `InsertionOrderedSet`: the two `Set`
  operations the cache uses, `delete` (`Remove`) and `add` (`Add`), on
  sequences, with lemmas about duplicates, sizes, deleting the oldest element
  and delete-then-add.
- `max_size.dfy`, module `MaxSize`: the constructor argument, the effective
  capacity (`AtMost(n)` or `Unbounded` for `Infinity`), the clamp to 1 and the
  comparison `size > maxSize`.
- `fixed_capacity_cache.dfy`, module `Cache`: the class `FixedCapacityCache`
  with the fields `cache`, `keySet` and `maxSize`, the invariant `Valid()` and
  the methods `Get`, `Set`, `Delete`, `Size`, `Clear` and `MoveKeyToEnd`, each
  stating the whole new state.
- `scenarios.dfy`, module `Scenarios`: client code built only on the class's
  contracts, replaying the scenarios of the test suite
  (`src/__tests__/index.spec.ts`). `ConstructorClamps` (lines 5-24),
  `OverflowEvictsFirst` (lines 63-75), `ReadPromotes` (lines 77-93 and
  150-166), `OverwriteKeepsOneEntry` (lines 108-119 and 168-180, at capacity
  3 with five writes of one key) and `DeleteAndClear` (lines 184-215 and
  244-289) carry their results as `assert`s. The scenario keys are `char`s
  `'A'`, `'B'`, … that stand for the tests' string keys. The generic
  `FillToCapacity`, `FillThenOverflow` and `SizeAfterDistinctWrites` state
  the parameterised tests (lines 121-148 and 217-242) for every integer
  capacity and every sequence of distinct keys.

The invariant `Valid()` is: `keySet` has no duplicates, the keys of `cache` are
exactly the elements of `keySet`, the capacity is at least 1 (or unbounded),
and `|keySet|` does not exceed it. The constructor establishes it and every
public method (`Get`, `Set`, `Delete`, `Size`, `Clear`) preserves it. The
private `MoveKeyToEnd` is called only with a key that is in the cache, which
it requires; it then keeps the queue's elements and length, and so the
invariant.

`EarlyReadDoesNotProtect` shows a point about promotion: reading a key while it
is the newest (here the only) key changes nothing, so with capacity 3 the
sequence set A, get A, set B, set C, set D still evicts A. A read changes the
queue only when the key is not already the newest; it then moves the key past
every other key, as in `ReadPromotes`, where A is read while it is the oldest
of three.

## Model

| member | source | states |
|---|---|---|
| `InsertionOrderedSet.Remove` | src/index.ts:88 | `Set.delete` on the queue: the result holds exactly the old elements other than `k`, is no longer, and is the input unchanged when `k` was absent |
| `InsertionOrderedSet.Add` | src/index.ts:70 | `Set.add` on the queue: the result holds the old elements plus `k`, keeps the old queue as its prefix, grows by one exactly when `k` was new, and has no duplicates when the input had none |
| `InsertionOrderedSet.RemoveAt` | src/index.ts:88 | deleting the element at any position of a duplicate-free queue leaves the elements before it followed by the elements after it, each in their old order |
| `InsertionOrderedSet.RemoveDistinct` | src/index.ts:23 | deleting from a duplicate-free queue leaves it duplicate-free, one shorter when the key was present |
| `InsertionOrderedSet.RemoveOldest` | src/index.ts:73-76 | deleting the first element of a duplicate-free queue leaves exactly the rest, in order |
| `InsertionOrderedSet.MoveToEnd` | src/index.ts:107-110 | delete-then-add puts the key last, after the other keys in their old order: taking it out again gives the same queue as just deleting it |
| `InsertionOrderedSet.MoveToEndKeepsSet` | src/index.ts:107-110 | on a duplicate-free queue, delete-then-add keeps it duplicate-free, and keeps its elements and its length when the key was present |
| `InsertionOrderedSet.DistinctCard` | src/index.ts:95-97 | a duplicate-free queue has as many elements as its set of keys, so `keySet.size` is also the number of table entries |
| `MaxSize.Clamp` | src/index.ts:31-37 | the effective capacity is never below 1; an integer of at least 1 is kept exactly, `Infinity` stays unbounded, and 0, negatives, `-Infinity` and a missing value become 1 |
| `MaxSize.Capacity.Exceeds` | src/index.ts:72 | the comparison `keySet.size > maxSize` after an insertion; a finite capacity is exceeded by any larger count and `Unbounded` (`Infinity`) by none (a definition without a contract of its own; its property is `ExceedsAfterOneMore`) |
| `MaxSize.ClampFixesUsable` | src/index.ts:31-37 | constructing again from an effective capacity gives it back exactly, and only capacities of at least 1 (or unbounded) pass through unchanged |
| `MaxSize.ExceedsAfterOneMore` | src/index.ts:72 | for a count within the capacity, one more entry exceeds it exactly when the cache was full; an unbounded capacity is never exceeded |
| `Cache.FixedCapacityCache.Valid` | src/index.ts:22-25 | the class invariant: the keys of the table `cache` are exactly the elements of `keySet`, `keySet` holds each once, the capacity is at least 1 or unbounded, and the number of keys does not exceed it (a definition; `ValidSizes` states its consequence) |
| `Cache.FixedCapacityCache.ValidSizes` | src/index.ts:22-25 | under the invariant the table has exactly as many entries as the queue, and that number is within the capacity |
| `Cache.FixedCapacityCache.constructor` | src/index.ts:22-37 | a new cache is empty, valid, and has capacity `Clamp(requested)` |
| `Cache.FixedCapacityCache.Get` | src/index.ts:44-52 | a miss returns `None` and changes nothing; a hit returns the stored value, leaves the table unchanged and moves the key to the end of the queue with the other keys in their old order; the invariant is kept |
| `Cache.FixedCapacityCache.Set` | src/index.ts:61-80 | returns the value and stores it under the key; an existing key is overwritten and moved last with the size unchanged and nothing evicted; a new key is appended, and if the cache was full exactly the oldest key leaves both collections; the invariant is kept |
| `Cache.FixedCapacityCache.Delete` | src/index.ts:86-89 | removes the key from both collections with the other keys in their order, is a no-op on an absent key, and shrinks the size by one exactly when the key was present; the invariant is kept |
| `Cache.FixedCapacityCache.Size` | src/index.ts:95-97 | returns `|keySet|`, which is also the number of table entries and never exceeds the capacity |
| `Cache.FixedCapacityCache.Clear` | src/index.ts:102-105 | empties both collections and keeps the invariant, so a later `Size` returns 0 |
| `Cache.FixedCapacityCache.MoveKeyToEnd` | src/index.ts:107-110 | the queue becomes the old queue without the key, followed by the key; the table is untouched; the queue stays duplicate-free with the same elements and length; its callers at src/index.ts:49 and :65 pass a key just found in the cache, which it requires |
| `Scenarios.FillToCapacity` | src/__tests__/index.spec.ts:126-135 | for any capacity n, writing n distinct keys evicts nothing: the queue is the keys in write order and every key holds its value |
| `Scenarios.FillThenOverflow` | src/__tests__/index.spec.ts:137-146 | for any capacity n, writing n + 1 distinct keys leaves exactly the last n, oldest first, with their values, and the first key absent |
| `Scenarios.SizeAfterDistinctWrites` | src/__tests__/index.spec.ts:217-242 | for any requested capacity and any distinct keys, the size after writing them is the number written, or the effective capacity (at least 1) once that is smaller |
| `Scenarios.WriteFourIntoThree` | src/__tests__/index.spec.ts:63-75 | capacity 3 and four writes: the queue is the last three keys, the first key is gone and the others hold their values |
| `Scenarios.WriteThreeReadFirst` | src/__tests__/index.spec.ts:77-86 | capacity 3, three writes and a read of the first key: that key is now the newest and the cache is full |

## Left out

- Capacities that are not integers or infinities: `NaN` (falsy, so clamped to
  1), fractional values such as `2.5`, and other values of dynamic type. The
  argument is an integer, `PositiveInfinity`, `NegativeInfinity` or `Missing`
  (`null`/`undefined`).
- Key equality: JavaScript `Map` and `Set` compare keys by SameValueZero and
  hash them; the model uses Dafny equality on the key type.
- `get` returning `undefined` for a stored `undefined`: in JavaScript a hit on
  such a value looks like a miss; the model returns `Some` of the stored value,
  since `V` has no `undefined`.
- Constant-time cost: the model states what each operation computes, not how
  fast. `Set` iteration (`keySet.values().next().value`) is modelled as taking
  `keySet[0]`.
- `jest.config.js`: test-runner configuration without logic.
- `src/__tests__/index.spec.ts` is used only as a source of scenarios; the Jest
  harness itself is not modelled.
