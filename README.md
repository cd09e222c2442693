# LevelKeyValueStore in Dafny

A model of `LevelKeyValueStore`. It is the bucketed key-value store that sits on top of one
flat, byte-ordered levelup/leveldown engine.

- Every store holds a `prefix` that is terminated with `.`. A logical key `k` is stored under
  the physical key `prefix ++ k`, and physical keys are turned back into logical keys by
  dropping `|prefix|` bytes.
- `bucket(name)` derives a child store with the prefix `prefix ++ name ++ "."`. The child
  shares the parent's `db` connection.
- `iter(bound, lowerBoundExclusive)` asks the engine for the keys from `prefix ++ bound` up to
  `increment(prefix)`. `LevelKeyValueStoreIterator.next` hands them back with the prefix
  dropped, and stops at the first key that lacks it.

The files and what each holds:

- `wrappers.dfy`: `Option`, which stands for the source's `null` results.
- `bytes.dfy`: the byte-string helpers the store takes from its `Bytes` library. These are
  `concat`, `suffix`, `startsWith` and `increment` (big-endian +1 with carry). The file also
  holds the lexicographic order the engine sorts keys by.
- `level_db.dfy`: the engine.
  - Class `Db`, one connection holding a `map` from keys to values. Every store opened on the
    connection holds a reference to the same object, so the aliasing of `db` is explicit.
  - Class `Cursor`, a forward cursor over a snapshot of a key range.
  - `IsScan`, which specifies what such a cursor yields.
- `level_key_value_store.dfy`: the two classes of the core.
  - Key translation.
  - `get`, `put`, `del` and `batch` on the shared `db`.
  - `iter`, `bucket` and the iterator's `next`.
  - `BucketView`, the logical map one bucket sees, which is what their contracts are stated
    against.
- `buckets.dfy`: how buckets relate to one another.
  - Siblings are isolated from each other.
  - A parent contains its children's keys.
  - Client scenarios run on one shared connection.

Engine calls are synchronous in the model. The engine's `get` reports a missing key as `None`.

## Model

| member | source | states |
|---|---|---|
| Bytes.Suffix | src/LevelKeyValueStore.ts:60 | The suffixed prefix begins with the argument (in the sense of `StartsWith`, the model of `startsWith`) and ends with exactly the separator bytes |
| Bytes.Concat | src/LevelKeyValueStore.ts:149-151 | The concatenation begins with the first string (`StartsWith`, the model of the library `startsWith` used at line 25), the rest is the second, and the lengths add up |
| Bytes.Increment | src/LevelKeyValueStore.ts:124 | `None` exactly when every byte is 0xFF (the empty string included); otherwise the result has the same length and its big-endian value is one more |
| Bytes.IncrementTerminated | src/LevelKeyValueStore.ts:124 | A '.'-terminated prefix never carries: its increment is the prefix with the final '.' turned into '/' |
| Bytes.IncrementBoundsPrefixed | src/LevelKeyValueStore.ts:124 | Every key that begins with `p` sorts strictly below `increment(p)`, with or without a carry |
| Bytes.IncrementLeavesPrefix | src/LevelKeyValueStore.ts:124 | `increment(p)` lies above `p` and does not itself begin with `p` |
| Bytes.NextSiblingExact | src/LevelKeyValueStore.ts:124 | Without a carry, the keys below `increment(p)` are exactly those below `p` and those that begin with `p` |
| Bytes.LessUnderPrefix | src/LevelKeyValueStore.ts:113-117 | Putting a common prefix in front of two keys does not change their dictionary order |
| Bytes.LessTotal | src/LevelKeyValueStore.ts:113-117 | Dictionary order is total: two distinct keys are ordered one way or the other |
| Bytes.LessTransitive | src/LevelKeyValueStore.ts:113-117 | Dictionary order is transitive |
| LevelDb.ApplyOpsFind | src/LevelKeyValueStore.ts:96-110 | A batch applied in list order leaves each key with the value of the last operation on that key, or with its old value if no operation touches it |
| LevelDb.ScanUnique | src/LevelKeyValueStore.ts:113-117 | The map and the range determine the sequence a cursor yields |
| LevelDb.Db.Write | src/LevelKeyValueStore.ts:107 | The connection's new map is the batch applied in order to the old map |
| LevelDb.Db.Iterator | src/LevelKeyValueStore.ts:136 | The new cursor holds exactly the entries in range, in strictly ascending key order, each with its stored value |
| LevelKvs.BucketView | src/LevelKeyValueStore.ts:39-43 | The bucket's logical map holds `k` exactly when the connection holds `prefix ++ k`, and with the same value |
| LevelKvs.ViewAfterPut | src/LevelKeyValueStore.ts:83-88 | Writing `prefix ++ k` changes the bucket's logical map only at `k` |
| LevelKvs.ViewAfterDel | src/LevelKeyValueStore.ts:90-92 | Deleting `prefix ++ k` removes only `k` from the bucket's logical map |
| LevelKvs.BatchView | src/LevelKeyValueStore.ts:94-111 | The engine batch, read through the bucket, is the operations applied in order to the bucket's own map: "Put" writes, "Del" deletes, any other kind is skipped |
| LevelKvs.BatchOutside | src/LevelKeyValueStore.ts:94-111 | The batch leaves every physical key outside the prefix unchanged |
| LevelKvs.IterRangeExact | src/LevelKeyValueStore.ts:122-134 | `IterRange` is the option bag `iter` builds (`gte`, or `gt` when exclusive, and `lt`). For a '.'-terminated prefix the upper bound is the prefix ending in '/', and a physical key is in range exactly when it begins with the prefix and its logical part is at least the bound (greater, when exclusive) |
| LevelKvs.Drain | src/LevelKeyValueStore.ts:18-36 | Successive `next` calls yield the cursor's entries up to the first key that lacks the prefix, each with the prefix dropped and its value unchanged |
| LevelKvs.IterYieldsBucketRange | src/LevelKeyValueStore.ts:118-137 | Every entry the engine returns carries the prefix, and the iterator yields exactly the bucket's entries from the bound on, ascending |
| LevelKvs.LevelKeyValueStore.constructor | src/LevelKeyValueStore.ts:55-69 | The prefix is the argument with one '.' appended, so it is non-empty and '.'-terminated; a given `db` is shared, and without one a fresh empty connection is opened |
| LevelKvs.LevelKeyValueStore.ConcatKeyWithPrefix | src/LevelKeyValueStore.ts:149-151 | The physical key begins with the prefix and continues with the logical key |
| LevelKvs.LevelKeyValueStore.ConvertKeyIntoBuffer | src/LevelKeyValueStore.ts:153-155 | The physical key begins with the prefix, and removing the prefix gives back the logical key |
| LevelKvs.LevelKeyValueStore.RemovePrefix | src/LevelKeyValueStore.ts:173-175 | Drops as many bytes as the prefix is long, as `slice` does: for any key at least as long as the prefix the result is the key's tail after that many bytes, and a shorter key leaves nothing; for a key that begins with the prefix, putting the prefix back restores it |
| LevelKvs.LevelKeyValueStore.GetKeyFromBuffer | src/LevelKeyValueStore.ts:165-167 | For a physical key of this bucket it is the inverse of `convertKeyIntoBuffer`; a key no longer than the prefix maps to the empty key |
| LevelKvs.LevelKeyValueStore.Get | src/LevelKeyValueStore.ts:71-81 | Returns the value under `prefix ++ key`, or `None` when there is none; equally, the bucket's logical map at `key` |
| LevelKvs.LevelKeyValueStore.Put | src/LevelKeyValueStore.ts:83-88 | Writes exactly the physical key `prefix ++ key`; the bucket's logical map changes only at `key` |
| LevelKvs.LevelKeyValueStore.Del | src/LevelKeyValueStore.ts:90-92 | Removes exactly the physical key `prefix ++ key`; the bucket's logical map loses only `key` |
| LevelKvs.LevelKeyValueStore.Batch | src/LevelKeyValueStore.ts:94-111 | Writes one engine batch built op by op; the bucket's logical map becomes the ops applied in order, and keys outside the prefix are untouched |
| LevelKvs.LevelKeyValueStore.Iter | src/LevelKeyValueStore.ts:118-137 | The cursor scans the range from `prefix ++ bound` to `increment(prefix)`, and draining it yields the bucket's entries from the bound on, ascending |
| LevelKvs.LevelKeyValueStore.Bucket | src/LevelKeyValueStore.ts:139-147 | The child's prefix is `prefix ++ key ++ "."` over this store's own `db`, and nothing is written |
| LevelKvs.LevelKeyValueStoreIterator.constructor | src/LevelKeyValueStore.ts:11-17 | The iterator wraps exactly the given engine cursor and parent store |
| LevelKvs.LevelKeyValueStoreIterator.Next | src/LevelKeyValueStore.ts:18-36 | Advances the cursor by one entry; yields that entry with the prefix dropped when its key carries the prefix, and `None` when the cursor is exhausted or the key lacks the prefix |
| Buckets.TerminatedNamesUnrelated | src/LevelKeyValueStore.ts:39-43 | Two distinct names without '.', each followed by '.', are such that neither begins the other (`a.` against `ab.`) |
| Buckets.SiblingPrefixesUnrelated | src/LevelKeyValueStore.ts:139-151 | The prefixes of two differently named children of one parent are unrelated |
| Buckets.UnrelatedKeysApart | src/LevelKeyValueStore.ts:39-43 | No physical key of a bucket lies under an unrelated bucket's prefix |
| Buckets.OutsideChangeInvisible | src/LevelKeyValueStore.ts:39-43 | Changes to keys outside a bucket's prefix change neither its logical map nor any scan its iterator can make |
| Buckets.PutInvisibleToUnrelated | src/LevelKeyValueStore.ts:83-88 | A put in one bucket changes nothing an unrelated bucket can read or iterate |
| Buckets.DelInvisibleToUnrelated | src/LevelKeyValueStore.ts:90-92 | A delete in one bucket changes nothing an unrelated bucket can read or iterate |
| Buckets.BatchInvisibleToUnrelated | src/LevelKeyValueStore.ts:94-111 | A batch in one bucket changes nothing an unrelated bucket can read or iterate |
| Buckets.ChildKeysInParent | src/LevelKeyValueStore.ts:139-151 | Key `k` of child `name` is key `name ++ "." ++ k` of the parent |
| Buckets.SiblingIsolation | src/LevelKeyValueStore.ts:139-151 | Through two sibling buckets on one `db`, a put is read back by its own bucket, while the other bucket's get and iterator give what they gave before |
| Buckets.PutThenGet | src/LevelKeyValueStore.ts:83-88 | After `put(k, v)`, `get(k)` on the same store returns `v`, and no other key of the bucket changes |
| Buckets.DeleteThenGet | src/LevelKeyValueStore.ts:90-92 | After `del(k)`, `get(k)` returns `None`; deleting an absent key leaves the connection unchanged |
| Buckets.UsersScenario | src/LevelKeyValueStore.ts:118-137 | A root store with bucket "users" holding alice and bob, and sibling "users2" holding carol: iterating "users" yields alice, then bob, then the end |

## Left out

- Promise and callback plumbing and `promisify` (src/LevelKeyValueStore.ts:52-53, 67-68): every operation is a synchronous call.
- Engine errors. `get` turns every engine error into `null`, and `batch` resolves without looking at the write error. The model's engine never fails, so the only `None` from `get` is a missing key.
- `open`, `close` and the `dbName` root marker: connection management with nothing to state beyond delegation.
- The `leveldown` constructor parameter: the backend is the abstract `Db`, and a store built without a `db` gets a fresh empty one, as with the `memdown()` default.
- `convertValueIntoBuffer` and `getValueFromBuffer`, and the other `Buffer`/`Uint8Array`/`Bytes` conversions: they copy bytes unchanged, so values pass through as they are.
- src/InMemoryKeyValueStore.ts is not part of this model: it only passes `memdown()` to the constructor.
- The engine internals (levelup, leveldown, memdown) are modelled only by what the store relies on: a map, ordered batches and range cursors over a snapshot. A cursor that sees later writes is not modelled.
- Concurrency between stores sharing one connection: the model runs calls one after another.
- The optional `lowerBoundExclusive` argument of `iter` is a required `bool`; omitting it in the source means inclusive, which is passing `false`.
- LevelKvs.LevelKeyValueStore.Iter: when a prefix has no finite successor (all 0xFF bytes), the model leaves the range unbounded above. That cannot happen, because every prefix ends in '.'.
- Bytes.IncrementBoundsPrefixed: when `increment` carries, it is an upper bound but not the tightest one; `[1, 255]` becomes `[2, 0]` and `[2]` lies between. Exactness is proved only for the no-carry case, which is the case of every store's prefix.
