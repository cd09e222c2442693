/**
 The bucketed store. A `LevelKeyValueStore` is a view of one engine connection `db`
 through a fixed prefix that always ends in '.': logical keys become physical keys by
 prepending the prefix, and physical keys become logical keys by dropping it. `Bucket`
 derives a child view over the same `db`, and `Iter` scans one bucket's keys in order.
 */
module LevelKvs {
  import opened Wrappers
  import opened Bytes
  import opened LevelDb

  /** The separator that terminates every prefix, as a byte string. */
  const SEPARATOR: ByteString := [DOT]

  /** A prefix as every store holds it: non-empty and ending in the separator. */
  predicate IsBucketPrefix(p: ByteString)
  {
    |p| > 0 && p[|p| - 1] == DOT
  }

  lemma SplitAtPrefix(kp: ByteString, p: ByteString)
    requires StartsWith(kp, p)
    ensures p + kp[|p|..] == kp
  {
    assert kp == kp[..|p|] + kp[|p|..];
  }

  // ---------------------------------------------------------------------------
  // The logical contents of a bucket
  // ---------------------------------------------------------------------------

  /** The bucket with prefix `p` as a map of its own: its physical keys with `p` dropped. */
  function BucketView(m: map<ByteString, ByteString>, p: ByteString): (v: map<ByteString, ByteString>)
    ensures forall k :: k in v <==> p + k in m
    ensures forall k :: k in v ==> v[k] == m[p + k]
  {
    assert forall kp :: StartsWith(kp, p) ==> p + kp[|p|..] == kp by {
      forall kp | StartsWith(kp, p) ensures p + kp[|p|..] == kp {
        SplitAtPrefix(kp, p);
      }
    }
    var v := map kp | kp in m && StartsWith(kp, p) :: kp[|p|..] := m[kp];
    forall k ensures p + k in m ==> k in v {
      assert (p + k)[|p|..] == k;
    }
    v
  }

  /** Reading key `k` of a bucket's view reads the physical key `p ++ k`. */
  lemma ViewFind(m: map<ByteString, ByteString>, p: ByteString, k: ByteString)
    ensures Find(BucketView(m, p), k) == Find(m, p + k)
  {
  }

  lemma {:induction false} ViewAfterPut(m: map<ByteString, ByteString>, p: ByteString, k: ByteString, v: ByteString)
    ensures BucketView(m[p + k := v], p) == BucketView(m, p)[k := v]
  {
    var after, before := BucketView(m[p + k := v], p), BucketView(m, p)[k := v];
    forall x ensures (x in after <==> x in before) && (x in after ==> after[x] == before[x]) {
      assert p + x == p + k ==> x == (p + x)[|p|..] == (p + k)[|p|..] == k;
    }
  }

  lemma {:induction false} ViewAfterDel(m: map<ByteString, ByteString>, p: ByteString, k: ByteString)
    ensures BucketView(m - {p + k}, p) == BucketView(m, p) - {k}
  {
    var after, before := BucketView(m - {p + k}, p), BucketView(m, p) - {k};
    forall x ensures (x in after <==> x in before) && (x in after ==> after[x] == before[x]) {
      assert p + x == p + k ==> x == (p + x)[|p|..] == (p + k)[|p|..] == k;
    }
  }

  // ---------------------------------------------------------------------------
  // Batches
  // ---------------------------------------------------------------------------

  /** One entry of a batch: its `kind` tag selects "Put" or "Del"; any other tag is ignored. */
  datatype BatchOperation = BatchOperation(kind: string, key: ByteString, value: ByteString)

  /** The engine write one operation adds to a batch under prefix `p` (none for an unknown tag). */
  function Step(p: ByteString, op: BatchOperation): seq<WriteOp>
  {
    if op.kind == "Put" then [PutOp(p + op.key, op.value)]
    else if op.kind == "Del" then [DelOp(p + op.key)]
    else []
  }

  /** The engine batch built from `ops`, one operation after another. */
  function Translate(p: ByteString, ops: seq<BatchOperation>): seq<WriteOp>
  {
    if ops == [] then [] else Translate(p, ops[..|ops| - 1]) + Step(p, ops[|ops| - 1])
  }

  /** What a batch means to the bucket itself: each operation applied, in order, to its logical map. */
  function ApplyBatch(v: map<ByteString, ByteString>, ops: seq<BatchOperation>): map<ByteString, ByteString>
  {
    if ops == [] then v
    else
      var w, op := ApplyBatch(v, ops[..|ops| - 1]), ops[|ops| - 1];
      if op.kind == "Put" then w[op.key := op.value]
      else if op.kind == "Del" then w - {op.key}
      else w
  }

  /** The engine batch, seen through the bucket, is the batch applied to the bucket's own map. */
  lemma {:induction false} BatchView(m: map<ByteString, ByteString>, p: ByteString, ops: seq<BatchOperation>)
    ensures BucketView(ApplyOps(m, Translate(p, ops)), p) == ApplyBatch(BucketView(m, p), ops)
  {
    if ops != [] {
      var init, op := ops[..|ops| - 1], ops[|ops| - 1];
      var t := Translate(p, init);
      BatchView(m, p, init);
      if op.kind == "Put" {
        ApplyOpsAppend(m, t, PutOp(p + op.key, op.value));
        ViewAfterPut(ApplyOps(m, t), p, op.key, op.value);
      } else if op.kind == "Del" {
        ApplyOpsAppend(m, t, DelOp(p + op.key));
        ViewAfterDel(ApplyOps(m, t), p, op.key);
      } else {
        assert Translate(p, ops) == t + [] == t;
      }
    }
  }

  /** A batch under prefix `p` leaves every physical key outside `p` as it was. */
  lemma {:induction false} BatchOutside(m: map<ByteString, ByteString>, p: ByteString, ops: seq<BatchOperation>, x: ByteString)
    requires !StartsWith(x, p)
    ensures Find(ApplyOps(m, Translate(p, ops)), x) == Find(m, x)
  {
    if ops != [] {
      var init, op := ops[..|ops| - 1], ops[|ops| - 1];
      var t := Translate(p, init);
      BatchOutside(m, p, init, x);
      assert StartsWith(p + op.key, p);
      if op.kind == "Put" {
        ApplyOpsAppend(m, t, PutOp(p + op.key, op.value));
      } else if op.kind == "Del" {
        ApplyOpsAppend(m, t, DelOp(p + op.key));
      } else {
        assert Translate(p, ops) == t + [] == t;
      }
    }
  }

  // ---------------------------------------------------------------------------
  // Range iteration
  // ---------------------------------------------------------------------------

  /**
   The range `iter` asks the engine for: keys from `p ++ bound` (exclusive on request) up to,
   not including, `Increment(p)`; a prefix with no finite successor leaves the range unbounded.
   */
  function IterRange(p: ByteString, bound: ByteString, lowerBoundExclusive: bool): RangeOptions
  {
    RangeOptions(
      Concat(p, bound),
      lowerBoundExclusive,
      match Increment(p)
      case Some(u) => Bounded(u)
      case None => Unbounded)
  }

  /**
   For a '.'-terminated prefix the engine range holds exactly the keys that begin with the prefix
   and whose logical part is at (or past, when exclusive) the bound.
   */
  lemma IterRangeExact(p: ByteString, bound: ByteString, lowerBoundExclusive: bool, kp: ByteString)
    requires IsBucketPrefix(p)
    ensures IterRange(p, bound, lowerBoundExclusive).upper == Bounded(p[..|p| - 1] + [SLASH])
    ensures InRange(IterRange(p, bound, lowerBoundExclusive), kp) <==>
      && StartsWith(kp, p)
      && (if lowerBoundExclusive then Less(bound, kp[|p|..]) else LessEq(bound, kp[|p|..]))
  {
    var o := IterRange(p, bound, lowerBoundExclusive);
    IncrementTerminated(p);
    NextSiblingExact(p, kp);
    if StartsWith(kp, p) {
      LessUnderPrefix(p, bound, kp[|p|..]);
      SplitAtPrefix(kp, p);
      assert p + bound == kp ==> bound == (p + bound)[|p|..] == kp[|p|..];
    } else if InRange(o, kp) {
      // p <= p ++ bound <= kp < p is impossible.
      PrefixLessEq(p, p + bound);
      assert LessEq(p + bound, kp) && Less(kp, p);
      if p == p + bound {
        if kp == p + bound {
          LessIrreflexive(p);
        } else {
          LessAsymmetric(kp, p);
        }
      } else {
        if kp == p + bound {
          LessAsymmetric(kp, p);
        } else {
          LessTransitive(p, p + bound, kp);
          LessAsymmetric(kp, p);
        }
      }
    }
  }

  /**
   What repeated `next()` calls yield from cursor entries `es`: the entries up to the first key
   lacking `p`, each with `p` dropped from its key.
   */
  function Drain(p: ByteString, es: seq<Entry>): (r: seq<Entry>)
    ensures |r| <= |es|
    ensures forall i :: 0 <= i < |r| ==> StartsWith(es[i].key, p) && r[i] == Entry(es[i].key[|p|..], es[i].value)
    ensures |r| < |es| ==> !StartsWith(es[|r|].key, p)
  {
    if es == [] || !StartsWith(es[0].key, p) then []
    else [Entry(es[0].key[|p|..], es[0].value)] + Drain(p, es[1..])
  }

  /**
   Iterating a bucket is scanning its logical map: every entry the engine returns carries the
   prefix, and what the iterator yields is exactly the bucket's entries from `bound` on, ascending.
   */
  lemma IterYieldsBucketRange(m: map<ByteString, ByteString>, p: ByteString, bound: ByteString,
                              lowerBoundExclusive: bool, es: seq<Entry>)
    requires IsBucketPrefix(p)
    requires IsScan(m, IterRange(p, bound, lowerBoundExclusive), es)
    ensures |Drain(p, es)| == |es|
    ensures IsScan(BucketView(m, p), RangeOptions(bound, lowerBoundExclusive, Unbounded), Drain(p, es))
  {
    var o := IterRange(p, bound, lowerBoundExclusive);
    var lo := RangeOptions(bound, lowerBoundExclusive, Unbounded);
    var v := BucketView(m, p);
    var r := Drain(p, es);
    forall i | 0 <= i < |es| ensures StartsWith(es[i].key, p) {
      IterRangeExact(p, bound, lowerBoundExclusive, es[i].key);
    }
    assert |r| == |es|;
    forall i | 0 <= i < |r| ensures p + r[i].key == es[i].key {
      SplitAtPrefix(es[i].key, p);
    }
    forall i, j | 0 <= i < j < |r| ensures Less(r[i].key, r[j].key) {
      LessUnderPrefix(p, r[i].key, r[j].key);
    }
    forall i | 0 <= i < |r| ensures r[i].key in v && v[r[i].key] == r[i].value && InRange(lo, r[i].key) {
      IterRangeExact(p, bound, lowerBoundExclusive, es[i].key);
    }
    forall k | k in v && InRange(lo, k) ensures exists i :: 0 <= i < |r| && r[i].key == k {
      IterRangeExact(p, bound, lowerBoundExclusive, p + k);
      assert (p + k)[|p|..] == k;
      var i :| 0 <= i < |es| && es[i].key == p + k;
      assert r[i].key == k;
    }
  }

  // ---------------------------------------------------------------------------
  // The store and its iterator
  // ---------------------------------------------------------------------------

  class LevelKeyValueStore {
    const prefix: ByteString
    const db: Db

    /**
     A store over `db` whose prefix is `prefix` with the separator appended; without a `db`,
     a fresh, empty connection is opened for it.
     */
    constructor(prefix: ByteString, db: Db?)
      ensures this.prefix == Suffix(prefix, SEPARATOR)
      ensures Valid()
      ensures db != null ==> this.db == db
      ensures db == null ==> fresh(this.db) && this.db.store == map[]
    {
      this.prefix := Suffix(prefix, SEPARATOR);
      if db != null {
        this.db := db;
      } else {
        this.db := new Db();
      }
    }

    predicate Valid()
    {
      IsBucketPrefix(prefix)
    }

    /** The physical key of `key`: it begins with the prefix, and the rest is `key`. */
    function ConcatKeyWithPrefix(key: ByteString): (r: ByteString)
      ensures |r| == |prefix| + |key|
      ensures StartsWith(r, prefix) && r[|prefix|..] == key
    {
      Concat(prefix, key)
    }

    /** Drops `|prefix|` bytes from the front of `key` (nothing is left of a shorter key). */
    function RemovePrefix(key: ByteString): (r: ByteString)
      ensures |r| == if |key| <= |prefix| then 0 else |key| - |prefix|
      ensures |prefix| <= |key| ==> key[..|prefix|] + r == key
      ensures StartsWith(key, prefix) ==> ConcatKeyWithPrefix(r) == key
    {
      if |prefix| <= |key| then
        assert StartsWith(key, prefix) ==> prefix + key[|prefix|..] == key by {
          if StartsWith(key, prefix) {
            SplitAtPrefix(key, prefix);
          }
        }
        key[|prefix|..]
      else []
    }

    function ConvertKeyIntoBuffer(key: ByteString): (r: ByteString)
      ensures StartsWith(r, prefix)
      ensures RemovePrefix(r) == key
    {
      ConcatKeyWithPrefix(key)
    }

    function GetKeyFromBuffer(key: ByteString): (r: ByteString)
      ensures StartsWith(key, prefix) ==> ConvertKeyIntoBuffer(r) == key
      ensures !StartsWith(key, prefix) && |key| <= |prefix| ==> r == []
    {
      RemovePrefix(key)
    }

    /** The value stored under `key` in this bucket, or `None` when there is none. */
    method Get(key: ByteString) returns (r: Option<ByteString>)
      ensures r == Find(db.store, ConvertKeyIntoBuffer(key))
      ensures r == Find(BucketView(db.store, prefix), key)
    {
      r := db.Get(ConvertKeyIntoBuffer(key));
    }

    method Put(key: ByteString, value: ByteString)
      modifies db
      ensures db.store == old(db.store)[ConvertKeyIntoBuffer(key) := value]
      ensures BucketView(db.store, prefix) == BucketView(old(db.store), prefix)[key := value]
    {
      db.Put(ConvertKeyIntoBuffer(key), value);
      ViewAfterPut(old(db.store), prefix, key, value);
    }

    method Del(key: ByteString)
      modifies db
      ensures db.store == old(db.store) - {ConvertKeyIntoBuffer(key)}
      ensures BucketView(db.store, prefix) == BucketView(old(db.store), prefix) - {key}
    {
      db.Del(ConvertKeyIntoBuffer(key));
      ViewAfterDel(old(db.store), prefix, key);
    }

    /** Builds one engine batch from `operations`, in order, and writes it. */
    method Batch(operations: seq<BatchOperation>)
      modifies db
      ensures db.store == ApplyOps(old(db.store), Translate(prefix, operations))
      ensures BucketView(db.store, prefix) == ApplyBatch(BucketView(old(db.store), prefix), operations)
      ensures forall x :: !StartsWith(x, prefix) ==> Find(db.store, x) == Find(old(db.store), x)
    {
      var batch: seq<WriteOp> := [];
      for i := 0 to |operations|
        invariant batch == Translate(prefix, operations[..i])
      {
        var op := operations[i];
        assert operations[..i + 1][..i] == operations[..i];
        if op.kind == "Put" {
          batch := batch + [PutOp(ConvertKeyIntoBuffer(op.key), op.value)];
        } else if op.kind == "Del" {
          batch := batch + [DelOp(ConvertKeyIntoBuffer(op.key))];
        }
      }
      assert operations[..|operations|] == operations;
      db.Write(batch);
      BatchView(old(db.store), prefix, operations);
      forall x | !StartsWith(x, prefix) ensures Find(db.store, x) == Find(old(db.store), x) {
        BatchOutside(old(db.store), prefix, operations, x);
      }
    }

    /** A cursor over this bucket's keys from `bound` on (past it when `lowerBoundExclusive`). */
    method Iter(bound: ByteString, lowerBoundExclusive: bool) returns (it: LevelKeyValueStoreIterator)
      ensures fresh(it) && fresh(it.iter) && it.parentKvs == this
      ensures IsScan(db.store, IterRange(prefix, bound, lowerBoundExclusive), it.iter.pending)
      ensures Valid() ==>
        IsScan(BucketView(db.store, prefix), RangeOptions(bound, lowerBoundExclusive, Unbounded), Drain(prefix, it.iter.pending))
    {
      var option := IterRange(prefix, bound, lowerBoundExclusive);
      var c := db.Iterator(option);
      it := new LevelKeyValueStoreIterator(c, this);
      if Valid() {
        IterYieldsBucketRange(db.store, prefix, bound, lowerBoundExclusive, c.pending);
      }
    }

    /** The child bucket `key`: prefix `prefix ++ key ++ "."` over this store's own `db`. */
    method Bucket(key: ByteString) returns (b: LevelKeyValueStore)
      ensures fresh(b) && b.Valid()
      ensures b.prefix == ConcatKeyWithPrefix(key) + SEPARATOR
      ensures b.db == db
    {
      b := new LevelKeyValueStore(ConcatKeyWithPrefix(key), db);
    }
  }

  class LevelKeyValueStoreIterator {
    const iter: Cursor
    const parentKvs: LevelKeyValueStore

    constructor(iter: Cursor, parentKvs: LevelKeyValueStore)
      ensures this.iter == iter && this.parentKvs == parentKvs
    {
      this.iter := iter;
      this.parentKvs := parentKvs;
    }

    /**
     Pulls one entry from the engine cursor. It yields that entry with the prefix dropped from
     its key, or `None` when the cursor is exhausted or the key lacks the bucket's prefix.
     */
    method Next() returns (r: Option<Entry>)
      modifies iter
      ensures old(iter.pending) == [] ==> iter.pending == []
      ensures old(iter.pending) != [] ==> iter.pending == old(iter.pending)[1..]
      ensures r.Some? <==> Drain(parentKvs.prefix, old(iter.pending)) != []
      ensures r.Some? ==> r.value == Drain(parentKvs.prefix, old(iter.pending))[0]
      ensures r.Some? ==> Drain(parentKvs.prefix, iter.pending) == Drain(parentKvs.prefix, old(iter.pending))[1..]
    {
      var e := iter.Next();
      var prefix := parentKvs.prefix;
      if e.Some? && StartsWith(e.value.key, prefix) {
        r := Some(Entry(parentKvs.GetKeyFromBuffer(e.value.key), e.value.value));
      } else {
        r := None;
      }
    }
  }
}
