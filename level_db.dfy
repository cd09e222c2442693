/**
 The flat, byte-ordered key-value engine the store is layered on (levelup over a
 leveldown backend), reduced to what the store consumes: point reads and writes, an
 ordered batch of writes, and forward range cursors over a snapshot of the keys.
 */
module LevelDb {
  import opened Wrappers
  import opened Bytes

  datatype Entry = Entry(key: ByteString, value: ByteString)

  /** The upper end of a range scan: `lt` some key, or the end of the key space. */
  datatype Bound = Bounded(limit: ByteString) | Unbounded

  /** A forward range: `gte`/`gt` the lower key, `lt` the upper bound. */
  datatype RangeOptions = RangeOptions(lower: ByteString, lowerExclusive: bool, upper: Bound)

  predicate InRange(o: RangeOptions, k: ByteString)
  {
    && (if o.lowerExclusive then Less(o.lower, k) else LessEq(o.lower, k))
    && (o.upper.Bounded? ==> Less(k, o.upper.limit))
  }

  /** Keys strictly ascending. */
  predicate Sorted(es: seq<Entry>)
  {
    forall i, j :: 0 <= i < j < |es| ==> Less(es[i].key, es[j].key)
  }

  /**
   `es` is what a cursor over range `o` of `m` produces: exactly the entries of `m` whose keys
   lie in the range, in ascending key order.
   */
  ghost predicate IsScan(m: map<ByteString, ByteString>, o: RangeOptions, es: seq<Entry>)
  {
    && Sorted(es)
    && (forall i :: 0 <= i < |es| ==> es[i].key in m && m[es[i].key] == es[i].value && InRange(o, es[i].key))
    && (forall k :: k in m && InRange(o, k) ==> exists i :: 0 <= i < |es| && es[i].key == k)
  }

  function Find(m: map<ByteString, ByteString>, k: ByteString): (r: Option<ByteString>)
    ensures r.Some? <==> k in m
    ensures r.Some? ==> r.value == m[k]
  {
    if k in m then Some(m[k]) else None
  }

  // ---------------------------------------------------------------------------
  // Batches of writes
  // ---------------------------------------------------------------------------

  datatype WriteOp = PutOp(key: ByteString, value: ByteString) | DelOp(key: ByteString)

  function ApplyOp(m: map<ByteString, ByteString>, op: WriteOp): map<ByteString, ByteString>
  {
    match op
    case PutOp(k, v) => m[k := v]
    case DelOp(k) => m - {k}
  }

  /** A batch applies its operations one after another, in list order. */
  function ApplyOps(m: map<ByteString, ByteString>, ops: seq<WriteOp>): map<ByteString, ByteString>
    decreases |ops|
  {
    if ops == [] then m else ApplyOps(ApplyOp(m, ops[0]), ops[1..])
  }

  /** Reference reading of a batch: a key ends with the value of the last operation on it. */
  function LastWrite(ops: seq<WriteOp>, k: ByteString, before: Option<ByteString>): Option<ByteString>
  {
    if ops == [] then before
    else
      var op := ops[|ops| - 1];
      if op.key != k then LastWrite(ops[..|ops| - 1], k, before)
      else if op.PutOp? then Some(op.value)
      else None
  }

  lemma {:induction false} ApplyOpsAppend(m: map<ByteString, ByteString>, ops: seq<WriteOp>, op: WriteOp)
    ensures ApplyOps(m, ops + [op]) == ApplyOp(ApplyOps(m, ops), op)
    decreases |ops|
  {
    if ops == [] {
      assert [] + [op] == [op];
    } else {
      assert (ops + [op])[1..] == ops[1..] + [op];
      ApplyOpsAppend(ApplyOp(m, ops[0]), ops[1..], op);
    }
  }

  /** Applying a batch in order agrees, key by key, with "the last write wins". */
  lemma {:induction false} ApplyOpsFind(m: map<ByteString, ByteString>, ops: seq<WriteOp>, k: ByteString)
    ensures Find(ApplyOps(m, ops), k) == LastWrite(ops, k, Find(m, k))
  {
    if ops != [] {
      var init, op := ops[..|ops| - 1], ops[|ops| - 1];
      assert ops == init + [op];
      ApplyOpsAppend(m, init, op);
      ApplyOpsFind(m, init, k);
    }
  }

  // ---------------------------------------------------------------------------
  // Facts about range scans
  // ---------------------------------------------------------------------------

  /** A scan depends only on the entries inside its range. */
  lemma ScanFrame(m: map<ByteString, ByteString>, m': map<ByteString, ByteString>, o: RangeOptions, es: seq<Entry>)
    requires forall k :: InRange(o, k) ==> Find(m, k) == Find(m', k)
    ensures IsScan(m, o, es) <==> IsScan(m', o, es)
  {
    if IsScan(m, o, es) {
      forall k | k in m' && InRange(o, k)
        ensures exists i :: 0 <= i < |es| && es[i].key == k
      {
        assert Find(m, k) == Find(m', k);
      }
    }
    if IsScan(m', o, es) {
      forall k | k in m && InRange(o, k)
        ensures exists i :: 0 <= i < |es| && es[i].key == k
      {
        assert Find(m, k) == Find(m', k);
      }
    }
  }

  function KeySet(es: seq<Entry>): set<ByteString>
  {
    set i | 0 <= i < |es| :: es[i].key
  }

  lemma KeySetEmpty(es: seq<Entry>)
    ensures KeySet(es) == {} ==> es == []
  {
    if es != [] {
      assert es[0].key in KeySet(es);
    }
  }

  /** Two ascending sequences over the same keys, with the values of one map, are equal. */
  lemma {:induction false} SortedUnique(m: map<ByteString, ByteString>, a: seq<Entry>, b: seq<Entry>)
    requires Sorted(a) && Sorted(b)
    requires forall i :: 0 <= i < |a| ==> a[i].key in m && a[i].value == m[a[i].key]
    requires forall i :: 0 <= i < |b| ==> b[i].key in m && b[i].value == m[b[i].key]
    requires KeySet(a) == KeySet(b)
    ensures a == b
  {
    if a != [] {
      assert b != [] by {
        assert a[0].key in KeySet(a);
      }
      assert a[0].key in KeySet(b);
      assert b[0].key in KeySet(a);
      var i :| 0 <= i < |b| && b[i].key == a[0].key;
      var j :| 0 <= j < |a| && a[j].key == b[0].key;
      if i != 0 && j != 0 {
        LessAsymmetric(a[0].key, a[j].key);
      }
      assert a[0].key == b[0].key;
      assert KeySet(a[1..]) == KeySet(a) - {a[0].key} by {
        forall x ensures x in KeySet(a[1..]) <==> x in KeySet(a) - {a[0].key} {
          if x in KeySet(a) && x != a[0].key {
            var n :| 0 <= n < |a| && a[n].key == x;
            assert a[1..][n - 1].key == x;
          }
          if x in KeySet(a[1..]) {
            var n :| 0 <= n < |a| - 1 && a[1..][n].key == x;
            LessIrreflexive(x);
          }
        }
      }
      assert KeySet(b[1..]) == KeySet(b) - {b[0].key} by {
        forall x ensures x in KeySet(b[1..]) <==> x in KeySet(b) - {b[0].key} {
          if x in KeySet(b) && x != b[0].key {
            var n :| 0 <= n < |b| && b[n].key == x;
            assert b[1..][n - 1].key == x;
          }
          if x in KeySet(b[1..]) {
            var n :| 0 <= n < |b| - 1 && b[1..][n].key == x;
            LessIrreflexive(x);
          }
        }
      }
      SortedUnique(m, a[1..], b[1..]);
      assert a[0] == b[0];
      assert a == [a[0]] + a[1..] && b == [b[0]] + b[1..];
    } else {
      KeySetEmpty(b);
    }
  }

  /** A range scan of a map is determined by the map and the range. */
  lemma ScanUnique(m: map<ByteString, ByteString>, o: RangeOptions, a: seq<Entry>, b: seq<Entry>)
    requires IsScan(m, o, a) && IsScan(m, o, b)
    ensures a == b
  {
    assert KeySet(a) == KeySet(b) by {
      forall x | x in KeySet(a) ensures x in KeySet(b) {
        var n :| 0 <= n < |a| && a[n].key == x;
      }
      forall x | x in KeySet(b) ensures x in KeySet(a) {
        var n :| 0 <= n < |b| && b[n].key == x;
      }
    }
    SortedUnique(m, a, b);
  }

  /**
   Building a scan by repeatedly taking the least key left: `out` holds in-range entries in
   ascending order, each below every key still `remaining`, and every in-range key is in one
   or the other.
   */
  ghost predicate ScanSoFar(m: map<ByteString, ByteString>, o: RangeOptions, out: seq<Entry>, remaining: set<ByteString>)
  {
    && (forall k :: k in remaining ==> k in m && InRange(o, k))
    && (forall i :: 0 <= i < |out| ==> out[i].key in m && m[out[i].key] == out[i].value && InRange(o, out[i].key))
    && Sorted(out)
    && (forall i, r :: 0 <= i < |out| && r in remaining ==> Less(out[i].key, r))
    && (forall k :: k in m && InRange(o, k) ==> k in remaining || exists i :: 0 <= i < |out| && out[i].key == k)
  }

  lemma ScanStep(m: map<ByteString, ByteString>, o: RangeOptions, out: seq<Entry>, remaining: set<ByteString>, k: ByteString)
    requires ScanSoFar(m, o, out, remaining)
    requires k in remaining && forall r :: r in remaining ==> r == k || Less(k, r)
    ensures ScanSoFar(m, o, out + [Entry(k, m[k])], remaining - {k})
  {
    var out', remaining' := out + [Entry(k, m[k])], remaining - {k};
    forall x | x in m && InRange(o, x)
      ensures x in remaining' || exists i :: 0 <= i < |out'| && out'[i].key == x
    {
      if x == k {
        assert out'[|out|].key == x;
      } else if x !in remaining {
        var i :| 0 <= i < |out| && out[i].key == x;
        assert out'[i].key == x;
      }
    }
  }

  // ---------------------------------------------------------------------------
  // The engine's cursor and connection
  // ---------------------------------------------------------------------------

  /** A forward cursor: the entries it has yet to return, in order. */
  class Cursor {
    var pending: seq<Entry>

    constructor(es: seq<Entry>)
      ensures pending == es
    {
      pending := es;
    }

    /** Returns the next entry and advances, or `None` once exhausted. */
    method Next() returns (r: Option<Entry>)
      modifies this
      ensures old(pending) == [] ==> r == None && pending == []
      ensures old(pending) != [] ==> r == Some(old(pending)[0]) && pending == old(pending)[1..]
    {
      if pending == [] {
        r := None;
      } else {
        r := Some(pending[0]);
        pending := pending[1..];
      }
    }
  }

  /** One connection: a sorted byte-keyed map shared by every store opened on it. */
  class Db {
    var store: map<ByteString, ByteString>

    constructor()
      ensures store == map[]
    {
      store := map[];
    }

    /** A point read; a missing key is reported as `None`. */
    method Get(k: ByteString) returns (r: Option<ByteString>)
      ensures r.Some? <==> k in store
      ensures r.Some? ==> r.value == store[k]
    {
      r := Find(store, k);
    }

    method Put(k: ByteString, v: ByteString)
      modifies this
      ensures store == old(store)[k := v]
    {
      store := store[k := v];
    }

    method Del(k: ByteString)
      modifies this
      ensures store == old(store) - {k}
    {
      store := store - {k};
    }

    /** Writes a whole batch as one unit. */
    method Write(ops: seq<WriteOp>)
      modifies this
      ensures store == ApplyOps(old(store), ops)
    {
      store := ApplyOps(store, ops);
    }

    /** Opens a cursor on a snapshot of the entries in range `o`, in ascending key order. */
    method Iterator(o: RangeOptions) returns (c: Cursor)
      ensures fresh(c)
      ensures IsScan(store, o, c.pending)
    {
      var remaining := set k | k in store && InRange(o, k);
      var out: seq<Entry> := [];
      while remaining != {}
        invariant ScanSoFar(store, o, out, remaining)
        decreases |remaining|
      {
        LeastExists(remaining);
        var k :| k in remaining && forall r :: r in remaining ==> r == k || Less(k, r);
        ScanStep(store, o, out, remaining, k);
        out := out + [Entry(k, store[k])];
        remaining := remaining - {k};
      }
      c := new Cursor(out);
    }
  }
}
