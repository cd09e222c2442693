/**
 How buckets relate to one another: sibling buckets never see each other's keys, a
 parent's key space contains its children's, and every bucket handle derived from one
 store writes to and reads from that store's single `db`.
 */
module Buckets {
  import opened Wrappers
  import opened Bytes
  import opened LevelDb
  import opened LevelKvs

  /** Neither string begins with the other. */
  predicate Unrelated(p: ByteString, q: ByteString)
  {
    !StartsWith(p, q) && !StartsWith(q, p)
  }

  /** A '.'-terminated name never begins another name free of '.' that is terminated the same way. */
  lemma TerminatedNotPrefix(a: ByteString, b: ByteString)
    requires a != b && DOT !in b
    ensures !StartsWith(b + SEPARATOR, a + SEPARATOR)
  {
    var a', b' := a + SEPARATOR, b + SEPARATOR;
    assert a'[|a|] == DOT && a'[..|a|] == a && b'[..|b|] == b;
    if |a| < |b| {
      assert b'[..|a'|][|a|] == b[|a|];
      assert b[|a|] in b;
    } else if |a| == |b| {
      assert b'[..|b'|] == b';
    }
  }

  /** Two distinct names without a '.' stay unrelated once each is terminated with '.'. */
  lemma TerminatedNamesUnrelated(a: ByteString, b: ByteString)
    requires a != b && DOT !in a && DOT !in b
    ensures Unrelated(a + SEPARATOR, b + SEPARATOR)
  {
    TerminatedNotPrefix(a, b);
    TerminatedNotPrefix(b, a);
  }

  lemma StartsWithUnderPrefix(p: ByteString, y: ByteString, x: ByteString)
    ensures StartsWith(p + y, p + x) <==> StartsWith(y, x)
  {
    if |x| <= |y| {
      assert (p + y)[..|p + x|] == p + y[..|x|];
      assert (p + y[..|x|])[|p|..] == y[..|x|];
      assert (p + x)[|p|..] == x;
    }
  }

  lemma UnrelatedUnderPrefix(p: ByteString, x: ByteString, y: ByteString)
    requires Unrelated(x, y)
    ensures Unrelated(p + x, p + y)
  {
    StartsWithUnderPrefix(p, y, x);
    StartsWithUnderPrefix(p, x, y);
  }

  /**
   The prefixes of two differently named children of one parent (names free of '.') are
   unrelated: e.g. `a.` and `ab.` differ at their second byte.
   */
  lemma SiblingPrefixesUnrelated(parent: ByteString, n1: ByteString, n2: ByteString)
    requires n1 != n2 && DOT !in n1 && DOT !in n2
    ensures Unrelated(parent + n1 + SEPARATOR, parent + n2 + SEPARATOR)
  {
    TerminatedNamesUnrelated(n1, n2);
    UnrelatedUnderPrefix(parent, n1 + SEPARATOR, n2 + SEPARATOR);
    assert parent + n1 + SEPARATOR == parent + (n1 + SEPARATOR);
    assert parent + n2 + SEPARATOR == parent + (n2 + SEPARATOR);
  }

  /** No physical key of bucket `p` lies in an unrelated bucket `q`. */
  lemma UnrelatedKeysApart(p: ByteString, q: ByteString, k: ByteString)
    requires Unrelated(p, q)
    ensures !StartsWith(p + k, q)
  {
    if |q| <= |p| {
      assert (p + k)[..|q|] == p[..|q|];
    } else if |q| <= |p + k| {
      assert (p + k)[..|q|][..|p|] == p;
    }
  }

  /**
   Whatever happens to keys outside bucket `q` is invisible to it: its logical map and every
   scan its iterator can make stay the same.
   */
  lemma OutsideChangeInvisible(m: map<ByteString, ByteString>, m': map<ByteString, ByteString>, q: ByteString)
    requires IsBucketPrefix(q)
    requires forall y :: StartsWith(y, q) ==> Find(m, y) == Find(m', y)
    ensures BucketView(m', q) == BucketView(m, q)
    ensures forall bound, excl, es ::
      IsScan(m', IterRange(q, bound, excl), es) <==> IsScan(m, IterRange(q, bound, excl), es)
  {
    var v, v' := BucketView(m, q), BucketView(m', q);
    forall k ensures (k in v <==> k in v') && (k in v ==> v[k] == v'[k]) {
      assert StartsWith(q + k, q);
      assert Find(m, q + k) == Find(m', q + k);
    }
    forall bound, excl, es
      ensures IsScan(m', IterRange(q, bound, excl), es) <==> IsScan(m, IterRange(q, bound, excl), es)
    {
      forall y | InRange(IterRange(q, bound, excl), y) ensures Find(m, y) == Find(m', y) {
        IterRangeExact(q, bound, excl, y);
      }
      ScanFrame(m, m', IterRange(q, bound, excl), es);
    }
  }

  /** A put into bucket `p` changes nothing that an unrelated bucket `q` can read or iterate. */
  lemma PutInvisibleToUnrelated(m: map<ByteString, ByteString>, p: ByteString, q: ByteString,
                                k: ByteString, v: ByteString)
    requires IsBucketPrefix(q) && Unrelated(p, q)
    ensures BucketView(m[p + k := v], q) == BucketView(m, q)
    ensures forall bound, excl, es ::
      IsScan(m[p + k := v], IterRange(q, bound, excl), es) <==> IsScan(m, IterRange(q, bound, excl), es)
  {
    UnrelatedKeysApart(p, q, k);
    OutsideChangeInvisible(m, m[p + k := v], q);
  }

  lemma DelInvisibleToUnrelated(m: map<ByteString, ByteString>, p: ByteString, q: ByteString, k: ByteString)
    requires IsBucketPrefix(q) && Unrelated(p, q)
    ensures BucketView(m - {p + k}, q) == BucketView(m, q)
    ensures forall bound, excl, es ::
      IsScan(m - {p + k}, IterRange(q, bound, excl), es) <==> IsScan(m, IterRange(q, bound, excl), es)
  {
    UnrelatedKeysApart(p, q, k);
    OutsideChangeInvisible(m, m - {p + k}, q);
  }

  lemma BatchInvisibleToUnrelated(m: map<ByteString, ByteString>, p: ByteString, q: ByteString,
                                  ops: seq<BatchOperation>)
    requires IsBucketPrefix(q) && Unrelated(p, q)
    ensures BucketView(ApplyOps(m, Translate(p, ops)), q) == BucketView(m, q)
    ensures forall bound, excl, es ::
      IsScan(ApplyOps(m, Translate(p, ops)), IterRange(q, bound, excl), es) <==> IsScan(m, IterRange(q, bound, excl), es)
  {
    forall y | StartsWith(y, q) ensures Find(m, y) == Find(ApplyOps(m, Translate(p, ops)), y) {
      if StartsWith(y, p) {
        SplitAtPrefix(y, p);
        UnrelatedKeysApart(p, q, y[|p|..]);
      }
      BatchOutside(m, p, ops, y);
    }
    OutsideChangeInvisible(m, ApplyOps(m, Translate(p, ops)), q);
  }

  /**
   Buckets nest: key `k` of child bucket `name` is key `name ++ "." ++ k` of its parent, so a
   parent's reads and scans include its children's entries.
   */
  lemma ChildKeysInParent(m: map<ByteString, ByteString>, parent: ByteString, name: ByteString, k: ByteString)
    ensures Find(BucketView(m, parent + name + SEPARATOR), k) == Find(BucketView(m, parent), name + SEPARATOR + k)
  {
    var child, local := parent + name + SEPARATOR, name + SEPARATOR + k;
    calc {
      Find(BucketView(m, child), k);
    == { ViewFind(m, child, k); }
      Find(m, child + k);
    == { assert child + k == parent + local; }
      Find(m, parent + local);
    == { ViewFind(m, parent, local); }
      Find(BucketView(m, parent), local);
    }
  }

  /**
   Two children of one store share its `db`: a put through the first is read back through the
   first, and neither a get nor a fresh iterator of the second sees it.
   */
  method SiblingIsolation(parent: LevelKeyValueStore, n1: ByteString, n2: ByteString,
                          k: ByteString, v: ByteString, k2: ByteString,
                          bound: ByteString, lowerBoundExclusive: bool)
    returns (own: Option<ByteString>, before: Option<ByteString>, after: Option<ByteString>,
             ghost scanBefore: seq<Entry>, ghost scanAfter: seq<Entry>)
    requires n1 != n2 && DOT !in n1 && DOT !in n2
    modifies parent.db
    ensures own == Some(v)
    ensures after == before
    ensures scanAfter == scanBefore
  {
    var a := parent.Bucket(n1);
    var b := parent.Bucket(n2);
    SiblingPrefixesUnrelated(parent.prefix, n1, n2);
    assert a.db == b.db == parent.db;

    before := b.Get(k2);
    var it1 := b.Iter(bound, lowerBoundExclusive);
    scanBefore := it1.iter.pending;
    ghost var m := parent.db.store;

    a.Put(k, v);
    own := a.Get(k);
    after := b.Get(k2);
    var it2 := b.Iter(bound, lowerBoundExclusive);
    scanAfter := it2.iter.pending;

    PutInvisibleToUnrelated(m, a.prefix, b.prefix, k, v);
    assert a.ConvertKeyIntoBuffer(k) == a.prefix + k;
    assert IsScan(m, IterRange(b.prefix, bound, lowerBoundExclusive), scanAfter);
    ScanUnique(m, IterRange(b.prefix, bound, lowerBoundExclusive), scanBefore, scanAfter);
  }

  /** A put is read back by the same store, and no other key of its bucket changes. */
  method PutThenGet(s: LevelKeyValueStore, k: ByteString, v: ByteString) returns (r: Option<ByteString>)
    modifies s.db
    ensures r == Some(v)
    ensures forall k' :: k' != k ==>
      Find(BucketView(s.db.store, s.prefix), k') == Find(BucketView(old(s.db.store), s.prefix), k')
  {
    s.Put(k, v);
    r := s.Get(k);
  }

  /** Deleting a key, present or not, leaves the bucket's get answering `None` for it. */
  method DeleteThenGet(s: LevelKeyValueStore, k: ByteString) returns (r: Option<ByteString>)
    modifies s.db
    ensures r == None
    ensures k !in BucketView(old(s.db.store), s.prefix) ==> s.db.store == old(s.db.store)
  {
    s.Del(k);
    r := s.Get(k);
  }

  /** The empty key sorts first: a bound of `[]` admits every key. */
  lemma EmptyLeast(k: ByteString)
    ensures LessEq([], k)
  {
    PrefixLessEq([], k);
  }

  /** A bucket holding two keys, `k1 < k2`, is scanned from the empty bound as `k1` then `k2`. */
  lemma TwoEntryScan(k1: ByteString, v1: ByteString, k2: ByteString, v2: ByteString)
    requires Less(k1, k2)
    ensures IsScan(map[k1 := v1, k2 := v2], RangeOptions([], false, Unbounded), [Entry(k1, v1), Entry(k2, v2)])
  {
    var m, es := map[k1 := v1, k2 := v2], [Entry(k1, v1), Entry(k2, v2)];
    LessIrreflexive(k1);
    EmptyLeast(k1);
    EmptyLeast(k2);
    forall k | k in m && InRange(RangeOptions([], false, Unbounded), k)
      ensures exists i :: 0 <= i < |es| && es[i].key == k
    {
      assert k == k1 ==> es[0].key == k;
      assert k == k2 ==> es[1].key == k;
    }
  }

  // Key and value bytes of the scenario below (ASCII).
  const USERS: ByteString := [0x75, 0x73, 0x65, 0x72, 0x73]         // "users"
  const USERS2: ByteString := [0x75, 0x73, 0x65, 0x72, 0x73, 0x32]  // "users2"
  const ALICE: ByteString := [0x61, 0x6C, 0x69, 0x63, 0x65]         // "alice"
  const BOB: ByteString := [0x62, 0x6F, 0x62]                       // "bob"
  const CAROL: ByteString := [0x63, 0x61, 0x72, 0x6F, 0x6C]         // "carol"
  const ONE: ByteString := [0x31]                                   // "1"
  const TWO: ByteString := [0x32]                                   // "2"
  const THREE: ByteString := [0x33]                                 // "3"

  lemma ScenarioNames()
    ensures USERS != USERS2 && DOT !in USERS && DOT !in USERS2
  {
    assert forall i :: 0 <= i < |USERS2| ==> USERS2[i] != DOT;
  }

  /** A bucket of an empty engine is empty. */
  lemma EmptyView(p: ByteString)
    ensures BucketView(map[], p) == map[]
  {
    var v := BucketView(map[], p);
    assert forall k :: k !in v;
  }

  /**
   A root store on a fresh connection, bucket "users" holding alice=1 and bob=2, and a
   sibling bucket "users2" holding carol=3: iterating "users" from the empty bound yields
   alice, then bob, then the end.
   */
  method UsersScenario() returns (first: Option<Entry>, second: Option<Entry>, third: Option<Entry>)
    ensures first == Some(Entry(ALICE, ONE))
    ensures second == Some(Entry(BOB, TWO))
    ensures third == None
  {
    var root := new LevelKeyValueStore([], null);
    var users := root.Bucket(USERS);
    var users2 := root.Bucket(USERS2);
    var u := users.prefix;
    EmptyView(u);
    users.Put(ALICE, ONE);
    users.Put(BOB, TWO);
    ghost var view := map[ALICE := ONE, BOB := TWO];
    assert BucketView(root.db.store, u) == view;

    ghost var m := root.db.store;
    users2.Put(CAROL, THREE);
    ScenarioNames();
    SiblingPrefixesUnrelated(root.prefix, USERS, USERS2);
    assert users2.prefix == root.prefix + USERS2 + SEPARATOR;
    assert u == root.prefix + USERS + SEPARATOR;
    PutInvisibleToUnrelated(m, users2.prefix, u, CAROL, THREE);
    assert BucketView(root.db.store, u) == view;

    var it := users.Iter([], false);
    assert Less(ALICE, BOB);
    TwoEntryScan(ALICE, ONE, BOB, TWO);
    ScanUnique(view, RangeOptions([], false, Unbounded), Drain(u, it.iter.pending), [Entry(ALICE, ONE), Entry(BOB, TWO)]);

    first := it.Next();
    second := it.Next();
    third := it.Next();
  }
}
