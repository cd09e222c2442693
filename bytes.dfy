/**
 Byte strings and the helpers the store uses on them: concatenation, suffixing with a
 separator, the prefix test, the lexicographic order the engine sorts keys by, and
 `Increment`, which computes the exclusive upper bound of a prefix's key range.
 */
module Bytes {
  import opened Wrappers

  type byte = b: int | 0 <= b < 0x100

  type ByteString = seq<byte>

  /** The bucket separator '.', and the byte that follows it. */
  const DOT: byte := 0x2E
  const SLASH: byte := 0x2F
  const MAX_BYTE: byte := 0xFF

  /** `s` begins with the bytes of `p`. */
  predicate StartsWith(s: ByteString, p: ByteString)
  {
    |p| <= |s| && s[..|p|] == p
  }

  function Concat(a: ByteString, b: ByteString): (r: ByteString)
    ensures |r| == |a| + |b|
    ensures StartsWith(r, a) && r[|a|..] == b
  {
    a + b
  }

  /** Appends the separator `sep` to `s`, as `Bytes.suffix` does. */
  function Suffix(s: ByteString, sep: ByteString): (r: ByteString)
    ensures StartsWith(r, s) && r[|s|..] == sep
  {
    Concat(s, sep)
  }

  // ---------------------------------------------------------------------------
  // Lexicographic order of byte strings: a proper prefix sorts first.
  // ---------------------------------------------------------------------------

  predicate Less(a: ByteString, b: ByteString)
  {
    if b == [] then false
    else if a == [] then true
    else if a[0] != b[0] then a[0] < b[0]
    else Less(a[1..], b[1..])
  }

  predicate LessEq(a: ByteString, b: ByteString)
  {
    a == b || Less(a, b)
  }

  lemma {:induction false} LessIrreflexive(a: ByteString)
    ensures !Less(a, a)
  {
    if a != [] {
      LessIrreflexive(a[1..]);
    }
  }

  lemma {:induction false} LessAsymmetric(a: ByteString, b: ByteString)
    ensures Less(a, b) ==> !Less(b, a)
  {
    if a != [] && b != [] && a[0] == b[0] {
      LessAsymmetric(a[1..], b[1..]);
    }
  }

  lemma {:induction false} LessTransitive(a: ByteString, b: ByteString, c: ByteString)
    requires Less(a, b) && Less(b, c)
    ensures Less(a, c)
  {
    if a != [] && a[0] == b[0] && b[0] == c[0] {
      LessTransitive(a[1..], b[1..], c[1..]);
    }
  }

  lemma {:induction false} LessTotal(a: ByteString, b: ByteString)
    ensures a == b || Less(a, b) || Less(b, a)
  {
    if a != [] && b != [] && a[0] == b[0] {
      LessTotal(a[1..], b[1..]);
      if a[1..] == b[1..] {
        assert a == [a[0]] + a[1..] && b == [b[0]] + b[1..];
      }
    }
  }

  /** `a` sorts before `b` when both agree on the first `i` bytes and then `a` ends or has the smaller byte. */
  lemma {:induction false} LessAt(a: ByteString, b: ByteString, i: nat)
    requires i <= |a| && i < |b| && a[..i] == b[..i]
    requires i == |a| || a[i] < b[i]
    ensures Less(a, b)
  {
    if i > 0 {
      assert a[0] == a[..i][0] == b[..i][0] == b[0];
      assert a[1..][..i - 1] == a[..i][1..] == b[..i][1..] == b[1..][..i - 1];
      LessAt(a[1..], b[1..], i - 1);
    }
  }

  /** A proper prefix sorts strictly before the string it begins. */
  lemma ProperPrefixLess(a: ByteString, b: ByteString)
    requires StartsWith(b, a) && |a| < |b|
    ensures Less(a, b)
  {
    LessAt(a, b, |a|);
  }

  lemma PrefixLessEq(a: ByteString, b: ByteString)
    requires StartsWith(b, a)
    ensures LessEq(a, b)
  {
    if |a| < |b| {
      ProperPrefixLess(a, b);
    } else {
      assert a == b[..|a|] == b;
    }
  }

  /** Prepending a common prefix does not change how two strings compare. */
  lemma {:induction false} LessUnderPrefix(p: ByteString, a: ByteString, b: ByteString)
    ensures Less(p + a, p + b) <==> Less(a, b)
  {
    if p != [] {
      assert (p + a)[0] == p[0] == (p + b)[0];
      assert (p + a)[1..] == p[1..] + a;
      assert (p + b)[1..] == p[1..] + b;
      LessUnderPrefix(p[1..], a, b);
    } else {
      assert p + a == a && p + b == b;
    }
  }

  /** Every non-empty finite set of byte strings has a least element. */
  lemma {:induction false} LeastExists(s: set<ByteString>)
    requires s != {}
    ensures exists k :: k in s && forall r :: r in s ==> r == k || Less(k, r)
  {
    var x :| x in s;
    if s == {x} {
      assert forall r :: r in s ==> r == x;
    } else {
      LeastExists(s - {x});
      var k :| k in s - {x} && forall r :: r in s - {x} ==> r == k || Less(k, r);
      LessTotal(x, k);
      if Less(x, k) {
        forall r | r in s
          ensures r == x || Less(x, r)
        {
          if r != x && r != k {
            LessTransitive(x, k, r);
          }
        }
      } else {
        assert k in s && forall r :: r in s ==> r == k || Less(k, r);
      }
    }
  }

  // ---------------------------------------------------------------------------
  // Increment: big-endian +1 with carry.
  // ---------------------------------------------------------------------------

  /** The big-endian unsigned value of a byte string. */
  function ToNat(s: ByteString): nat
  {
    if s == [] then 0 else ToNat(s[..|s| - 1]) * 0x100 + s[|s| - 1]
  }

  predicate AllMax(s: ByteString)
  {
    forall i :: 0 <= i < |s| ==> s[i] == MAX_BYTE
  }

  /**
   Adds one to `s` read as a big-endian number, carrying leftward through 0xFF bytes.
   A string made only of 0xFF bytes (the empty string included) has no finite successor,
   which is reported as `None`.
   */
  function Increment(s: ByteString): (r: Option<ByteString>)
    ensures r.None? <==> AllMax(s)
    ensures r.Some? ==> |r.value| == |s| && ToNat(r.value) == ToNat(s) + 1
  {
    if s == [] then None
    else
      var init, last := s[..|s| - 1], s[|s| - 1];
      assert s == init + [last];
      if last < MAX_BYTE then
        var u := init + [last + 1];
        assert u[..|u| - 1] == init;
        Some(u)
      else
        match Increment(init)
        case None => None
        case Some(t) =>
          var u := t + [0];
          assert u[..|u| - 1] == t;
          Some(u)
  }

  /** The successor of a string whose last byte is not 0xFF: only that last byte changes. */
  function NextSibling(p: ByteString): ByteString
    requires p != []
    requires p[|p| - 1] < MAX_BYTE
  {
    p[..|p| - 1] + [p[|p| - 1] + 1]
  }

  lemma IncrementNoCarry(p: ByteString)
    requires p != [] && p[|p| - 1] < MAX_BYTE
    ensures Increment(p) == Some(NextSibling(p))
  {
  }

  /**
   Without a carry, `NextSibling(p)` bounds exactly the strings that sort before `p` or begin
   with `p`: nothing else lies below it.
   */
  lemma {:induction false} NextSiblingExact(p: ByteString, x: ByteString)
    requires p != [] && p[|p| - 1] < MAX_BYTE
    ensures Less(x, NextSibling(p)) <==> Less(x, p) || StartsWith(x, p)
  {
    var u := NextSibling(p);
    if x == [] {
    } else if |p| == 1 {
      assert u == [p[0] + 1];
      if x[0] == p[0] + 1 {
        assert x[1..] != [] ==> !Less(x[1..], []);
      }
    } else if x[0] != p[0] {
      assert u[0] == p[0];
    } else {
      var p', x' := p[1..], x[1..];
      assert u[0] == p[0] && u[1..] == NextSibling(p');
      NextSiblingExact(p', x');
      assert StartsWith(x, p) <==> StartsWith(x', p') by {
        if StartsWith(x', p') {
          assert x[..|p|] == [x[0]] + x'[..|p'|];
          assert p == [p[0]] + p';
        }
        if StartsWith(x, p) {
          assert x'[..|p'|] == x[..|p|][1..];
        }
      }
    }
  }

  /** Every string that begins with `p` sorts strictly below `Increment(p)`, carry or not. */
  lemma {:induction false} IncrementBoundsPrefixed(p: ByteString, k: ByteString)
    requires Increment(p).Some?
    requires StartsWith(k, p)
    ensures Less(k, Increment(p).value)
  {
    var init, last := p[..|p| - 1], p[|p| - 1];
    if last < MAX_BYTE {
      NextSiblingExact(p, k);
    } else {
      assert p == init + [last];
      var t := Increment(init).value;
      assert Increment(p).value == t + [0];
      assert StartsWith(k, init) by {
        assert k[..|init|] == k[..|p|][..|init|];
      }
      IncrementBoundsPrefixed(init, k);
      ProperPrefixLess(t, t + [0]);
      LessTransitive(k, t, t + [0]);
    }
  }

  /** `Increment(p)` lies above `p` and does not itself begin with `p`. */
  lemma IncrementLeavesPrefix(p: ByteString)
    requires Increment(p).Some?
    ensures Less(p, Increment(p).value)
    ensures !StartsWith(Increment(p).value, p)
  {
    var u := Increment(p).value;
    IncrementBoundsPrefixed(p, p);
    if StartsWith(u, p) {
      assert u == u[..|p|] == p;
      LessIrreflexive(p);
    }
  }

  /** A '.'-terminated string never carries: its successor only turns the final '.' into '/'. */
  lemma IncrementTerminated(p: ByteString)
    requires p != [] && p[|p| - 1] == DOT
    ensures Increment(p) == Some(p[..|p| - 1] + [SLASH])
  {
  }
}
