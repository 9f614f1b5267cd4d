/**
 Byte strings as keys of an ordered map: their order, prefix ranges, and big-endian numbers.
 */
module ByteKeys {
  import opened Options

  type Byte = x: int | 0 <= x < 256

  type ByteString = seq<Byte>

  /** A 34-byte multihash. */
  type Hash34 = s: ByteString | |s| == 34 witness seq(34, _ => 0)

  // ----- Lexicographic order -----

  predicate Less(a: ByteString, b: ByteString)
    decreases |a|
  {
    if b == [] then false
    else if a == [] then true
    else a[0] < b[0] || (a[0] == b[0] && Less(a[1..], b[1..]))
  }

  lemma {:induction false} LessIrreflexive(a: ByteString)
    ensures !Less(a, a)
    decreases |a|
  {
    if a != [] {
      LessIrreflexive(a[1..]);
    }
  }

  lemma {:induction false} LessTransitive(a: ByteString, b: ByteString, c: ByteString)
    requires Less(a, b) && Less(b, c)
    ensures Less(a, c)
    decreases |a|
  {
    if a != [] && a[0] == b[0] && b[0] == c[0] {
      LessTransitive(a[1..], b[1..], c[1..]);
    }
  }

  lemma {:induction false} LessTotal(a: ByteString, b: ByteString)
    ensures a == b || Less(a, b) || Less(b, a)
    decreases |a|
  {
    if a != [] && b != [] {
      LessTotal(a[1..], b[1..]);
      assert a == [a[0]] + a[1..] && b == [b[0]] + b[1..];
    }
  }

  /** A common prefix does not affect the order. */
  lemma {:induction false} LessAfterPrefix(p: ByteString, a: ByteString, b: ByteString)
    ensures Less(p + a, p + b) <==> Less(a, b)
    decreases |p|
  {
    if p == [] {
      assert p + a == a && p + b == b;
    } else {
      assert (p + a)[1..] == p[1..] + a && (p + b)[1..] == p[1..] + b;
      LessAfterPrefix(p[1..], a, b);
    }
  }

  lemma {:induction false} LessByPrefixThenLast(a: ByteString, b: ByteString, x: Byte, y: Byte)
    requires |a| == |b|
    ensures Less(a + [x], b + [y]) <==> Less(a, b) || (a == b && x < y)
    decreases |a|
  {
    if a == [] {
      assert a + [x] == [x] && b + [y] == [y];
      assert [x][1..] == [] && [y][1..] == [];
    } else {
      assert (a + [x])[1..] == a[1..] + [x] && (b + [y])[1..] == b[1..] + [y];
      LessByPrefixThenLast(a[1..], b[1..], x, y);
      assert a == [a[0]] + a[1..] && b == [b[0]] + b[1..];
    }
  }

  // ----- Prefix ranges -----

  /** The last byte below 0xff is incremented and everything after it dropped. */
  function UpperBound(prefix: ByteString): Option<ByteString>
    decreases |prefix|
  {
    if prefix == [] then None
    else
      var n := |prefix| - 1;
      if prefix[n] < 255 then Some(prefix[..n] + [prefix[n] + 1]) else UpperBound(prefix[..n])
  }

  /** `prefixUpperBound`: nil when every byte is 0xff. */
  method PrefixUpperBound(prefix: ByteString) returns (ub: Option<ByteString>)
    ensures ub == UpperBound(prefix)
  {
    var i := |prefix| - 1;
    assert prefix[..i + 1] == prefix;
    while i >= 0
      invariant -1 <= i < |prefix|
      invariant UpperBound(prefix[..i + 1]) == UpperBound(prefix)
    {
      assert prefix[..i + 1][..i] == prefix[..i];
      if prefix[i] < 255 {
        return Some(prefix[..i] + [prefix[i] + 1]);
      }
      i := i - 1;
    }
    ub := None;
  }

  predicate InRange(k: ByteString, lower: ByteString, upper: Option<ByteString>) {
    !Less(k, lower) && (upper.Some? ==> Less(k, upper.value))
  }

  lemma {:induction false} UpperBoundCons(x: Byte, q: ByteString)
    ensures UpperBound([x] + q) ==
            match UpperBound(q)
            case Some(u) => Some([x] + u)
            case None => if x < 255 then Some([x + 1]) else None
    decreases |q|
  {
    var p := [x] + q;
    if q == [] {
      assert p == [x] && p[..0] + [x + 1] == [x + 1];
    } else {
      var n := |q| - 1;
      assert p[..|p| - 1] == [x] + q[..n];
      if q[n] < 255 {
        assert p[..|p| - 1] + [q[n] + 1] == [x] + (q[..n] + [q[n] + 1]);
      } else {
        UpperBoundCons(x, q[..n]);
      }
    }
  }

  /** The keys in a prefix's range are exactly the keys with that prefix. */
  lemma {:induction false} RangeIsPrefix(k: ByteString, prefix: ByteString)
    ensures InRange(k, prefix, UpperBound(prefix)) <==> prefix <= k
    decreases |prefix|
  {
    if prefix != [] {
      var x, q := prefix[0], prefix[1..];
      assert prefix == [x] + q;
      UpperBoundCons(x, q);
      if k != [] {
        var k' := k[1..];
        assert k == [k[0]] + k';
        RangeIsPrefix(k', q);
        assert prefix <= k <==> k[0] == x && q <= k' by {
          if prefix <= k {
            assert k == prefix + k[|prefix|..];
            assert k' == q + k[|prefix|..];
          }
          if k[0] == x && q <= k' {
            assert k' == q + k'[|q|..];
            assert k == prefix + k'[|q|..];
          }
        }
        if UpperBound(q).Some? {
          assert ([x] + UpperBound(q).value)[1..] == UpperBound(q).value;
        } else if x < 255 {
          var u: ByteString := [x + 1];
          assert u[1..] == [] && !Less(k', u[1..]);
          assert UpperBound(prefix) == Some(u);
          assert Less(k, u) <==> k[0] < x + 1;
          assert Less(k, prefix) <==> k[0] < x || (k[0] == x && Less(k', q));
        } else {
          assert UpperBound(prefix) == None;
          assert Less(k, prefix) <==> k[0] < x || (k[0] == x && Less(k', q));
        }
      }
    }
  }

  // ----- Big-endian numbers -----

  function Pow256(w: nat): (n: nat)
    ensures n > 0
  {
    if w == 0 then 1 else 256 * Pow256(w - 1)
  }

  /** `binary.BigEndian.PutUint64` for w = 8. */
  function BigEndian(n: nat, w: nat): (s: ByteString)
    ensures |s| == w
  {
    if w == 0 then [] else BigEndian(n / 256, w - 1) + [n % 256]
  }

  function FromBigEndian(s: ByteString): nat {
    if s == [] then 0 else FromBigEndian(s[..|s| - 1]) * 256 + s[|s| - 1]
  }

  lemma {:induction false} BigEndianRoundTrip(n: nat, w: nat)
    requires n < Pow256(w)
    ensures FromBigEndian(BigEndian(n, w)) == n
  {
    if w > 0 {
      BigEndianRoundTrip(n / 256, w - 1);
      assert BigEndian(n, w)[..w - 1] == BigEndian(n / 256, w - 1);
    }
  }

  lemma {:induction false} FromBigEndianRoundTrip(s: ByteString)
    ensures FromBigEndian(s) < Pow256(|s|) && BigEndian(FromBigEndian(s), |s|) == s
    decreases |s|
  {
    if s != [] {
      FromBigEndianRoundTrip(s[..|s| - 1]);
      assert s == s[..|s| - 1] + [s[|s| - 1]];
    }
  }

  /** Byte order of big-endian numbers is numeric order. */
  lemma {:induction false} BigEndianOrder(m: nat, n: nat, w: nat)
    requires m < Pow256(w) && n < Pow256(w)
    ensures Less(BigEndian(m, w), BigEndian(n, w)) <==> m < n
    ensures BigEndian(m, w) == BigEndian(n, w) <==> m == n
    decreases w
  {
    BigEndianRoundTrip(m, w);
    BigEndianRoundTrip(n, w);
    if w > 0 {
      BigEndianOrder(m / 256, n / 256, w - 1);
      LessByPrefixThenLast(BigEndian(m / 256, w - 1), BigEndian(n / 256, w - 1), m % 256, n % 256);
    }
  }

  // ----- Sorted lists -----

  ghost predicate Sorted(ks: seq<ByteString>) {
    forall i, j | 0 <= i < j < |ks| :: Less(ks[i], ks[j])
  }

  /** The strictly increasing list of exactly the members of `s`. */
  ghost predicate Lists(ks: seq<ByteString>, s: set<ByteString>) {
    Sorted(ks) && forall k :: k in ks <==> k in s
  }

  lemma {:induction false} SortedHeads(a: seq<ByteString>, b: seq<ByteString>)
    requires Sorted(a) && Sorted(b) && forall k :: k in a <==> k in b
    ensures |a| > 0 <==> |b| > 0
    ensures |a| > 0 ==> a[0] == b[0]
  {
    assert |b| > 0 ==> b[0] in b;
    if |a| > 0 {
      assert a[0] in b;
      assert b[0] in a;
      if a[0] != b[0] {
        var i :| 0 <= i < |b| && b[i] == a[0];
        var j :| 0 <= j < |a| && a[j] == b[0];
        LessTransitive(a[0], b[0], a[0]);
        LessIrreflexive(a[0]);
      }
    }
  }

  lemma {:induction false} SortedTail(a: seq<ByteString>, k: ByteString)
    requires Sorted(a) && |a| > 0
    ensures Sorted(a[1..]) && (k in a[1..] <==> k in a && k != a[0])
  {
    LessIrreflexive(a[0]);
    assert a == [a[0]] + a[1..];
  }

  /** A set has one sorted listing. */
  lemma {:induction false} ListingUnique(a: seq<ByteString>, b: seq<ByteString>)
    requires Sorted(a) && Sorted(b) && forall k :: k in a <==> k in b
    ensures a == b
    decreases |a|
  {
    SortedHeads(a, b);
    if |a| > 0 {
      forall k
        ensures k in a[1..] <==> k in b[1..]
      {
        SortedTail(a, k);
        SortedTail(b, k);
      }
      SortedTail(a, a[0]);
      SortedTail(b, b[0]);
      ListingUnique(a[1..], b[1..]);
      assert a == [a[0]] + a[1..] && b == [b[0]] + b[1..];
    }
  }
}
