/**
  Machine-level data shared by the whole model: bytes, fixed-width integers, the
  big-endian encoding used for block heights, and the byte order of store keys.
 */
module Machine {

  const TWO32: int := 0x1_0000_0000
  const TWO56: int := 0x100_0000_0000_0000
  const TWO63: int := 0x8000_0000_0000_0000
  const TWO64: int := 0x1_0000_0000_0000_0000

  type byte = x: int | 0 <= x < 256
  type uint64 = x: int | 0 <= x < TWO64
  type Bytes = seq<byte>

  /** A Go byte slice or string: its length is an int. */
  type Slice = s: Bytes | |s| < TWO63

  datatype Option<+T> = None | Some(value: T)

  // ---- Big-endian integers ----

  function Pow256(n: nat): (r: nat)
    ensures r > 0
  {
    if n == 0 then 1 else 256 * Pow256(n - 1)
  }

  /** The `n` low-order bytes of `v`, most significant byte first. */
  function BigEndian(v: nat, n: nat): (r: Bytes)
    ensures |r| == n
    decreases n
  {
    if n == 0 then [] else BigEndian(v / 256, n - 1) + [v % 256]
  }

  function FromBigEndian(s: Bytes): nat
  {
    if s == [] then 0 else 256 * FromBigEndian(s[..|s| - 1]) + s[|s| - 1]
  }

  /** sdk.Uint64ToBigEndian. */
  function Uint64ToBigEndian(v: uint64): (r: Bytes)
    ensures |r| == 8
  {
    BigEndian(v, 8)
  }

  /** sdk.BigEndianToUint64: zero for an empty slice, and an index panic (`None`) for one to seven bytes. */
  function BigEndianToUint64(s: Bytes): Option<uint64>
  {
    if s == [] then Some(0)
    else if |s| < 8 then None
    else
      FromBigEndianBound(s[..8]);
      Pow256Of8();
      Some(FromBigEndian(s[..8]))
  }

  lemma Pow256Of8()
    ensures Pow256(7) == TWO56
    ensures Pow256(8) == TWO64
  {
    assert Pow256(2) == 0x1_0000;
    assert Pow256(4) == 0x1_0000_0000;
    assert Pow256(6) == 0x1_0000_0000_0000;
    assert Pow256(7) == TWO56;
  }

  lemma {:induction false} FromBigEndianBound(s: Bytes)
    ensures FromBigEndian(s) < Pow256(|s|)
  {
    if s != [] {
      FromBigEndianBound(s[..|s| - 1]);
    }
  }

  lemma {:induction false} BigEndianRoundTrip(v: nat, n: nat)
    requires v < Pow256(n)
    ensures FromBigEndian(BigEndian(v, n)) == v
    decreases n
  {
    if n > 0 {
      BigEndianRoundTrip(v / 256, n - 1);
      assert BigEndian(v, n)[..n - 1] == BigEndian(v / 256, n - 1);
    }
  }

  /** Decoding a stored height gives the height back, and a stored height is never empty. */
  lemma HeightRoundTrip(h: uint64)
    ensures BigEndianToUint64(Uint64ToBigEndian(h)) == Some(h)
  {
    Pow256Of8();
    BigEndianRoundTrip(h, 8);
    assert Uint64ToBigEndian(h)[..8] == Uint64ToBigEndian(h);
  }

  lemma HeightInjective(a: uint64, b: uint64)
    requires Uint64ToBigEndian(a) == Uint64ToBigEndian(b)
    ensures a == b
  {
    HeightRoundTrip(a);
    HeightRoundTrip(b);
  }

  lemma {:induction false} TopByte(v: nat, n: nat)
    requires n > 0 && v < Pow256(n)
    ensures BigEndian(v, n)[0] == v / Pow256(n - 1)
    decreases n
  {
    if n == 1 {
      assert BigEndian(v / 256, 0) == [];
    } else {
      TopByte(v / 256, n - 1);
      DivDiv(v, Pow256(n - 2));
    }
  }

  lemma DivDiv(v: nat, b: nat)
    requires b > 0
    ensures v / 256 / b == v / (256 * b)
  {
    var q := v / 256 / b;
    var r := v / 256 % b;
    var t := v % 256;
    assert v == 256 * (b * q + r) + t;
    assert v == (256 * b) * q + (256 * r + t);
    QuotientUnique(v, 256 * b, q, 256 * r + t);
  }

  lemma QuotientUnique(v: nat, d: nat, q: nat, r: nat)
    requires d > 0 && r < d && v == d * q + r
    ensures v / d == q
  {
    var q' := v / d;
    assert q' > q ==> d * q' >= d * (q + 1);
    assert q' < q ==> d * q >= d * (q' + 1);
  }

  // ---- Buffers ----

  /** The buffer `a` with the bytes from `i` on overwritten by `x`. */
  function Splice(a: Bytes, i: nat, x: Bytes): (r: Bytes)
    requires i + |x| <= |a|
    ensures |r| == |a|
  {
    a[..i] + x + a[i + |x|..]
  }

  lemma SpliceByElements(a: Bytes, b: Bytes, i: nat, x: Bytes)
    requires |a| == |b| && i + |x| <= |a|
    requires forall k :: 0 <= k < |a| ==> b[k] == if i <= k < i + |x| then x[k - i] else a[k]
    ensures b == Splice(a, i, x)
  {
  }

  /** Writing `x` and then `y` just in front of it is writing `y + x`. */
  lemma SpliceInFront(a: Bytes, i: nat, x: Bytes, y: Bytes)
    requires i + |x| <= |a| && |y| <= i
    ensures Splice(Splice(a, i, x), i - |y|, y) == Splice(a, i - |y|, y + x)
  {
    var b := Splice(a, i, x);
    assert b[..i - |y|] == a[..i - |y|];
    assert b[i..] == x + a[i + |x|..];
  }

  // ---- Byte order ----

  /** Strict lexicographic order, the order in which a store iterator yields keys. */
  predicate Before(a: Bytes, b: Bytes)
  {
    b != [] && (a == [] || a[0] < b[0] || (a[0] == b[0] && Before(a[1..], b[1..])))
  }

  lemma {:induction false} BeforeIrreflexive(a: Bytes)
    ensures !Before(a, a)
  {
    if a != [] {
      BeforeIrreflexive(a[1..]);
    }
  }

  lemma {:induction false} BeforeTransitive(a: Bytes, b: Bytes, c: Bytes)
    requires Before(a, b) && Before(b, c)
    ensures Before(a, c)
  {
    if a != [] && a[0] == b[0] == c[0] {
      BeforeTransitive(a[1..], b[1..], c[1..]);
    }
  }

  lemma {:induction false} BeforeTotal(a: Bytes, b: Bytes)
    ensures a == b || Before(a, b) || Before(b, a)
  {
    if a != [] && b != [] && a[0] == b[0] {
      BeforeTotal(a[1..], b[1..]);
      assert a == [a[0]] + a[1..];
      assert b == [b[0]] + b[1..];
    }
  }

  /** Heads of equal length decide first; only equal heads let the tails decide. */
  lemma {:induction false} BeforeConcat(x: Bytes, u: Bytes, y: Bytes, v: Bytes)
    requires |x| == |y|
    ensures Before(x + u, y + v) <==> Before(x, y) || (x == y && Before(u, v))
  {
    if x == [] {
      assert x + u == u && y + v == v;
    } else {
      assert (x + u)[1..] == x[1..] + u;
      assert (y + v)[1..] == y[1..] + v;
      BeforeConcat(x[1..], u, y[1..], v);
      assert x == [x[0]] + x[1..];
      assert y == [y[0]] + y[1..];
    }
  }

  /** Big-endian encoding turns numeric order into byte order. */
  lemma {:induction false} BigEndianOrder(a: nat, b: nat, n: nat)
    requires a < Pow256(n) && b < Pow256(n)
    ensures Before(BigEndian(a, n), BigEndian(b, n)) <==> a < b
    decreases n
  {
    if n > 0 {
      BigEndianOrder(a / 256, b / 256, n - 1);
      BeforeConcat(BigEndian(a / 256, n - 1), [a % 256], BigEndian(b / 256, n - 1), [b % 256]);
      if BigEndian(a / 256, n - 1) == BigEndian(b / 256, n - 1) {
        BigEndianRoundTrip(a / 256, n - 1);
        BigEndianRoundTrip(b / 256, n - 1);
      }
    }
  }

  lemma HeightOrder(a: uint64, b: uint64)
    ensures Before(Uint64ToBigEndian(a), Uint64ToBigEndian(b)) <==> a < b
  {
    Pow256Of8();
    BigEndianOrder(a, b, 8);
  }

  /** Every non-empty finite set of keys has a first key. */
  lemma FirstKeyExists(s: set<Bytes>) returns (k: Bytes)
    requires s != {}
    ensures k in s && forall j :: j in s ==> j == k || Before(k, j)
    decreases s
  {
    var x :| x in s;
    if s == {x} {
      k := x;
    } else {
      var rest := s - {x};
      assert s == {x} + rest;
      var y := FirstKeyExists(rest);
      BeforeTotal(x, y);
      if Before(x, y) {
        k := x;
        forall j | j in s ensures j == k || Before(k, j) {
          if j != x && j != y { BeforeTransitive(x, y, j); }
        }
      } else {
        k := y;
      }
    }
  }
}
