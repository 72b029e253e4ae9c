/**
  Base 128 varints: the encoder that fills a buffer at a precomputed offset, the size
  function it relies on, and the decode loop. The three generated files carry identical
  copies of this code (encodeVarint*, sov*, and the loop inlined in every Unmarshal).
 */
module Varint {
  import opened Machine

  datatype Error =
    | IntOverflow
    | UnexpectedEOF
    | InvalidLength
    | EndGroupTag
    | IllegalTag
    | WrongWireType
    | IllegalWireType
    | UnexpectedEndOfGroup

  datatype Result<+T> = Ok(value: T) | Err(error: Error)

  /** A value decoded from the front of a byte string and the number of bytes it took. */
  datatype Read = Read(value: nat, size: nat)

  /** Seven bits a byte, least significant group first, continuation bit on all but the last. */
  function EncodeVarint(v: nat): (r: Bytes)
    ensures |r| >= 1
  {
    if v < 128 then [v] else [128 + v % 128] + EncodeVarint(v / 128)
  }

  /** Reads at most `k` groups; the value is not truncated. */
  function ReadGroups(s: Bytes, k: nat): (r: Result<Read>)
    ensures r.Ok? ==> 1 <= r.value.size <= |s| && r.value.size <= k
  {
    if k == 0 then Err(IntOverflow)
    else if s == [] then Err(UnexpectedEOF)
    else if s[0] < 128 then Ok(Read(s[0], 1))
    else
      match ReadGroups(s[1..], k - 1)
      case Err(e) => Err(e)
      case Ok(r) => Ok(Read(s[0] - 128 + 128 * r.value, r.size + 1))
  }

  /** The decode loop: shifts 0, 7, ..., 63, so ten groups, accumulated in 64 bits. */
  function ReadVarint(s: Bytes): (r: Result<Read>)
    ensures r.Ok? ==> 1 <= r.value.size <= |s| && r.value.value < TWO64
  {
    match ReadGroups(s, 10)
    case Err(e) => Err(e)
    case Ok(r) => Ok(Read(r.value % TWO64, r.size))
  }

  // ---- Size ----

  /** math/bits.Len64. */
  function Len64(x: nat): nat
  {
    if x == 0 then 0 else 1 + Len64(x / 2)
  }

  /** sov: (Len64(x|1) + 6) / 7. */
  function Sov(x: uint64): nat
  {
    var odd := if x % 2 == 0 then x + 1 else x;
    (Len64(odd) + 6) / 7
  }

  lemma Len64By128(x: nat)
    requires x >= 128
    ensures Len64(x) == 7 + Len64(x / 128)
  {
    assert Len64(x) == 2 + Len64(x / 2 / 2) by { assert Len64(x / 2) == 1 + Len64(x / 2 / 2); }
    var y := x / 4;
    assert x / 2 / 2 == y;
    assert Len64(y) == 2 + Len64(y / 2 / 2) by { assert Len64(y / 2) == 1 + Len64(y / 2 / 2); }
    var z := y / 4;
    assert y / 2 / 2 == z && z == x / 16;
    assert Len64(z) == 2 + Len64(z / 2 / 2) by { assert Len64(z / 2) == 1 + Len64(z / 2 / 2); }
    assert z / 4 / 2 == x / 128;
  }

  lemma Len64Small(x: nat)
    requires 1 <= x < 128
    ensures 1 <= Len64(x) <= 7
  {
    Len64Monotone(x, 127);
    assert Len64(127) == 7 by {
      assert Len64(1) == 1 && Len64(3) == 2 && Len64(7) == 3 && Len64(15) == 4 && Len64(31) == 5 && Len64(63) == 6;
    }
  }

  lemma {:induction false} Len64Monotone(x: nat, y: nat)
    requires x <= y
    ensures Len64(x) <= Len64(y)
  {
    if x > 0 {
      Len64Monotone(x / 2, y / 2);
    }
  }

  /** The precomputed size is the number of bytes written, for every 64-bit value. */
  lemma {:induction false} SovIsLength(x: uint64)
    ensures Sov(x) == |EncodeVarint(x)|
  {
    var odd := if x % 2 == 0 then x + 1 else x;
    if x < 128 {
      Len64Small(odd);
    } else {
      Len64By128(odd);
      var y := x / 128;
      assert odd / 128 == y;
      SovIsLength(y);
      if y % 2 == 0 {
        assert Len64(y + 1) == 1 + Len64((y + 1) / 2);
        assert (y + 1) / 2 == y / 2;
      }
    }
  }

  function Pow128(n: nat): (r: nat)
  {
    if n == 0 then 1 else 128 * Pow128(n - 1)
  }

  lemma {:induction false} EncodeVarintBound(v: nat, k: nat)
    requires k >= 1 && v < Pow128(k)
    ensures |EncodeVarint(v)| <= k
  {
    if v >= 128 {
      assert k >= 2 by { assert Pow128(1) == 128; }
      EncodeVarintBound(v / 128, k - 1);
    }
  }

  lemma TenGroups(v: uint64)
    ensures |EncodeVarint(v)| <= 10
  {
    assert Pow128(2) == 0x4000;
    assert Pow128(4) == 0x1000_0000;
    assert Pow128(6) == 0x400_0000_0000;
    assert Pow128(8) == 0x100_0000_0000_0000;
    assert Pow128(10) == 64 * TWO64;
    EncodeVarintBound(v, 10);
  }

  // ---- Round trip ----

  lemma {:induction false} ReadGroupsOfEncode(v: nat, rest: Bytes, k: nat)
    requires |EncodeVarint(v)| <= k
    ensures ReadGroups(EncodeVarint(v) + rest, k) == Ok(Read(v, |EncodeVarint(v)|))
  {
    if v >= 128 {
      ReadGroupsOfEncode(v / 128, rest, k - 1);
      assert (EncodeVarint(v) + rest)[1..] == EncodeVarint(v / 128) + rest;
    }
  }

  /** Every 64-bit value is read back, consuming exactly the bytes written, whatever follows. */
  lemma VarintRoundTrip(v: uint64, rest: Bytes)
    ensures ReadVarint(EncodeVarint(v) + rest) == Ok(Read(v, Sov(v)))
    ensures 1 <= Sov(v) <= 10
  {
    TenGroups(v);
    SovIsLength(v);
    ReadGroupsOfEncode(v, rest, 10);
  }

  /** A successful read looks only at the bytes it consumes. */
  lemma {:induction false} ReadGroupsLocal(s: Bytes, t: Bytes, k: nat)
    requires ReadGroups(s, k).Ok?
    ensures ReadGroups(s + t, k) == ReadGroups(s, k)
  {
    if s[0] >= 128 {
      assert (s + t)[1..] == s[1..] + t;
      ReadGroupsLocal(s[1..], t, k - 1);
    }
  }

  lemma ReadVarintLocal(s: Bytes, t: Bytes)
    requires ReadVarint(s).Ok?
    ensures ReadVarint(s + t) == ReadVarint(s)
  {
    ReadGroupsLocal(s, t, 10);
  }

  // ---- Canonical encodings are shortest ----

  lemma {:induction false} EncodeMonotone(a: nat, b: nat)
    requires a <= b
    ensures |EncodeVarint(a)| <= |EncodeVarint(b)|
  {
    if a >= 128 {
      EncodeMonotone(a / 128, b / 128);
    }
  }

  lemma {:induction false} ReadGroupsMinimal(s: Bytes, k: nat)
    requires ReadGroups(s, k).Ok?
    ensures |EncodeVarint(ReadGroups(s, k).value.value)| <= ReadGroups(s, k).value.size
  {
    if s[0] >= 128 {
      ReadGroupsMinimal(s[1..], k - 1);
    }
  }

  /** No encoding of a value is shorter than the one written here. */
  lemma EncodingIsShortest(s: Bytes)
    requires ReadVarint(s).Ok?
    ensures |EncodeVarint(ReadVarint(s).value.value)| <= ReadVarint(s).value.size
  {
    ReadGroupsMinimal(s, 10);
    EncodeMonotone(ReadGroups(s, 10).value.value % TWO64, ReadGroups(s, 10).value.value);
  }

  // ---- The loops ----

  /** encodeVarint*: writes the varint so that it ends just before `offset`; returns where it starts. */
  method PutVarint(dAtA: array<byte>, offset: nat, v: uint64) returns (base: nat)
    requires Sov(v) <= offset <= dAtA.Length
    modifies dAtA
    ensures base == offset - Sov(v) && Sov(v) == |EncodeVarint(v)|
    ensures dAtA[..] == Splice(old(dAtA[..]), base, EncodeVarint(v))
  {
    hide Splice, EncodeVarint, Sov;
    SovIsLength(v);
    base := offset - Sov(v);
    var at, x := base, v;
    ghost var before := dAtA[..];
    ghost var code := EncodeVarint(v);
    while x >= 128
      invariant base <= at < offset
      invariant code[at - base..] == EncodeVarint(x)
      invariant forall k :: 0 <= k < dAtA.Length ==>
                  dAtA[k] == if base <= k < at then code[k - base] else before[k]
      decreases x
    {
      EncodeUnfold(x);
      dAtA[at] := 128 + x % 128;
      assert code[at - base] == EncodeVarint(x)[0];
      assert code[at + 1 - base..] == EncodeVarint(x)[1..];
      x := x / 128;
      at := at + 1;
    }
    EncodeUnfold(x);
    assert code[at - base] == EncodeVarint(x)[0];
    assert |code[at - base..]| == 1;
    dAtA[at] := x;
    SpliceByElements(before, dAtA[..], base, code);
  }

  lemma EncodeUnfold(v: nat)
    ensures v < 128 ==> EncodeVarint(v) == [v]
    ensures v >= 128 ==> EncodeVarint(v) == [128 + v % 128] + EncodeVarint(v / 128)
  {
  }

  /**
    The loop `for shift := uint(0); ; shift += 7`. Group `b & 0x7F` is shifted to bits that
    are still zero, so the bitwise or is an addition; bits shifted past bit 63 are lost.
    `weight` is two to the power `shift`.
   */
  method GetVarint(dAtA: Bytes, start: nat) returns (r: Result<Read>)
    requires start <= |dAtA|
    ensures r == ReadVarint(dAtA[start..])
  {
    var value: uint64, weight: nat, shift: nat, i: nat := 0, 1, 0, start;
    while true
      invariant start <= i <= |dAtA| && shift == 7 * (i - start) && shift <= 70
      invariant ReadVarint(dAtA[start..]) == Resume(value, weight, dAtA[i..], 10 - (i - start), i - start)
      decreases 70 - shift
    {
      if shift >= 64 { return Err(IntOverflow); }
      if i >= |dAtA| { return Err(UnexpectedEOF); }
      var b := dAtA[i];
      assert dAtA[i..][1..] == dAtA[i + 1..];
      ResumeStep(value, weight, dAtA[i..], 10 - (i - start), i - start);
      i := i + 1;
      value := (value + weight * (b % 128)) % TWO64;
      if b < 128 {
        return Ok(Read(value, i - start));
      }
      weight := weight * 128;
      shift := shift + 7;
    }
  }

  /** What the decode loop still has to return once `done` bytes have been accumulated in `value`. */
  ghost function Resume(value: nat, weight: nat, s: Bytes, k: nat, done: nat): Result<Read>
  {
    match ReadGroups(s, k)
    case Err(e) => Err(e)
    case Ok(g) => Ok(Read((value + weight * g.value) % TWO64, done + g.size))
  }

  lemma ResumeStep(value: nat, weight: nat, s: Bytes, k: nat, done: nat)
    requires s != [] && k > 0
    ensures Resume(value, weight, s, k, done)
         == if s[0] < 128 then Ok(Read((value + weight * (s[0] % 128)) % TWO64, done + 1))
            else Resume((value + weight * (s[0] % 128)) % TWO64, weight * 128, s[1..], k - 1, done + 1)
  {
    var tail := ReadGroups(s[1..], k - 1);
    if s[0] >= 128 && tail.Ok? {
      Accumulate(value, weight, s[0] - 128, tail.value.value);
    }
  }

  lemma Accumulate(value: nat, weight: nat, group: nat, tail: nat)
    ensures (value + weight * (group + 128 * tail)) % TWO64
         == ((value + weight * group) % TWO64 + weight * 128 * tail) % TWO64
  {
    var low := value + weight * group;
    assert value + weight * (group + 128 * tail) == low + weight * 128 * tail;
    ModAdd(low, weight * 128 * tail);
  }

  lemma ModAdd(a: nat, b: nat)
    ensures (a + b) % TWO64 == (a % TWO64 + b) % TWO64
  {
    assert a == TWO64 * (a / TWO64) + a % TWO64;
  }
}
