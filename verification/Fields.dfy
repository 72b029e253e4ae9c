/**
  Canonical encodings of lists of fields, decoding as a fold over the scanned fields, and
  the back-to-front writers of a single field. Shared by every message of the module.
 */
module Fields {
  import opened Machine
  import opened Varint
  import opened Wire

  // ---- Canonical encodings ----

  predicate Canonical(schema: Schema, f: Field)
  {
    0 < f.num < 16 && f.num in schema &&
    match f
    case VarintField(num, v) => schema[num] == VarintKind
    case BytesField(num, b) => schema[num] == BytesKind
  }

  function EncodeField(f: Field): Bytes
  {
    match f
    case VarintField(num, v) => EncodeTag(num, VARINT) + EncodeVarint(v)
    case BytesField(num, b) => EncodeTag(num, BYTES) + (EncodeVarint(|b|) + b)
  }

  function EncodeFields(fs: seq<Field>): Bytes
  {
    if fs == [] then [] else EncodeField(fs[0]) + EncodeFields(fs[1..])
  }

  lemma ReadEncodedField(schema: Schema, f: Field, rest: Bytes, at: nat)
    requires Canonical(schema, f) && at + |EncodeField(f)| < TWO63
    ensures ReadField(schema, EncodeField(f) + rest, at) == Ok(Step(|EncodeField(f)|, Some(f)))
  {
    hide ReadVarint, EncodeVarint, EncodeTag, SkipUnknown;
    match f
    case VarintField(num, v) =>
      assert EncodeField(f) + rest == EncodeTag(num, VARINT) + (EncodeVarint(v) + rest);
      TagRoundTrip(num, VARINT, EncodeVarint(v) + rest);
      VarintRoundTrip(v, rest);
      SovIsLength(v);
    case BytesField(num, b) =>
      assert EncodeField(f) + rest == EncodeTag(num, BYTES) + (EncodeVarint(|b|) + b + rest);
      TagRoundTrip(num, BYTES, EncodeVarint(|b|) + b + rest);
      ReadEncodedPayload(b, rest, at + |EncodeTag(num, BYTES)|);
  }

  lemma ReadEncodedPayload(b: Slice, rest: Bytes, at: nat)
    requires at + |EncodeVarint(|b|)| + |b| < TWO63
    ensures ReadPayload(EncodeVarint(|b|) + b + rest, at) == Ok(Payload(b, |EncodeVarint(|b|)| + |b|))
  {
    hide ReadVarint, EncodeVarint;
    var n := |EncodeVarint(|b|)|;
    assert EncodeVarint(|b|) + b + rest == EncodeVarint(|b|) + (b + rest);
    VarintRoundTrip(|b|, b + rest);
    SovIsLength(|b|);
    assert (EncodeVarint(|b|) + (b + rest))[n..n + |b|] == b;
  }

  /** Scanning the encoding of any list of canonical fields gives the list back. */
  lemma {:induction false} ScanEncoded(schema: Schema, fs: seq<Field>, at: nat)
    requires forall f :: f in fs ==> Canonical(schema, f)
    requires at + |EncodeFields(fs)| < TWO63
    ensures Scan(schema, EncodeFields(fs), at) == Scanned(fs, None)
    decreases |fs|
  {
    hide Scan, ReadField, EncodeField;
    if fs == [] {
      ScanEmpty(schema, at);
    } else {
      var head, tail := EncodeField(fs[0]), EncodeFields(fs[1..]);
      ReadEncodedField(schema, fs[0], tail, at);
      ScanUnfold(schema, head + tail, at);
      assert (head + tail)[|head|..] == tail;
      ScanEncoded(schema, fs[1..], at + |head|);
      assert fs == [fs[0]] + fs[1..];
    }
  }

  lemma {:induction false} EncodeFieldsConcat(a: seq<Field>, b: seq<Field>)
    ensures EncodeFields(a + b) == EncodeFields(a) + EncodeFields(b)
  {
    if a == [] {
      assert a + b == b;
    } else {
      assert (a + b)[1..] == a[1..] + b;
      EncodeFieldsConcat(a[1..], b);
    }
  }

  // ---- Decoding as a fold ----

  /** Fields are applied in the order they arrive, so for a scalar the last one wins. */
  function Fold<M>(merge: (M, Field) -> M, m: M, fs: seq<Field>): M
    decreases |fs|
  {
    if fs == [] then m else Fold(merge, merge(m, fs[0]), fs[1..])
  }

  lemma {:induction false} FoldConcat<M>(merge: (M, Field) -> M, m: M, a: seq<Field>, b: seq<Field>)
    ensures Fold(merge, m, a + b) == Fold(merge, Fold(merge, m, a), b)
    decreases |a|
  {
    if a == [] {
      assert a + b == b;
    } else {
      assert (a + b)[1..] == a[1..] + b;
      FoldConcat(merge, merge(m, a[0]), a[1..], b);
    }
  }

  /** Unmarshal of the bytes `s`, which start at index `at` of the buffer, into the message `m`. */
  function DecodeFrom<M>(schema: Schema, merge: (M, Field) -> M, m: M, s: Bytes, at: nat): Result<M>
  {
    var scanned := Scan(schema, s, at);
    if scanned.error.Some? then Err(scanned.error.value) else Ok(Fold(merge, m, scanned.fields))
  }

  function Decode<M>(schema: Schema, merge: (M, Field) -> M, m: M, s: Bytes): Result<M>
  {
    DecodeFrom(schema, merge, m, s, 0)
  }

  lemma DecodeUnfold<M>(schema: Schema, merge: (M, Field) -> M, m: M, s: Bytes, at: nat)
    requires s != []
    ensures ReadField(schema, s, at).Err? ==> DecodeFrom(schema, merge, m, s, at) == Err(ReadField(schema, s, at).error)
    ensures ReadField(schema, s, at).Ok? ==>
              DecodeFrom(schema, merge, m, s, at) == DecodePast(schema, merge, m, s, at, ReadField(schema, s, at).value)
  {
    hide Scan, ReadField;
    ScanUnfold(schema, s, at);
    if ReadField(schema, s, at).Ok? {
      var step := ReadField(schema, s, at).value;
      FoldConcat(merge, m, Known(step.field), Scan(schema, s[step.size..], at + step.size).fields);
      if step.field.Some? {
        assert Fold(merge, m, [step.field.value]) == Fold(merge, merge(m, step.field.value), []);
      }
    }
  }

  ghost function DecodePast<M>(schema: Schema, merge: (M, Field) -> M, m: M, s: Bytes, at: nat, step: Step): Result<M>
    requires step.size <= |s|
  {
    var m' := if step.field.Some? then merge(m, step.field.value) else m;
    DecodeFrom(schema, merge, m', s[step.size..], at + step.size)
  }

  lemma DecodeEnd<M>(schema: Schema, merge: (M, Field) -> M, m: M, at: nat)
    ensures DecodeFrom(schema, merge, m, [], at) == Ok(m)
  {
    ScanEmpty(schema, at);
  }

  predicate AgreeOnSuccess<M(==)>(a: Result<M>, b: Result<M>)
  {
    (a.Ok? <==> b.Ok?) && (a.Ok? ==> a == b)
  }

  /** Decoding two concatenated encodings is decoding the second into the result of the first. */
  lemma DecodeConcat<M>(schema: Schema, merge: (M, Field) -> M, m: M, a: Bytes, b: Bytes)
    requires |a| + |b| < TWO63
    requires Decode(schema, merge, m, a).Ok?
    ensures AgreeOnSuccess(Decode(schema, merge, m, a + b), Decode(schema, merge, Decode(schema, merge, m, a).value, b))
  {
    hide Scan;
    ScanConcat(schema, a, b, 0);
    ScanAnywhere(schema, b, |a|, 0);
    FoldConcat(merge, m, Scan(schema, a, 0).fields, Scan(schema, b, |a|).fields);
  }

  /** An unknown field inserted at any field boundary leaves the decoded message unchanged. */
  lemma DecodeIgnoresUnknown<M>(schema: Schema, merge: (M, Field) -> M, m: M, a: Bytes, e: Element, b: Bytes)
    requires |a| + |EncodeElement(e)| + |b| < TWO63
    requires Decode(schema, merge, m, a).Ok?
    requires WellFormed(e) && e.num !in schema
    ensures AgreeOnSuccess(Decode(schema, merge, m, a + EncodeElement(e) + b), Decode(schema, merge, m, a + b))
  {
    hide Scan, EncodeElement;
    ElementIsUnknownField(schema, e);
    UnknownFieldIgnored(schema, a, EncodeElement(e), b);
  }

  /** Decoding an encoding applies exactly the encoded fields. */
  lemma DecodeEncoded<M>(schema: Schema, merge: (M, Field) -> M, m: M, fs: seq<Field>)
    requires forall f :: f in fs ==> Canonical(schema, f)
    requires |EncodeFields(fs)| < TWO63
    ensures Decode(schema, merge, m, EncodeFields(fs)) == Ok(Fold(merge, m, fs))
  {
    hide Scan, EncodeFields;
    ScanEncoded(schema, fs, 0);
  }

  // ---- Optional fields ----

  function BytesIfSet(num: nat, b: Slice): seq<Field>
  {
    if b == [] then [] else [BytesField(num, b)]
  }

  function VarintIfSet(num: nat, v: uint64): seq<Field>
  {
    if v == 0 then [] else [VarintField(num, v)]
  }

  function BytesSize(b: Slice): nat
  {
    if |b| > 0 then 1 + |b| + Sov(|b|) else 0
  }

  function VarintSize(v: uint64): nat
  {
    if v != 0 then 1 + Sov(v) else 0
  }

  lemma BytesIfSetFacts<M>(merge: (M, Field) -> M, m: M, num: nat, b: Slice)
    requires 0 < num < 16
    ensures |EncodeFields(BytesIfSet(num, b))| == BytesSize(b)
    ensures b != [] ==> EncodeFields(BytesIfSet(num, b)) == [num * 8 + 2] + (EncodeVarint(|b|) + b)
    ensures Fold(merge, m, BytesIfSet(num, b)) == if b == [] then m else merge(m, BytesField(num, b))
  {
    SovIsLength(|b|);
    if b != [] {
      var fs := BytesIfSet(num, b);
      assert fs[1..] == [];
      assert EncodeFields(fs) == EncodeField(fs[0]) + [];
    }
  }

  lemma VarintIfSetFacts<M>(merge: (M, Field) -> M, m: M, num: nat, v: uint64)
    requires 0 < num < 16
    ensures |EncodeFields(VarintIfSet(num, v))| == VarintSize(v)
    ensures v != 0 ==> EncodeFields(VarintIfSet(num, v)) == [num * 8] + EncodeVarint(v)
    ensures Fold(merge, m, VarintIfSet(num, v)) == if v == 0 then m else merge(m, VarintField(num, v))
  {
    SovIsLength(v);
    if v != 0 {
      var fs := VarintIfSet(num, v);
      assert fs[1..] == [];
      assert EncodeFields(fs) == EncodeField(fs[0]) + [];
    }
  }

  /** A byte field behind its tag and length, or nothing. */
  function Framed(tag: byte, b: Slice): Bytes
  {
    if b == [] then [] else [tag] + EncodeVarint(|b|) + b
  }

  /** A number behind its tag, or nothing for zero. */
  function Numbered(tag: byte, v: uint64): Bytes
  {
    if v == 0 then [] else [tag] + EncodeVarint(v)
  }

  lemma FramedIs(num: nat, b: Slice)
    requires 0 < num < 16
    ensures EncodeFields(BytesIfSet(num, b)) == Framed(num * 8 + 2, b)
  {
    hide EncodeVarint, Sov;
    BytesIfSetFacts((m: nat, f) => m, 0, num, b);
    if b != [] {
      assert [num * 8 + 2] + (EncodeVarint(|b|) + b) == [num * 8 + 2] + EncodeVarint(|b|) + b;
    }
  }

  lemma NumberedIs(num: nat, v: uint64)
    requires 0 < num < 16
    ensures EncodeFields(VarintIfSet(num, v)) == Numbered(num * 8, v)
  {
    hide EncodeVarint, Sov;
    VarintIfSetFacts((m: nat, f) => m, 0, num, v);
  }

  // ---- Writing a field from back to front ----

  /** Go's built-in copy. */
  method Copy(dAtA: array<byte>, i: nat, b: Bytes)
    requires i + |b| <= dAtA.Length
    modifies dAtA
    ensures dAtA[..] == Splice(old(dAtA[..]), i, b)
  {
    forall k | 0 <= k < |b| {
      dAtA[i + k] := b[k];
    }
  }

  method PutTag(dAtA: array<byte>, end: nat, num: nat, wireType: nat) returns (i: nat)
    requires num * 8 + wireType < 128 && 0 < end <= dAtA.Length
    modifies dAtA
    ensures i == end - 1
    ensures dAtA[..] == Splice(old(dAtA[..]), i, [num * 8 + wireType])
  {
    i := end - 1;
    dAtA[i] := num * 8 + wireType;
  }

  method PutBytes(dAtA: array<byte>, end: nat, num: nat, b: Slice) returns (i: nat)
    requires 0 < num < 16
    requires BytesSize(b) <= end <= dAtA.Length
    modifies dAtA
    ensures i == end - BytesSize(b) && BytesSize(b) == |EncodeFields(BytesIfSet(num, b))|
    ensures dAtA[..] == Splice(old(dAtA[..]), i, EncodeFields(BytesIfSet(num, b)))
    ensures EncodeFields(BytesIfSet(num, b)) == Framed(num * 8 + 2, b)
  {
    FramedIs(num, b);
    hide EncodeFields, EncodeVarint, Splice, Sov, Fold, Framed, Numbered;
    BytesIfSetFacts((m: nat, f) => m, 0, num, b);
    i := end;
    if |b| > 0 {
      i := i - |b|;
      Copy(dAtA, i, b);
      SpliceInFront(old(dAtA[..]), i, b, EncodeVarint(|b|));
      i := PutVarint(dAtA, i, |b|);
      SpliceInFront(old(dAtA[..]), i, EncodeVarint(|b|) + b, [num * 8 + BYTES]);
      i := PutTag(dAtA, i, num, BYTES);
    } else {
      SpliceNothing(dAtA[..], i);
    }
  }

  lemma SpliceNothing(a: Bytes, i: nat)
    requires i <= |a|
    ensures Splice(a, i, EncodeFields([])) == a
  {
  }

  method PutUint64(dAtA: array<byte>, end: nat, num: nat, v: uint64) returns (i: nat)
    requires 0 < num < 16
    requires VarintSize(v) <= end <= dAtA.Length
    modifies dAtA
    ensures i == end - VarintSize(v) && VarintSize(v) == |EncodeFields(VarintIfSet(num, v))|
    ensures dAtA[..] == Splice(old(dAtA[..]), i, EncodeFields(VarintIfSet(num, v)))
    ensures EncodeFields(VarintIfSet(num, v)) == Numbered(num * 8, v)
  {
    NumberedIs(num, v);
    hide EncodeFields, EncodeVarint, Splice, Sov, Fold, Framed, Numbered;
    VarintIfSetFacts((m: nat, f) => m, 0, num, v);
    i := end;
    if v != 0 {
      i := PutVarint(dAtA, i, v);
      SpliceInFront(old(dAtA[..]), i, EncodeVarint(v), [num * 8 + VARINT]);
      i := PutTag(dAtA, i, num, VARINT);
    } else {
      SpliceNothing(dAtA[..], i);
    }
  }
}
