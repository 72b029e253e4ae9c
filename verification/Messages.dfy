/**
  The messages of the schedule module: Size, MarshalToSizedBuffer, Marshal and Unmarshal
  as generated, each tied to the canonical encoding and to decoding as a fold.
  A nil byte slice and an empty one are the same value here, as they are on the wire.
 */
module Messages {
  import opened Machine
  import opened Varint
  import opened Wire
  import opened Fields

  // ---- ScheduledCall ----

  datatype ScheduledCall = ScheduledCall(callBody: Slice)

  const CALL_SCHEMA: Schema := map[1 := BytesKind]

  function MergeCall(m: ScheduledCall, f: Field): ScheduledCall
  {
    match f
    case BytesField(1, b) => ScheduledCall(b)
    case _ => m
  }

  function CallFields(m: ScheduledCall): seq<Field>
  {
    BytesIfSet(1, m.callBody)
  }

  function EncodeCall(m: ScheduledCall): Bytes
  {
    EncodeFields(CallFields(m))
  }

  function CallSize(m: ScheduledCall): nat
  {
    BytesSize(m.callBody)
  }

  /** ScheduledCall: its one field behind 0x0a. */
  lemma CallLayout(m: ScheduledCall)
    ensures EncodeCall(m) == Framed(0x0a, m.callBody)
  {
    FramedIs(1, m.callBody);
  }

  /** Unmarshal into a fresh ScheduledCall. */
  function DecodeCall(s: Bytes): Result<ScheduledCall>
  {
    Decode(CALL_SCHEMA, MergeCall, ScheduledCall([]), s)
  }

  lemma CallRoundTrip(m: ScheduledCall)
    ensures |EncodeCall(m)| == CallSize(m)
    ensures CallSize(m) < TWO63 ==> DecodeCall(EncodeCall(m)) == Ok(m)
  {
    BytesIfSetFacts(MergeCall, ScheduledCall([]), 1, m.callBody);
    if CallSize(m) < TWO63 {
      DecodeEncoded(CALL_SCHEMA, MergeCall, ScheduledCall([]), CallFields(m));
    }
  }

  /** Two concatenated encodings: the last one wins, unless it says nothing. */
  lemma CallLastOneWins(m: ScheduledCall, m': ScheduledCall)
    requires CallSize(m) + CallSize(m') < TWO63
    ensures DecodeCall(EncodeCall(m) + EncodeCall(m')) == Ok(if m'.callBody == [] then m else m')
  {
    hide Scan, EncodeFields;
    CallRoundTrip(m);
    CallRoundTrip(m');
    DecodeConcat(CALL_SCHEMA, MergeCall, ScheduledCall([]), EncodeCall(m), EncodeCall(m'));
    BytesIfSetFacts(MergeCall, m, 1, m'.callBody);
    DecodeEncoded(CALL_SCHEMA, MergeCall, m, CallFields(m'));
  }

  method MarshalCallToSizedBuffer(m: ScheduledCall, dAtA: array<byte>, end: nat) returns (n: nat)
    requires CallSize(m) <= end <= dAtA.Length
    modifies dAtA
    ensures n == CallSize(m) == |EncodeCall(m)|
    ensures dAtA[..] == Splice(old(dAtA[..]), end - n, EncodeCall(m))
    ensures EncodeCall(m) == Framed(0x0a, m.callBody)
  {
    CallLayout(m);
    var i := PutBytes(dAtA, end, 1, m.callBody);
    return end - i;
  }

  method MarshalCall(m: ScheduledCall) returns (dAtA: Bytes)
    ensures dAtA == EncodeCall(m)
  {
    var buffer := new byte[CallSize(m)];
    var n := MarshalCallToSizedBuffer(m, buffer, buffer.Length);
    return buffer[..n];
  }

  method UnmarshalCall(m0: ScheduledCall, dAtA: Slice) returns (r: Result<ScheduledCall>)
    ensures r == Decode(CALL_SCHEMA, MergeCall, m0, dAtA)
  {
    hide ReadTag, ReadPayload, SkipUnknown, DecodeFrom;
    var m, i := m0, 0;
    assert dAtA[0..] == dAtA;
    while i < |dAtA|
      invariant 0 <= i <= |dAtA|
      invariant Decode(CALL_SCHEMA, MergeCall, m0, dAtA) == DecodeFrom(CALL_SCHEMA, MergeCall, m, dAtA[i..], i)
    {
      DecodeUnfold(CALL_SCHEMA, MergeCall, m, dAtA[i..], i);
      ghost var start := i;
      var tag := GetTag(dAtA, i);
      if tag.Err? { return Err(tag.error); }
      if tag.value.num == 1 {
        if tag.value.wireType != BYTES { return Err(WrongWireType); }
        i := i + tag.value.size;
        assert dAtA[start..][tag.value.size..] == dAtA[i..];
        var payload := GetPayload(dAtA, i);
        if payload.Err? { return Err(payload.error); }
        m := ScheduledCall(payload.value.bytes);
        i := i + payload.value.size;
      } else {
        var skippy := GetUnknown(dAtA, i);
        if skippy.Err? { return Err(skippy.error); }
        i := i + skippy.value;
      }
      assert dAtA[start..][i - start..] == dAtA[i..];
    }
    assert dAtA[i..] == [];
    DecodeEnd(CALL_SCHEMA, MergeCall, m, |dAtA|);
    return Ok(m);
  }

  /** A call body whose encoding is itself a slice, as a body received in a message always is. */
  type Body = b: Slice | CallSize(ScheduledCall(b)) < TWO63

  lemma ReadPayloadBound(schema: Schema, s: Bytes, at: nat)
    ensures ReadField(schema, s, at).Ok? && ReadField(schema, s, at).value.field.Some?
            && ReadField(schema, s, at).value.field.value.BytesField? ==>
              BytesSize(ReadField(schema, s, at).value.field.value.bytes) <= ReadField(schema, s, at).value.size
  {
    hide SkipUnknown, ReadVarint, Sov, EncodeVarint;
    if ReadTag(s).Ok? {
      var n := ReadTag(s).value.size;
      if ReadVarint(s[n..]).Ok? {
        EncodingIsShortest(s[n..]);
        SovIsLength(ReadVarint(s[n..]).value.value);
      }
    }
  }

  lemma {:induction false} ScanBound(schema: Schema, s: Bytes, at: nat)
    ensures forall f :: f in Scan(schema, s, at).fields && f.BytesField? ==> BytesSize(f.bytes) <= |s|
    decreases |s|
  {
    hide ReadField, BytesSize;
    if s != [] && ReadField(schema, s, at).Ok? {
      var step := ReadField(schema, s, at).value;
      ReadPayloadBound(schema, s, at);
      ScanBound(schema, s[step.size..], at + step.size);
    }
  }

  lemma {:induction false} FoldCallBound(m: ScheduledCall, fs: seq<Field>, n: nat)
    requires CallSize(m) <= n && forall f :: f in fs && f.BytesField? ==> BytesSize(f.bytes) <= n
    ensures CallSize(Fold(MergeCall, m, fs)) <= n
    decreases |fs|
  {
    hide BytesSize;
    if fs != [] {
      FoldCallBound(MergeCall(m, fs[0]), fs[1..], n);
    }
  }

  /** Marshalling a decoded call again takes no more bytes than it was decoded from. */
  lemma DecodeCallBound(s: Bytes)
    ensures DecodeCall(s).Ok? ==> CallSize(DecodeCall(s).value) <= |s|
  {
    hide Scan;
    ScanBound(CALL_SCHEMA, s, 0);
    FoldCallBound(ScheduledCall([]), Scan(CALL_SCHEMA, s, 0).fields, |s|);
  }

  // ---- MsgAddSchedule ----

  datatype MsgAddSchedule = MsgAddSchedule(signer: Slice, contract: Slice, callBody: Slice, blockHeight: uint64)

  const ADD_SCHEMA: Schema := map[1 := BytesKind, 2 := BytesKind, 3 := BytesKind, 5 := VarintKind]

  function MergeAdd(m: MsgAddSchedule, f: Field): MsgAddSchedule
  {
    match f
    case BytesField(1, b) => m.(signer := b)
    case BytesField(2, b) => m.(contract := b)
    case BytesField(3, b) => m.(callBody := b)
    case VarintField(5, v) => m.(blockHeight := v)
    case _ => m
  }

  function AddFields(m: MsgAddSchedule): seq<Field>
  {
    BytesIfSet(1, m.signer) + (BytesIfSet(2, m.contract) + (BytesIfSet(3, m.callBody) + VarintIfSet(5, m.blockHeight)))
  }

  function EncodeAdd(m: MsgAddSchedule): Bytes
  {
    EncodeFields(AddFields(m))
  }

  function AddSize(m: MsgAddSchedule): nat
  {
    BytesSize(m.signer) + BytesSize(m.contract) + BytesSize(m.callBody) + VarintSize(m.blockHeight)
  }

  function DecodeAdd(s: Bytes): Result<MsgAddSchedule>
  {
    Decode(ADD_SCHEMA, MergeAdd, MsgAddSchedule([], [], [], 0), s)
  }

  lemma EncodeAddParts(m: MsgAddSchedule)
    ensures EncodeAdd(m) == EncodeFields(BytesIfSet(1, m.signer)) + (EncodeFields(BytesIfSet(2, m.contract))
                            + (EncodeFields(BytesIfSet(3, m.callBody)) + EncodeFields(VarintIfSet(5, m.blockHeight))))
  {
    hide EncodeFields, BytesIfSet, VarintIfSet;
    var f1, f2 := BytesIfSet(1, m.signer), BytesIfSet(2, m.contract);
    var f3, f5 := BytesIfSet(3, m.callBody), VarintIfSet(5, m.blockHeight);
    EncodeFieldsConcat(f1, f2 + (f3 + f5));
    EncodeFieldsConcat(f2, f3 + f5);
    EncodeFieldsConcat(f3, f5);
  }

  /** MsgAddSchedule: signer, contract, body and height, in that order. */
  lemma AddLayout(m: MsgAddSchedule)
    ensures EncodeAdd(m) == Framed(0x0a, m.signer) + Framed(0x12, m.contract) + Framed(0x1a, m.callBody)
                            + Numbered(0x28, m.blockHeight)
  {
    hide EncodeFields, EncodeAdd, Framed, Numbered;
    EncodeAddParts(m);
    FramedIs(1, m.signer);
    FramedIs(2, m.contract);
    FramedIs(3, m.callBody);
    NumberedIs(5, m.blockHeight);
  }

  lemma FoldAdd(m: MsgAddSchedule)
    ensures Fold(MergeAdd, MsgAddSchedule([], [], [], 0), AddFields(m)) == m
  {
    hide Fold, BytesIfSet, VarintIfSet, EncodeFields;
    var f1, f2 := BytesIfSet(1, m.signer), BytesIfSet(2, m.contract);
    var f3, f5 := BytesIfSet(3, m.callBody), VarintIfSet(5, m.blockHeight);
    var m0 := MsgAddSchedule([], [], [], 0);
    var m1 := m0.(signer := m.signer);
    var m2 := m1.(contract := m.contract);
    var m3 := m2.(callBody := m.callBody);
    FoldConcat(MergeAdd, m0, f1, f2 + (f3 + f5));
    BytesIfSetFacts(MergeAdd, m0, 1, m.signer);
    FoldConcat(MergeAdd, m1, f2, f3 + f5);
    BytesIfSetFacts(MergeAdd, m1, 2, m.contract);
    FoldConcat(MergeAdd, m2, f3, f5);
    BytesIfSetFacts(MergeAdd, m2, 3, m.callBody);
    VarintIfSetFacts(MergeAdd, m3, 5, m.blockHeight);
  }

  lemma AddRoundTrip(m: MsgAddSchedule)
    ensures |EncodeAdd(m)| == AddSize(m)
    ensures AddSize(m) < TWO63 ==> DecodeAdd(EncodeAdd(m)) == Ok(m)
  {
    hide EncodeFields, Fold, DecodeFrom;
    EncodeAddParts(m);
    BytesIfSetFacts(MergeAdd, m, 1, m.signer);
    BytesIfSetFacts(MergeAdd, m, 2, m.contract);
    BytesIfSetFacts(MergeAdd, m, 3, m.callBody);
    VarintIfSetFacts(MergeAdd, m, 5, m.blockHeight);
    if AddSize(m) < TWO63 {
      FoldAdd(m);
      DecodeEncoded(ADD_SCHEMA, MergeAdd, MsgAddSchedule([], [], [], 0), AddFields(m));
    }
  }

  method MarshalAddToSizedBuffer(m: MsgAddSchedule, dAtA: array<byte>, end: nat) returns (n: nat)
    requires AddSize(m) <= end <= dAtA.Length
    modifies dAtA
    ensures n == AddSize(m) == |EncodeAdd(m)|
    ensures dAtA[..] == Splice(old(dAtA[..]), end - n, EncodeAdd(m))
    ensures EncodeAdd(m) == Framed(0x0a, m.signer) + Framed(0x12, m.contract) + Framed(0x1a, m.callBody)
                            + Numbered(0x28, m.blockHeight)
  {
    AddLayout(m);
    hide EncodeFields, BytesIfSet, VarintIfSet, Splice, BytesSize, VarintSize, Framed, Numbered;
    ghost var before := dAtA[..];
    ghost var e1, e2, e3, e5 := EncodeFields(BytesIfSet(1, m.signer)), EncodeFields(BytesIfSet(2, m.contract)),
                                EncodeFields(BytesIfSet(3, m.callBody)), EncodeFields(VarintIfSet(5, m.blockHeight));
    EncodeAddParts(m);
    var i := PutUint64(dAtA, end, 5, m.blockHeight);
    ghost var i5 := i;
    i := PutBytes(dAtA, i, 3, m.callBody);
    SpliceInFront(before, i5, e5, e3);
    ghost var i3 := i;
    i := PutBytes(dAtA, i, 2, m.contract);
    SpliceInFront(before, i3, e3 + e5, e2);
    ghost var i2 := i;
    i := PutBytes(dAtA, i, 1, m.signer);
    SpliceInFront(before, i2, e2 + (e3 + e5), e1);
    return end - i;
  }

  method MarshalAdd(m: MsgAddSchedule) returns (dAtA: Bytes)
    ensures dAtA == EncodeAdd(m)
  {
    var buffer := new byte[AddSize(m)];
    var n := MarshalAddToSizedBuffer(m, buffer, buffer.Length);
    return buffer[..n];
  }

  method UnmarshalAdd(m0: MsgAddSchedule, dAtA: Slice) returns (r: Result<MsgAddSchedule>)
    ensures r == Decode(ADD_SCHEMA, MergeAdd, m0, dAtA)
  {
    hide ReadTag, ReadPayload, ReadVarint, SkipUnknown, DecodeFrom;
    var m, i := m0, 0;
    assert dAtA[0..] == dAtA;
    while i < |dAtA|
      invariant 0 <= i <= |dAtA|
      invariant Decode(ADD_SCHEMA, MergeAdd, m0, dAtA) == DecodeFrom(ADD_SCHEMA, MergeAdd, m, dAtA[i..], i)
    {
      DecodeUnfold(ADD_SCHEMA, MergeAdd, m, dAtA[i..], i);
      ghost var start := i;
      var tag := GetTag(dAtA, i);
      if tag.Err? { return Err(tag.error); }
      var num := tag.value.num;
      if num == 1 || num == 2 || num == 3 {
        if tag.value.wireType != BYTES { return Err(WrongWireType); }
        i := i + tag.value.size;
        assert dAtA[start..][tag.value.size..] == dAtA[i..];
        var payload := GetPayload(dAtA, i);
        if payload.Err? { return Err(payload.error); }
        if num == 1 {
          m := m.(signer := payload.value.bytes);
        } else if num == 2 {
          m := m.(contract := payload.value.bytes);
        } else {
          m := m.(callBody := payload.value.bytes);
        }
        i := i + payload.value.size;
      } else if num == 5 {
        if tag.value.wireType != VARINT { return Err(WrongWireType); }
        i := i + tag.value.size;
        assert dAtA[start..][tag.value.size..] == dAtA[i..];
        var v := GetVarint(dAtA, i);
        if v.Err? { return Err(v.error); }
        m := m.(blockHeight := v.value.value);
        i := i + v.value.size;
      } else {
        var skippy := GetUnknown(dAtA, i);
        if skippy.Err? { return Err(skippy.error); }
        i := i + skippy.value;
      }
      assert dAtA[start..][i - start..] == dAtA[i..];
    }
    assert dAtA[i..] == [];
    DecodeEnd(ADD_SCHEMA, MergeAdd, m, |dAtA|);
    return Ok(m);
  }

  // ---- QueryScheduledCall ----

  datatype QueryScheduledCall = QueryScheduledCall(contract: Slice, callBody: Slice, height: uint64, signer: Slice)

  const NO_CALL := QueryScheduledCall([], [], 0, [])

  const QUERY_SCHEMA: Schema := map[1 := BytesKind, 2 := BytesKind, 3 := VarintKind, 4 := BytesKind]

  function MergeQuery(m: QueryScheduledCall, f: Field): QueryScheduledCall
  {
    match f
    case BytesField(1, b) => m.(contract := b)
    case BytesField(2, b) => m.(callBody := b)
    case VarintField(3, v) => m.(height := v)
    case BytesField(4, b) => m.(signer := b)
    case _ => m
  }

  function QueryFields(m: QueryScheduledCall): seq<Field>
  {
    BytesIfSet(1, m.contract) + (BytesIfSet(2, m.callBody) + (VarintIfSet(3, m.height) + BytesIfSet(4, m.signer)))
  }

  function EncodeQuery(m: QueryScheduledCall): Bytes
  {
    EncodeFields(QueryFields(m))
  }

  function QuerySize(m: QueryScheduledCall): nat
  {
    BytesSize(m.contract) + BytesSize(m.callBody) + VarintSize(m.height) + BytesSize(m.signer)
  }

  function DecodeQuery(s: Bytes): Result<QueryScheduledCall>
  {
    Decode(QUERY_SCHEMA, MergeQuery, NO_CALL, s)
  }

  lemma EncodeQueryParts(m: QueryScheduledCall)
    ensures EncodeQuery(m) == EncodeFields(BytesIfSet(1, m.contract)) + (EncodeFields(BytesIfSet(2, m.callBody))
                              + (EncodeFields(VarintIfSet(3, m.height)) + EncodeFields(BytesIfSet(4, m.signer))))
  {
    hide EncodeFields, BytesIfSet, VarintIfSet;
    var f1, f2 := BytesIfSet(1, m.contract), BytesIfSet(2, m.callBody);
    var f3, f4 := VarintIfSet(3, m.height), BytesIfSet(4, m.signer);
    EncodeFieldsConcat(f1, f2 + (f3 + f4));
    EncodeFieldsConcat(f2, f3 + f4);
    EncodeFieldsConcat(f3, f4);
  }

  /** QueryScheduledCall: contract, body, height and signer, in that order. */
  lemma QueryLayout(m: QueryScheduledCall)
    ensures EncodeQuery(m) == Framed(0x0a, m.contract) + Framed(0x12, m.callBody) + Numbered(0x18, m.height)
                              + Framed(0x22, m.signer)
  {
    hide EncodeFields, EncodeQuery, Framed, Numbered;
    EncodeQueryParts(m);
    FramedIs(1, m.contract);
    FramedIs(2, m.callBody);
    NumberedIs(3, m.height);
    FramedIs(4, m.signer);
  }

  lemma FoldQuery(m: QueryScheduledCall)
    ensures Fold(MergeQuery, NO_CALL, QueryFields(m)) == m
  {
    hide Fold, BytesIfSet, VarintIfSet, EncodeFields;
    var f1, f2 := BytesIfSet(1, m.contract), BytesIfSet(2, m.callBody);
    var f3, f4 := VarintIfSet(3, m.height), BytesIfSet(4, m.signer);
    var m1 := NO_CALL.(contract := m.contract);
    var m2 := m1.(callBody := m.callBody);
    var m3 := m2.(height := m.height);
    FoldConcat(MergeQuery, NO_CALL, f1, f2 + (f3 + f4));
    BytesIfSetFacts(MergeQuery, NO_CALL, 1, m.contract);
    FoldConcat(MergeQuery, m1, f2, f3 + f4);
    BytesIfSetFacts(MergeQuery, m1, 2, m.callBody);
    FoldConcat(MergeQuery, m2, f3, f4);
    VarintIfSetFacts(MergeQuery, m2, 3, m.height);
    BytesIfSetFacts(MergeQuery, m3, 4, m.signer);
  }

  lemma QueryRoundTrip(m: QueryScheduledCall)
    ensures |EncodeQuery(m)| == QuerySize(m)
    ensures QuerySize(m) < TWO63 ==> DecodeQuery(EncodeQuery(m)) == Ok(m)
  {
    hide EncodeFields, Fold, DecodeFrom;
    EncodeQueryParts(m);
    BytesIfSetFacts(MergeQuery, m, 1, m.contract);
    BytesIfSetFacts(MergeQuery, m, 2, m.callBody);
    VarintIfSetFacts(MergeQuery, m, 3, m.height);
    BytesIfSetFacts(MergeQuery, m, 4, m.signer);
    if QuerySize(m) < TWO63 {
      FoldQuery(m);
      DecodeEncoded(QUERY_SCHEMA, MergeQuery, NO_CALL, QueryFields(m));
    }
  }

  method MarshalQueryToSizedBuffer(m: QueryScheduledCall, dAtA: array<byte>, end: nat) returns (n: nat)
    requires QuerySize(m) <= end <= dAtA.Length
    modifies dAtA
    ensures n == QuerySize(m) == |EncodeQuery(m)|
    ensures dAtA[..] == Splice(old(dAtA[..]), end - n, EncodeQuery(m))
    ensures EncodeQuery(m) == Framed(0x0a, m.contract) + Framed(0x12, m.callBody) + Numbered(0x18, m.height)
                              + Framed(0x22, m.signer)
  {
    QueryLayout(m);
    hide EncodeFields, BytesIfSet, VarintIfSet, Splice, BytesSize, VarintSize, Framed, Numbered;
    ghost var before := dAtA[..];
    ghost var e1, e2, e3, e4 := EncodeFields(BytesIfSet(1, m.contract)), EncodeFields(BytesIfSet(2, m.callBody)),
                                EncodeFields(VarintIfSet(3, m.height)), EncodeFields(BytesIfSet(4, m.signer));
    EncodeQueryParts(m);
    var i := PutBytes(dAtA, end, 4, m.signer);
    ghost var i4 := i;
    i := PutUint64(dAtA, i, 3, m.height);
    SpliceInFront(before, i4, e4, e3);
    ghost var i3 := i;
    i := PutBytes(dAtA, i, 2, m.callBody);
    SpliceInFront(before, i3, e3 + e4, e2);
    ghost var i2 := i;
    i := PutBytes(dAtA, i, 1, m.contract);
    SpliceInFront(before, i2, e2 + (e3 + e4), e1);
    return end - i;
  }

  method UnmarshalQuery(m0: QueryScheduledCall, dAtA: Slice) returns (r: Result<QueryScheduledCall>)
    ensures r == Decode(QUERY_SCHEMA, MergeQuery, m0, dAtA)
  {
    hide ReadTag, ReadPayload, ReadVarint, SkipUnknown, DecodeFrom;
    var m, i := m0, 0;
    assert dAtA[0..] == dAtA;
    while i < |dAtA|
      invariant 0 <= i <= |dAtA|
      invariant Decode(QUERY_SCHEMA, MergeQuery, m0, dAtA) == DecodeFrom(QUERY_SCHEMA, MergeQuery, m, dAtA[i..], i)
    {
      DecodeUnfold(QUERY_SCHEMA, MergeQuery, m, dAtA[i..], i);
      ghost var start := i;
      var tag := GetTag(dAtA, i);
      if tag.Err? { return Err(tag.error); }
      var num := tag.value.num;
      if num == 1 || num == 2 || num == 4 {
        if tag.value.wireType != BYTES { return Err(WrongWireType); }
        i := i + tag.value.size;
        assert dAtA[start..][tag.value.size..] == dAtA[i..];
        var payload := GetPayload(dAtA, i);
        if payload.Err? { return Err(payload.error); }
        if num == 1 {
          m := m.(contract := payload.value.bytes);
        } else if num == 2 {
          m := m.(callBody := payload.value.bytes);
        } else {
          m := m.(signer := payload.value.bytes);
        }
        i := i + payload.value.size;
      } else if num == 3 {
        if tag.value.wireType != VARINT { return Err(WrongWireType); }
        i := i + tag.value.size;
        assert dAtA[start..][tag.value.size..] == dAtA[i..];
        var v := GetVarint(dAtA, i);
        if v.Err? { return Err(v.error); }
        m := m.(height := v.value.value);
        i := i + v.value.size;
      } else {
        var skippy := GetUnknown(dAtA, i);
        if skippy.Err? { return Err(skippy.error); }
        i := i + skippy.value;
      }
      assert dAtA[start..][i - start..] == dAtA[i..];
    }
    assert dAtA[i..] == [];
    DecodeEnd(QUERY_SCHEMA, MergeQuery, m, |dAtA|);
    return Ok(m);
  }

  // ---- QueryScheduledCallsResponse ----

  datatype QueryScheduledCallsResponse = QueryScheduledCallsResponse(calls: seq<QueryScheduledCall>)

  const RESPONSE_SCHEMA: Schema := map[1 := BytesKind]

  /** A nested message is itself a slice of the buffer. */
  predicate Nests(calls: seq<QueryScheduledCall>)
  {
    forall c :: c in calls ==> QuerySize(c) < TWO63
  }

  function NestedField(c: QueryScheduledCall): Field
    requires QuerySize(c) < TWO63
  {
    QueryRoundTrip(c);
    BytesField(1, EncodeQuery(c))
  }

  /** Unlike a scalar field, a repeated message is written even when it is empty. */
  function ResponseFields(calls: seq<QueryScheduledCall>): seq<Field>
    requires Nests(calls)
  {
    if calls == [] then [] else [NestedField(calls[0])] + ResponseFields(calls[1..])
  }

  function EncodeResponse(m: QueryScheduledCallsResponse): Bytes
    requires Nests(m.calls)
  {
    EncodeFields(ResponseFields(m.calls))
  }

  function CallsSize(calls: seq<QueryScheduledCall>): nat
    requires Nests(calls)
  {
    if calls == [] then 0 else 1 + QuerySize(calls[0]) + Sov(QuerySize(calls[0])) + CallsSize(calls[1..])
  }

  /** Each nested payload is appended to the calls already there. */
  function AppendCalls(calls: seq<QueryScheduledCall>, fs: seq<Field>): Result<seq<QueryScheduledCall>>
    decreases |fs|
  {
    if fs == [] then Ok(calls)
    else if !fs[0].BytesField? then AppendCalls(calls, fs[1..])
    else
      match DecodeQuery(fs[0].bytes)
      case Err(e) => Err(e)
      case Ok(c) => AppendCalls(calls + [c], fs[1..])
  }

  /** A nested error comes before any error the outer scan meets further on. */
  function DecodeResponseFrom(calls: seq<QueryScheduledCall>, s: Bytes, at: nat): Result<seq<QueryScheduledCall>>
  {
    var scanned := Scan(RESPONSE_SCHEMA, s, at);
    match AppendCalls(calls, scanned.fields)
    case Err(e) => Err(e)
    case Ok(all) => if scanned.error.Some? then Err(scanned.error.value) else Ok(all)
  }

  /** Unmarshal into `m`: the calls decoded are appended to those it has. */
  function DecodeResponse(m: QueryScheduledCallsResponse, s: Bytes): Result<QueryScheduledCallsResponse>
  {
    match DecodeResponseFrom(m.calls, s, 0)
    case Err(e) => Err(e)
    case Ok(calls) => Ok(QueryScheduledCallsResponse(calls))
  }

  lemma EncodeNested(c: QueryScheduledCall)
    requires QuerySize(c) < TWO63
    ensures EncodeField(NestedField(c)) == [0x0a] + (EncodeVarint(QuerySize(c)) + EncodeQuery(c))
    ensures |EncodeField(NestedField(c))| == 1 + QuerySize(c) + Sov(QuerySize(c))
    ensures |EncodeQuery(c)| == QuerySize(c)
  {
    hide EncodeQuery, QuerySize, DecodeQuery;
    QueryRoundTrip(c);
    SovIsLength(QuerySize(c));
  }

  /** QueryScheduledCallsResponse: each call behind 0x0a and its length, empty ones included. */
  lemma ResponseLayout(calls: seq<QueryScheduledCall>)
    requires Nests(calls)
    ensures calls == [] ==> EncodeResponse(QueryScheduledCallsResponse(calls)) == []
    ensures calls != [] ==>
              EncodeResponse(QueryScheduledCallsResponse(calls))
              == [0x0a] + EncodeVarint(|EncodeQuery(calls[0])|) + EncodeQuery(calls[0])
                 + EncodeResponse(QueryScheduledCallsResponse(calls[1..]))
  {
    hide EncodeQuery, QuerySize, EncodeVarint, EncodeField, DecodeQuery;
    if calls != [] {
      EncodeNested(calls[0]);
      var fs := ResponseFields(calls);
      assert fs[0] == NestedField(calls[0]) && fs[1..] == ResponseFields(calls[1..]);
      assert EncodeFields(fs) == EncodeField(fs[0]) + EncodeFields(fs[1..]);
    }
  }

  lemma {:induction false} AppendEncoded(calls: seq<QueryScheduledCall>, more: seq<QueryScheduledCall>)
    requires Nests(more)
    ensures AppendCalls(calls, ResponseFields(more)) == Ok(calls + more)
    ensures forall f :: f in ResponseFields(more) ==> Canonical(RESPONSE_SCHEMA, f)
    ensures |EncodeFields(ResponseFields(more))| == CallsSize(more)
    decreases |more|
  {
    hide DecodeQuery, EncodeQuery, QuerySize, EncodeField;
    if more == [] {
      assert calls + more == calls;
    } else {
      var c := more[0];
      QueryRoundTrip(c);
      EncodeNested(c);
      var fs := ResponseFields(more);
      assert fs[0] == NestedField(c) && fs[1..] == ResponseFields(more[1..]);
      AppendEncoded(calls + [c], more[1..]);
      assert calls + [c] + more[1..] == calls + more;
    }
  }

  /** The response decodes to the same calls, in the same order, whatever their number. */
  lemma ResponseRoundTrip(m: QueryScheduledCallsResponse)
    requires Nests(m.calls) && CallsSize(m.calls) < TWO63
    ensures |EncodeResponse(m)| == CallsSize(m.calls)
    ensures DecodeResponse(QueryScheduledCallsResponse([]), EncodeResponse(m)) == Ok(m)
  {
    hide Scan, EncodeFields, AppendCalls, ResponseFields, CallsSize, Canonical;
    AppendEncoded([], m.calls);
    ScanEncoded(RESPONSE_SCHEMA, ResponseFields(m.calls), 0);
    assert [] + m.calls == m.calls;
  }

  lemma {:induction false} CallsSizeSuffix(calls: seq<QueryScheduledCall>, k: nat)
    requires Nests(calls) && k <= |calls|
    ensures CallsSize(calls[k..]) <= CallsSize(calls)
    decreases k
  {
    if k == 0 {
      assert calls[k..] == calls;
    } else {
      assert calls[1..][k - 1..] == calls[k..];
      CallsSizeSuffix(calls[1..], k - 1);
    }
  }

  /** One more nested message in front of those already written. */
  lemma EncodeOneMore(calls: seq<QueryScheduledCall>, k: nat)
    requires Nests(calls) && 0 < k <= |calls|
    ensures EncodeFields(ResponseFields(calls[k - 1..]))
         == [0x0a] + (EncodeVarint(QuerySize(calls[k - 1]))
                               + (EncodeQuery(calls[k - 1]) + EncodeFields(ResponseFields(calls[k..]))))
    ensures CallsSize(calls[k - 1..])
         == 1 + QuerySize(calls[k - 1]) + Sov(QuerySize(calls[k - 1])) + CallsSize(calls[k..])
    ensures CallsSize(calls[k - 1..]) <= CallsSize(calls)
    ensures |EncodeQuery(calls[k - 1])| == QuerySize(calls[k - 1])
  {
    hide EncodeQuery, QuerySize, EncodeVarint, Sov, EncodeField;
    var c := calls[k - 1];
    assert calls[k - 1..][1..] == calls[k..];
    CallsSizeSuffix(calls, k - 1);
    EncodeNested(c);
    var fs := ResponseFields(calls[k - 1..]);
    assert fs == [NestedField(c)] + ResponseFields(calls[k..]);
    assert fs[0] == NestedField(c) && fs[1..] == ResponseFields(calls[k..]);
  }

  /** A body, its length and its tag, each written just in front of the last. */
  lemma SpliceFramed(a: Bytes, i: nat, written: Bytes, body: Bytes, length: Bytes, tag: Bytes)
    requires i + |written| <= |a| && |body| + |length| + |tag| <= i
    ensures Splice(Splice(Splice(Splice(a, i, written), i - |body|, body), i - |body| - |length|, length),
                   i - |body| - |length| - |tag|, tag)
         == Splice(a, i - |body| - |length| - |tag|, tag + (length + (body + written)))
  {
    hide Splice;
    SpliceInFront(a, i, written, body);
    SpliceInFront(a, i - |body|, body + written, length);
    SpliceInFront(a, i - |body| - |length|, length + (body + written), tag);
  }

  method MarshalResponseToSizedBuffer(m: QueryScheduledCallsResponse, dAtA: array<byte>) returns (n: nat)
    requires Nests(m.calls) && CallsSize(m.calls) <= dAtA.Length
    modifies dAtA
    ensures n == CallsSize(m.calls) == |EncodeResponse(m)|
    ensures dAtA[..] == Splice(old(dAtA[..]), dAtA.Length - n, EncodeResponse(m))
  {
    hide EncodeFields, Splice, Sov, EncodeVarint, EncodeQuery, QuerySize, ResponseFields, Framed, Numbered;
    ghost var before, total := dAtA[..], m.calls;
    var i, k := dAtA.Length, |m.calls|;
    SpliceNothing(before, i);
    NothingToEncode();
    assert total[k..] == [];
    while k > 0
      invariant 0 <= k <= |m.calls|
      invariant 0 <= i == dAtA.Length - CallsSize(total[k..])
      invariant |EncodeFields(ResponseFields(total[k..]))| == CallsSize(total[k..])
      invariant dAtA[..] == Splice(before, i, EncodeFields(ResponseFields(total[k..])))
      decreases k
    {
      ghost var written := EncodeFields(ResponseFields(total[k..]));
      EncodeOneMore(total, k);
      SovIsLength(QuerySize(total[k - 1]));
      SpliceFramed(before, i, written,
                   EncodeQuery(total[k - 1]), EncodeVarint(QuerySize(total[k - 1])), [0x0a]);
      k := k - 1;
      var size := MarshalQueryToSizedBuffer(m.calls[k], dAtA, i);
      i := i - size;
      i := PutVarint(dAtA, i, size);
      i := PutTag(dAtA, i, 1, BYTES);
    }
    assert total[0..] == total;
    return dAtA.Length - i;
  }

  /** Size: the loop over the calls. */
  method SizeOfResponse(m: QueryScheduledCallsResponse) returns (n: nat)
    requires Nests(m.calls)
    ensures n == CallsSize(m.calls)
  {
    hide QuerySize, Sov;
    n := 0;
    assert m.calls[0..] == m.calls;
    for k := 0 to |m.calls|
      invariant n + CallsSize(m.calls[k..]) == CallsSize(m.calls)
    {
      var l := QuerySize(m.calls[k]);
      assert m.calls[k..][1..] == m.calls[k + 1..];
      n := n + 1 + l + Sov(l);
    }
  }

  method MarshalResponse(m: QueryScheduledCallsResponse) returns (dAtA: Bytes)
    requires Nests(m.calls)
    ensures dAtA == EncodeResponse(m)
  {
    var size := SizeOfResponse(m);
    var buffer := new byte[size];
    var n := MarshalResponseToSizedBuffer(m, buffer);
    return buffer[..n];
  }

  lemma NothingToEncode()
    ensures ResponseFields([]) == [] && EncodeFields([]) == []
  {
  }

  lemma ResponseUnfold(calls: seq<QueryScheduledCall>, s: Bytes, at: nat)
    requires s != []
    ensures ReadField(RESPONSE_SCHEMA, s, at).Err? ==>
              DecodeResponseFrom(calls, s, at) == Err(ReadField(RESPONSE_SCHEMA, s, at).error)
    ensures ReadField(RESPONSE_SCHEMA, s, at).Ok? ==>
              DecodeResponseFrom(calls, s, at) == ResponsePast(calls, s, at, ReadField(RESPONSE_SCHEMA, s, at).value)
  {
    hide Scan, ReadField, DecodeQuery;
    ScanUnfold(RESPONSE_SCHEMA, s, at);
    if ReadField(RESPONSE_SCHEMA, s, at).Ok? {
      var step := ReadField(RESPONSE_SCHEMA, s, at).value;
      var rest := Scan(RESPONSE_SCHEMA, s[step.size..], at + step.size).fields;
      if step.field.Some? {
        assert ([step.field.value] + rest)[1..] == rest;
      } else {
        assert [] + rest == rest;
      }
    }
  }

  /** What is left to decode once `step` has been read from the front of `s`. */
  ghost function ResponsePast(calls: seq<QueryScheduledCall>, s: Bytes, at: nat, step: Step)
    : Result<seq<QueryScheduledCall>>
    requires step.size <= |s|
  {
    if step.field.Some? && step.field.value.BytesField? then
      match DecodeQuery(step.field.value.bytes)
      case Err(e) => Err(e)
      case Ok(c) => DecodeResponseFrom(calls + [c], s[step.size..], at + step.size)
    else
      DecodeResponseFrom(calls, s[step.size..], at + step.size)
  }

  lemma ResponseEnd(calls: seq<QueryScheduledCall>, at: nat)
    ensures DecodeResponseFrom(calls, [], at) == Ok(calls)
  {
    ScanEmpty(RESPONSE_SCHEMA, at);
  }

  method UnmarshalResponse(m0: QueryScheduledCallsResponse, dAtA: Slice)
    returns (r: Result<QueryScheduledCallsResponse>)
    ensures r == DecodeResponse(m0, dAtA)
  {
    hide ReadTag, ReadPayload, SkipUnknown, DecodeResponseFrom, Decode;
    var calls, i := m0.calls, 0;
    assert dAtA[0..] == dAtA;
    while i < |dAtA|
      invariant 0 <= i <= |dAtA|
      invariant DecodeResponseFrom(m0.calls, dAtA, 0) == DecodeResponseFrom(calls, dAtA[i..], i)
    {
      ResponseUnfold(calls, dAtA[i..], i);
      ghost var start := i;
      var tag := GetTag(dAtA, i);
      if tag.Err? { return Err(tag.error); }
      if tag.value.num == 1 {
        if tag.value.wireType != BYTES { return Err(WrongWireType); }
        i := i + tag.value.size;
        assert dAtA[start..][tag.value.size..] == dAtA[i..];
        var payload := GetPayload(dAtA, i);
        if payload.Err? { return Err(payload.error); }
        var call := UnmarshalQuery(NO_CALL, payload.value.bytes);
        if call.Err? { return Err(call.error); }
        calls := calls + [call.value];
        i := i + payload.value.size;
      } else {
        var skippy := GetUnknown(dAtA, i);
        if skippy.Err? { return Err(skippy.error); }
        i := i + skippy.value;
      }
      assert dAtA[start..][i - start..] == dAtA[i..];
    }
    assert dAtA[i..] == [];
    ResponseEnd(calls, |dAtA|);
    return Ok(QueryScheduledCallsResponse(calls));
  }
}
