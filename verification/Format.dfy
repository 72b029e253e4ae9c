/**
  The wire format in literal bytes and numbers: what every encoder writes, which bytes every
  decoder accepts, what each accepted field does to the message, and how each other input fails.
 */
module Format {
  import opened Machine
  import opened Varint
  import opened Wire
  import opened Fields
  import opened Messages

  // ---- Varints ----

  function SevenBits(n: nat): (r: nat)
    ensures r > 0
  {
    if n == 0 then 1 else 0x80 * SevenBits(n - 1)
  }

  lemma DivTwice(v: nat, d: nat)
    requires d > 0
    ensures v / 128 / d == v / (128 * d)
  {
    var q, r := v / 128 / d, v / 128 % d;
    assert v == (128 * d) * q + (128 * r + v % 128) by {
      assert v == 128 * (d * q + r) + v % 128;
    }
    QuotientUnique(v, 128 * d, q, 128 * r + v % 128);
  }

  /** Groups of seven bits, the lowest first; the high bit is set on every byte but the last. */
  lemma {:induction false} VarintLayout(v: nat, i: nat)
    requires i < |EncodeVarint(v)|
    ensures EncodeVarint(v)[i] == v / SevenBits(i) % 0x80 + if i + 1 < |EncodeVarint(v)| then 0x80 else 0
    ensures i + 1 == |EncodeVarint(v)| ==> v / SevenBits(i) < 0x80
    decreases i
  {
    if v >= 128 && i > 0 {
      VarintLayout(v / 128, i - 1);
      DivTwice(v, SevenBits(i - 1));
    }
  }

  /** How many bytes at the front of `s` have the high bit set. */
  function Continued(s: Bytes): (n: nat)
    ensures n <= |s| && (n < |s| ==> s[n] < 0x80)
    ensures forall i :: 0 <= i < n ==> s[i] >= 0x80
  {
    if s == [] || s[0] < 0x80 then 0
    else
      var n := 1 + Continued(s[1..]);
      assert forall i :: 1 <= i < n ==> s[i] == s[1..][i - 1];
      n
  }

  /** The number that seven bits of each byte make up, the first byte lowest. */
  function GroupsValue(s: Bytes): nat
  {
    if s == [] then 0 else GroupsValue(s[..|s| - 1]) + s[|s| - 1] % 0x80 * SevenBits(|s| - 1)
  }

  lemma {:induction false} GroupsValueFirst(s: Bytes)
    requires s != []
    ensures GroupsValue(s) == s[0] % 0x80 + 0x80 * GroupsValue(s[1..])
  {
    var n := |s| - 1;
    if n == 0 {
      assert s[..0] == [] && s[1..] == [];
      assert SevenBits(0) == 1;
    } else {
      GroupsValueFirst(s[..n]);
      assert s[..n][1..] == s[1..][..n - 1];
      assert s[n] % 0x80 * SevenBits(n) == 0x80 * (s[n] % 0x80 * SevenBits(n - 1)) by {
        MulThree(s[n] % 0x80, SevenBits(n - 1));
      }
    }
  }

  lemma MulThree(a: nat, b: nat)
    ensures a * (0x80 * b) == 0x80 * (a * b)
  {
  }

  lemma ContinuedUnfold(s: Bytes)
    requires s != []
    ensures Continued(s) == if s[0] < 0x80 then 0 else 1 + Continued(s[1..])
  {
  }

  lemma {:induction false} GroupsExact(s: Bytes, k: nat)
    ensures var n := Continued(s);
      ReadGroups(s, k) == if n >= k then Err(IntOverflow)
                          else if n == |s| then Err(UnexpectedEOF)
                          else Ok(Read(GroupsValue(s[..n + 1]), n + 1))
    decreases k
  {
    hide Continued, GroupsValue;
    if k > 0 && s != [] {
      var n := Continued(s);
      ContinuedUnfold(s);
      if n < |s| {
        GroupsValueFirst(s[..n + 1]);
        assert s[..n + 1][1..] == s[1..][..n];
        assert s[..n + 1][0] == s[0];
      }
      if s[0] < 128 {
        NoGroups();
        assert s[1..][..0] == [];
      } else {
        GroupsExact(s[1..], k - 1);
      }
    }
  }

  lemma NoGroups()
    ensures GroupsValue([]) == 0
  {
  }

  /**
    The decode loop on every input: a varint of at most ten bytes is read, modulo 2^64; ten
    bytes with the high bit set overflow; fewer, up to the end of the buffer, are cut off.
   */
  lemma ReadVarintExact(s: Bytes)
    ensures var n := Continued(s);
      ReadVarint(s) == if n >= 10 then Err(IntOverflow)
                       else if n == |s| then Err(UnexpectedEOF)
                       else Ok(Read(GroupsValue(s[..n + 1]) % 0x1_0000_0000_0000_0000, n + 1))
  {
    hide ReadGroups, GroupsValue;
    GroupsExact(s, 10);
  }

  // ---- Tags ----

  /** The number of the field a tag names: 32 bits above the lowest three, as a signed number. */
  lemma FieldNumberExact(v: nat)
    ensures -0x8000_0000 <= FieldNumber(v) < 0x8000_0000
    ensures (v / 8 - FieldNumber(v)) % 0x1_0000_0000 == 0
  {
  }

  /** A tag of wire type 4, or of a number that is not positive, is refused. */
  lemma ReadTagExact(s: Bytes)
    ensures ReadVarint(s).Err? ==> ReadTag(s) == Err(ReadVarint(s).error)
    ensures ReadVarint(s).Ok? ==>
              var v, n := ReadVarint(s).value, FieldNumber(ReadVarint(s).value.value);
              && (v.value % 8 == 4 ==> ReadTag(s) == Err(EndGroupTag))
              && (v.value % 8 != 4 && n <= 0 ==> ReadTag(s) == Err(IllegalTag))
              && (v.value % 8 != 4 && n > 0 ==> ReadTag(s) == Ok(Tag(n, v.value % 8, v.size)))
  {
  }

  /** What the skip takes for one element, by the lowest three bits of its tag. */
  lemma ReadItemExact(s: Bytes)
    ensures ReadVarint(s).Err? ==> ReadItem(s) == Err(ReadVarint(s).error)
    ensures ReadVarint(s).Ok? ==>
              var t := ReadVarint(s).value;
              var next := ReadVarint(s[t.size..]);
              && (t.value % 8 == 0 ==>
                    ReadItem(s) == if next.Err? then Err(next.error) else Ok(Item(t.size + next.value.size, 0)))
              && (t.value % 8 == 1 ==> ReadItem(s) == Ok(Item(t.size + 8, 0)))
              && (t.value % 8 == 2 ==>
                    ReadItem(s) == if next.Err? then Err(next.error)
                                   else if next.value.value >= 0x8000_0000_0000_0000 then Err(InvalidLength)
                                   else Ok(Item(t.size + next.value.size + next.value.value, 0)))
              && (t.value % 8 == 3 ==> ReadItem(s) == Ok(Item(t.size, 1)))
              && (t.value % 8 == 4 ==> ReadItem(s) == Ok(Item(t.size, -1)))
              && (t.value % 8 == 5 ==> ReadItem(s) == Ok(Item(t.size + 4, 0)))
              && (t.value % 8 >= 6 ==> ReadItem(s) == Err(IllegalWireType))
  {
  }

  /** How a skip from depth zero ends: after one element, or at the end that closes its group. */
  lemma SkipExact(s: Bytes)
    ensures s == [] ==> SkipFrom(s, 0, 0) == Err(UnexpectedEOF)
    ensures s != [] && ReadItem(s).Err? ==> SkipFrom(s, 0, 0) == Err(ReadItem(s).error)
    ensures s != [] && ReadItem(s).Ok? ==>
              var item := ReadItem(s).value;
              && (item.opens == -1 ==> SkipFrom(s, 0, 0) == Err(UnexpectedEndOfGroup))
              && (item.opens == 0 ==>
                    SkipFrom(s, 0, 0) == if item.size >= 0x8000_0000_0000_0000 then Err(InvalidLength)
                                             else Ok(item.size))
              && (item.opens == 1 && item.size == |s| < 0x8000_0000_0000_0000 ==>
                    SkipFrom(s, 0, 0) == Err(UnexpectedEOF))
  {
  }

  /** A length of 2^63 or more, or one that runs past 2^63, is invalid; one past the buffer is cut off. */
  lemma ReadPayloadExact(s: Bytes, at: nat)
    ensures ReadVarint(s).Err? ==> ReadPayload(s, at) == Err(ReadVarint(s).error)
    ensures ReadVarint(s).Ok? ==>
              var v := ReadVarint(s).value;
              var end := v.size + v.value;
              && (v.value >= 0x8000_0000_0000_0000 || at + end >= 0x8000_0000_0000_0000 ==>
                    ReadPayload(s, at) == Err(InvalidLength))
              && (v.value < 0x8000_0000_0000_0000 && at + end < 0x8000_0000_0000_0000 ==>
                    ReadPayload(s, at) == if end > |s| then Err(UnexpectedEOF) else Ok(Payload(s[v.size..end], end)))
  {
  }

  // ---- Which bytes an Unmarshal refuses ----

  /** The wire type the declared fields of a kind must have. */
  function TypeOf(kind: Kind): nat
  {
    match kind
    case VarintKind => 0
    case BytesKind => 2
  }

  lemma WrongTypeRefused(schema: Schema, s: Bytes, at: nat)
    requires ReadTag(s).Ok? && ReadTag(s).value.num in schema
    requires ReadTag(s).value.wireType != TypeOf(schema[ReadTag(s).value.num])
    ensures ReadField(schema, s, at) == Err(WrongWireType)
  {
  }

  /** Parsing stops exactly at the first field that cannot be read, with that field's error. */
  lemma {:induction false} ScanFailsIff(schema: Schema, s: Bytes, at: nat, e: Error)
    ensures Scan(schema, s, at).error == Some(e) <==>
              exists k :: 0 <= k < |s| && Scan(schema, s[..k], at).error.None?
                          && ReadField(schema, s[k..], at + k) == Err(e)
    decreases |s|
  {
    hide ReadField, Scan;
    if k :| 0 <= k < |s| && Scan(schema, s[..k], at).error.None? && ReadField(schema, s[k..], at + k) == Err(e) {
      ScanConcat(schema, s[..k], s[k..], at);
      assert s[..k] + s[k..] == s;
      ScanUnfold(schema, s[k..], at + k);
    }
    if Scan(schema, s, at).error == Some(e) {
      if s == [] { ScanEmpty(schema, at); }
      ScanUnfold(schema, s, at);
      if ReadField(schema, s, at).Err? {
        ScanEmpty(schema, at);
        assert s[..0] == [] && s[0..] == s;
      } else {
        var n := ReadField(schema, s, at).value.size;
        ScanFailsIff(schema, s[n..], at + n, e);
        var k :| 0 <= k < |s[n..]| && Scan(schema, s[n..][..k], at + n).error.None?
                 && ReadField(schema, s[n..][k..], at + n + k) == Err(e);
        FieldThenClean(schema, s, at, n, k);
        assert s[n..][k..] == s[n + k..];
        assert ReadField(schema, s[n + k..], at + (n + k)) == Err(e);
      }
    }
  }

  lemma {:induction false} ReadGroupsShorter(a: Bytes, b: Bytes, k: nat)
    requires ReadGroups(a + b, k).Ok? && ReadGroups(a + b, k).value.size <= |a|
    ensures ReadGroups(a, k) == ReadGroups(a + b, k)
    decreases k
  {
    assert (a + b)[0] == a[0] && (a + b)[1..] == a[1..] + b;
    if a[0] >= 128 {
      ReadGroupsShorter(a[1..], b, k - 1);
    }
  }

  lemma ReadVarintShorter(a: Bytes, b: Bytes)
    requires ReadVarint(a + b).Ok? && ReadVarint(a + b).value.size <= |a|
    ensures ReadVarint(a) == ReadVarint(a + b)
  {
    ReadGroupsShorter(a, b, 10);
  }

  lemma ReadItemShorter(a: Bytes, b: Bytes)
    requires ReadItem(a + b).Ok? && ReadItem(a + b).value.size <= |a|
    ensures ReadItem(a) == ReadItem(a + b)
  {
    hide ReadVarint;
    ReadVarintShorter(a, b);
    var n := ReadVarint(a).value.size;
    assert (a + b)[n..] == a[n..] + b;
    if ReadVarint(a[n..] + b).Ok? && n + ReadVarint(a[n..] + b).value.size <= |a| {
      ReadVarintShorter(a[n..], b);
    }
  }

  lemma {:induction false} SkipShorter(a: Bytes, b: Bytes, at: nat, depth: nat)
    requires SkipFrom(a + b, at, depth).Ok? && SkipFrom(a + b, at, depth).value <= at + |a|
    ensures SkipFrom(a, at, depth) == SkipFrom(a + b, at, depth)
    decreases |a|
  {
    hide ReadItem, SkipFrom;
    if a + b == [] { SkipEmpty(at, depth); }
    SkipUnfold(a + b, at, depth);
    var item := ReadItem(a + b).value;
    ReadItemShorter(a, b);
    SkipUnfold(a, at, depth);
    if depth + item.opens != 0 {
      assert (a + b)[item.size..] == a[item.size..] + b;
      SkipShorter(a[item.size..], b, at + item.size, depth + item.opens);
    }
  }

  /** A field read from a buffer is read the same from any shorter buffer that holds it whole. */
  lemma ReadFieldShorter(schema: Schema, a: Bytes, b: Bytes, at: nat)
    requires ReadField(schema, a + b, at).Ok? && ReadField(schema, a + b, at).value.size <= |a|
    ensures ReadField(schema, a, at) == ReadField(schema, a + b, at)
  {
    hide ReadVarint, SkipFrom;
    var tag := ReadTag(a + b).value;
    if tag.num in schema {
      ReadVarintShorter(a, b);
      assert (a + b)[tag.size..] == a[tag.size..] + b;
      ReadVarintShorter(a[tag.size..], b);
      if schema[tag.num] == BytesKind {
        var v := ReadVarint(a[tag.size..]).value;
        var post := v.size + AsInt64(v.value);
        assert (a[tag.size..] + b)[v.size..post] == a[tag.size..][v.size..post];
      }
    } else {
      SkipTagInside(a + b);
      ReadVarintShorter(a, b);
      SkipShorter(a, b, 0, 0);
    }
  }

  lemma SkipTagInside(s: Bytes)
    requires ReadTag(s).Ok? && SkipFrom(s, 0, 0).Ok?
    ensures ReadTag(s).value.size <= SkipFrom(s, 0, 0).value
  {
  }

  lemma FieldThenClean(schema: Schema, s: Bytes, at: nat, n: nat, k: nat)
    requires s != [] && ReadField(schema, s, at).Ok? && n == ReadField(schema, s, at).value.size
    requires n + k <= |s| && Scan(schema, s[n..][..k], at + n).error.None?
    ensures Scan(schema, s[..n + k], at).error.None?
  {
    hide ReadField, Scan;
    assert s[..n + k] + s[n + k..] == s;
    ReadFieldShorter(schema, s[..n + k], s[n + k..], at);
    ScanUnfold(schema, s[..n + k], at);
    assert s[..n + k][n..] == s[n..][..k];
  }

  /** So an Unmarshal fails exactly at the first field it cannot read, with that field's error. */
  lemma DecodeFailsIff<M>(schema: Schema, merge: (M, Field) -> M, m: M, s: Bytes, e: Error)
    ensures Decode(schema, merge, m, s) == Err(e) <==>
              exists k :: 0 <= k < |s| && Scan(schema, s[..k], 0).error.None? && ReadField(schema, s[k..], k) == Err(e)
  {
    hide Scan, ReadField, Fold;
    ScanFailsIff(schema, s, 0, e);
  }

  lemma DeclaredFields()
    ensures forall n :: n in CALL_SCHEMA <==> n == 1
    ensures forall n :: n in ADD_SCHEMA <==> n == 1 || n == 2 || n == 3 || n == 5
    ensures forall n :: n in QUERY_SCHEMA <==> n == 1 || n == 2 || n == 3 || n == 4
    ensures forall n :: n in RESPONSE_SCHEMA <==> n == 1
  {
  }

  /** A field of an undeclared number is skipped whole, or fails as the skip does. */
  lemma UndeclaredSkipped(schema: Schema, s: Bytes, at: nat)
    requires ReadTag(s).Ok? && ReadTag(s).value.num !in schema
    ensures var n := SkipFrom(s, 0, 0);
      ReadField(schema, s, at) == if n.Err? then Err(n.error)
                                  else if at + n.value >= 0x8000_0000_0000_0000 then Err(InvalidLength)
                                  else if n.value > |s| then Err(UnexpectedEOF)
                                  else Ok(Step(n.value, None))
  {
  }

  lemma WrongTypeFails<M>(schema: Schema, merge: (M, Field) -> M, m: M, a: Bytes, s: Bytes)
    requires Scan(schema, a, 0).error.None? && ReadTag(s).Ok? && ReadTag(s).value.num in schema
    requires ReadTag(s).value.wireType != TypeOf(schema[ReadTag(s).value.num])
    ensures Decode(schema, merge, m, a + s) == Err(WrongWireType)
  {
    hide Scan, ReadTag, ReadField, Fold;
    WrongTypeRefused(schema, s, |a|);
    assert (a + s)[..|a|] == a && (a + s)[|a|..] == s;
    assert s != [] by { NoTagInNothing(s); }
    DecodeFailsIff(schema, merge, m, a + s, WrongWireType);
  }

  lemma NoTagInNothing(s: Bytes)
    requires ReadTag(s).Ok?
    ensures s != []
  {
  }

  /**
    After any fields that can be read, a declared field of the wrong wire type fails: 2 is
    expected everywhere but for the height, which is field 5 of a message and 3 of a listing.
   */
  lemma WrongTypesFail(call: ScheduledCall, add: MsgAddSchedule, query: QueryScheduledCall, a: Bytes, s: Bytes)
    requires ReadTag(s).Ok?
    ensures var num, wireType := ReadTag(s).value.num, ReadTag(s).value.wireType;
      && (Scan(CALL_SCHEMA, a, 0).error.None? && num == 1 && wireType != 2 ==>
            Decode(CALL_SCHEMA, MergeCall, call, a + s) == Err(WrongWireType))
      && (Scan(ADD_SCHEMA, a, 0).error.None?
          && (((num == 1 || num == 2 || num == 3) && wireType != 2) || (num == 5 && wireType != 0)) ==>
            Decode(ADD_SCHEMA, MergeAdd, add, a + s) == Err(WrongWireType))
      && (Scan(QUERY_SCHEMA, a, 0).error.None?
          && (((num == 1 || num == 2 || num == 4) && wireType != 2) || (num == 3 && wireType != 0)) ==>
            Decode(QUERY_SCHEMA, MergeQuery, query, a + s) == Err(WrongWireType))
  {
    hide Scan, ReadTag, Decode;
    var num, wireType := ReadTag(s).value.num, ReadTag(s).value.wireType;
    if Scan(CALL_SCHEMA, a, 0).error.None? && num == 1 && wireType != 2 {
      WrongTypeFails(CALL_SCHEMA, MergeCall, call, a, s);
    }
    if Scan(ADD_SCHEMA, a, 0).error.None?
       && (((num == 1 || num == 2 || num == 3) && wireType != 2) || (num == 5 && wireType != 0)) {
      WrongTypeFails(ADD_SCHEMA, MergeAdd, add, a, s);
    }
    if Scan(QUERY_SCHEMA, a, 0).error.None?
       && (((num == 1 || num == 2 || num == 4) && wireType != 2) || (num == 3 && wireType != 0)) {
      WrongTypeFails(QUERY_SCHEMA, MergeQuery, query, a, s);
    }
  }

  /** The same for the nested calls of a response: a call decoded before it comes first. */
  lemma WrongTypeFailsInResponse(s: Bytes)
    requires ReadTag(s).Ok? && ReadTag(s).value.num == 1 && ReadTag(s).value.wireType != 2
    ensures forall m :: DecodeResponse(m, s) == Err(WrongWireType)
  {
    hide ReadTag, ReadField;
    WrongTypeRefused(RESPONSE_SCHEMA, s, 0);
    NoTagInNothing(s);
    ScanUnfold(RESPONSE_SCHEMA, s, 0);
  }

  // ---- What each field does to the message ----

  lemma FieldApplies<M>(schema: Schema, merge: (M, Field) -> M, m0: M, a: Bytes, m: M, f: Field)
    requires Canonical(schema, f) && |a| + |EncodeField(f)| < TWO63
    requires Decode(schema, merge, m0, a) == Ok(m)
    ensures Decode(schema, merge, m0, a + EncodeField(f)) == Ok(merge(m, f))
  {
    hide EncodeField, Canonical, Scan;
    DecodeConcat(schema, merge, m0, a, EncodeField(f));
    OneField(f);
    DecodeEncoded(schema, merge, m, [f]);
    assert Fold(merge, m, [f]) == Fold(merge, merge(m, f), []);
  }

  lemma OneField(f: Field)
    ensures EncodeFields([f]) == EncodeField(f)
  {
    hide EncodeField;
    assert [f][1..] == [];
    assert EncodeField(f) + [] == EncodeField(f);
  }

  lemma BytesFieldIs(num: nat, b: Slice)
    requires 0 < num < 16
    ensures EncodeField(BytesField(num, b)) == [num * 8 + 2] + EncodeVarint(|b|) + b
  {
    assert EncodeVarint(num * 8 + 2) == [num * 8 + 2];
  }

  lemma VarintFieldIs(num: nat, v: uint64)
    requires 0 < num < 16
    ensures EncodeField(VarintField(num, v)) == [num * 8] + EncodeVarint(v)
  {
    assert EncodeVarint(num * 8) == [num * 8];
  }

  /** Whatever was decoded before, a field 1 sets the body of a call, an empty one included. */
  lemma CallFieldSets(m0: ScheduledCall, a: Bytes, m: ScheduledCall, b: Slice)
    requires Decode(CALL_SCHEMA, MergeCall, m0, a) == Ok(m) && |a| + 11 + |b| < TWO63
    ensures Decode(CALL_SCHEMA, MergeCall, m0, a + ([0x0a] + EncodeVarint(|b|) + b)) == Ok(ScheduledCall(b))
  {
    hide Decode, EncodeVarint;
    TenGroups(|b|);
    BytesFieldIs(1, b);
    FieldApplies(CALL_SCHEMA, MergeCall, m0, a, m, BytesField(1, b));
  }

  /** Each field sets its own part of the message and no other, and a later one overrides an earlier one. */
  lemma AddFieldSets(m0: MsgAddSchedule, a: Bytes, m: MsgAddSchedule, b: Slice, v: uint64)
    requires Decode(ADD_SCHEMA, MergeAdd, m0, a) == Ok(m) && |a| + 11 + |b| < TWO63
    ensures var sized := EncodeVarint(|b|) + b;
      && Decode(ADD_SCHEMA, MergeAdd, m0, a + ([0x0a] + sized)) == Ok(m.(signer := b))
      && Decode(ADD_SCHEMA, MergeAdd, m0, a + ([0x12] + sized)) == Ok(m.(contract := b))
      && Decode(ADD_SCHEMA, MergeAdd, m0, a + ([0x1a] + sized)) == Ok(m.(callBody := b))
      && Decode(ADD_SCHEMA, MergeAdd, m0, a + ([0x28] + EncodeVarint(v))) == Ok(m.(blockHeight := v))
  {
    hide Decode, EncodeVarint, EncodeField;
    TenGroups(|b|);
    TenGroups(v);
    BytesFieldIs(1, b);
    BytesFieldIs(2, b);
    BytesFieldIs(3, b);
    VarintFieldIs(5, v);
    SizedTail(0x0a, b);
    SizedTail(0x12, b);
    SizedTail(0x1a, b);
    FieldApplies(ADD_SCHEMA, MergeAdd, m0, a, m, BytesField(1, b));
    FieldApplies(ADD_SCHEMA, MergeAdd, m0, a, m, BytesField(2, b));
    FieldApplies(ADD_SCHEMA, MergeAdd, m0, a, m, BytesField(3, b));
    FieldApplies(ADD_SCHEMA, MergeAdd, m0, a, m, VarintField(5, v));
  }

  lemma SizedTail(tag: byte, b: Slice)
    ensures [tag] + (EncodeVarint(|b|) + b) == [tag] + EncodeVarint(|b|) + b
  {
    hide EncodeVarint;
  }

  lemma QueryFieldSets(m0: QueryScheduledCall, a: Bytes, m: QueryScheduledCall, b: Slice, v: uint64)
    requires Decode(QUERY_SCHEMA, MergeQuery, m0, a) == Ok(m) && |a| + 11 + |b| < TWO63
    ensures var sized := EncodeVarint(|b|) + b;
      && Decode(QUERY_SCHEMA, MergeQuery, m0, a + ([0x0a] + sized)) == Ok(m.(contract := b))
      && Decode(QUERY_SCHEMA, MergeQuery, m0, a + ([0x12] + sized)) == Ok(m.(callBody := b))
      && Decode(QUERY_SCHEMA, MergeQuery, m0, a + ([0x18] + EncodeVarint(v))) == Ok(m.(height := v))
      && Decode(QUERY_SCHEMA, MergeQuery, m0, a + ([0x22] + sized)) == Ok(m.(signer := b))
  {
    hide Decode, EncodeVarint, EncodeField;
    TenGroups(|b|);
    TenGroups(v);
    BytesFieldIs(1, b);
    BytesFieldIs(2, b);
    VarintFieldIs(3, v);
    BytesFieldIs(4, b);
    SizedTail(0x0a, b);
    SizedTail(0x12, b);
    SizedTail(0x22, b);
    FieldApplies(QUERY_SCHEMA, MergeQuery, m0, a, m, BytesField(1, b));
    FieldApplies(QUERY_SCHEMA, MergeQuery, m0, a, m, BytesField(2, b));
    FieldApplies(QUERY_SCHEMA, MergeQuery, m0, a, m, VarintField(3, v));
    FieldApplies(QUERY_SCHEMA, MergeQuery, m0, a, m, BytesField(4, b));
  }

  /** Two concatenated responses are one response with the calls of both. */
  lemma ResponsesConcat(first: seq<QueryScheduledCall>, second: seq<QueryScheduledCall>)
    requires Nests(first + second) && CallsSize(first + second) < TWO63
    ensures Nests(first) && Nests(second)
    ensures DecodeResponse(QueryScheduledCallsResponse([]),
                           EncodeResponse(QueryScheduledCallsResponse(first))
                           + EncodeResponse(QueryScheduledCallsResponse(second)))
         == Ok(QueryScheduledCallsResponse(first + second))
  {
    hide QuerySize, CallsSize, EncodeFields, DecodeResponse;
    forall c ensures (c in first ==> QuerySize(c) < TWO63) && (c in second ==> QuerySize(c) < TWO63) {
      if c in first || c in second { assert c in first + second; }
    }
    FieldsConcat(first, second);
    EncodeFieldsConcat(ResponseFields(first), ResponseFields(second));
    ResponseRoundTrip(QueryScheduledCallsResponse(first + second));
  }

  lemma {:induction false} FieldsConcat(first: seq<QueryScheduledCall>, second: seq<QueryScheduledCall>)
    requires Nests(first + second) && Nests(first) && Nests(second)
    ensures ResponseFields(first + second) == ResponseFields(first) + ResponseFields(second)
    decreases |first|
  {
    hide QuerySize, EncodeQuery;
    if first == [] {
      assert first + second == second;
    } else {
      assert (first + second)[1..] == first[1..] + second;
      FieldsConcat(first[1..], second);
    }
  }

  lemma {:induction false} AppendConcat(calls: seq<QueryScheduledCall>, a: seq<Field>, b: seq<Field>)
    ensures AppendCalls(calls, a + b)
         == if AppendCalls(calls, a).Err? then AppendCalls(calls, a) else AppendCalls(AppendCalls(calls, a).value, b)
    decreases |a|
  {
    hide DecodeQuery;
    if a == [] {
      assert a + b == b;
    } else {
      assert (a + b)[1..] == a[1..] + b;
      if !a[0].BytesField? {
        AppendConcat(calls, a[1..], b);
      } else if DecodeQuery(a[0].bytes).Ok? {
        AppendConcat(calls + [DecodeQuery(a[0].bytes).value], a[1..], b);
      }
    }
  }

  /** Whatever was decoded before, a field 1 of a response appends the call in its payload, or fails as that does. */
  lemma ResponseFieldAppends(m0: QueryScheduledCallsResponse, a: Bytes, m: QueryScheduledCallsResponse, b: Slice)
    requires DecodeResponse(m0, a) == Ok(m) && |a| + 11 + |b| < TWO63
    ensures DecodeResponse(m0, a + ([0x0a] + EncodeVarint(|b|) + b))
         == if DecodeQuery(b).Err? then Err(DecodeQuery(b).error)
            else Ok(QueryScheduledCallsResponse(m.calls + [DecodeQuery(b).value]))
  {
    hide Scan, EncodeVarint, DecodeQuery, EncodeField, AppendCalls;
    var f := BytesField(1, b);
    TenGroups(|b|);
    BytesFieldIs(1, b);
    OneField(f);
    ScanConcat(RESPONSE_SCHEMA, a, EncodeField(f), 0);
    ScanEncoded(RESPONSE_SCHEMA, [f], |a|);
    AppendConcat(m0.calls, Scan(RESPONSE_SCHEMA, a, 0).fields, [f]);
    AppendOne(m.calls, f);
  }

  lemma AppendOne(calls: seq<QueryScheduledCall>, f: Field)
    requires f.BytesField?
    ensures AppendCalls(calls, [f])
         == if DecodeQuery(f.bytes).Err? then Err(DecodeQuery(f.bytes).error)
            else Ok(calls + [DecodeQuery(f.bytes).value])
  {
    hide DecodeQuery;
    assert [f][1..] == [];
  }
}
