/**
  The generated message parsers: tags, length-delimited payloads, skipping of unknown
  fields (with nested groups), and the scan of a whole buffer into its known fields.

  Specification functions work on the bytes not yet read; `at` is the absolute index of
  the first of them, which matters only where the source adds to a 64-bit index.
  Buffers are Go slices, so their length is below 2^63.
 */
module Wire {
  import opened Machine
  import opened Varint

  const VARINT: nat := 0
  const FIXED64: nat := 1
  const BYTES: nat := 2
  const START_GROUP: nat := 3
  const END_GROUP: nat := 4
  const FIXED32: nat := 5

  /** Reinterpretation of 64 bits as a Go int. */
  function AsInt64(v: nat): int
    requires v < TWO64
  {
    if v < TWO63 then v else v - TWO64
  }

  /** int32(wire >> 3): the low 32 bits, as a signed number. */
  function FieldNumber(wire: nat): int
  {
    var low := wire / 8 % TWO32;
    if low < TWO32 / 2 then low else low - TWO32
  }

  /** Go's wrapping addition of two non-negative ints. */
  function AddInt64(a: int, b: int): int
    requires 0 <= a < TWO63 && 0 <= b < TWO63
  {
    AsInt64(a + b)
  }

  // ---- Skipping ----

  /** One element: the bytes its tag and payload claim, and how it changes the group depth. */
  datatype Item = Item(size: nat, opens: int)

  function ReadItem(s: Bytes): (r: Result<Item>)
    ensures r.Ok? ==> 1 <= r.value.size < |s| + TWO63 && -1 <= r.value.opens <= 1
  {
    match ReadVarint(s)
    case Err(e) => Err(e)
    case Ok(tag) =>
      var wireType := tag.value % 8;
      if wireType == VARINT then
        match ReadVarint(s[tag.size..]) {
          case Err(e) => Err(e)
          case Ok(v) => Ok(Item(tag.size + v.size, 0))
        }
      else if wireType == FIXED64 then Ok(Item(tag.size + 8, 0))
      else if wireType == BYTES then
        match ReadVarint(s[tag.size..]) {
          case Err(e) => Err(e)
          case Ok(v) =>
            if AsInt64(v.value) < 0 then Err(InvalidLength)
            else Ok(Item(tag.size + v.size + AsInt64(v.value), 0))
        }
      else if wireType == START_GROUP then Ok(Item(tag.size, 1))
      else if wireType == END_GROUP then Ok(Item(tag.size, -1))
      else if wireType == FIXED32 then Ok(Item(tag.size + 4, 0))
      else Err(IllegalWireType)
  }

  /** skip*: the index just past one whole field, groups included. It may lie past the end of the buffer. */
  function SkipFrom(s: Bytes, at: nat, depth: nat): (r: Result<nat>)
    ensures r.Ok? ==> at < r.value < TWO63
    decreases |s|
  {
    if s == [] then Err(UnexpectedEOF)
    else
      match ReadItem(s)
      case Err(e) => Err(e)
      case Ok(item) =>
        if depth + item.opens < 0 then Err(UnexpectedEndOfGroup)
        else if at + item.size >= TWO63 then Err(InvalidLength)
        else if depth + item.opens == 0 then Ok(at + item.size)
        else if item.size >= |s| then Err(UnexpectedEOF)
        else SkipFrom(s[item.size..], at + item.size, depth + item.opens)
  }

  lemma SkipEmpty(at: nat, depth: nat)
    ensures SkipFrom([], at, depth) == Err(UnexpectedEOF)
  {
  }

  lemma SkipUnfold(s: Bytes, at: nat, depth: nat)
    requires s != []
    ensures ReadItem(s).Err? ==> SkipFrom(s, at, depth) == Err(ReadItem(s).error)
    ensures ReadItem(s).Ok? ==> SkipFrom(s, at, depth) == SkipPast(ReadItem(s).value, s, at, depth)
  {
  }

  /** What is left to skip once `item` has been read from the front of `s`. */
  function SkipPast(item: Item, s: Bytes, at: nat, depth: nat): Result<nat>
  {
    if depth + item.opens < 0 then Err(UnexpectedEndOfGroup)
    else if at + item.size >= TWO63 then Err(InvalidLength)
    else if depth + item.opens == 0 then Ok(at + item.size)
    else if item.size >= |s| then Err(UnexpectedEOF)
    else SkipFrom(s[item.size..], at + item.size, depth + item.opens)
  }

  method Skip(dAtA: Slice) returns (r: Result<nat>)
    ensures r == SkipFrom(dAtA, 0, 0)
    ensures r.Ok? ==> 0 < r.value
  {
    hide ReadVarint, SkipFrom;
    var i: int, depth: nat := 0, 0;
    SkipEmpty(0, 0);
    assert dAtA[0..] == dAtA;
    while i < |dAtA|
      invariant 0 <= i < TWO63
      invariant SkipFrom(dAtA, 0, 0) == if i < |dAtA| then SkipFrom(dAtA[i..], i, depth) else Err(UnexpectedEOF)
      decreases |dAtA| - i
    {
      ghost var start := i;
      SkipUnfold(dAtA[i..], i, depth);
      var tag := GetVarint(dAtA, i);
      if tag.Err? { return Err(tag.error); }
      i := i + tag.value.size;
      assert dAtA[start..][tag.value.size..] == dAtA[i..];
      var wireType := tag.value.value % 8;
      if wireType == VARINT {
        var v := GetVarint(dAtA, i);
        if v.Err? { return Err(v.error); }
        i := i + v.value.size;
      } else if wireType == FIXED64 {
        i := AddInt64(i, 8);
      } else if wireType == BYTES {
        var v := GetVarint(dAtA, i);
        if v.Err? { return Err(v.error); }
        i := i + v.value.size;
        var length := AsInt64(v.value.value);
        if length < 0 { return Err(InvalidLength); }
        i := AddInt64(i, length);
      } else if wireType == START_GROUP {
        depth := depth + 1;
      } else if wireType == END_GROUP {
        if depth == 0 { return Err(UnexpectedEndOfGroup); }
        depth := depth - 1;
      } else if wireType == FIXED32 {
        i := AddInt64(i, 4);
      } else {
        return Err(IllegalWireType);
      }
      if i < 0 { return Err(InvalidLength); }
      if depth == 0 { return Ok(i); }
      assert i < |dAtA| ==> dAtA[start..][i - start..] == dAtA[i..];
    }
    return Err(UnexpectedEOF);
  }

  lemma ReadItemLocal(s: Bytes, t: Bytes)
    requires ReadItem(s).Ok?
    ensures ReadItem(s + t) == ReadItem(s)
  {
    ReadVarintLocal(s, t);
    var n := ReadVarint(s).value.size;
    assert (s + t)[n..] == s[n..] + t;
    if ReadVarint(s[n..]).Ok? {
      ReadVarintLocal(s[n..], t);
    }
  }

  /** A skip that stays inside `s` does not depend on what follows. */
  lemma {:induction false} SkipLocal(s: Bytes, t: Bytes, at: nat, depth: nat)
    requires SkipFrom(s, at, depth).Ok?
    ensures SkipFrom(s + t, at, depth) == SkipFrom(s, at, depth)
    decreases |s|
  {
    hide ReadItem, SkipFrom;
    if s == [] { SkipEmpty(at, depth); }
    SkipUnfold(s, at, depth);
    ReadItemLocal(s, t);
    SkipUnfold(s + t, at, depth);
    var item := ReadItem(s).value;
    if depth + item.opens != 0 {
      assert (s + t)[item.size..] == s[item.size..] + t;
      SkipLocal(s[item.size..], t, at + item.size, depth + item.opens);
    }
  }

  // ---- One field ----

  datatype Tag = Tag(num: int, wireType: nat, size: nat)
  datatype Payload = Payload(bytes: Slice, size: nat)

  /** Reads a tag and makes the two checks every Unmarshal makes before it switches on the number. */
  function ReadTag(s: Bytes): (r: Result<Tag>)
    ensures r.Ok? ==> 1 <= r.value.size <= |s| && r.value.num > 0
  {
    match ReadVarint(s)
    case Err(e) => Err(e)
    case Ok(wire) =>
      if wire.value % 8 == END_GROUP then Err(EndGroupTag)
      else if FieldNumber(wire.value) <= 0 then Err(IllegalTag)
      else Ok(Tag(FieldNumber(wire.value), wire.value % 8, wire.size))
  }

  function ReadPayload(s: Bytes, at: nat): (r: Result<Payload>)
    ensures r.Ok? ==> 1 <= r.value.size <= |s|
  {
    match ReadVarint(s)
    case Err(e) => Err(e)
    case Ok(v) =>
      var length := AsInt64(v.value);
      if length < 0 then Err(InvalidLength)
      else if at + v.size + length >= TWO63 then Err(InvalidLength)
      else if v.size + length > |s| then Err(UnexpectedEOF)
      else Ok(Payload(s[v.size..v.size + length], v.size + length))
  }

  /** The default case: `s` starts at the tag of a field whose number is not declared. */
  function SkipUnknown(s: Bytes, at: nat): (r: Result<nat>)
    ensures r.Ok? ==> 1 <= r.value <= |s|
  {
    match SkipFrom(s, 0, 0)
    case Err(e) => Err(e)
    case Ok(n) =>
      if at + n >= TWO63 then Err(InvalidLength)
      else if n > |s| then Err(UnexpectedEOF)
      else Ok(n)
  }

  method GetTag(dAtA: Bytes, i: nat) returns (r: Result<Tag>)
    requires i <= |dAtA|
    ensures r == ReadTag(dAtA[i..])
  {
    var wire := GetVarint(dAtA, i);
    if wire.Err? { return Err(wire.error); }
    var fieldNum := FieldNumber(wire.value.value);
    var wireType := wire.value.value % 8;
    if wireType == END_GROUP { return Err(EndGroupTag); }
    if fieldNum <= 0 { return Err(IllegalTag); }
    return Ok(Tag(fieldNum, wireType, wire.value.size));
  }

  method GetPayload(dAtA: Slice, i: nat) returns (r: Result<Payload>)
    requires i <= |dAtA|
    ensures r == ReadPayload(dAtA[i..], i)
  {
    var v := GetVarint(dAtA, i);
    if v.Err? { return Err(v.error); }
    var index := i + v.value.size;
    var length := AsInt64(v.value.value);
    if length < 0 { return Err(InvalidLength); }
    var postIndex := AddInt64(index, length);
    if postIndex < 0 { return Err(InvalidLength); }
    if postIndex > |dAtA| { return Err(UnexpectedEOF); }
    assert dAtA[index..postIndex] == dAtA[i..][index - i..postIndex - i];
    return Ok(Payload(dAtA[index..postIndex], postIndex - i));
  }

  method GetUnknown(dAtA: Slice, preIndex: nat) returns (r: Result<nat>)
    requires preIndex <= |dAtA|
    ensures r == SkipUnknown(dAtA[preIndex..], preIndex)
  {
    var skippy := Skip(dAtA[preIndex..]);
    if skippy.Err? { return skippy; }
    var post := AddInt64(preIndex, skippy.value);
    if post < 0 { return Err(InvalidLength); }
    if post > |dAtA| { return Err(UnexpectedEOF); }
    return skippy;
  }

  // ---- A whole buffer ----

  datatype Kind = VarintKind | BytesKind

  /** The declared field numbers of a message, with the type each was declared with. */
  type Schema = map<int, Kind>

  datatype Field = VarintField(num: nat, value: uint64) | BytesField(num: nat, bytes: Slice)

  /** One parsed field; `None` stands for an unknown field that was skipped. */
  datatype Step = Step(size: nat, field: Option<Field>)

  function ReadField(schema: Schema, s: Bytes, at: nat): (r: Result<Step>)
    ensures r.Ok? ==> 1 <= r.value.size <= |s|
  {
    match ReadTag(s)
    case Err(e) => Err(e)
    case Ok(tag) =>
      if tag.num !in schema then
        match SkipUnknown(s, at) {
          case Err(e) => Err(e)
          case Ok(n) => Ok(Step(n, None))
        }
      else if schema[tag.num] == BytesKind then
        if tag.wireType != BYTES then Err(WrongWireType)
        else match ReadPayload(s[tag.size..], at + tag.size) {
          case Err(e) => Err(e)
          case Ok(p) => Ok(Step(tag.size + p.size, Some(BytesField(tag.num, p.bytes))))
        }
      else
        if tag.wireType != VARINT then Err(WrongWireType)
        else match ReadVarint(s[tag.size..]) {
          case Err(e) => Err(e)
          case Ok(v) => Ok(Step(tag.size + v.size, Some(VarintField(tag.num, v.value))))
        }
  }

  /** The known fields in order, up to the end of the buffer or to the first error. */
  datatype Scanned = Scanned(fields: seq<Field>, error: Option<Error>)

  function Known(field: Option<Field>): seq<Field>
  {
    if field.Some? then [field.value] else []
  }

  function Scan(schema: Schema, s: Bytes, at: nat): Scanned
    decreases |s|
  {
    if s == [] then Scanned([], None)
    else
      match ReadField(schema, s, at)
      case Err(e) => Scanned([], Some(e))
      case Ok(step) =>
        Prepend(step, Scan(schema, s[step.size..], at + step.size))
  }

  /** Two scans agree when they find the same fields and either both reach the end or both fail. */
  predicate Agree(a: Scanned, b: Scanned)
  {
    a.fields == b.fields && (a.error.None? <==> b.error.None?)
  }

  // ---- Locality and composition ----

  lemma ReadFieldLocal(schema: Schema, s: Bytes, t: Bytes, at: nat)
    requires ReadField(schema, s, at).Ok?
    ensures ReadField(schema, s + t, at) == ReadField(schema, s, at)
  {
    ReadVarintLocal(s, t);
    var tag := ReadTag(s).value;
    if tag.num !in schema {
      SkipLocal(s, t, 0, 0);
    } else {
      assert (s + t)[tag.size..] == s[tag.size..] + t;
      ReadVarintLocal(s[tag.size..], t);
      if schema[tag.num] == BytesKind {
        var v := ReadVarint(s[tag.size..]).value;
        var post := v.size + AsInt64(v.value);
        assert (s[tag.size..] + t)[v.size..post] == s[tag.size..][v.size..post];
      }
    }
  }

  /**
    Where a field starts cannot turn success into failure or change what is read,
    as long as the buffer it lies in is shorter than 2^63 bytes. (The kind of error may
    change: a length that overflows the index is reported before one that overruns.)
   */
  lemma ReadFieldAnywhere(schema: Schema, s: Bytes, at: nat, at': nat)
    requires at + |s| < TWO63 && at' + |s| < TWO63
    ensures ReadField(schema, s, at).Ok? <==> ReadField(schema, s, at').Ok?
    ensures ReadField(schema, s, at).Ok? ==> ReadField(schema, s, at) == ReadField(schema, s, at')
  {
  }

  lemma {:induction false} ScanAnywhere(schema: Schema, s: Bytes, at: nat, at': nat)
    requires at + |s| < TWO63 && at' + |s| < TWO63
    ensures Agree(Scan(schema, s, at), Scan(schema, s, at'))
    decreases |s|
  {
    hide ReadField;
    if s != [] {
      ReadFieldAnywhere(schema, s, at, at');
      if ReadField(schema, s, at).Ok? {
        var n := ReadField(schema, s, at).value.size;
        ScanAnywhere(schema, s[n..], at + n, at' + n);
      }
    }
  }

  lemma ScanUnfold(schema: Schema, s: Bytes, at: nat)
    requires s != []
    ensures ReadField(schema, s, at).Err? ==> Scan(schema, s, at) == Scanned([], Some(ReadField(schema, s, at).error))
    ensures ReadField(schema, s, at).Ok? ==>
              var step := ReadField(schema, s, at).value;
              Scan(schema, s, at) == Prepend(step, Scan(schema, s[step.size..], at + step.size))
  {
  }

  function Prepend(step: Step, rest: Scanned): Scanned
  {
    Scanned(Known(step.field) + rest.fields, rest.error)
  }

  lemma ScanEmpty(schema: Schema, at: nat)
    ensures Scan(schema, [], at) == Scanned([], None)
  {
  }

  /** What scanning a concatenation amounts to, given the scans of its two parts. */
  function Joined(a: Scanned, b: Scanned): Scanned
  {
    Scanned(a.fields + b.fields, b.error)
  }

  lemma PrependJoined(step: Step, a: Scanned, b: Scanned)
    ensures Prepend(step, Joined(a, b)) == Joined(Prepend(step, a), b)
  {
    assert Known(step.field) + (a.fields + b.fields) == Known(step.field) + a.fields + b.fields;
  }

  lemma JoinedEmpty(b: Scanned)
    ensures Joined(Scanned([], None), b) == b
  {
  }

  lemma JoinedAgree(a: Scanned, b: Scanned, b': Scanned)
    requires Agree(b, b')
    ensures Agree(Joined(a, b), Joined(a, b'))
  {
  }

  /** Scanning a concatenation is scanning the first part and carrying on with the second. */
  lemma {:induction false} ScanConcat(schema: Schema, a: Bytes, b: Bytes, at: nat)
    requires Scan(schema, a, at).error.None?
    ensures Scan(schema, a + b, at) == Joined(Scan(schema, a, at), Scan(schema, b, at + |a|))
    decreases |a|
  {
    hide ReadField, Scan, Known, Joined;
    if a == [] {
      assert a + b == b;
      ScanEmpty(schema, at);
      JoinedEmpty(Scan(schema, b, at));
    } else {
      ScanUnfold(schema, a, at);
      ReadFieldLocal(schema, a, b, at);
      ScanUnfold(schema, a + b, at);
      var step := ReadField(schema, a, at).value;
      assert (a + b)[step.size..] == a[step.size..] + b;
      ScanConcat(schema, a[step.size..], b, at + step.size);
      PrependJoined(step, Scan(schema, a[step.size..], at + step.size), Scan(schema, b, at + |a|));
    }
  }

  // ---- Unknown fields ----

  /** A byte string that is one whole field with an undeclared number. */
  predicate IsUnknownField(schema: Schema, u: Bytes)
  {
    ReadTag(u).Ok? && ReadTag(u).value.num !in schema && SkipFrom(u, 0, 0) == Ok(|u|)
  }

  lemma ScanUnknownField(schema: Schema, u: Bytes, at: nat)
    requires IsUnknownField(schema, u) && at + |u| < TWO63
    ensures Scan(schema, u, at) == Scanned([], None)
  {
    assert u[|u|..] == [];
    assert Scan(schema, u[|u|..], at + |u|) == Scanned([], None);
  }

  /** Inserting an unknown field at any field boundary changes nothing that is read. */
  lemma UnknownFieldIgnored(schema: Schema, a: Bytes, u: Bytes, b: Bytes)
    requires |a| + |u| + |b| < TWO63
    requires Scan(schema, a, 0).error.None?
    requires IsUnknownField(schema, u)
    ensures Agree(Scan(schema, a + u + b, 0), Scan(schema, a + b, 0))
  {
    hide *;
    assert a + u + b == a + (u + b);
    ScanConcat(schema, a, u + b, 0);
    ScanUnknownField(schema, u, |a|);
    ScanConcat(schema, u, b, |a|);
    JoinedEmpty(Scan(schema, b, |a| + |u|));
    ScanConcat(schema, a, b, 0);
    ScanAnywhere(schema, b, |a| + |u|, |a|);
    JoinedAgree(Scan(schema, a, 0), Scan(schema, b, |a| + |u|), Scan(schema, b, |a|));
  }

  // ---- The grammar of fields ----

  /** A field as the encoding specification draws it; groups nest to any depth. */
  datatype Element =
    | VarintElement(num: nat, value: uint64)
    | Fixed64Element(num: nat, fixed: Bytes)
    | BytesElement(num: nat, bytes: Slice)
    | GroupElement(num: nat, members: Elements, closing: nat)
    | Fixed32Element(num: nat, fixed: Bytes)

  datatype Elements = Nil | Cons(head: Element, tail: Elements)

  predicate WellFormed(e: Element)
  {
    0 < e.num < TWO32 / 2 &&
    match e
    case VarintElement(_, _) => true
    case Fixed64Element(_, x) => |x| == 8
    case BytesElement(_, x) => true
    case GroupElement(_, members, closing) => AllWellFormed(members) && closing < TWO32 / 2
    case Fixed32Element(_, x) => |x| == 4
  }

  predicate AllWellFormed(es: Elements)
  {
    es.Nil? || (WellFormed(es.head) && AllWellFormed(es.tail))
  }

  function EncodeTag(num: nat, wireType: nat): Bytes
  {
    EncodeVarint(num * 8 + wireType)
  }

  function EncodeElement(e: Element): (r: Bytes)
    ensures |r| >= 1
  {
    match e
    case VarintElement(num, v) => EncodeTag(num, VARINT) + EncodeVarint(v)
    case Fixed64Element(num, x) => EncodeTag(num, FIXED64) + x
    case BytesElement(num, x) => EncodeTag(num, BYTES) + (EncodeVarint(|x|) + x)
    case GroupElement(num, members, closing) =>
      EncodeTag(num, START_GROUP) + (EncodeElements(members) + EncodeTag(closing, END_GROUP))
    case Fixed32Element(num, x) => EncodeTag(num, FIXED32) + x
  }

  function EncodeElements(es: Elements): Bytes
  {
    match es
    case Nil => []
    case Cons(e, tail) => EncodeElement(e) + EncodeElements(tail)
  }

  lemma TagRoundTrip(num: nat, wireType: nat, rest: Bytes)
    requires num < TWO32 / 2 && wireType < 8
    ensures ReadVarint(EncodeTag(num, wireType) + rest) == Ok(Read(num * 8 + wireType, |EncodeTag(num, wireType)|))
    ensures (num * 8 + wireType) % 8 == wireType && FieldNumber(num * 8 + wireType) == num
    ensures (EncodeTag(num, wireType) + rest)[|EncodeTag(num, wireType)|..] == rest
  {
    hide EncodeVarint, ReadVarint, Sov;
    VarintRoundTrip(num * 8 + wireType, rest);
    SovIsLength(num * 8 + wireType);
  }

  lemma ReadLeaf(e: Element, rest: Bytes)
    requires WellFormed(e) && !e.GroupElement?
    ensures ReadItem(EncodeElement(e) + rest) == Ok(Item(|EncodeElement(e)|, 0))
  {
    match e
    case VarintElement(num, v) =>
      assert EncodeElement(e) + rest == EncodeTag(num, VARINT) + (EncodeVarint(v) + rest);
      TagRoundTrip(num, VARINT, EncodeVarint(v) + rest);
      VarintRoundTrip(v, rest);
      SovIsLength(v);
    case Fixed64Element(num, x) =>
      assert EncodeElement(e) + rest == EncodeTag(num, FIXED64) + (x + rest);
      TagRoundTrip(num, FIXED64, x + rest);
    case BytesElement(num, x) =>
      assert EncodeElement(e) + rest == EncodeTag(num, BYTES) + (EncodeVarint(|x|) + (x + rest));
      TagRoundTrip(num, BYTES, EncodeVarint(|x|) + (x + rest));
      VarintRoundTrip(|x|, x + rest);
      SovIsLength(|x|);
    case Fixed32Element(num, x) =>
      assert EncodeElement(e) + rest == EncodeTag(num, FIXED32) + (x + rest);
      TagRoundTrip(num, FIXED32, x + rest);
  }

  lemma ReadGroupTag(num: nat, opens: int, rest: Bytes)
    requires num < TWO32 / 2 && (opens == 1 || opens == -1)
    ensures var tag := EncodeTag(num, if opens == 1 then START_GROUP else END_GROUP);
      ReadItem(tag + rest) == Ok(Item(|tag|, opens)) && (tag + rest)[|tag|..] == rest && |tag| >= 1
  {
    TagRoundTrip(num, if opens == 1 then START_GROUP else END_GROUP, rest);
  }

  /** Inside a group, skipping consumes a well-formed element and is back at the same depth. */
  lemma {:induction false} SkipElementInside(e: Element, rest: Bytes, at: nat, depth: nat)
    requires WellFormed(e) && depth > 0 && rest != []
    requires at + |EncodeElement(e)| < TWO63
    ensures SkipFrom(EncodeElement(e) + rest, at, depth) == SkipFrom(rest, at + |EncodeElement(e)|, depth)
    decreases e
  {
    if e.GroupElement? {
      SkipGroup(e, rest, at, depth);
    } else {
      ReadLeaf(e, rest);
      assert (EncodeElement(e) + rest)[|EncodeElement(e)|..] == rest;
    }
  }

  lemma {:induction false} SkipElementsInside(es: Elements, rest: Bytes, at: nat, depth: nat)
    requires AllWellFormed(es) && depth > 0 && rest != []
    requires at + |EncodeElements(es)| < TWO63
    ensures SkipFrom(EncodeElements(es) + rest, at, depth) == SkipFrom(rest, at + |EncodeElements(es)|, depth)
    decreases es
  {
    hide SkipFrom, EncodeElement;
    match es
    case Nil =>
      assert EncodeElements(es) + rest == rest;
    case Cons(e, tail) =>
      assert EncodeElements(es) + rest == EncodeElement(e) + (EncodeElements(tail) + rest);
      SkipElementInside(e, EncodeElements(tail) + rest, at, depth);
      SkipElementsInside(tail, rest, at + |EncodeElement(e)|, depth);
  }

  lemma {:induction false} SkipGroup(e: Element, rest: Bytes, at: nat, depth: nat)
    requires e.GroupElement? && WellFormed(e)
    requires at + |EncodeElement(e)| < TWO63
    ensures SkipFrom(EncodeElement(e) + rest, at, depth)
         == if depth == 0 then Ok(at + |EncodeElement(e)|)
            else if rest == [] then Err(UnexpectedEOF)
            else SkipFrom(rest, at + |EncodeElement(e)|, depth)
    decreases e, 0
  {
    hide EncodeTag, SkipFrom, ReadItem;
    var open, inner, close := EncodeTag(e.num, START_GROUP), EncodeElements(e.members), EncodeTag(e.closing, END_GROUP);
    assert EncodeElement(e) + rest == open + (inner + (close + rest));
    ReadGroupTag(e.num, 1, inner + (close + rest));
    SkipUnfold(EncodeElement(e) + rest, at, depth);
    ReadGroupTag(e.closing, -1, rest);
    SkipElementsInside(e.members, close + rest, at + |open|, depth + 1);
    SkipUnfold(close + rest, at + |open| + |inner|, depth + 1);
  }

  /** The bytes of an element after its tag. */
  function AfterTag(e: Element): Bytes
  {
    match e
    case VarintElement(_, v) => EncodeVarint(v)
    case Fixed64Element(_, x) => x
    case BytesElement(_, x) => EncodeVarint(|x|) + x
    case GroupElement(_, members, closing) => EncodeElements(members) + EncodeTag(closing, END_GROUP)
    case Fixed32Element(_, x) => x
  }

  function WireType(e: Element): nat
  {
    match e
    case VarintElement(_, _) => VARINT
    case Fixed64Element(_, _) => FIXED64
    case BytesElement(_, _) => BYTES
    case GroupElement(_, _, _) => START_GROUP
    case Fixed32Element(_, _) => FIXED32
  }

  lemma TagFirst(e: Element)
    ensures EncodeElement(e) == EncodeTag(e.num, WireType(e)) + AfterTag(e)
  {
    hide EncodeTag, EncodeVarint, EncodeElements;
  }

  lemma ReadElementTag(e: Element)
    requires WellFormed(e)
    ensures ReadTag(EncodeElement(e)).Ok? && ReadTag(EncodeElement(e)).value.num == e.num
  {
    hide EncodeTag, EncodeElement, AfterTag, ReadVarint;
    TagFirst(e);
    TagRoundTrip(e.num, WireType(e), AfterTag(e));
  }

  /** Every well-formed element with an undeclared number, nested groups included, is an unknown field. */
  lemma ElementIsUnknownField(schema: Schema, e: Element)
    requires WellFormed(e) && e.num !in schema && |EncodeElement(e)| < TWO63
    ensures IsUnknownField(schema, EncodeElement(e))
  {
    hide EncodeElement, ReadTag, ReadItem, SkipFrom;
    var bytes := EncodeElement(e);
    assert bytes + [] == bytes;
    ReadElementTag(e);
    if e.GroupElement? {
      SkipGroup(e, [], 0, 0);
    } else {
      ReadLeaf(e, []);
      SkipUnfold(bytes, 0, 0);
    }
  }
}
