/**
 What the depth-counting skipper accepts: the recursive grammar of a protobuf
 field (section "Message Structure" of the Protocol Buffers Encoding guide),
 where a group nests a list of fields between a start tag and an end tag.
 */
module Groups {
  import opened GoInts
  import opened Varint
  import opened Wire

  datatype Element =
    | Scalar(tag: seq<byte>, body: seq<byte>)
    | Group(open: seq<byte>, kids: Elements, close: seq<byte>)

  datatype Elements = Nil | Cons(head: Element, tail: Elements)

  function Bytes(e: Element): seq<byte> {
    match e
    case Scalar(tag, body) => tag + body
    case Group(open, kids, close) => open + (ListBytes(kids) + close)
  }

  function ListBytes(es: Elements): seq<byte> {
    match es
    case Nil => []
    case Cons(e, rest) => Bytes(e) + ListBytes(rest)
  }

  /** bs is exactly one varint. */
  predicate IsVarint(bs: seq<byte>) {
    VarintEnd(bs, 0, MAX_VARINT_BYTES) == Ok(|bs|)
  }

  function WireType(tag: seq<byte>): int {
    ToUint64(Base128(tag)) % 8
  }

  /** body is one complete field body of the given wire type. */
  predicate IsBody(wireType: int, body: seq<byte>) {
    match wireType
    case 0 => IsVarint(body)
    case 1 => |body| == 8
    case 2 =>
      var read := ReadVarint(body, 0);
      read.Ok? && ToInt64(read.value.v) == |body| - read.value.next
    case 5 => |body| == 4
    case _ => false
  }

  predicate WellFormed(e: Element) {
    match e
    case Scalar(tag, body) => IsVarint(tag) && IsBody(WireType(tag), body)
    case Group(open, kids, close) =>
      && IsVarint(open) && WireType(open) == START_GROUP
      && AllWellFormed(kids)
      && IsVarint(close) && WireType(close) == END_GROUP
  }

  predicate AllWellFormed(es: Elements) {
    match es
    case Nil => true
    case Cons(e, rest) => WellFormed(e) && AllWellFormed(rest)
  }

  // ---------------------------------------------------------------- every field is skipped whole

  /** c stands in s at index i. */
  ghost predicate At(s: seq<byte>, i: nat, c: seq<byte>) {
    i + |c| <= |s| && s[i..i + |c|] == c
  }

  lemma AtParts(s: seq<byte>, i: nat, c: seq<byte>, d: seq<byte>)
    ensures At(s, i, c + d) <==> At(s, i, c) && At(s, i + |c|, d)
  {
    if At(s, i, c + d) {
      assert s[i..i + |c|] == (c + d)[..|c|];
      assert s[i + |c|..i + |c| + |d|] == (c + d)[|c|..];
    }
    if At(s, i, c) && At(s, i + |c|, d) {
      assert s[i..i + |c + d|] == c + d;
    }
  }

  lemma VarintEndAt(s: seq<byte>, i: nat, c: seq<byte>)
    requires At(s, i, c) && IsVarint(c)
    ensures VarintEnd(s, i, MAX_VARINT_BYTES) == Ok(i + |c|)
  {
    hide VarintEnd;
    assert s == s[..i] + (c + s[i + |c|..]);
    VarintEndPrefix(c, s[i + |c|..], 0, MAX_VARINT_BYTES);
    VarintEndShift(s[..i], c + s[i + |c|..], 0, MAX_VARINT_BYTES);
  }

  lemma TagAt(s: seq<byte>, i: nat, tag: seq<byte>)
    requires At(s, i, tag) && IsVarint(tag)
    ensures ReadVarint(s, i) == Ok(Read(ToUint64(Base128(tag)), i + |tag|))
  {
    hide VarintEnd, Base128;
    VarintEndAt(s, i, tag);
  }

  lemma BodyAt(s: Buffer, j: nat, wireType: int, body: seq<byte>)
    requires At(s, j, body) && IsBody(wireType, body)
    ensures wireType !in {START_GROUP, END_GROUP}
    ensures SkipBody(s, j, wireType) == Ok(j + |body|)
  {
    hide VarintEnd, Base128;
    if wireType == VARINT { VarintEndAt(s, j, body); }
    if wireType == DELIMITED {
      var read := ReadVarint(body, 0).value;
      var len := body[..read.next];
      VarintEndPrefixOf(body, read.next);
      assert body == len + body[read.next..];
      AtParts(s, j, len, body[read.next..]);
      assert body[0..read.next] == len;
      TagAt(s, j, len);
    }
  }

  /** The bytes up to the end of a varint are that varint. */
  lemma {:induction false} VarintEndPrefixOf(s: seq<byte>, n: nat)
    requires VarintEnd(s, 0, MAX_VARINT_BYTES) == Ok(n)
    ensures IsVarint(s[..n])
  {
    VarintEndTruncated(s, 0, MAX_VARINT_BYTES, n);
  }

  lemma {:induction false} VarintEndTruncated(s: seq<byte>, i: nat, budget: nat, n: nat)
    requires VarintEnd(s, i, budget) == Ok(n)
    ensures VarintEnd(s[..n], i, budget) == Ok(n)
    decreases |s| - i
  {
    if s[i] >= 128 { VarintEndTruncated(s, i + 1, budget - 1, n); }
  }

  /** The skipper passes a well-formed field as one unit, at any nesting depth. */
  lemma {:induction false} SkipsElement(s: Buffer, i: nat, depth: nat, e: Element)
    requires At(s, i, Bytes(e)) && WellFormed(e)
    ensures SkipFrom(s, i, depth) == Skipped(s, i + |Bytes(e)|, depth)
    decreases e
  {
    hide At, ReadVarint, SkipBody, IsVarint, IsBody, ListBytes, AllWellFormed, ToUint64, Base128;
    match e
    case Scalar(tag, body) =>
      AtParts(s, i, tag, body);
      TagAt(s, i, tag);
      BodyAt(s, i + |tag|, WireType(tag), body);
    case Group(open, kids, close) =>
      var j := i + |open|;
      var k := j + |ListBytes(kids)|;
      AtParts(s, i, open, ListBytes(kids) + close);
      AtParts(s, j, ListBytes(kids), close);
      TagAt(s, i, open);
      SkipsElements(s, j, depth + 1, kids);
      TagAt(s, k, close);
  }

  lemma {:induction false} SkipsElements(s: Buffer, i: nat, depth: nat, es: Elements)
    requires At(s, i, ListBytes(es)) && AllWellFormed(es) && depth > 0
    ensures SkipFrom(s, i, depth) == SkipFrom(s, i + |ListBytes(es)|, depth)
    decreases es
  {
    hide At, SkipFrom, WellFormed, Bytes;
    match es
    case Nil =>
    case Cons(e, rest) =>
      AtParts(s, i, Bytes(e), ListBytes(rest));
      SkipsElement(s, i, depth, e);
      SkipsElements(s, i + |Bytes(e)|, depth, rest);
  }

  // ---------------------------------------------------------------- only fields are skipped

  /** The rest of every open group, innermost first: the fields still to come and the end tag. */
  datatype Levels = Outside | Level(fields: Elements, close: seq<byte>, outer: Levels)

  function Depth(ls: Levels): nat {
    match ls case Outside => 0 case Level(_, _, outer) => 1 + Depth(outer)
  }

  function LevelBytes(ls: Levels): seq<byte> {
    match ls
    case Outside => []
    case Level(fields, close, outer) => ListBytes(fields) + (close + LevelBytes(outer))
  }

  predicate LevelsWellFormed(ls: Levels) {
    match ls
    case Outside => true
    case Level(fields, close, outer) =>
      AllWellFormed(fields) && IsVarint(close) && WireType(close) == END_GROUP && LevelsWellFormed(outer)
  }

  lemma {:induction false} VarintBytes(s: Buffer, j: nat)
    requires VarintEnd(s, j, MAX_VARINT_BYTES).Ok?
    ensures IsVarint(s[j..VarintEnd(s, j, MAX_VARINT_BYTES).value])
  {
    hide VarintEnd, IsVarint;
    var n := VarintEnd(s, j, MAX_VARINT_BYTES).value;
    SliceParts(s, j, n);
    VarintBehind(s[..j], s[j..], n);
  }

  lemma {:induction false} VarintBehind(front: seq<byte>, rest: seq<byte>, n: nat)
    requires VarintEnd(front + rest, |front|, MAX_VARINT_BYTES) == Ok(n)
    ensures |front| <= n <= |front| + |rest| && IsVarint(rest[..n - |front|])
  {
    hide VarintEnd, IsVarint;
    VarintEndShift(front, rest, 0, MAX_VARINT_BYTES);
    VarintEndPrefixOf(rest, n - |front|);
  }

  lemma SliceParts(s: seq<byte>, j: nat, n: nat)
    requires j <= n <= |s|
    ensures s == s[..j] + s[j..] && s[j..][..n - j] == s[j..n]
  {
  }

  lemma {:induction false} TagBytes(s: Buffer, i: nat)
    requires ReadVarint(s, i).Ok?
    ensures var tag := s[i..ReadVarint(s, i).value.next];
            IsVarint(tag) && ToUint64(Base128(tag)) == ReadVarint(s, i).value.v
  {
    hide VarintEnd, IsVarint, Base128;
    VarintBytes(s, i);
  }

  lemma {:induction false} BodyBytes(s: Buffer, j: nat, wireType: int)
    requires j <= |s| && wireType !in {START_GROUP, END_GROUP}
    requires SkipBody(s, j, wireType).Ok? && SkipBody(s, j, wireType).value <= |s|
    ensures IsBody(wireType, s[j..SkipBody(s, j, wireType).value])
  {
    hide ReadVarint, VarintEnd;
    if wireType == VARINT { VarintBytes(s, j); }
    if wireType == DELIMITED { DelimitedBytes(s, j, SkipBody(s, j, wireType).value); }
  }

  lemma {:induction false} DelimitedBytes(s: Buffer, j: nat, n: nat)
    requires ReadVarint(s, j).Ok? && ToInt64(ReadVarint(s, j).value.v) == n - ReadVarint(s, j).value.next
    requires ReadVarint(s, j).value.next <= n <= |s|
    ensures IsBody(DELIMITED, s[j..n])
  {
    hide ReadVarint, IsVarint, Base128, ToInt64, At;
    var read := ReadVarint(s, j).value;
    var body, len := s[j..n], s[j..read.next];
    TagBytes(s, j);
    assert body == len + s[read.next..n];
    WholeAt(body);
    AtParts(body, 0, len, s[read.next..n]);
    TagAt(body, 0, len);
  }

  lemma WholeAt(s: seq<byte>)
    ensures At(s, 0, s)
  {
  }

  /** What the skipper consumes from inside `depth` open groups is the rest of each of them. */
  lemma {:induction false} SkippedLevels(s: Buffer, i: nat, depth: nat) returns (ls: Levels)
    requires depth > 0 && SkipFrom(s, i, depth).Ok? && SkipFrom(s, i, depth).value <= |s|
    ensures Depth(ls) == depth && LevelsWellFormed(ls)
    ensures LevelBytes(ls) == s[i..SkipFrom(s, i, depth).value]
    decreases |s| - i
  {
    hide ReadVarint, SkipBody, IsVarint, IsBody, ToUint64, Base128;
    var n := SkipFrom(s, i, depth).value;
    var j := ReadVarint(s, i).value.next;
    var tag := s[i..j];
    var wireType := ReadVarint(s, i).value.v % 8;
    TagBytes(s, i);
    if wireType == START_GROUP {
      var inner := SkippedLevels(s, j, depth + 1);
      assert s[i..n] == tag + s[j..n];
      ls := CloseInner(tag, inner);
    } else if wireType == END_GROUP {
      var outer := Outside;
      if depth > 1 { outer := SkippedLevels(s, j, depth - 1); }
      ls := Level(Nil, tag, outer);
      assert s[i..n] == tag + s[j..n];
    } else {
      var k := SkipBody(s, j, wireType).value;
      var rest := SkippedLevels(s, k, depth);
      BodyBytes(s, j, wireType);
      assert s[i..n] == (tag + s[j..k]) + s[k..n];
      ls := AddField(Scalar(tag, s[j..k]), rest);
    }
  }

  /** A start tag in front turns the innermost level into a field of the next one. */
  lemma CloseInner(tag: seq<byte>, inner: Levels) returns (ls: Levels)
    requires Depth(inner) >= 2 && LevelsWellFormed(inner) && IsVarint(tag) && WireType(tag) == START_GROUP
    ensures Depth(ls) == Depth(inner) - 1 && LevelsWellFormed(ls)
    ensures LevelBytes(ls) == tag + LevelBytes(inner)
  {
    var group := Group(tag, inner.fields, inner.close);
    ls := AddField(group, inner.outer);
    var fields, rest := ListBytes(inner.fields), LevelBytes(inner.outer);
    assert Bytes(group) + rest == tag + (fields + (inner.close + rest));
  }

  lemma AddField(e: Element, rest: Levels) returns (ls: Levels)
    requires rest.Level? && LevelsWellFormed(rest) && WellFormed(e)
    ensures Depth(ls) == Depth(rest) && LevelsWellFormed(ls)
    ensures LevelBytes(ls) == Bytes(e) + LevelBytes(rest)
  {
    hide Bytes;
    ls := Level(Cons(e, rest.fields), rest.close, rest.outer);
  }

  /** The depth counter recognises exactly the recursive grammar of one field. */
  lemma SkipMeansOneField(s: Buffer, n: nat)
    requires n <= |s|
    ensures SkipFrom(s, 0, 0) == Ok(n) <==> exists e :: WellFormed(e) && Bytes(e) == s[..n]
  {
    hide SkipFrom, WellFormed, Bytes;
    if SkipFrom(s, 0, 0) == Ok(n) {
      var e := SkippedElement(s, n);
    } else if exists e :: WellFormed(e) && Bytes(e) == s[..n] {
      var e :| WellFormed(e) && Bytes(e) == s[..n];
      assert At(s, 0, Bytes(e));
      SkipsElement(s, 0, 0, e);
    }
  }

  lemma SkippedElement(s: Buffer, n: nat) returns (e: Element)
    requires n <= |s| && SkipFrom(s, 0, 0) == Ok(n)
    ensures WellFormed(e) && Bytes(e) == s[..n]
  {
    hide ReadVarint, SkipBody, IsVarint, IsBody, ToUint64, Base128;
    var j := ReadVarint(s, 0).value.next;
    var tag := s[0..j];
    var wireType := ReadVarint(s, 0).value.v % 8;
    TagBytes(s, 0);
    if wireType == START_GROUP {
      var ls := SkippedLevels(s, j, 1);
      e := Group(tag, ls.fields, ls.close);
      assert s[..n] == tag + s[j..n];
    } else {
      BodyBytes(s, j, wireType);
      e := Scalar(tag, s[j..n]);
    }
  }

  // ---------------------------------------------------------------- unknown fields change nothing

  function FirstTag(e: Element): seq<byte> {
    match e case Scalar(tag, _) => tag case Group(open, _, _) => open
  }

  function FieldNumber(e: Element): int {
    ToInt32(ToUint64(Base128(FirstTag(e))) / 8)
  }

  /** A well-formed field with a number the message does not know is read as `Unknown`. */
  lemma UnknownFieldRead(schema: Schema, e: Element)
    requires WellFormed(e) && |Bytes(e)| < TWO_63 && FieldNumber(e) > 0 && FieldNumber(e) !in schema
    ensures Bytes(e) != [] && ReadField(schema, Bytes(e), 0) == Ok(Field(Unknown, |Bytes(e)|))
  {
    hide ReadVarint, IsVarint, IsBody, ToUint64, ToInt32, Base128, AllWellFormed, ListBytes, SkipFrom;
    var s := Bytes(e);
    var rest := match e case Scalar(_, body) => body case Group(_, kids, close) => ListBytes(kids) + close;
    assert s == FirstTag(e) + rest;
    AtParts(s, 0, FirstTag(e), rest);
    TagAt(s, 0, FirstTag(e));
    NotAnEndTag(e);
    SkipsElement(s, 0, 0, e);
    assert s[0..] == s;
  }

  lemma NotAnEndTag(e: Element)
    requires WellFormed(e)
    ensures WireType(FirstTag(e)) != END_GROUP
  {
  }

  lemma {:induction false} CrossingGrows<M>(codec: Codec<M>, m: M, s: Buffer, i: nat, d: nat, d': nat)
    requires i <= |s| && d <= d' && FailsCrossing(codec, m, s, i, d)
    ensures FailsCrossing(codec, m, s, i, d')
    decreases |s| - i
  {
    hide ReadField, AnnouncedEnd;
    if ReadField(codec.schema, s, i).Ok? {
      var field := ReadField(codec.schema, s, i).value;
      CrossingGrows(codec, Store(codec, m, field.item).value, s, field.next, d, d');
    }
  }

  /**
   Inserting a well-formed unknown field at a field boundary never changes what a message decodes
   to. Nor does it change the error, unless the rest stops at a field whose announced end
   overflows only because of the inserted bytes.
   */
  lemma UnknownFieldIgnored<M>(codec: Codec<M>, m: M, before: Buffer, e: Element, after: Buffer)
    requires |before| + |Bytes(e)| + |after| < TWO_63 && Decode(codec, m, before, 0).Ok?
    requires WellFormed(e) && FieldNumber(e) > 0 && FieldNumber(e) !in codec.schema
    ensures var m' := Decode(codec, m, before, 0).value;
            var longer, shorter := Decode(codec, m, before + Bytes(e) + after, 0), Decode(codec, m, before + after, 0);
            && (longer == shorter <==> (FailsCrossing(codec, m', after, 0, |before + Bytes(e)|) ==>
                                          FailsCrossing(codec, m', after, 0, |before|)))
            && (longer != shorter ==> longer == Err(InvalidLength) && shorter == Err(UnexpectedEOF))
  {
    var m' := Decode(codec, m, before, 0).value;
    UnknownFieldRead(codec.schema, e);
    assert Decode(codec, m', Bytes(e), 0) == Ok(m');
    hide Decode, FailsCrossing;
    DecodeConcat(codec, m, before, Bytes(e));
    DecodeConcat(codec, m, before + Bytes(e), after);
    DecodeConcat(codec, m, before, after);
    if FailsCrossing(codec, m', after, 0, |before|) {
      CrossingGrows(codec, m', after, 0, |before|, |before + Bytes(e)|);
    }
  }
}
