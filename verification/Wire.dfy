/**
 The message loop shared by every generated `Unmarshal`
 (cosmos/x/evm/types/consensus.pb.go and tx.pb.go) and the unknown-field skipper.
 A message is described by the wire kind of each field number it knows.
 */
module Wire {
  import opened GoInts
  import opened Options
  import opened Varint

  datatype Kind = KVarint | KBytes
  type Schema = map<int, Kind>

  datatype Item =
    | VarintItem(num: int, v: uint64)
    | BytesItem(num: int, bytes: Buffer)
    | Unknown                               // a field the schema does not list, skipped

  datatype Field = Field(item: Item, next: nat)
  datatype Chunk = Chunk(bytes: Buffer, next: nat)

  const VARINT := 0
  const FIXED64 := 1
  const DELIMITED := 2
  const START_GROUP := 3
  const END_GROUP := 4
  const FIXED32 := 5

  /** A length prefix and the bytes it announces. */
  function ReadBytes(s: Buffer, i: nat): (r: Result<Chunk>)
    ensures r.Ok? ==> i < r.value.next <= |s| && |r.value.bytes| < r.value.next - i
    ensures r.Ok? ==> r.value.bytes == s[r.value.next - |r.value.bytes|..r.value.next]
  {
    var read :- ReadVarint(s, i);
    var byteLen := ToInt64(read.v);
    if byteLen < 0 then Err(InvalidLength) else
    var postIndex := ToInt64(read.next + byteLen);
    if postIndex < 0 then Err(InvalidLength)
    else if postIndex > |s| then Err(UnexpectedEOF)
    else Ok(Chunk(s[read.next..postIndex], postIndex))
  }

  // ---------------------------------------------------------------- unknown fields

  /** The index behind the body of a field whose tag ended at j; it may lie past the end of s. */
  function SkipBody(s: Buffer, j: nat, wireType: int): (r: Result<nat>)
    requires j <= |s| && wireType !in {START_GROUP, END_GROUP}
    ensures r.Ok? ==> j <= r.value < TWO_63
  {
    match wireType
    case 0 => VarintEnd(s, j, MAX_VARINT_BYTES)
    case 1 => if ToInt64(j + 8) < 0 then Err(InvalidLength) else Ok(j + 8)
    case 2 =>
      var read :- ReadVarint(s, j);
      var length := ToInt64(read.v);
      if length < 0 || ToInt64(read.next + length) < 0 then Err(InvalidLength) else Ok(read.next + length)
    case 5 => if ToInt64(j + 4) < 0 then Err(InvalidLength) else Ok(j + 4)
    case _ => Err(IllegalWireType)
  }

  function BytesLeft(s: seq<byte>, i: nat): nat {
    if i < |s| then |s| - i else 0
  }

  /** `skipConsensus` and `skipTx` from index i inside `depth` open groups. */
  function SkipFrom(s: Buffer, i: nat, depth: nat): (r: Result<nat>)
    ensures r.Ok? ==> i < r.value < TWO_63
    decreases BytesLeft(s, i), 0
  {
    if i >= |s| then Err(UnexpectedEOF) else
    var tag :- ReadVarint(s, i);
    var wireType := tag.v % 8;
    if wireType == START_GROUP then SkipFrom(s, tag.next, depth + 1)
    else if wireType == END_GROUP then
      if depth == 0 then Err(UnexpectedEndOfGroup) else Skipped(s, tag.next, depth - 1)
    else
      var next :- SkipBody(s, tag.next, wireType);
      Skipped(s, next, depth)
  }

  /** One tag and its body are behind: the field is over once no group is open. */
  function Skipped(s: Buffer, next: nat, depth: nat): (r: Result<nat>)
    requires next < TWO_63
    ensures r.Ok? ==> next <= r.value < TWO_63
    decreases BytesLeft(s, next), 1
  {
    if depth == 0 then Ok(next) else SkipFrom(s, next, depth)
  }

  // ---------------------------------------------------------------- one field, one message

  /** The index behind the field at i, which must end inside s. */
  function SkipUnknown(s: Buffer, i: nat): (r: Result<nat>)
    requires i < |s|
    ensures r.Ok? ==> i < r.value <= |s|
  {
    var skippy :- SkipFrom(s[i..], 0, 0);
    if ToInt64(i + skippy) < 0 then Err(InvalidLength)
    else if ToInt64(i + skippy) > |s| then Err(UnexpectedEOF)
    else Ok(i + skippy)
  }

  /** One turn of the message loop at index i. */
  function ReadField(schema: Schema, s: Buffer, i: nat): (r: Result<Field>)
    requires i < |s|
    ensures r.Ok? ==> i < r.value.next <= |s|
  {
    var tag :- ReadVarint(s, i);
    var num := ToInt32(tag.v / 8);
    var wireType := tag.v % 8;
    if wireType == END_GROUP then Err(EndGroup)
    else if num <= 0 then Err(IllegalTag)
    else if num !in schema then
      var next :- SkipUnknown(s, i);
      Ok(Field(Unknown, next))
    else if schema[num].KBytes? then
      if wireType != DELIMITED then Err(WrongWireType) else
      var chunk :- ReadBytes(s, tag.next);
      Ok(Field(BytesItem(num, chunk.bytes), chunk.next))
    else
      if wireType != VARINT then Err(WrongWireType) else
      var read :- ReadVarint(s, tag.next);
      Ok(Field(VarintItem(num, read.v), read.next))
  }

  /**
   A message type: the fields it knows, what a decoded field does to a message, and what a field
   that fails while it is stored leaves of it.
   */
  datatype Codec<!M> = Codec(schema: Schema, setField: (M, Item) -> Result<M>, leaveField: (M, Item) -> M)

  function Store<M>(codec: Codec<M>, m: M, item: Item): Result<M> {
    if item.Unknown? then Ok(m) else codec.setField(m, item)
  }

  /** Decodes s from index i onto the message m. */
  function Decode<M>(codec: Codec<M>, m: M, s: Buffer, i: nat): (r: Result<M>)
    requires i <= |s|
    decreases |s| - i
  {
    if i == |s| then Ok(m) else
    var field :- ReadField(codec.schema, s, i);
    var m' :- Store(codec, m, field.item);
    Decode(codec, m', s, field.next)
  }

  /** The number field at i whose varint breaks off, with what was accumulated of it. */
  function BrokenNumber(schema: Schema, s: Buffer, i: nat): Option<Item>
    requires i < |s|
  {
    var tag := ReadVarint(s, i);
    if tag.Err? || tag.value.v % 8 != VARINT then None else
    var num := ToInt32(tag.value.v / 8);
    if num <= 0 || num !in schema || schema[num].KBytes? || ReadVarint(s, tag.value.next).Ok? then None
    else Some(VarintItem(num, BrokenVarint(s, tag.value.next)))
  }

  /** The message that decoding s from index i onto m leaves behind, also on an error. */
  function Left<M>(codec: Codec<M>, m: M, s: Buffer, i: nat): M
    requires i <= |s|
    decreases |s| - i
  {
    if i == |s| then m else
    match ReadField(codec.schema, s, i)
    case Err(_) =>
      var broken := BrokenNumber(codec.schema, s, i);
      if broken.Some? then codec.leaveField(m, broken.value) else m
    case Ok(field) =>
      match Store(codec, m, field.item)
      case Err(_) => codec.leaveField(m, field.item)
      case Ok(m') => Left(codec, m', s, field.next)
  }

  /** A tag that is an end-group, has no positive int32 number, or does not fit the field it names. */
  lemma TagErrors(schema: Schema, s: Buffer, i: nat)
    requires i < |s| && ReadVarint(s, i).Ok?
    ensures var v := ReadVarint(s, i).value.v;
            var num, wireType, r := v / 8 % 0x1_0000_0000, v % 8, ReadField(schema, s, i);
            && (r == Err(EndGroup) <== wireType == 4)
            && (r == Err(IllegalTag) <== wireType != 4 && (num == 0 || num >= 0x8000_0000))
            && (r == Err(WrongWireType) <== wireType != 4 && 0 < num < 0x8000_0000 && num in schema
                                            && wireType != if schema[num].KBytes? then 2 else 0)
  {
  }

  /** A length prefix yields the announced bytes, unless their end is no int or lies past the buffer. */
  lemma LengthErrors(s: Buffer, i: nat)
    requires ReadVarint(s, i).Ok?
    ensures var v, next := ReadVarint(s, i).value.v, ReadVarint(s, i).value.next;
            && (next + v >= TWO_63 ==> ReadBytes(s, i) == Err(InvalidLength))
            && (|s| < next + v < TWO_63 ==> ReadBytes(s, i) == Err(UnexpectedEOF))
            && (next + v <= |s| ==> ReadBytes(s, i) == Ok(Chunk(s[next..next + v], next + v)))
  {
    hide ReadVarint;
  }

  /** Where the skipper gives up: end of input, a stray end-group, wire types 6 and 7, a length that is no int. */
  lemma SkipErrors(s: Buffer, i: nat, depth: nat)
    ensures i >= |s| ==> SkipFrom(s, i, depth) == Err(UnexpectedEOF)
    ensures i < |s| && ReadVarint(s, i).Ok? ==>
              var wireType := ReadVarint(s, i).value.v % 8;
              && (wireType == 4 && depth == 0 ==> SkipFrom(s, i, depth) == Err(UnexpectedEndOfGroup))
              && (wireType in {6, 7} ==> SkipFrom(s, i, depth) == Err(IllegalWireType))
              && (wireType == 2 && ReadVarint(s, ReadVarint(s, i).value.next).Ok? ==>
                    var length := ReadVarint(s, ReadVarint(s, i).value.next).value;
                    length.next + length.v >= TWO_63 ==> SkipFrom(s, i, depth) == Err(InvalidLength))
  {
  }

  // ---------------------------------------------------------------- decoding is storing what was parsed

  /** The message type that just lists the known fields as they come. */
  function Collector(schema: Schema): Codec<seq<Item>> {
    Codec(schema, (items: seq<Item>, item: Item) => Ok(items + [item]), (items: seq<Item>, item: Item) => items)
  }

  /** Stores items one by one, until one fails. */
  function StoreAll<M>(codec: Codec<M>, m: M, items: seq<Item>): Result<M> {
    if items == [] then Ok(m) else
    var m' :- Store(codec, m, items[0]);
    StoreAll(codec, m', items[1..])
  }

  /** Any codec decodes what parses by storing the known fields in the order they stand on the wire. */
  lemma {:induction false} DecodeStores<M>(codec: Codec<M>, m: M, s: Buffer, i: nat, done: seq<Item>)
    requires i <= |s| && Decode(Collector(codec.schema), done, s, i).Ok?
    ensures var items := Decode(Collector(codec.schema), done, s, i).value;
            done <= items && Decode(codec, m, s, i) == StoreAll(codec, m, items[|done|..])
    decreases |s| - i
  {
    hide ReadField;
    if i < |s| {
      var field := ReadField(codec.schema, s, i).value;
      if field.item.Unknown? {
        DecodeStores(codec, m, s, field.next, done);
      } else {
        var items := Decode(Collector(codec.schema), done, s, i).value;
        var done' := done + [field.item];
        var stored := Store(codec, m, field.item);
        DecodeStores(codec, if stored.Ok? then stored.value else m, s, field.next, done');
        assert items[|done|..][1..] == items[|done'|..] && items[|done|] == field.item;
      }
    }
  }

  // ---------------------------------------------------------------- the loops

  method DecodeBytes(s: Buffer, i: nat) returns (r: Result<Chunk>)
    requires i <= |s|
    ensures r == ReadBytes(s, i)
  {
    var read :- DecodeVarint(s, i);
    var byteLen := ToInt64(read.v);
    if byteLen < 0 { return Err(InvalidLength); }
    var postIndex := ToInt64(read.next + byteLen);
    if postIndex < 0 { return Err(InvalidLength); }
    if postIndex > |s| { return Err(UnexpectedEOF); }
    r := Ok(Chunk(s[read.next..postIndex], postIndex));
  }

  /** The value-less varint loop of the skipper. */
  method PassVarint(s: Buffer, start: nat) returns (r: Result<nat>)
    requires start <= |s|
    ensures r == VarintEnd(s, start, MAX_VARINT_BYTES)
  {
    var i, shift := start, 0;
    while true
      invariant start <= i <= |s| && shift == 7 * (i - start) && shift <= 70
      invariant VarintEnd(s, start, MAX_VARINT_BYTES) == VarintEnd(s, i, MAX_VARINT_BYTES - (i - start))
      decreases |s| - i
    {
      if shift >= 64 { return Err(IntOverflow); }
      if i >= |s| { return Err(UnexpectedEOF); }
      i := i + 1;
      if s[i - 1] < 128 { return Ok(i); }
      shift := shift + 7;
    }
  }

  method PassBody(s: Buffer, j: nat, wireType: int) returns (r: Result<nat>)
    requires j <= |s| && wireType !in {START_GROUP, END_GROUP}
    ensures r == SkipBody(s, j, wireType)
  {
    var next: int;
    if wireType == VARINT {
      next :- PassVarint(s, j);
    } else if wireType == FIXED64 {
      next := ToInt64(j + 8);
    } else if wireType == DELIMITED {
      var read :- DecodeVarint(s, j);
      var length := ToInt64(read.v);
      if length < 0 { return Err(InvalidLength); }
      next := ToInt64(read.next + length);
    } else if wireType == FIXED32 {
      next := ToInt64(j + 4);
    } else {
      return Err(IllegalWireType);
    }
    if next < 0 { return Err(InvalidLength); }
    r := Ok(next);
  }

  /** `skipConsensus` and `skipTx`: a loop that counts open groups. */
  method Skip(s: Buffer) returns (r: Result<nat>)
    ensures r == SkipFrom(s, 0, 0)
  {
    var i: nat, depth: nat := 0, 0;
    while i < |s|
      invariant SkipFrom(s, 0, 0) == SkipFrom(s, i, depth)
      decreases BytesLeft(s, i)
    {
      var tag :- DecodeVarint(s, i);
      var wireType := tag.v % 8;
      if wireType == START_GROUP {
        i, depth := tag.next, depth + 1;
      } else if wireType == END_GROUP {
        if depth == 0 { return Err(UnexpectedEndOfGroup); }
        i, depth := tag.next, depth - 1;
      } else {
        i :- PassBody(s, tag.next, wireType);
      }
      if depth == 0 { return Ok(i); }
    }
    r := Err(UnexpectedEOF);
  }

  /** The `default` branch of every unmarshaller. */
  method PassUnknown(s: Buffer, i: nat) returns (r: Result<nat>)
    requires i < |s|
    ensures r == SkipUnknown(s, i)
  {
    var skippy :- Skip(s[i..]);
    if ToInt64(i + skippy) < 0 { return Err(InvalidLength); }
    if ToInt64(i + skippy) > |s| { return Err(UnexpectedEOF); }
    r := Ok(i + skippy);
  }

  // ---------------------------------------------------------------- bytes behind do not matter

  lemma ReadBytesPrefix(a: Buffer, b: Buffer, i: nat)
    requires |a| + |b| < TWO_63 && ReadBytes(a, i).Ok?
    ensures ReadBytes(a + b, i) == ReadBytes(a, i)
  {
    hide ReadVarint;
    ReadVarintPrefix(a, b, i);
    var read := ReadVarint(a, i).value;
    var post := ReadBytes(a, i).value.next;
    assert (a + b)[read.next..post] == a[read.next..post];
  }

  lemma SkipBodyPrefix(a: Buffer, b: Buffer, j: nat, wireType: int)
    requires |a| + |b| < TWO_63 && j <= |a| && wireType !in {START_GROUP, END_GROUP}
    requires SkipBody(a, j, wireType).Ok?
    ensures SkipBody(a + b, j, wireType) == SkipBody(a, j, wireType)
  {
    if wireType == VARINT { VarintEndPrefix(a, b, j, MAX_VARINT_BYTES); }
    if wireType == DELIMITED { ReadVarintPrefix(a, b, j); }
  }

  lemma {:induction false} SkipFromPrefix(a: Buffer, b: Buffer, i: nat, depth: nat)
    requires |a| + |b| < TWO_63
    requires SkipFrom(a, i, depth).Ok? && SkipFrom(a, i, depth).value <= |a|
    ensures SkipFrom(a + b, i, depth) == SkipFrom(a, i, depth)
    decreases |a| - i
  {
    hide ReadVarint, SkipBody;
    ReadVarintPrefix(a, b, i);
    var tag := ReadVarint(a, i).value;
    var wireType := tag.v % 8;
    if wireType == START_GROUP {
      SkipFromPrefix(a, b, tag.next, depth + 1);
    } else if wireType == END_GROUP {
      if depth > 1 { SkipFromPrefix(a, b, tag.next, depth - 1); }
    } else {
      SkipBodyPrefix(a, b, tag.next, wireType);
      if depth > 0 { SkipFromPrefix(a, b, SkipBody(a, tag.next, wireType).value, depth); }
    }
  }

  lemma ReadFieldPrefix(schema: Schema, a: Buffer, b: Buffer, i: nat)
    requires |a| + |b| < TWO_63 && i < |a| && ReadField(schema, a, i).Ok?
    ensures ReadField(schema, a + b, i) == ReadField(schema, a, i)
  {
    hide SkipFrom, ReadVarint, ReadBytes, ToInt32;
    ReadVarintPrefix(a, b, i);
    var tag := ReadVarint(a, i).value;
    var num := ToInt32(tag.v / 8);
    if num !in schema {
      assert (a + b)[i..] == a[i..] + b;
      SkipFromPrefix(a[i..], b, 0, 0);
    } else if schema[num].KBytes? {
      ReadBytesPrefix(a, b, tag.next);
    } else {
      ReadVarintPrefix(a, b, tag.next);
    }
  }

  lemma {:induction false} DecodePrefix<M>(codec: Codec<M>, m: M, a: Buffer, b: Buffer, i: nat)
    requires |a| + |b| < TWO_63 && i <= |a| && Decode(codec, m, a, i).Ok?
    ensures Decode(codec, m, a + b, i) == Decode(codec, Decode(codec, m, a, i).value, a + b, |a|)
    decreases |a| - i
  {
    hide ReadField;
    if i < |a| {
      ReadFieldPrefix(codec.schema, a, b, i);
      var field := ReadField(codec.schema, a, i).value;
      DecodePrefix(codec, Store(codec, m, field.item).value, a, b, field.next);
    }
  }

  // ---------------------------------------------------------------- bytes in front only shift indexes

  /** Where the field at i announces its end, if it announces a length or was skipped; that may be past the end of s. */
  function AnnouncedEnd(schema: Schema, s: Buffer, i: nat): Result<nat>
    requires i < |s|
  {
    var tag :- ReadVarint(s, i);
    var num := ToInt32(tag.v / 8);
    if tag.v % 8 == END_GROUP || num <= 0 then Err(IllegalTag)
    else if num !in schema then
      var skippy :- SkipFrom(s[i..], 0, 0);
      Ok(i + skippy)
    else if schema[num].KBytes? && tag.v % 8 == DELIMITED then
      var read :- ReadVarint(s, tag.next);
      if ToInt64(read.v) < 0 then Err(InvalidLength) else Ok(read.next + ToInt64(read.v))
    else Err(WrongWireType)
  }

  /** The announced end is an `int`, but not behind d more bytes. */
  predicate Crosses(schema: Schema, s: Buffer, i: nat, d: nat)
    requires i < |s|
  {
    var end := AnnouncedEnd(schema, s, i);
    end.Ok? && end.value < TWO_63 <= d + end.value
  }

  /** Decoding s from i stops at a field whose announced end is an `int` here and none behind d more bytes. */
  predicate FailsCrossing<M>(codec: Codec<M>, m: M, s: Buffer, i: nat, d: nat)
    requires i <= |s|
    decreases |s| - i
  {
    && i < |s|
    && match ReadField(codec.schema, s, i)
       case Err(_) => Crosses(codec.schema, s, i, d)
       case Ok(field) =>
         var stored := Store(codec, m, field.item);
         stored.Ok? && FailsCrossing(codec, stored.value, s, field.next, d)
  }

  lemma ReadBytesShift(a: Buffer, b: Buffer, i: nat)
    requires |a| + |b| < TWO_63
    ensures ReadBytes(a + b, |a| + i) ==
            match ReadBytes(b, i)
            case Ok(chunk) => Ok(Chunk(chunk.bytes, |a| + chunk.next))
            case Err(e) =>
              var read := ReadVarint(b, i);
              if read.Ok? && 0 <= ToInt64(read.value.v) < TWO_63 - read.value.next <= |a| + ToInt64(read.value.v)
              then Err(InvalidLength) else Err(e)
  {
    hide ReadVarint;
    ReadVarintShift(a, b, i);
    if ReadBytes(b, i).Ok? {
      var next, post := ReadVarint(b, i).value.next, ReadBytes(b, i).value.next;
      assert (a + b)[|a| + next..|a| + post] == b[next..post];
    }
  }

  /** Behind a, one turn of the message loop does the same at a shifted index, unless the announced end overflows. */
  lemma {:induction false} ReadFieldShift(schema: Schema, a: Buffer, b: Buffer, i: nat)
    requires |a| + |b| < TWO_63 && i < |b|
    ensures ReadField(schema, a + b, |a| + i) ==
            match ReadField(schema, b, i)
            case Ok(field) => Ok(Field(field.item, |a| + field.next))
            case Err(e) => Err(if Crosses(schema, b, i, |a|) then InvalidLength else e)
    ensures Crosses(schema, b, i, |a|) ==> ReadField(schema, b, i) == Err(UnexpectedEOF)
  {
    hide SkipFrom, ReadVarint, ToInt32;
    ReadVarintShift(a, b, i);
    if ReadVarint(b, i).Ok? {
      var tag := ReadVarint(b, i).value;
      var num := ToInt32(tag.v / 8);
      if num !in schema {
        assert (a + b)[|a| + i..] == b[i..];
      } else if schema[num].KBytes? {
        ReadBytesShift(a, b, tag.next);
      } else {
        ReadVarintShift(a, b, tag.next);
      }
    }
  }

  lemma {:induction false} DecodeShift<M>(codec: Codec<M>, m: M, a: Buffer, b: Buffer, i: nat)
    requires |a| + |b| < TWO_63 && i <= |b|
    ensures FailsCrossing(codec, m, b, i, |a|) ==> Decode(codec, m, b, i) == Err(UnexpectedEOF)
    ensures Decode(codec, m, a + b, |a| + i) ==
            if FailsCrossing(codec, m, b, i, |a|) then Err(InvalidLength) else Decode(codec, m, b, i)
    decreases |b| - i
  {
    hide ReadField, Crosses;
    if i < |b| {
      ReadFieldShift(codec.schema, a, b, i);
      if ReadField(codec.schema, b, i).Ok? {
        var field := ReadField(codec.schema, b, i).value;
        if Store(codec, m, field.item).Ok? {
          DecodeShift(codec, Store(codec, m, field.item).value, a, b, field.next);
        }
      }
    }
  }

  /**
   Decoding a followed by b is decoding b onto the message that a produced, errors included,
   exactly if b does not stop at a field whose announced end overflows behind a. If it does,
   the unexpected end of input becomes an invalid length.
   */
  lemma DecodeConcat<M>(codec: Codec<M>, m: M, a: Buffer, b: Buffer)
    requires |a| + |b| < TWO_63 && Decode(codec, m, a, 0).Ok?
    ensures var m' := Decode(codec, m, a, 0).value;
            var whole, parts := Decode(codec, m, a + b, 0), Decode(codec, m', b, 0);
            && (whole == parts <==> !FailsCrossing(codec, m', b, 0, |a|))
            && (whole != parts ==> whole == Err(InvalidLength) && parts == Err(UnexpectedEOF))
  {
    hide Decode, FailsCrossing;
    DecodePrefix(codec, m, a, b, 0);
    DecodeShift(codec, Decode(codec, m, a, 0).value, a, b, 0);
  }

  // ---------------------------------------------------------------- what an error leaves behind

  /** Without an error, the decoded message is left. */
  lemma {:induction false} LeftIsDecoded<M>(codec: Codec<M>, m: M, s: Buffer, i: nat)
    requires i <= |s| && Decode(codec, m, s, i).Ok?
    ensures Decode(codec, m, s, i) == Ok(Left(codec, m, s, i))
    decreases |s| - i
  {
    hide ReadField;
    if i < |s| {
      var field := ReadField(codec.schema, s, i).value;
      LeftIsDecoded(codec, Store(codec, m, field.item).value, s, field.next);
    }
  }

  lemma {:induction false} LeftPrefix<M>(codec: Codec<M>, m: M, a: Buffer, b: Buffer, i: nat)
    requires |a| + |b| < TWO_63 && i <= |a| && Decode(codec, m, a, i).Ok?
    ensures Left(codec, m, a + b, i) == Left(codec, Decode(codec, m, a, i).value, a + b, |a|)
    decreases |a| - i
  {
    hide ReadField, BrokenNumber;
    if i < |a| {
      ReadFieldPrefix(codec.schema, a, b, i);
      var field := ReadField(codec.schema, a, i).value;
      LeftPrefix(codec, Store(codec, m, field.item).value, a, b, field.next);
    }
  }

  lemma {:induction false} BrokenNumberShift(schema: Schema, a: Buffer, b: Buffer, i: nat)
    requires |a| + |b| < TWO_63 && i < |b|
    ensures BrokenNumber(schema, a + b, |a| + i) == BrokenNumber(schema, b, i)
  {
    hide ReadVarint, ToInt32, Base128;
    ReadVarintShift(a, b, i);
    if ReadVarint(b, i).Ok? {
      var j := ReadVarint(b, i).value.next;
      ReadVarintShift(a, b, j);
      var end := if |b| < j + MAX_VARINT_BYTES then |b| else j + MAX_VARINT_BYTES;
      SliceBehind(a, b, j, end);
    }
  }

  lemma SliceBehind(a: seq<byte>, b: seq<byte>, j: nat, end: nat)
    requires j <= end <= |b|
    ensures (a + b)[|a| + j..|a| + end] == b[j..end]
  {
  }

  lemma {:induction false} LeftShift<M>(codec: Codec<M>, m: M, a: Buffer, b: Buffer, i: nat)
    requires |a| + |b| < TWO_63 && i <= |b|
    ensures Left(codec, m, a + b, |a| + i) == Left(codec, m, b, i)
    decreases |b| - i
  {
    hide ReadField, Crosses, BrokenNumber;
    if i < |b| {
      ReadFieldShift(codec.schema, a, b, i);
      BrokenNumberShift(codec.schema, a, b, i);
      if ReadField(codec.schema, b, i).Ok? {
        var field := ReadField(codec.schema, b, i).value;
        if Store(codec, m, field.item).Ok? {
          LeftShift(codec, Store(codec, m, field.item).value, a, b, field.next);
        }
      }
    }
  }

  /**
   Complete fields survive whatever follows: decoding a followed by b leaves exactly what
   decoding b onto the message of a leaves. Unlike the error, this never depends on offsets.
   */
  lemma LeftConcat<M>(codec: Codec<M>, m: M, a: Buffer, b: Buffer)
    requires |a| + |b| < TWO_63 && Decode(codec, m, a, 0).Ok?
    ensures Left(codec, m, a + b, 0) == Left(codec, Decode(codec, m, a, 0).value, b, 0)
  {
    hide Decode, Left;
    LeftPrefix(codec, m, a, b, 0);
    LeftShift(codec, Decode(codec, m, a, 0).value, a, b, 0);
  }
}
