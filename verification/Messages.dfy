/**
 The messages of cosmos/x/evm/types/tx.pb.go and consensus.pb.go as values:
 their wire form, their size, and the proof that decoding inverts encoding.
 An absent byte field and an empty one are the same value.
 */
module Messages {
  import opened GoInts
  import opened Options
  import opened Varint
  import opened Wire

  datatype ExecutionPayload = ExecutionPayload(authority: Buffer, payload: Buffer)

  datatype Withdrawal = Withdrawal(sourceAddress: Buffer, validatorPubkey: Buffer, amount: uint64)

  datatype Deposit =
    Deposit(pubkey: Buffer, credentials: Buffer, amount: uint64, signature: Buffer, index: uint64)

  datatype Requests = Requests(deposits: seq<Deposit>, withdrawals: seq<Withdrawal>)

  const NO_PAYLOAD := ExecutionPayload([], [])
  const NO_WITHDRAWAL := Withdrawal([], [], 0)
  const NO_DEPOSIT := Deposit([], [], 0, [], 0)
  const NO_REQUESTS := Requests([], [])

  // ---------------------------------------------------------------- what a decoded field does

  function SetPayloadField(m: ExecutionPayload, item: Item): Result<ExecutionPayload> {
    match item
    case BytesItem(1, b) => Ok(m.(authority := b))
    case BytesItem(2, b) => Ok(m.(payload := b))
    case _ => Ok(m)
  }

  function SetWithdrawalField(m: Withdrawal, item: Item): Result<Withdrawal> {
    match item
    case BytesItem(1, b) => Ok(m.(sourceAddress := b))
    case BytesItem(2, b) => Ok(m.(validatorPubkey := b))
    case VarintItem(3, v) => Ok(m.(amount := v))
    case _ => Ok(m)
  }

  function SetDepositField(m: Deposit, item: Item): Result<Deposit> {
    match item
    case BytesItem(1, b) => Ok(m.(pubkey := b))
    case BytesItem(2, b) => Ok(m.(credentials := b))
    case VarintItem(3, v) => Ok(m.(amount := v))
    case BytesItem(4, b) => Ok(m.(signature := b))
    case VarintItem(5, v) => Ok(m.(index := v))
    case _ => Ok(m)
  }

  /** The nested messages are appended in the order they arrive. */
  function SetRequestsField(m: Requests, item: Item): Result<Requests> {
    match item
    case BytesItem(1, b) =>
      var d :- Decode(DepositCodec(), NO_DEPOSIT, b, 0);
      Ok(m.(deposits := m.deposits + [d]))
    case BytesItem(2, b) =>
      var w :- Decode(WithdrawalCodec(), NO_WITHDRAWAL, b, 0);
      Ok(m.(withdrawals := m.withdrawals + [w]))
    case _ => Ok(m)
  }

  // ---------------------------------------------------------------- what a failing field leaves

  /** Fields that are not messages are stored without an error. */
  function LeavePayloadField(m: ExecutionPayload, item: Item): ExecutionPayload { SetPayloadField(m, item).value }
  function LeaveWithdrawalField(m: Withdrawal, item: Item): Withdrawal { SetWithdrawalField(m, item).value }
  function LeaveDepositField(m: Deposit, item: Item): Deposit { SetDepositField(m, item).value }

  /** A nested message is appended before it is decoded, so a broken one stays, as far as it got. */
  function LeaveRequestsField(m: Requests, item: Item): Requests {
    match item
    case BytesItem(1, b) => m.(deposits := m.deposits + [Left(DepositCodec(), NO_DEPOSIT, b, 0)])
    case BytesItem(2, b) => m.(withdrawals := m.withdrawals + [Left(WithdrawalCodec(), NO_WITHDRAWAL, b, 0)])
    case _ => m
  }

  function PayloadCodec(): Codec<ExecutionPayload> {
    Codec(map[1 := KBytes, 2 := KBytes], SetPayloadField, LeavePayloadField)
  }

  function WithdrawalCodec(): Codec<Withdrawal> {
    Codec(map[1 := KBytes, 2 := KBytes, 3 := KVarint], SetWithdrawalField, LeaveWithdrawalField)
  }

  function DepositCodec(): Codec<Deposit> {
    Codec(map[1 := KBytes, 2 := KBytes, 3 := KVarint, 4 := KBytes, 5 := KVarint], SetDepositField, LeaveDepositField)
  }

  function RequestsCodec(): Codec<Requests> {
    Codec(map[1 := KBytes, 2 := KBytes], SetRequestsField, LeaveRequestsField)
  }

  // ---------------------------------------------------------------- wire form

  type FieldNum = n: int | 1 <= n <= 15 witness 1

  /** Tag, length prefix, contents. */
  function Delimited(num: FieldNum, bs: seq<byte>): seq<byte> {
    [num * 8 + DELIMITED] + EncodeVarint(|bs|) + bs
  }

  /** Empty byte fields and zero numbers are not written. */
  function BytesField(num: FieldNum, bs: seq<byte>): seq<byte> {
    if bs == [] then [] else Delimited(num, bs)
  }

  function VarintField(num: FieldNum, v: uint64): seq<byte> {
    if v == 0 then [] else [num * 8 + VARINT] + EncodeVarint(v)
  }

  function EncodePayload(m: ExecutionPayload): seq<byte> {
    BytesField(1, m.authority) + BytesField(2, m.payload)
  }

  function EncodeWithdrawal(m: Withdrawal): seq<byte> {
    BytesField(1, m.sourceAddress) + (BytesField(2, m.validatorPubkey) + VarintField(3, m.amount))
  }

  function EncodeDeposit(m: Deposit): seq<byte> {
    BytesField(1, m.pubkey) + (BytesField(2, m.credentials) +
    (VarintField(3, m.amount) + (BytesField(4, m.signature) + VarintField(5, m.index))))
  }

  /** A repeated field: every element is written, empty or not. */
  function EncodeList(num: FieldNum, bodies: seq<seq<byte>>): seq<byte> {
    if bodies == [] then [] else Delimited(num, bodies[0]) + EncodeList(num, bodies[1..])
  }

  function DepositBodies(ds: seq<Deposit>): (r: seq<seq<byte>>)
    ensures |r| == |ds| && forall i :: 0 <= i < |ds| ==> r[i] == EncodeDeposit(ds[i])
  {
    seq(|ds|, i requires 0 <= i < |ds| => EncodeDeposit(ds[i]))
  }

  function WithdrawalBodies(ws: seq<Withdrawal>): (r: seq<seq<byte>>)
    ensures |r| == |ws| && forall i :: 0 <= i < |ws| ==> r[i] == EncodeWithdrawal(ws[i])
  {
    seq(|ws|, i requires 0 <= i < |ws| => EncodeWithdrawal(ws[i]))
  }

  function EncodeRequests(m: Requests): seq<byte> {
    EncodeList(1, DepositBodies(m.deposits)) + EncodeList(2, WithdrawalBodies(m.withdrawals))
  }

  lemma {:induction false} EncodeListSplit(num: FieldNum, bodies: seq<seq<byte>>, k: nat)
    requires k <= |bodies|
    ensures EncodeList(num, bodies) == EncodeList(num, bodies[..k]) + EncodeList(num, bodies[k..])
  {
    hide Delimited;
    if k == 0 {
      assert bodies[0..] == bodies;
    } else {
      EncodeListSplit(num, bodies[1..], k - 1);
      assert bodies[..k][1..] == bodies[1..][..k - 1];
      assert bodies[1..][k - 1..] == bodies[k..];
    }
  }

  /** Element k ends the encoding of the first k + 1 elements and begins that of the rest. */
  lemma EncodeListAt(num: FieldNum, bodies: seq<seq<byte>>, k: nat)
    requires k < |bodies|
    ensures EncodeList(num, bodies[..k + 1]) == EncodeList(num, bodies[..k]) + Delimited(num, bodies[k])
    ensures EncodeList(num, bodies[k..]) == Delimited(num, bodies[k]) + EncodeList(num, bodies[k + 1..])
    ensures |Delimited(num, bodies[k])| <= |EncodeList(num, bodies)|
  {
    hide Delimited;
    EncodeListSplit(num, bodies, k);
    EncodeListSplit(num, bodies[..k + 1], k);
    var last := bodies[..k + 1][k..];
    assert bodies[..k + 1][..k] == bodies[..k] && last == [bodies[k]] && |last[1..]| == 0;
    assert bodies[k..][1..] == bodies[k + 1..];
  }

  lemma EncodeListNone(num: FieldNum)
    ensures EncodeList(num, []) == []
  {
  }

  // ---------------------------------------------------------------- size

  function DelimitedSize(l: nat): nat { 1 + l + Sov(l) }

  function BytesFieldSize(l: nat): nat { if l > 0 then DelimitedSize(l) else 0 }

  function VarintFieldSize(v: uint64): nat { if v != 0 then 1 + Sov(v) else 0 }

  function PayloadSize(m: ExecutionPayload): nat {
    BytesFieldSize(|m.authority|) + BytesFieldSize(|m.payload|)
  }

  function WithdrawalSize(m: Withdrawal): nat {
    BytesFieldSize(|m.sourceAddress|) + BytesFieldSize(|m.validatorPubkey|) + VarintFieldSize(m.amount)
  }

  function DepositSize(m: Deposit): nat {
    BytesFieldSize(|m.pubkey|) + BytesFieldSize(|m.credentials|) + VarintFieldSize(m.amount)
    + BytesFieldSize(|m.signature|) + VarintFieldSize(m.index)
  }

  lemma FieldSizes(num: FieldNum, bs: seq<byte>, v: uint64)
    ensures |Delimited(num, bs)| == DelimitedSize(|bs|)
    ensures |BytesField(num, bs)| == BytesFieldSize(|bs|)
    ensures |VarintField(num, v)| == VarintFieldSize(v)
  {
    SovIsEncodedLength(|bs|);
    SovIsEncodedLength(v);
  }

  lemma PayloadSizeIsExact(m: ExecutionPayload)
    ensures PayloadSize(m) == |EncodePayload(m)|
  {
    hide BytesField, BytesFieldSize;
    FieldSizes(1, m.authority, 0);
    FieldSizes(2, m.payload, 0);
  }

  lemma WithdrawalSizeIsExact(m: Withdrawal)
    ensures WithdrawalSize(m) == |EncodeWithdrawal(m)|
  {
    hide BytesField, VarintField, BytesFieldSize, VarintFieldSize;
    FieldSizes(1, m.sourceAddress, 0);
    FieldSizes(2, m.validatorPubkey, 0);
    FieldSizes(3, [], m.amount);
  }

  lemma DepositSizeIsExact(m: Deposit)
    ensures DepositSize(m) == |EncodeDeposit(m)|
  {
    hide BytesField, VarintField, BytesFieldSize, VarintFieldSize;
    FieldSizes(1, m.pubkey, 0);
    FieldSizes(2, m.credentials, 0);
    FieldSizes(3, [], m.amount);
    FieldSizes(4, m.signature, 0);
    FieldSizes(5, [], m.index);
  }

  // ---------------------------------------------------------------- one field

  /** A one-byte tag is read back as its number and wire type. */
  lemma TagRead(num: FieldNum, wireType: nat, rest: seq<byte>)
    requires wireType < 8
    ensures ReadVarint([num * 8 + wireType] + rest, 0) == Ok(Read(num * 8 + wireType, 1))
    ensures ToInt32((num * 8 + wireType) / 8) == num && (num * 8 + wireType) % 8 == wireType
  {
    var t := num * 8 + wireType;
    assert EncodeVarint(t) == [t];
    VarintRoundTrip(t);
    ReadVarintPrefix([t], rest, 0);
  }

  lemma DelimitedRead(bs: seq<byte>, front: seq<byte>)
    requires |front| + |EncodeVarint(|bs|)| + |bs| < TWO_63
    ensures ReadBytes(front + EncodeVarint(|bs|) + bs, |front|)
            == Ok(Chunk(bs, |front| + |EncodeVarint(|bs|)| + |bs|))
  {
    hide ReadVarint, EncodeVarint;
    var len := EncodeVarint(|bs|);
    VarintRoundTrip(|bs|);
    ReadVarintPrefix(len, bs, 0);
    ReadVarintShift(front, len + bs, 0);
    var s := front + len + bs;
    assert s == front + (len + bs);
    assert s[|front| + |len|..|s|] == bs;
  }

  lemma DecodeDelimited<M>(codec: Codec<M>, m: M, num: FieldNum, bs: seq<byte>)
    requires num in codec.schema && codec.schema[num].KBytes? && |Delimited(num, bs)| < TWO_63
    ensures Decode(codec, m, Delimited(num, bs), 0) == Store(codec, m, BytesItem(num, bs))
  {
    hide ReadVarint, EncodeVarint, ReadBytes, ToInt32;
    var front: seq<byte> := [num * 8 + DELIMITED];
    TagRead(num, DELIMITED, EncodeVarint(|bs|) + bs);
    assert Delimited(num, bs) == front + (EncodeVarint(|bs|) + bs);
    DelimitedRead(bs, front);
  }

  lemma DecodeVarintField<M>(codec: Codec<M>, m: M, num: FieldNum, v: uint64)
    requires num in codec.schema && codec.schema[num].KVarint?
    ensures |VarintField(num, v)| < TWO_63
    ensures Decode(codec, m, VarintField(num, v), 0)
            == if v == 0 then Ok(m) else Store(codec, m, VarintItem(num, v))
  {
    hide ReadVarint, EncodeVarint, ToInt32, ReadBytes, SkipFrom;
    var front: seq<byte> := [num * 8 + VARINT];
    TagRead(num, VARINT, EncodeVarint(v));
    VarintRoundTrip(v);
    ReadVarintShift(front, EncodeVarint(v), 0);
  }

  lemma DecodeBytesField<M>(codec: Codec<M>, m: M, num: FieldNum, bs: seq<byte>)
    requires num in codec.schema && codec.schema[num].KBytes? && |BytesField(num, bs)| < TWO_63
    ensures Decode(codec, m, BytesField(num, bs), 0)
            == if bs == [] then Ok(m) else Store(codec, m, BytesItem(num, bs))
  {
    hide ReadField, Delimited;
    if bs != [] { DecodeDelimited(codec, m, num, bs); }
  }

  lemma DecodeNothing<M>(codec: Codec<M>, m: M)
    ensures Decode(codec, m, [], 0) == Ok(m)
  {
  }

  lemma DecodeThen<M>(codec: Codec<M>, m: M, a: Buffer, m1: M, b: Buffer, m2: M)
    requires |a| + |b| < TWO_63
    requires Decode(codec, m, a, 0) == Ok(m1) && Decode(codec, m1, b, 0) == Ok(m2)
    ensures Decode(codec, m, a + b, 0) == Ok(m2)
  {
    hide Decode;
    DecodeConcat(codec, m, a, b);
  }

  // ---------------------------------------------------------------- which field is which

  /** Each field number of a payload message, read onto any message: the field is overwritten. */
  lemma PayloadFields(m: ExecutionPayload, bs: seq<byte>)
    requires |Delimited(1, bs)| < TWO_63
    ensures Decode(PayloadCodec(), m, Delimited(1, bs), 0) == Ok(m.(authority := bs))
    ensures Decode(PayloadCodec(), m, Delimited(2, bs), 0) == Ok(m.(payload := bs))
  {
    hide Decode, EncodeVarint;
    DecodeDelimited(PayloadCodec(), m, 1, bs);
    DecodeDelimited(PayloadCodec(), m, 2, bs);
  }

  lemma WithdrawalFields(m: Withdrawal, bs: seq<byte>, v: uint64)
    requires |Delimited(1, bs)| < TWO_63 && v != 0
    ensures Decode(WithdrawalCodec(), m, Delimited(1, bs), 0) == Ok(m.(sourceAddress := bs))
    ensures Decode(WithdrawalCodec(), m, Delimited(2, bs), 0) == Ok(m.(validatorPubkey := bs))
    ensures |VarintField(3, v)| < TWO_63 && Decode(WithdrawalCodec(), m, VarintField(3, v), 0) == Ok(m.(amount := v))
  {
    hide Decode, EncodeVarint;
    DecodeDelimited(WithdrawalCodec(), m, 1, bs);
    DecodeDelimited(WithdrawalCodec(), m, 2, bs);
    DecodeVarintField(WithdrawalCodec(), m, 3, v);
  }

  lemma DepositFields(m: Deposit, bs: seq<byte>, v: uint64)
    requires |Delimited(1, bs)| < TWO_63 && v != 0
    ensures Decode(DepositCodec(), m, Delimited(1, bs), 0) == Ok(m.(pubkey := bs))
    ensures Decode(DepositCodec(), m, Delimited(2, bs), 0) == Ok(m.(credentials := bs))
    ensures Decode(DepositCodec(), m, Delimited(4, bs), 0) == Ok(m.(signature := bs))
    ensures |VarintField(3, v)| < TWO_63 && Decode(DepositCodec(), m, VarintField(3, v), 0) == Ok(m.(amount := v))
    ensures |VarintField(5, v)| < TWO_63 && Decode(DepositCodec(), m, VarintField(5, v), 0) == Ok(m.(index := v))
  {
    hide Decode, EncodeVarint;
    DecodeDelimited(DepositCodec(), m, 1, bs);
    DecodeDelimited(DepositCodec(), m, 2, bs);
    DecodeDelimited(DepositCodec(), m, 4, bs);
    DecodeVarintField(DepositCodec(), m, 3, v);
    DecodeVarintField(DepositCodec(), m, 5, v);
  }

  // ---------------------------------------------------------------- what a broken field leaves

  lemma {:induction false} LeftDelimited<M>(codec: Codec<M>, m: M, num: FieldNum, bs: seq<byte>)
    requires num in codec.schema && codec.schema[num].KBytes? && |Delimited(num, bs)| < TWO_63
    ensures var stored := Store(codec, m, BytesItem(num, bs));
            Left(codec, m, Delimited(num, bs), 0) ==
            if stored.Ok? then stored.value else codec.leaveField(m, BytesItem(num, bs))
  {
    hide ReadVarint, EncodeVarint, ReadBytes, ToInt32, BrokenNumber;
    var front: seq<byte> := [num * 8 + DELIMITED];
    TagRead(num, DELIMITED, EncodeVarint(|bs|) + bs);
    assert Delimited(num, bs) == front + (EncodeVarint(|bs|) + bs);
    DelimitedRead(bs, front);
  }

  /** A nested message stays in its list as far as it was decoded, whether or not it breaks off. */
  lemma NestedMessageStays(m: Requests, b: seq<byte>)
    requires |Delimited(1, b)| < TWO_63
    ensures |b| < TWO_63
    ensures Left(RequestsCodec(), m, Delimited(1, b), 0)
            == m.(deposits := m.deposits + [Left(DepositCodec(), NO_DEPOSIT, b, 0)])
    ensures Left(RequestsCodec(), m, Delimited(2, b), 0)
            == m.(withdrawals := m.withdrawals + [Left(WithdrawalCodec(), NO_WITHDRAWAL, b, 0)])
  {
    hide Decode, Left, EncodeVarint, DepositCodec, WithdrawalCodec;
    LeftDelimited(RequestsCodec(), m, 1, b);
    LeftDelimited(RequestsCodec(), m, 2, b);
    if Decode(DepositCodec(), NO_DEPOSIT, b, 0).Ok? { LeftIsDecoded(DepositCodec(), NO_DEPOSIT, b, 0); }
    if Decode(WithdrawalCodec(), NO_WITHDRAWAL, b, 0).Ok? { LeftIsDecoded(WithdrawalCodec(), NO_WITHDRAWAL, b, 0); }
  }

  lemma {:induction false} LeftBroken<M>(codec: Codec<M>, m: M, num: FieldNum, cut: seq<byte>)
    requires num in codec.schema && codec.schema[num].KVarint?
    requires |cut| < 10 && forall k :: 0 <= k < |cut| ==> cut[k] >= 128
    ensures Left(codec, m, [num * 8 + VARINT] + cut, 0) == codec.leaveField(m, VarintItem(num, ToUint64(Base128(cut))))
  {
    hide ToInt32, ReadBytes, SkipFrom, Base128;
    var s: seq<byte> := [num * 8 + VARINT] + cut;
    TagRead(num, VARINT, cut);
    CutShort(s, 1, MAX_VARINT_BYTES);
    assert s[1..|s|] == cut;
    hide VarintEnd;
    assert ReadVarint(s, 1) == Err(UnexpectedEOF);
    hide ReadVarint;
    assert BrokenNumber(codec.schema, s, 0) == Some(VarintItem(num, ToUint64(Base128(cut))));
  }

  /** A number that breaks off leaves the bits read so far. */
  lemma BrokenNumbersStay(w: Withdrawal, d: Deposit, cut: seq<byte>)
    requires |cut| < 10 && forall k :: 0 <= k < |cut| ==> cut[k] >= 128
    ensures Left(WithdrawalCodec(), w, [24] + cut, 0) == w.(amount := ToUint64(Base128(cut)))
    ensures Left(DepositCodec(), d, [24] + cut, 0) == d.(amount := ToUint64(Base128(cut)))
    ensures Left(DepositCodec(), d, [40] + cut, 0) == d.(index := ToUint64(Base128(cut)))
  {
    hide Left, Base128;
    LeftBroken(WithdrawalCodec(), w, 3, cut);
    LeftBroken(DepositCodec(), d, 3, cut);
    LeftBroken(DepositCodec(), d, 5, cut);
  }

  // ---------------------------------------------------------------- what is on the wire

  /** A field as it is written: nothing for an empty byte field or a zero number. */
  function Present(item: Item): seq<Item> {
    if (item.BytesItem? && item.bytes == []) || (item.VarintItem? && item.v == 0) then [] else [item]
  }

  lemma ParseBytesField(schema: Schema, done: seq<Item>, num: FieldNum, bs: seq<byte>)
    requires num in schema && schema[num].KBytes? && |BytesField(num, bs)| < TWO_63
    ensures |bs| < TWO_63
    ensures Decode(Collector(schema), done, BytesField(num, bs), 0) == Ok(done + Present(BytesItem(num, bs)))
  {
    hide Decode, EncodeVarint;
    DecodeBytesField(Collector(schema), done, num, bs);
    assert done + [] == done;
  }

  lemma ParseVarintField(schema: Schema, done: seq<Item>, num: FieldNum, v: uint64)
    requires num in schema && schema[num].KVarint?
    ensures |VarintField(num, v)| < TWO_63
    ensures Decode(Collector(schema), done, VarintField(num, v), 0) == Ok(done + Present(VarintItem(num, v)))
  {
    hide Decode, EncodeVarint;
    DecodeVarintField(Collector(schema), done, num, v);
    assert done + [] == done;
  }

  /** The fields of an encoded payload message, in order. */
  lemma PayloadOnTheWire(m: ExecutionPayload, schema: Schema)
    requires |EncodePayload(m)| < TWO_63 && schema == map[1 := KBytes, 2 := KBytes]
    ensures Decode(Collector(schema), [], EncodePayload(m), 0)
            == Ok(Present(BytesItem(1, m.authority)) + Present(BytesItem(2, m.payload)))
  {
    hide Decode, BytesField, Present;
    var i1, i2 := Present(BytesItem(1, m.authority)), Present(BytesItem(2, m.payload));
    ParseBytesField(schema, [], 1, m.authority);
    assert [] + i1 == i1;
    ParseBytesField(schema, i1, 2, m.payload);
    DecodeThen(Collector(schema), [], BytesField(1, m.authority), i1, BytesField(2, m.payload), i1 + i2);
  }

  lemma WithdrawalOnTheWire(m: Withdrawal, schema: Schema)
    requires |EncodeWithdrawal(m)| < TWO_63 && schema == map[1 := KBytes, 2 := KBytes, 3 := KVarint]
    ensures Decode(Collector(schema), [], EncodeWithdrawal(m), 0)
            == Ok(Present(BytesItem(1, m.sourceAddress)) + Present(BytesItem(2, m.validatorPubkey))
                  + Present(VarintItem(3, m.amount)))
  {
    hide Decode, BytesField, VarintField, Present;
    var codec := Collector(schema);
    var f1, f2, f3 := BytesField(1, m.sourceAddress), BytesField(2, m.validatorPubkey), VarintField(3, m.amount);
    var i1 := [] + Present(BytesItem(1, m.sourceAddress));
    var i2 := i1 + Present(BytesItem(2, m.validatorPubkey));
    var i3 := i2 + Present(VarintItem(3, m.amount));
    ParseBytesField(schema, [], 1, m.sourceAddress);
    ParseBytesField(schema, i1, 2, m.validatorPubkey);
    ParseVarintField(schema, i2, 3, m.amount);
    DecodeThen(codec, i1, f2, i2, f3, i3);
    DecodeThen(codec, [], f1, i1, f2 + f3, i3);
    assert i1 == Present(BytesItem(1, m.sourceAddress));
  }

  /** The fields of an encoded deposit, in order: key, credentials, amount, signature, index. */
  lemma DepositOnTheWire(m: Deposit, schema: Schema)
    requires |EncodeDeposit(m)| < TWO_63
    requires schema == map[1 := KBytes, 2 := KBytes, 3 := KVarint, 4 := KBytes, 5 := KVarint]
    ensures Decode(Collector(schema), [], EncodeDeposit(m), 0)
            == Ok(Present(BytesItem(1, m.pubkey)) + Present(BytesItem(2, m.credentials))
                  + Present(VarintItem(3, m.amount)) + Present(BytesItem(4, m.signature))
                  + Present(VarintItem(5, m.index)))
  {
    hide Decode, BytesField, VarintField, Present;
    var codec := Collector(schema);
    var f1, f2, f3 := BytesField(1, m.pubkey), BytesField(2, m.credentials), VarintField(3, m.amount);
    var f4, f5 := BytesField(4, m.signature), VarintField(5, m.index);
    var i1 := [] + Present(BytesItem(1, m.pubkey));
    var i2 := i1 + Present(BytesItem(2, m.credentials));
    var i3 := i2 + Present(VarintItem(3, m.amount));
    var i4 := i3 + Present(BytesItem(4, m.signature));
    var i5 := i4 + Present(VarintItem(5, m.index));
    ParseBytesField(schema, [], 1, m.pubkey);
    ParseBytesField(schema, i1, 2, m.credentials);
    ParseVarintField(schema, i2, 3, m.amount);
    ParseBytesField(schema, i3, 4, m.signature);
    ParseVarintField(schema, i4, 5, m.index);
    DecodeThen(codec, i3, f4, i4, f5, i5);
    DecodeThen(codec, i2, f3, i3, f4 + f5, i5);
    DecodeThen(codec, i1, f2, i2, f3 + (f4 + f5), i5);
    DecodeThen(codec, [], f1, i1, f2 + (f3 + (f4 + f5)), i5);
    assert i1 == Present(BytesItem(1, m.pubkey));
  }

  /** So any codec over these fields decodes an encoded deposit by storing them, and nothing else, in this order. */
  lemma DepositDecodesAnywhere<M>(codec: Codec<M>, m: M, d: Deposit)
    requires |EncodeDeposit(d)| < TWO_63
    requires codec.schema == map[1 := KBytes, 2 := KBytes, 3 := KVarint, 4 := KBytes, 5 := KVarint]
    ensures Decode(codec, m, EncodeDeposit(d), 0)
            == StoreAll(codec, m, Present(BytesItem(1, d.pubkey)) + Present(BytesItem(2, d.credentials))
                                  + Present(VarintItem(3, d.amount)) + Present(BytesItem(4, d.signature))
                                  + Present(VarintItem(5, d.index)))
  {
    hide Decode, EncodeDeposit, Present, StoreAll;
    DepositOnTheWire(d, codec.schema);
    DecodeStores(codec, m, EncodeDeposit(d), 0, []);
    var items := Decode(Collector(codec.schema), [], EncodeDeposit(d), 0).value;
    assert items[0..] == items;
  }

  // ---------------------------------------------------------------- round trips

  /** Decoding the wire form of a payload message gives the message back. */
  lemma PayloadRoundTrip(m: ExecutionPayload)
    requires PayloadSize(m) < TWO_63
    ensures |EncodePayload(m)| < TWO_63
    ensures Decode(PayloadCodec(), NO_PAYLOAD, EncodePayload(m), 0) == Ok(m)
  {
    hide Decode, BytesField, PayloadSize;
    PayloadSizeIsExact(m);
    var codec := PayloadCodec();
    var m1 := NO_PAYLOAD.(authority := m.authority);
    DecodeBytesField(codec, NO_PAYLOAD, 1, m.authority);
    DecodeBytesField(codec, m1, 2, m.payload);
    DecodeThen(codec, NO_PAYLOAD, BytesField(1, m.authority), m1, BytesField(2, m.payload), m);
  }

  lemma WithdrawalRoundTrip(m: Withdrawal)
    requires WithdrawalSize(m) < TWO_63
    ensures |EncodeWithdrawal(m)| < TWO_63
    ensures Decode(WithdrawalCodec(), NO_WITHDRAWAL, EncodeWithdrawal(m), 0) == Ok(m)
  {
    hide Decode, BytesField, VarintField, WithdrawalSize;
    WithdrawalSizeIsExact(m);
    var codec := WithdrawalCodec();
    var f1, f2, f3 := BytesField(1, m.sourceAddress), BytesField(2, m.validatorPubkey), VarintField(3, m.amount);
    var m1 := NO_WITHDRAWAL.(sourceAddress := m.sourceAddress);
    var m2 := m1.(validatorPubkey := m.validatorPubkey);
    DecodeBytesField(codec, NO_WITHDRAWAL, 1, m.sourceAddress);
    DecodeBytesField(codec, m1, 2, m.validatorPubkey);
    DecodeVarintField(codec, m2, 3, m.amount);
    DecodeThen(codec, m1, f2, m2, f3, m);
    DecodeThen(codec, NO_WITHDRAWAL, f1, m1, f2 + f3, m);
  }

  lemma DepositRoundTrip(m: Deposit)
    requires DepositSize(m) < TWO_63
    ensures |EncodeDeposit(m)| < TWO_63
    ensures Decode(DepositCodec(), NO_DEPOSIT, EncodeDeposit(m), 0) == Ok(m)
  {
    hide Decode, BytesField, VarintField, DepositSize;
    DepositSizeIsExact(m);
    var codec := DepositCodec();
    var f1, f2, f3 := BytesField(1, m.pubkey), BytesField(2, m.credentials), VarintField(3, m.amount);
    var f4, f5 := BytesField(4, m.signature), VarintField(5, m.index);
    var m1 := NO_DEPOSIT.(pubkey := m.pubkey);
    var m2 := m1.(credentials := m.credentials);
    var m3 := m2.(amount := m.amount);
    var m4 := m3.(signature := m.signature);
    DecodeBytesField(codec, NO_DEPOSIT, 1, m.pubkey);
    DecodeBytesField(codec, m1, 2, m.credentials);
    DecodeVarintField(codec, m2, 3, m.amount);
    DecodeBytesField(codec, m3, 4, m.signature);
    DecodeVarintField(codec, m4, 5, m.index);
    DecodeThen(codec, m3, f4, m4, f5, m);
    DecodeThen(codec, m2, f3, m3, f4 + f5, m);
    DecodeThen(codec, m1, f2, m2, f3 + (f4 + f5), m);
    DecodeThen(codec, NO_DEPOSIT, f1, m1, f2 + (f3 + (f4 + f5)), m);
  }

  lemma DepositFieldRoundTrip(m: Requests, x: Deposit)
    requires |Delimited(1, EncodeDeposit(x))| < TWO_63
    ensures Decode(RequestsCodec(), m, Delimited(1, EncodeDeposit(x)), 0) == Ok(m.(deposits := m.deposits + [x]))
  {
    hide Decode, EncodeDeposit, DepositSize, EncodeVarint;
    assert |Delimited(1, EncodeDeposit(x))| > |EncodeDeposit(x)|;
    DepositSizeIsExact(x);
    DepositRoundTrip(x);
    DecodeDelimited(RequestsCodec(), m, 1, EncodeDeposit(x));
  }

  lemma WithdrawalFieldRoundTrip(m: Requests, x: Withdrawal)
    requires |Delimited(2, EncodeWithdrawal(x))| < TWO_63
    ensures Decode(RequestsCodec(), m, Delimited(2, EncodeWithdrawal(x)), 0)
            == Ok(m.(withdrawals := m.withdrawals + [x]))
  {
    hide Decode, EncodeWithdrawal, WithdrawalSize, EncodeVarint;
    assert |Delimited(2, EncodeWithdrawal(x))| > |EncodeWithdrawal(x)|;
    WithdrawalSizeIsExact(x);
    WithdrawalRoundTrip(x);
    DecodeDelimited(RequestsCodec(), m, 2, EncodeWithdrawal(x));
  }

  /** If every element takes the message from one stage to the next, the list takes it from the first to the last. */
  lemma {:induction false} ListRoundTrip<M>(codec: Codec<M>, num: FieldNum, bodies: seq<seq<byte>>, stages: seq<M>)
    requires |EncodeList(num, bodies)| < TWO_63 && |stages| == |bodies| + 1
    requires forall i :: 0 <= i < |bodies| ==> |Delimited(num, bodies[i])| < TWO_63
    requires forall i :: 0 <= i < |bodies| ==>
                           Decode(codec, stages[i], Delimited(num, bodies[i]), 0) == Ok(stages[i + 1])
    ensures Decode(codec, stages[0], EncodeList(num, bodies), 0) == Ok(stages[|bodies|])
    decreases |bodies|
  {
    hide Decode, Delimited;
    if bodies == [] {
      DecodeNothing(codec, stages[0]);
    } else {
      ListRoundTrip(codec, num, bodies[1..], stages[1..]);
      DecodeThen(codec, stages[0], Delimited(num, bodies[0]), stages[1],
                 EncodeList(num, bodies[1..]), stages[|bodies|]);
    }
  }

  /** An element of a repeated field per body, in order. */
  function Elements(num: int, bodies: seq<seq<byte>>): (r: seq<Item>)
    requires forall i :: 0 <= i < |bodies| ==> |bodies[i]| < TWO_63
    ensures |r| == |bodies| && forall i :: 0 <= i < |bodies| ==> r[i] == BytesItem(num, bodies[i])
  {
    seq(|bodies|, i requires 0 <= i < |bodies| => BytesItem(num, bodies[i]))
  }

  lemma BodiesFit(num: FieldNum, bodies: seq<seq<byte>>)
    requires |EncodeList(num, bodies)| < TWO_63
    ensures forall i :: 0 <= i < |bodies| ==> |bodies[i]| < TWO_63 && |Delimited(num, bodies[i])| < TWO_63
  {
    hide EncodeList, EncodeVarint;
    forall i | 0 <= i < |bodies| ensures |bodies[i]| < TWO_63 && |Delimited(num, bodies[i])| < TWO_63 {
      EncodeListAt(num, bodies, i);
    }
  }

  lemma ListOnTheWire(schema: Schema, done: seq<Item>, num: FieldNum, bodies: seq<seq<byte>>)
    requires num in schema && schema[num].KBytes? && |EncodeList(num, bodies)| < TWO_63
    ensures forall i :: 0 <= i < |bodies| ==> |bodies[i]| < TWO_63
    ensures Decode(Collector(schema), done, EncodeList(num, bodies), 0) == Ok(done + Elements(num, bodies))
  {
    hide Decode, Delimited, EncodeList;
    BodiesFit(num, bodies);
    var items := Elements(num, bodies);
    var stages := seq(|bodies| + 1, i requires 0 <= i <= |bodies| => done + items[..i]);
    forall i | 0 <= i < |bodies|
      ensures Decode(Collector(schema), stages[i], Delimited(num, bodies[i]), 0) == Ok(stages[i + 1])
    {
      DecodeDelimited(Collector(schema), stages[i], num, bodies[i]);
      assert done + items[..i] + [items[i]] == done + items[..i + 1];
    }
    ListRoundTrip(Collector(schema), num, bodies, stages);
    assert done + items[..0] == done && items[..|bodies|] == items;
  }

  /** The fields of encoded requests: the deposits under 1, then the withdrawals under 2, each list in order. */
  lemma RequestsOnTheWire(m: Requests, schema: Schema)
    requires |EncodeRequests(m)| < TWO_63 && schema == map[1 := KBytes, 2 := KBytes]
    ensures forall i :: 0 <= i < |m.deposits| ==> |DepositBodies(m.deposits)[i]| < TWO_63
    ensures forall i :: 0 <= i < |m.withdrawals| ==> |WithdrawalBodies(m.withdrawals)[i]| < TWO_63
    ensures Decode(Collector(schema), [], EncodeRequests(m), 0)
            == Ok(Elements(1, DepositBodies(m.deposits)) + Elements(2, WithdrawalBodies(m.withdrawals)))
  {
    hide Decode, EncodeList, DepositBodies, WithdrawalBodies, Elements;
    var ds, ws := DepositBodies(m.deposits), WithdrawalBodies(m.withdrawals);
    ListOnTheWire(schema, [], 1, ds);
    var i1 := Elements(1, ds);
    assert [] + i1 == i1;
    ListOnTheWire(schema, i1, 2, ws);
    DecodeThen(Collector(schema), [], EncodeList(1, ds), i1, EncodeList(2, ws), i1 + Elements(2, ws));
  }

  /** Encoded deposits are appended in order to whatever the message holds already. */
  lemma DepositsRoundTrip(m: Requests, ds: seq<Deposit>)
    requires |EncodeList(1, DepositBodies(ds))| < TWO_63
    ensures Decode(RequestsCodec(), m, EncodeList(1, DepositBodies(ds)), 0) == Ok(m.(deposits := m.deposits + ds))
  {
    hide Decode, Delimited, EncodeDeposit, EncodeList;
    var stages := seq(|ds| + 1, i requires 0 <= i <= |ds| => m.(deposits := m.deposits + ds[..i]));
    forall i | 0 <= i < |ds|
      ensures |Delimited(1, EncodeDeposit(ds[i]))| < TWO_63
      ensures Decode(RequestsCodec(), stages[i], Delimited(1, EncodeDeposit(ds[i])), 0) == Ok(stages[i + 1])
    {
      EncodeListAt(1, DepositBodies(ds), i);
      DepositFieldRoundTrip(stages[i], ds[i]);
      assert m.deposits + ds[..i] + [ds[i]] == m.deposits + ds[..i + 1];
    }
    ListRoundTrip(RequestsCodec(), 1, DepositBodies(ds), stages);
    assert m.deposits + ds[..0] == m.deposits && ds[..|ds|] == ds;
  }

  /** Encoded withdrawals are appended in order to whatever the message holds already. */
  lemma WithdrawalsRoundTrip(m: Requests, ws: seq<Withdrawal>)
    requires |EncodeList(2, WithdrawalBodies(ws))| < TWO_63
    ensures Decode(RequestsCodec(), m, EncodeList(2, WithdrawalBodies(ws)), 0)
            == Ok(m.(withdrawals := m.withdrawals + ws))
  {
    hide Decode, Delimited, EncodeWithdrawal, EncodeList;
    var stages := seq(|ws| + 1, i requires 0 <= i <= |ws| => m.(withdrawals := m.withdrawals + ws[..i]));
    forall i | 0 <= i < |ws|
      ensures |Delimited(2, EncodeWithdrawal(ws[i]))| < TWO_63
      ensures Decode(RequestsCodec(), stages[i], Delimited(2, EncodeWithdrawal(ws[i])), 0) == Ok(stages[i + 1])
    {
      EncodeListAt(2, WithdrawalBodies(ws), i);
      WithdrawalFieldRoundTrip(stages[i], ws[i]);
      assert m.withdrawals + ws[..i] + [ws[i]] == m.withdrawals + ws[..i + 1];
    }
    ListRoundTrip(RequestsCodec(), 2, WithdrawalBodies(ws), stages);
    assert m.withdrawals + ws[..0] == m.withdrawals && ws[..|ws|] == ws;
  }

  /** Any number of deposits and withdrawals, any field bytes: same lists, same order. */
  lemma RequestsRoundTrip(m: Requests)
    requires |EncodeRequests(m)| < TWO_63
    ensures Decode(RequestsCodec(), NO_REQUESTS, EncodeRequests(m), 0) == Ok(m)
  {
    hide Decode, EncodeList, DepositBodies, WithdrawalBodies;
    var ds, ws := EncodeList(1, DepositBodies(m.deposits)), EncodeList(2, WithdrawalBodies(m.withdrawals));
    var m1 := NO_REQUESTS.(deposits := m.deposits);
    DepositsRoundTrip(NO_REQUESTS, m.deposits);
    assert [] + m.deposits == m.deposits && [] + m.withdrawals == m.withdrawals;
    WithdrawalsRoundTrip(m1, m.withdrawals);
    DecodeThen(RequestsCodec(), NO_REQUESTS, ds, m1, ws, m);
  }

  // ---------------------------------------------------------------- which error is reported may depend on the offset

  const HUGE: uint64 := 0x8000_0000_0000_0000 - 12

  /** A byte field that announces HUGE bytes and holds none. */
  function Truncated(): seq<byte> {
    [2 * 8 + DELIMITED] + EncodeVarint(HUGE)
  }

  lemma TruncatedIsShort()
    ensures 2 <= |Truncated()| <= 11
    ensures ReadVarint(Truncated(), 0) == Ok(Read(18, 1)) && ReadVarint(Truncated(), 1) == Ok(Read(HUGE, |Truncated()|))
  {
    hide ReadVarint, EncodeVarint;
    VarintRoundTrip(HUGE);
    TagRead(2, DELIMITED, EncodeVarint(HUGE));
    ReadVarintShift([18], EncodeVarint(HUGE), 0);
  }

  /**
   The exception of `DecodeConcat` is real: behind a longer prefix the index computation
   overflows, and what was an unexpected end of input becomes an invalid length.
   */
  lemma ErrorKindDependsOnOffset(pad: seq<byte>)
    requires |pad| == 10
    ensures |Delimited(1, pad) + Truncated()| < TWO_63
    ensures Decode(PayloadCodec(), NO_PAYLOAD, Delimited(1, pad), 0) == Ok(ExecutionPayload(pad, []))
    ensures Decode(PayloadCodec(), ExecutionPayload(pad, []), Truncated(), 0) == Err(UnexpectedEOF)
    ensures Decode(PayloadCodec(), NO_PAYLOAD, Delimited(1, pad) + Truncated(), 0) == Err(InvalidLength)
    ensures FailsCrossing(PayloadCodec(), ExecutionPayload(pad, []), Truncated(), 0, |Delimited(1, pad)|)
  {
    hide Decode, FailsCrossing, Truncated, EncodeVarint, ReadVarint;
    var a, b, m := Delimited(1, pad), Truncated(), ExecutionPayload(pad, []);
    TruncatedIsShort();
    VarintRoundTrip(10);
    DecodeDelimited(PayloadCodec(), NO_PAYLOAD, 1, pad);
    DecodePrefix(PayloadCodec(), NO_PAYLOAD, a, b, 0);
    ReadVarintShift(a, b, 0);
    ReadVarintShift(a, b, 1);
    FailsOn(m, b, 0, UnexpectedEOF);
    FailsOn(m, a + b, |a|, InvalidLength);
    DecodeConcat(PayloadCodec(), NO_PAYLOAD, a, b);
  }

  /** At index i, a tag for field 2 and a length of HUGE. */
  lemma FailsOn(m: ExecutionPayload, s: Buffer, i: nat, error: WireError)
    requires i + 2 <= |s|
    requires ReadVarint(s, i) == Ok(Read(18, i + 1)) && ReadVarint(s, i + 1) == Ok(Read(HUGE, |s|))
    requires |s| < 100 && error == if |s| + HUGE < TWO_63 then UnexpectedEOF else InvalidLength
    ensures Decode(PayloadCodec(), m, s, i) == Err(error)
  {
    hide ReadVarint;
    assert ToInt64(HUGE) == HUGE;
    assert ReadBytes(s, i + 1) == Err(error);
    assert ToInt32(18 / 8) == 2;
  }
}
