/**
 The generated marshallers and unmarshallers in their own form: message objects
 whose fields `Unmarshal` overwrites, and marshallers that fill a byte array
 from the end backwards (cosmos/x/evm/types/consensus.pb.go, tx.pb.go).
 */
module ProtoCodec {
  import opened GoInts
  import opened Options
  import opened Varint
  import opened Wire
  import opened Messages

  // ---------------------------------------------------------------- writing one field backwards

  method PutByte(buf: array<byte>, j: nat, b: byte)
    requires j < buf.Length
    modifies buf
    ensures buf[..] == Splice(old(buf[..]), j, [b])
  {
    buf[j] := b;
  }

  /** The length prefix and the tag, in front of contents of length `len` that start at i. */
  method PutHeader(buf: array<byte>, i: nat, num: FieldNum, len: uint64) returns (j: nat)
    requires 1 + Sov(len) <= i <= buf.Length
    modifies buf
    ensures |EncodeVarint(len)| == Sov(len) && j == i - 1 - Sov(len)
    ensures buf[..] == Splice(old(buf[..]), j, [num * 8 + DELIMITED] + EncodeVarint(len))
  {
    hide EncodeVarint, Sov, Splice;
    var k := EncodeVarintTo(buf, i, len);
    j := k - 1;
    PutByte(buf, j, num * 8 + DELIMITED);
    SpliceInFront(old(buf[..]), k, EncodeVarint(len), j, [num * 8 + DELIMITED]);
  }

  /** `copy(dAtA[j:], bs)`. */
  method CopyInto(buf: array<byte>, j: nat, bs: Buffer)
    requires j + |bs| <= buf.Length
    modifies buf
    ensures buf[..] == Splice(old(buf[..]), j, bs)
  {
    forall k | 0 <= k < |bs| { buf[j + k] := bs[k]; }
  }

  method PutBytes(buf: array<byte>, i: nat, num: FieldNum, bs: Buffer) returns (j: nat)
    requires BytesFieldSize(|bs|) <= i <= buf.Length
    modifies buf
    ensures |BytesField(num, bs)| == BytesFieldSize(|bs|) && j == i - BytesFieldSize(|bs|)
    ensures buf[..] == Splice(old(buf[..]), j, BytesField(num, bs))
  {
    hide EncodeVarint, Sov, Splice;
    FieldSizes(num, bs, 0);
    if |bs| > 0 {
      CopyInto(buf, i - |bs|, bs);
      ghost var mid := buf[..];
      j := PutHeader(buf, i - |bs|, num, |bs|);
      SpliceInFront(old(buf[..]), i - |bs|, bs, j, [num * 8 + DELIMITED] + EncodeVarint(|bs|));
    } else {
      SpliceNothing(buf[..], i);
      j := i;
    }
  }

  method PutVarint(buf: array<byte>, i: nat, num: FieldNum, v: uint64) returns (j: nat)
    requires VarintFieldSize(v) <= i <= buf.Length
    modifies buf
    ensures |VarintField(num, v)| == VarintFieldSize(v) && j == i - VarintFieldSize(v)
    ensures buf[..] == Splice(old(buf[..]), j, VarintField(num, v))
  {
    hide EncodeVarint, Sov, Splice;
    FieldSizes(num, [], v);
    if v != 0 {
      var k := EncodeVarintTo(buf, i, v);
      j := k - 1;
      PutByte(buf, j, num * 8 + VARINT);
      SpliceInFront(old(buf[..]), k, EncodeVarint(v), j, [num * 8 + VARINT]);
    } else {
      SpliceNothing(buf[..], i);
      j := i;
    }
  }

  // ---------------------------------------------------------------- MsgExecutionPayload

  class ExecutionPayloadMsg {
    var authority: Buffer
    var payload: Buffer

    constructor ()
      ensures Value() == NO_PAYLOAD
    {
      authority, payload := [], [];
    }

    function Value(): ExecutionPayload
      reads this
    {
      ExecutionPayload(authority, payload)
    }

    /** Writes exactly the message's wire form at the tail of buf[..hi] and nothing else. */
    method MarshalToSizedBuffer(buf: array<byte>, hi: nat) returns (n: nat)
      requires PayloadSize(Value()) <= hi <= buf.Length
      modifies buf
      ensures n == PayloadSize(Value()) == |EncodePayload(Value())|
      ensures buf[..] == Splice(old(buf[..]), hi - n, EncodePayload(Value()))
    {
      hide BytesField, BytesFieldSize;
      PayloadSizeIsExact(Value());
      ghost var was := buf[..];
      var i1 := PutBytes(buf, hi, 2, payload);
      var i2 := PutBytes(buf, i1, 1, authority);
      SpliceInFront(was, i1, BytesField(2, payload), i2, BytesField(1, authority));
      n := hi - i2;
    }

    method Marshal() returns (data: array<byte>)
      ensures fresh(data) && data[..] == EncodePayload(Value())
    {
      hide EncodePayload, PayloadSize;
      data := new byte[PayloadSize(Value())](_ => 0);
      var n := MarshalToSizedBuffer(data, data.Length);
    }

    /** Decodes onto the fields the message holds. */
    method Unmarshal(data: Buffer) returns (err: Option<WireError>)
      modifies this
      ensures err.None? ==> Decode(PayloadCodec(), old(Value()), data, 0) == Ok(Value())
      ensures err.Some? ==> Decode(PayloadCodec(), old(Value()), data, 0) == Err(err.value)
      ensures Value() == Left(PayloadCodec(), old(Value()), data, 0)
    {
      hide ReadVarint, ReadBytes, SkipUnknown, ToInt32;
      ghost var want := Decode(PayloadCodec(), Value(), data, 0);
      ghost var left := Left(PayloadCodec(), Value(), data, 0);
      var i := 0;
      while i < |data|
        invariant i <= |data|
        invariant Decode(PayloadCodec(), Value(), data, i) == want
        invariant Left(PayloadCodec(), Value(), data, i) == left
      {
        var r := DecodeVarint(data, i);
        if r.Err? { return Some(r.error); }
        var tag := r.value;
        var fieldNum := ToInt32(tag.v / 8);
        var wireType := tag.v % 8;
        if wireType == END_GROUP { return Some(EndGroup); }
        if fieldNum <= 0 { return Some(IllegalTag); }
        if fieldNum == 1 || fieldNum == 2 {
          if wireType != DELIMITED { return Some(WrongWireType); }
          var c := DecodeBytes(data, tag.next);
          if c.Err? { return Some(c.error); }
          if fieldNum == 1 { authority := c.value.bytes; } else { payload := c.value.bytes; }
          i := c.value.next;
        } else {
          var next := PassUnknown(data, i);
          if next.Err? { return Some(next.error); }
          i := next.value;
        }
      }
      err := None;
    }
  }

  /** A message marshalled by one node and unmarshalled by another arrives as a new, equal object. */
  method TransferPayload(m: ExecutionPayloadMsg) returns (copy: ExecutionPayloadMsg, err: Option<WireError>)
    requires PayloadSize(m.Value()) < TWO_63
    ensures fresh(copy) && err.None? && copy.Value() == m.Value()
  {
    hide Decode, Left, EncodePayload, PayloadSize;
    PayloadRoundTrip(m.Value());
    var data := m.Marshal();
    copy := new ExecutionPayloadMsg();
    err := copy.Unmarshal(data[..]);
  }

  // ---------------------------------------------------------------- WithdrawalRequest

  class WithdrawalMsg {
    var sourceAddress: Buffer
    var validatorPubkey: Buffer
    var amount: uint64

    constructor ()
      ensures Value() == NO_WITHDRAWAL
    {
      sourceAddress, validatorPubkey, amount := [], [], 0;
    }

    function Value(): Withdrawal
      reads this
    {
      Withdrawal(sourceAddress, validatorPubkey, amount)
    }

    method MarshalToSizedBuffer(buf: array<byte>, hi: nat) returns (n: nat)
      requires WithdrawalSize(Value()) <= hi <= buf.Length
      modifies buf
      ensures n == WithdrawalSize(Value()) == |EncodeWithdrawal(Value())|
      ensures buf[..] == Splice(old(buf[..]), hi - n, EncodeWithdrawal(Value()))
    {
      hide BytesField, BytesFieldSize, VarintField, VarintFieldSize;
      WithdrawalSizeIsExact(Value());
      ghost var was := buf[..];
      var i1 := PutVarint(buf, hi, 3, amount);
      var i2 := PutBytes(buf, i1, 2, validatorPubkey);
      ghost var f3, f2 := VarintField(3, amount), BytesField(2, validatorPubkey);
      SpliceInFront(was, i1, f3, i2, f2);
      var i3 := PutBytes(buf, i2, 1, sourceAddress);
      SpliceInFront(was, i2, f2 + f3, i3, BytesField(1, sourceAddress));
      n := hi - i3;
    }

    method Unmarshal(data: Buffer) returns (err: Option<WireError>)
      modifies this
      ensures err.None? ==> Decode(WithdrawalCodec(), old(Value()), data, 0) == Ok(Value())
      ensures err.Some? ==> Decode(WithdrawalCodec(), old(Value()), data, 0) == Err(err.value)
      ensures Value() == Left(WithdrawalCodec(), old(Value()), data, 0)
    {
      hide ReadVarint, ReadBytes, SkipUnknown, ToInt32;
      ghost var want := Decode(WithdrawalCodec(), Value(), data, 0);
      ghost var left := Left(WithdrawalCodec(), Value(), data, 0);
      var i := 0;
      while i < |data|
        invariant i <= |data|
        invariant Decode(WithdrawalCodec(), Value(), data, i) == want
        invariant Left(WithdrawalCodec(), Value(), data, i) == left
      {
        var r := DecodeVarint(data, i);
        if r.Err? { return Some(r.error); }
        var tag := r.value;
        var fieldNum := ToInt32(tag.v / 8);
        var wireType := tag.v % 8;
        if wireType == END_GROUP { return Some(EndGroup); }
        if fieldNum <= 0 { return Some(IllegalTag); }
        if fieldNum == 1 || fieldNum == 2 {
          if wireType != DELIMITED { return Some(WrongWireType); }
          var c := DecodeBytes(data, tag.next);
          if c.Err? { return Some(c.error); }
          if fieldNum == 1 { sourceAddress := c.value.bytes; } else { validatorPubkey := c.value.bytes; }
          i := c.value.next;
        } else if fieldNum == 3 {
          if wireType != VARINT { return Some(WrongWireType); }
          var v;
          amount, v := AccumulateVarint(data, tag.next);
          if v.Err? { return Some(v.error); }
          i := v.value.next;
        } else {
          var next := PassUnknown(data, i);
          if next.Err? { return Some(next.error); }
          i := next.value;
        }
      }
      err := None;
    }
  }

  // ---------------------------------------------------------------- DepositRequest

  class DepositMsg {
    var pubkey: Buffer
    var credentials: Buffer
    var amount: uint64
    var signature: Buffer
    var index: uint64

    constructor ()
      ensures Value() == NO_DEPOSIT
    {
      pubkey, credentials, amount, signature, index := [], [], 0, [], 0;
    }

    function Value(): Deposit
      reads this
    {
      Deposit(pubkey, credentials, amount, signature, index)
    }

    method MarshalToSizedBuffer(buf: array<byte>, hi: nat) returns (n: nat)
      requires DepositSize(Value()) <= hi <= buf.Length
      modifies buf
      ensures n == DepositSize(Value()) == |EncodeDeposit(Value())|
      ensures buf[..] == Splice(old(buf[..]), hi - n, EncodeDeposit(Value()))
    {
      hide BytesField, BytesFieldSize, VarintField, VarintFieldSize, Splice;
      DepositSizeIsExact(Value());
      ghost var was := buf[..];
      var i1 := PutVarint(buf, hi, 5, index);
      ghost var tail := VarintField(5, index);
      var i2 := PutBytes(buf, i1, 4, signature);
      SpliceInFront(was, i1, tail, i2, BytesField(4, signature));
      tail := BytesField(4, signature) + tail;
      var i3 := PutVarint(buf, i2, 3, amount);
      SpliceInFront(was, i2, tail, i3, VarintField(3, amount));
      tail := VarintField(3, amount) + tail;
      var i4 := PutBytes(buf, i3, 2, credentials);
      SpliceInFront(was, i3, tail, i4, BytesField(2, credentials));
      tail := BytesField(2, credentials) + tail;
      var i5 := PutBytes(buf, i4, 1, pubkey);
      SpliceInFront(was, i4, tail, i5, BytesField(1, pubkey));
      n := hi - i5;
    }

    method Unmarshal(data: Buffer) returns (err: Option<WireError>)
      modifies this
      ensures err.None? ==> Decode(DepositCodec(), old(Value()), data, 0) == Ok(Value())
      ensures err.Some? ==> Decode(DepositCodec(), old(Value()), data, 0) == Err(err.value)
      ensures Value() == Left(DepositCodec(), old(Value()), data, 0)
    {
      hide ReadVarint, ReadBytes, SkipUnknown, ToInt32;
      ghost var want := Decode(DepositCodec(), Value(), data, 0);
      ghost var left := Left(DepositCodec(), Value(), data, 0);
      var i := 0;
      while i < |data|
        invariant i <= |data|
        invariant Decode(DepositCodec(), Value(), data, i) == want
        invariant Left(DepositCodec(), Value(), data, i) == left
      {
        var r := DecodeVarint(data, i);
        if r.Err? { return Some(r.error); }
        var tag := r.value;
        var fieldNum := ToInt32(tag.v / 8);
        var wireType := tag.v % 8;
        if wireType == END_GROUP { return Some(EndGroup); }
        if fieldNum <= 0 { return Some(IllegalTag); }
        if fieldNum == 1 || fieldNum == 2 || fieldNum == 4 {
          if wireType != DELIMITED { return Some(WrongWireType); }
          var c := DecodeBytes(data, tag.next);
          if c.Err? { return Some(c.error); }
          if fieldNum == 1 { pubkey := c.value.bytes; }
          else if fieldNum == 2 { credentials := c.value.bytes; }
          else { signature := c.value.bytes; }
          i := c.value.next;
        } else if fieldNum == 3 || fieldNum == 5 {
          if wireType != VARINT { return Some(WrongWireType); }
          var acc, v := AccumulateVarint(data, tag.next);
          if fieldNum == 3 { amount := acc; } else { index := acc; }
          if v.Err? { return Some(v.error); }
          i := v.value.next;
        } else {
          var next := PassUnknown(data, i);
          if next.Err? { return Some(next.error); }
          i := next.value;
        }
      }
      err := None;
    }
  }

  // ---------------------------------------------------------------- ConsensusRequests

  function DepositValues(ds: seq<DepositMsg>): (r: seq<Deposit>)
    reads ds
    ensures |r| == |ds| && forall k :: 0 <= k < |ds| ==> r[k] == ds[k].Value()
  {
    if ds == [] then [] else [ds[0].Value()] + DepositValues(ds[1..])
  }

  function WithdrawalValues(ws: seq<WithdrawalMsg>): (r: seq<Withdrawal>)
    reads ws
    ensures |r| == |ws| && forall k :: 0 <= k < |ws| ==> r[k] == ws[k].Value()
  {
    if ws == [] then [] else [ws[0].Value()] + WithdrawalValues(ws[1..])
  }

  lemma DepositValuesAppend(ms: seq<DepositMsg>, m: DepositMsg)
    ensures DepositValues(ms + [m]) == DepositValues(ms) + [m.Value()]
  {
  }

  lemma WithdrawalValuesAppend(ms: seq<WithdrawalMsg>, m: WithdrawalMsg)
    ensures WithdrawalValues(ms + [m]) == WithdrawalValues(ms) + [m.Value()]
  {
  }

  class RequestsMsg {
    var deposits: seq<DepositMsg>
    var withdrawals: seq<WithdrawalMsg>

    constructor ()
      ensures Value() == NO_REQUESTS
    {
      deposits, withdrawals := [], [];
    }

    function Value(): Requests
      reads this, deposits, withdrawals
    {
      Requests(DepositValues(deposits), WithdrawalValues(withdrawals))
    }

    /** The accumulating size loops compute the length of the wire form. */
    method Size() returns (n: nat)
      ensures n == |EncodeRequests(Value())|
    {
      hide EncodeDeposit, EncodeWithdrawal, DepositSize, WithdrawalSize, Delimited, DelimitedSize, EncodeList;
      ghost var ds, ws := DepositBodies(Value().deposits), WithdrawalBodies(Value().withdrawals);
      n := 0;
      EncodeListNone(1);
      for k := 0 to |deposits|
        invariant n == |EncodeList(1, ds[..k])|
      {
        DepositSizeIsExact(deposits[k].Value());
        FieldSizes(1, ds[k], 0);
        EncodeListAt(1, ds, k);
        n := n + DelimitedSize(DepositSize(deposits[k].Value()));
      }
      assert ds[..|deposits|] == ds;
      EncodeListNone(2);
      for k := 0 to |withdrawals|
        invariant n == |EncodeList(1, ds)| + |EncodeList(2, ws[..k])|
      {
        WithdrawalSizeIsExact(withdrawals[k].Value());
        FieldSizes(2, ws[k], 0);
        EncodeListAt(2, ws, k);
        n := n + DelimitedSize(WithdrawalSize(withdrawals[k].Value()));
      }
      assert ws[..|withdrawals|] == ws;
    }

    /** Nested messages are written last to first, each behind its own length and tag. */
    method MarshalToSizedBuffer(buf: array<byte>, hi: nat) returns (n: nat)
      requires |EncodeRequests(Value())| <= hi <= buf.Length < TWO_63
      modifies buf
      ensures n == |EncodeRequests(Value())|
      ensures buf[..] == Splice(old(buf[..]), hi - n, EncodeRequests(Value()))
    {
      hide EncodeList, Splice, DepositBodies, WithdrawalBodies;
      ghost var was, tail := buf[..], EncodeList(2, WithdrawalBodies(Value().withdrawals));
      var i := MarshalWithdrawals(buf, hi);
      i := MarshalDeposits(buf, was, tail, i);
      n := hi - i;
    }

    method MarshalWithdrawals(buf: array<byte>, hi: nat) returns (i: nat)
      requires |EncodeList(2, WithdrawalBodies(Value().withdrawals))| <= hi <= buf.Length < TWO_63
      modifies buf
      ensures i == hi - |EncodeList(2, WithdrawalBodies(Value().withdrawals))|
      ensures buf[..] == Splice(old(buf[..]), i, EncodeList(2, WithdrawalBodies(Value().withdrawals)))
    {
      hide EncodeList, Splice, Delimited, EncodeWithdrawal, WithdrawalSize;
      ghost var was := buf[..];
      ghost var ws := WithdrawalBodies(Value().withdrawals);
      i := hi;
      var k := |withdrawals|;
      assert ws[k..] == [] && ws[..k] == ws;
      EncodeListNone(2);
      SpliceNothing(was, hi);
      while k > 0
        invariant 0 <= k <= |withdrawals|
        invariant i + |EncodeList(2, ws[k..])| == hi && |EncodeList(2, ws[..k])| <= i
        invariant buf[..] == Splice(was, i, EncodeList(2, ws[k..]))
      {
        k := k - 1;
        EncodeListAt(2, ws, k);
        ghost var tail := EncodeList(2, ws[k + 1..]);
        WithdrawalSizeIsExact(withdrawals[k].Value());
        DelimitedHolds(2, ws[k]);
        var size := withdrawals[k].MarshalToSizedBuffer(buf, i);
        SpliceInFront(was, i, tail, i - size, ws[k]);
        i := PutNestedHeader(buf, was, tail, i, 2, ws[k], size);
      }
      assert ws[0..] == ws;
    }

    method MarshalDeposits(buf: array<byte>, ghost was: seq<byte>, ghost end: seq<byte>, hi: nat) returns (i: nat)
      requires |EncodeList(1, DepositBodies(Value().deposits))| <= hi && hi + |end| <= buf.Length == |was| < TWO_63
      requires buf[..] == Splice(was, hi, end)
      modifies buf
      ensures i == hi - |EncodeList(1, DepositBodies(Value().deposits))|
      ensures buf[..] == Splice(was, i, EncodeList(1, DepositBodies(Value().deposits)) + end)
    {
      hide EncodeList, Splice, Delimited, EncodeDeposit, DepositSize;
      ghost var ds := DepositBodies(Value().deposits);
      i := hi;
      var k := |deposits|;
      assert ds[k..] == [] && ds[..k] == ds;
      EncodeListNone(1);
      assert [] + end == end;
      while k > 0
        invariant 0 <= k <= |deposits|
        invariant i + |EncodeList(1, ds[k..])| == hi && |EncodeList(1, ds[..k])| <= i
        invariant buf[..] == Splice(was, i, EncodeList(1, ds[k..]) + end)
      {
        k := k - 1;
        EncodeListAt(1, ds, k);
        ghost var tail := EncodeList(1, ds[k + 1..]) + end;
        assert EncodeList(1, ds[k..]) + end == Delimited(1, ds[k]) + tail;
        DepositSizeIsExact(deposits[k].Value());
        DelimitedHolds(1, ds[k]);
        var size := deposits[k].MarshalToSizedBuffer(buf, i);
        SpliceInFront(was, i, tail, i - size, ds[k]);
        i := PutNestedHeader(buf, was, tail, i, 1, ds[k], size);
      }
      assert ds[0..] == ds;
    }

    method Marshal() returns (data: array<byte>)
      requires |EncodeRequests(Value())| < TWO_63
      ensures fresh(data) && data[..] == EncodeRequests(Value())
    {
      hide EncodeRequests;
      var size := Size();
      data := new byte[size](_ => 0);
      var n := MarshalToSizedBuffer(data, size);
    }

    /** Every nested message is decoded into a new object, appended to the lists the message holds. */
    method Unmarshal(data: Buffer) returns (err: Option<WireError>)
      modifies this
      ensures err.None? ==> Decode(RequestsCodec(), old(Value()), data, 0) == Ok(Value())
      ensures err.Some? ==> Decode(RequestsCodec(), old(Value()), data, 0) == Err(err.value)
      ensures Value() == Left(RequestsCodec(), old(Value()), data, 0)
    {
      hide ReadVarint, ReadBytes, SkipUnknown, ToInt32, SetRequestsField, DepositValues, WithdrawalValues;
      ghost var want := Decode(RequestsCodec(), Value(), data, 0);
      ghost var left := Left(RequestsCodec(), Value(), data, 0);
      var i := 0;
      while i < |data|
        invariant i <= |data|
        invariant Decode(RequestsCodec(), Value(), data, i) == want
        invariant Left(RequestsCodec(), Value(), data, i) == left
      {
        var r := DecodeVarint(data, i);
        if r.Err? { return Some(r.error); }
        var tag := r.value;
        var fieldNum := ToInt32(tag.v / 8);
        var wireType := tag.v % 8;
        if wireType == END_GROUP { return Some(EndGroup); }
        if fieldNum <= 0 { return Some(IllegalTag); }
        if fieldNum == 1 || fieldNum == 2 {
          if wireType != DELIMITED { return Some(WrongWireType); }
          var c := DecodeBytes(data, tag.next);
          if c.Err? { return Some(c.error); }
          var e: Option<WireError>;
          if fieldNum == 1 { e := AppendDeposit(c.value.bytes); } else { e := AppendWithdrawal(c.value.bytes); }
          if e.Some? { return e; }
          i := c.value.next;
        } else {
          var next := PassUnknown(data, i);
          if next.Err? { return Some(next.error); }
          i := next.value;
        }
      }
      err := None;
    }

    method AppendDeposit(data: Buffer) returns (err: Option<WireError>)
      modifies this`deposits
      ensures err.None? ==> SetRequestsField(old(Value()), BytesItem(1, data)) == Ok(Value())
      ensures err.Some? ==> SetRequestsField(old(Value()), BytesItem(1, data)) == Err(err.value)
      ensures err.Some? ==> Value() == LeaveRequestsField(old(Value()), BytesItem(1, data))
    {
      hide Decode, Left, DepositValues, WithdrawalValues, DepositCodec, WithdrawalCodec;
      var d := new DepositMsg();
      deposits := deposits + [d];
      err := d.Unmarshal(data);
      DepositValuesAppend(old(deposits), d);
    }

    method AppendWithdrawal(data: Buffer) returns (err: Option<WireError>)
      modifies this`withdrawals
      ensures err.None? ==> SetRequestsField(old(Value()), BytesItem(2, data)) == Ok(Value())
      ensures err.Some? ==> SetRequestsField(old(Value()), BytesItem(2, data)) == Err(err.value)
      ensures err.Some? ==> Value() == LeaveRequestsField(old(Value()), BytesItem(2, data))
    {
      hide Decode, Left, DepositValues, WithdrawalValues, DepositCodec, WithdrawalCodec;
      var w := new WithdrawalMsg();
      withdrawals := withdrawals + [w];
      err := w.Unmarshal(data);
      WithdrawalValuesAppend(old(withdrawals), w);
    }
  }

  lemma DelimitedHolds(num: FieldNum, body: seq<byte>)
    ensures |Delimited(num, body)| > |body|
  {
  }

  /** The length and the tag of a nested message that stands right before i, in front of `tail`. */
  method PutNestedHeader(buf: array<byte>, ghost was: seq<byte>, ghost tail: seq<byte>, i: nat, num: FieldNum,
                         ghost body: seq<byte>, size: nat) returns (j: nat)
    requires size == |body| && |Delimited(num, body)| <= i && i + |tail| <= buf.Length == |was| < TWO_63
    requires size <= i && buf[..] == Splice(was, i - size, body + tail)
    modifies buf
    ensures j == i - |Delimited(num, body)|
    ensures buf[..] == Splice(was, j, Delimited(num, body) + tail)
  {
    hide Splice, EncodeVarint, Sov;
    FieldSizes(num, body, 0);
    ghost var header := [num * 8 + DELIMITED] + EncodeVarint(size);
    j := PutHeader(buf, i - size, num, size);
    SpliceInFront(was, i - size, body + tail, j, header);
    assert header + (body + tail) == Delimited(num, body) + tail;
  }

  /** The same with nested messages. */
  method TransferRequests(m: RequestsMsg) returns (copy: RequestsMsg, err: Option<WireError>)
    requires |EncodeRequests(m.Value())| < TWO_63
    ensures fresh(copy) && err.None? && copy.Value() == m.Value()
  {
    hide Decode, Left, EncodeRequests;
    RequestsRoundTrip(m.Value());
    var data := m.Marshal();
    copy := new RequestsMsg();
    err := copy.Unmarshal(data[..]);
  }
}
