/**
 Base-128 varints: cosmos/x/evm/types/consensus.pb.go, the loops that read
 them, `encodeVarintConsensus` and `sovConsensus` (tx.pb.go holds the same code).
 */
module Varint {
  import opened GoInts

  datatype WireError =
    | IntOverflow            // more than ten varint bytes
    | UnexpectedEOF
    | InvalidLength          // a length or an index wrapped to a negative int
    | EndGroup               // end-group tag outside a group
    | IllegalTag             // field number not positive
    | WrongWireType          // known field, other wire type
    | UnexpectedEndOfGroup
    | IllegalWireType        // wire type 6 or 7

  datatype Result<+T> = Ok(value: T) | Err(error: WireError) {
    predicate IsFailure() { Err? }

    function PropagateFailure<U>(): (r: Result<U>)
      requires Err?
    {
      Err(error)
    }

    function Extract(): T
      requires Ok?
    {
      value
    }
  }

  /** A varint that was read: its value and the index just behind it. */
  datatype Read = Read(v: uint64, next: nat)

  const MAX_VARINT_BYTES: nat := 10

  // ---------------------------------------------------------------- meaning

  function Pow2(n: nat): (r: nat)
    ensures r > 0
  {
    if n == 0 then 1 else 2 * Pow2(n - 1)
  }

  /** The number whose base-128 digits are the low seven bits of bs, least significant first. */
  function Base128(bs: seq<byte>): nat {
    if bs == [] then 0 else bs[0] % 128 + 128 * Base128(bs[1..])
  }

  /** The index behind the first byte below 0x80 among the next `budget` bytes from i. */
  function VarintEnd(s: seq<byte>, i: nat, budget: nat): (r: Result<nat>)
    ensures r.Ok? ==> i < r.value <= |s| && r.value - i <= budget && s[r.value - 1] < 128
    decreases |s| - i
  {
    if budget == 0 then Err(IntOverflow)
    else if i >= |s| then Err(UnexpectedEOF)
    else if s[i] < 128 then Ok(i + 1)
    else VarintEnd(s, i + 1, budget - 1)
  }

  /** The varint at index i: the 64 low bits of the number its bytes spell. */
  function ReadVarint(s: seq<byte>, i: nat): (r: Result<Read>)
    ensures r.Ok? ==> i < r.value.next <= |s|
  {
    var j :- VarintEnd(s, i, MAX_VARINT_BYTES);
    Ok(Read(ToUint64(Base128(s[i..j])), j))
  }

  /** The number accumulated when a varint at i breaks off: at the end of s, or after ten bytes. */
  function BrokenVarint(s: seq<byte>, i: nat): uint64
    requires i <= |s|
  {
    ToUint64(Base128(s[i..if |s| < i + MAX_VARINT_BYTES then |s| else i + MAX_VARINT_BYTES]))
  }

  /** The minimal varint of v. */
  function EncodeVarint(v: nat): (r: seq<byte>)
    ensures r != []
  {
    if v < 128 then [v] else [v % 128 + 128] + EncodeVarint(v / 128)
  }

  // ---------------------------------------------------------------- size

  /** `math/bits.Len64`: the number of bits needed to write x. */
  function BitLength(x: nat): nat {
    if x == 0 then 0 else 1 + BitLength(x / 2)
  }

  /** `sovConsensus` and `sovTx`. */
  function Sov(x: nat): nat {
    (BitLength(if x % 2 == 0 then x + 1 else x) + 6) / 7
  }

  lemma BitLengthShift(x: nat)
    requires x >= 128
    ensures BitLength(x) == 7 + BitLength(x / 128)
  {
    var x1 := x / 2;
    var x2 := x1 / 2;
    var x3 := x2 / 2;
    var x4 := x3 / 2;
    var x5 := x4 / 2;
    var x6 := x5 / 2;
    assert x6 / 2 == x / 128;
    assert BitLength(x) == 2 + BitLength(x2) && BitLength(x2) == 2 + BitLength(x4);
    assert BitLength(x4) == 2 + BitLength(x6);
  }

  /** `sov` is the number of bytes the varint loop emits. */
  lemma {:induction false} SovIsEncodedLength(v: nat)
    ensures Sov(v) == |EncodeVarint(v)|
  {
    var w := if v % 2 == 0 then v + 1 else v;
    if v < 128 {
      SmallBitLength(w);
    } else {
      SovIsEncodedLength(v / 128);
      BitLengthShift(w);
      var q := w / 128;
      assert q == v / 128;
      assert BitLength(if q % 2 == 0 then q + 1 else q) == BitLength(q) by {
        if q % 2 == 0 { assert (q + 1) / 2 == q / 2; }
      }
    }
  }

  lemma SmallBitLength(w: nat)
    requires 0 < w < 128
    ensures 1 <= BitLength(w) <= 7
  {
    BitLengthBound(w, 7);
  }

  lemma {:induction false} BitLengthBound(w: nat, k: nat)
    requires w < Pow2(k)
    ensures BitLength(w) <= k
    decreases k
  {
    if w > 0 { BitLengthBound(w / 2, k - 1); }
  }

  // ---------------------------------------------------------------- arithmetic of the digits

  lemma {:induction false} Pow2Add(a: nat, b: nat)
    ensures Pow2(a + b) == Pow2(a) * Pow2(b)
    decreases a
  {
    if a > 0 { Pow2Add(a - 1, b); }
  }

  lemma {:induction false} Base128Append(bs: seq<byte>, b: byte)
    ensures Base128(bs + [b]) == Base128(bs) + b % 128 * Pow2(7 * |bs|)
  {
    if bs == [] {
      assert bs + [b] == [b];
      assert [b][1..] == [];
    } else {
      var t := bs[1..];
      assert (bs + [b])[1..] == t + [b];
      Base128Append(t, b);
      Pow2Add(7, 7 * |t|);
      assert Pow2(7) == 128;
      var g, p := b % 128, Pow2(7 * |t|);
      assert 128 * (g * p) == g * (128 * p);
    }
  }

  lemma {:induction false} Base128Bound(bs: seq<byte>)
    ensures Base128(bs) < Pow2(7 * |bs|)
  {
    if bs != [] {
      Base128Bound(bs[1..]);
      Pow2Add(7, 7 * |bs[1..]|);
      assert Pow2(7) == 128;
    }
  }

  /** `acc |= uint64(b&0x7F) << shift`: acc is below 2^shift, and the or of disjoint bits is a sum. */
  function ShiftIn(acc: uint64, b: byte, shift: nat): uint64 {
    ToUint64(acc + ToUint64(b % 128 * Pow2(shift)))
  }

  /**
   The step of the loop on machine words: at each of its ten shifts an accumulator below 2^shift
   and the shifted byte share no bits, so `|` adds.
   */
  lemma OrShiftedIsSum(acc: bv64, b: bv64, shift: int)
    requires shift in {0, 7, 14, 21, 28, 35, 42, 49, 56, 63} && acc < 1 << shift && b < 128
    ensures acc | (b << shift) == acc + (b << shift)
  {
  }

  lemma Pow2At63()
    ensures Pow2(63) == TWO_63
  {
    Pow2Add(32, 31);
    Pow2Add(16, 16);
    Pow2Add(16, 15);
    assert Pow2(16) == 65536 by { Pow2Add(8, 8); assert Pow2(8) == 256; }
    assert Pow2(15) == 32768;
  }

  lemma {:induction false} Pow2Monotone(a: nat, b: nat)
    requires a <= b
    ensures Pow2(a) <= Pow2(b)
    decreases b - a
  {
    if a < b { Pow2Monotone(a, b - 1); }
  }

  lemma MulBelow128(g: nat, p: nat)
    requires g < 128
    ensures 0 <= g * p <= 127 * p
  {
  }

  /** Wrapping the addend first changes nothing modulo 2^64. */
  lemma WrapTwice(a: nat, x: nat)
    ensures ToUint64(a + ToUint64(x)) == ToUint64(a + x)
  {
  }

  /** Fewer than ten digits leave the top bit of a word clear. */
  lemma DigitsBelowWord(bs: seq<byte>)
    requires |bs| < MAX_VARINT_BYTES
    ensures Base128(bs) < TWO_63
  {
    Base128Bound(bs);
    Pow2At63();
    Pow2Monotone(7 * |bs|, 63);
  }

  /** One turn of the accumulating loop keeps the accumulator equal to the digits read, modulo 2^64. */
  lemma ShiftInIsAppend(bs: seq<byte>, b: byte)
    requires Base128(bs) < TWO_63
    ensures ShiftIn(Base128(bs), b, 7 * |bs|) == ToUint64(Base128(bs + [b]))
  {
    Base128Append(bs, b);
    MulBelow128(b % 128, Pow2(7 * |bs|));
    WrapTwice(Base128(bs), b % 128 * Pow2(7 * |bs|));
  }

  /** ... for the byte at index i of a varint that starts at index `start`. */
  lemma AccumulateNext(data: seq<byte>, start: nat, i: nat)
    requires start <= i < |data| && i - start < MAX_VARINT_BYTES
    ensures ShiftIn(ToUint64(Base128(data[start..i])), data[i], 7 * (i - start))
            == ToUint64(Base128(data[start..i + 1]))
  {
    DigitsBelowWord(data[start..i]);
    ShiftInIsAppend(data[start..i], data[i]);
    assert data[start..i + 1] == data[start..i] + [data[i]];
  }

  /** The shift-and-accumulate loop that every field reader inlines. */
  method AccumulateVarint(data: Buffer, start: nat) returns (acc: uint64, r: Result<Read>)
    requires start <= |data|
    ensures r == ReadVarint(data, start)
    ensures acc == if r.Ok? then r.value.v else BrokenVarint(data, start)
  {
    acc := 0;
    var shift := 0;
    var i := start;
    assert data[start..i] == [];
    while true
      invariant start <= i <= |data| && shift == 7 * (i - start) && shift <= 70
      invariant acc == ToUint64(Base128(data[start..i]))
      invariant VarintEnd(data, start, MAX_VARINT_BYTES) == VarintEnd(data, i, MAX_VARINT_BYTES - (i - start))
      decreases |data| - i
    {
      if shift >= 64 { return acc, Err(IntOverflow); }
      if i >= |data| { return acc, Err(UnexpectedEOF); }
      var b := data[i];
      AccumulateNext(data, start, i);
      i := i + 1;
      acc := ShiftIn(acc, b, shift);
      if b < 128 { break; }
      shift := shift + 7;
    }
    r := Ok(Read(acc, i));
  }

  /** The same loop where the number is dropped on an error. */
  method DecodeVarint(data: Buffer, start: nat) returns (r: Result<Read>)
    requires start <= |data|
    ensures r == ReadVarint(data, start)
  {
    var acc;
    acc, r := AccumulateVarint(data, start);
  }

  // ---------------------------------------------------------------- errors

  /** Fewer continuation bytes than the budget and then the end of input. */
  lemma {:induction false} CutShort(s: seq<byte>, i: nat, budget: nat)
    requires i <= |s| < i + budget && forall k :: i <= k < |s| ==> s[k] >= 128
    ensures VarintEnd(s, i, budget) == Err(UnexpectedEOF)
    decreases budget
  {
    if i < |s| { CutShort(s, i + 1, budget - 1); }
  }

  /** As many continuation bytes as the budget, whatever follows. */
  lemma {:induction false} TooLong(s: seq<byte>, i: nat, budget: nat)
    requires i + budget <= |s| && forall k :: i <= k < i + budget ==> s[k] >= 128
    ensures VarintEnd(s, i, budget) == Err(IntOverflow)
    decreases budget
  {
    if budget > 0 { TooLong(s, i + 1, budget - 1); }
  }

  /**
   When a varint cannot be read: ten continuation bytes are an overflow, whatever follows, and
   fewer at the end of the buffer are an unexpected end of input.
   */
  lemma VarintErrors(s: seq<byte>, i: nat)
    requires i <= |s|
    ensures ReadVarint(s, i) == Err(IntOverflow) <==> i + 10 <= |s| && forall k :: i <= k < i + 10 ==> s[k] >= 128
    ensures ReadVarint(s, i) == Err(UnexpectedEOF) <==> |s| < i + 10 && forall k :: i <= k < |s| ==> s[k] >= 128
  {
    hide Base128;
    var r := VarintEnd(s, i, 10);
    if i + 10 <= |s| && (forall k :: i <= k < i + 10 ==> s[k] >= 128) {
      TooLong(s, i, 10);
    } else if |s| < i + 10 && (forall k :: i <= k < |s| ==> s[k] >= 128) {
      CutShort(s, i, 10);
    } else {
      var k :| i <= k < |s| && k < i + 10 && s[k] < 128;
      EndsBy(s, i, 10, k);
    }
  }

  lemma {:induction false} EndsBy(s: seq<byte>, i: nat, budget: nat, k: nat)
    requires i <= k < |s| && k < i + budget && s[k] < 128
    ensures VarintEnd(s, i, budget).Ok?
    decreases budget
  {
    if s[i] >= 128 { EndsBy(s, i + 1, budget - 1, k); }
  }

  // ---------------------------------------------------------------- locality

  /** A varint that ends inside a is read the same when bytes follow. */
  lemma {:induction false} VarintEndPrefix(a: seq<byte>, b: seq<byte>, i: nat, budget: nat)
    requires VarintEnd(a, i, budget).Ok?
    ensures VarintEnd(a + b, i, budget) == VarintEnd(a, i, budget)
    decreases budget
  {
    if a[i] >= 128 { VarintEndPrefix(a, b, i + 1, budget - 1); }
  }

  function Shifted(r: Result<nat>, d: nat): Result<nat> {
    match r case Ok(j) => Ok(d + j) case Err(e) => Err(e)
  }

  /** Bytes in front only shift the indices, errors included. */
  lemma {:induction false} VarintEndShift(a: seq<byte>, b: seq<byte>, i: nat, budget: nat)
    ensures VarintEnd(a + b, |a| + i, budget) == Shifted(VarintEnd(b, i, budget), |a|)
    decreases budget
  {
    if budget > 0 && i < |b| && b[i] >= 128 { VarintEndShift(a, b, i + 1, budget - 1); }
  }

  lemma ReadVarintPrefix(a: seq<byte>, b: seq<byte>, i: nat)
    requires ReadVarint(a, i).Ok?
    ensures ReadVarint(a + b, i) == ReadVarint(a, i)
  {
    VarintEndPrefix(a, b, i, MAX_VARINT_BYTES);
    var j := VarintEnd(a, i, MAX_VARINT_BYTES).value;
    assert (a + b)[i..j] == a[i..j];
  }

  lemma ReadVarintShift(a: seq<byte>, b: seq<byte>, i: nat)
    ensures ReadVarint(a + b, |a| + i).Ok? <==> ReadVarint(b, i).Ok?
    ensures ReadVarint(b, i).Ok? ==> ReadVarint(a + b, |a| + i).value
                                     == Read(ReadVarint(b, i).value.v, |a| + ReadVarint(b, i).value.next)
    ensures ReadVarint(b, i).Err? ==> ReadVarint(a + b, |a| + i) == ReadVarint(b, i)
  {
    VarintEndShift(a, b, i, MAX_VARINT_BYTES);
    if ReadVarint(b, i).Ok? {
      var j := VarintEnd(b, i, MAX_VARINT_BYTES).value;
      assert (a + b)[|a| + i..|a| + j] == b[i..j];
    }
  }

  // ---------------------------------------------------------------- round trip

  lemma {:induction false} Base128OfEncoding(v: nat)
    ensures Base128(EncodeVarint(v)) == v
  {
    if v < 128 {
      assert [v as byte][1..] == [];
    } else {
      Base128OfEncoding(v / 128);
      assert EncodeVarint(v)[1..] == EncodeVarint(v / 128);
    }
  }

  lemma {:induction false} EncodingEnds(v: nat, budget: nat)
    requires budget >= 1 && v < Pow2(7 * budget)
    ensures VarintEnd(EncodeVarint(v), 0, budget) == Ok(|EncodeVarint(v)|)
    decreases budget
  {
    if v >= 128 {
      var t := EncodeVarint(v / 128);
      Pow2Add(7, 7 * (budget - 1));
      assert Pow2(7) == 128;
      if budget == 1 { assert false; }
      EncodingEnds(v / 128, budget - 1);
      VarintEndShift([v % 128 + 128], t, 0, budget - 1);
    }
  }

  /** Every 64-bit value survives encoding and decoding; the whole encoding is consumed. */
  lemma VarintRoundTrip(v: uint64)
    ensures ReadVarint(EncodeVarint(v), 0) == Ok(Read(v, |EncodeVarint(v)|))
    ensures |EncodeVarint(v)| <= MAX_VARINT_BYTES
  {
    Pow2At63();
    Pow2Add(7, 63);
    assert Pow2(7) == 128;
    EncodingEnds(v, MAX_VARINT_BYTES);
    Base128OfEncoding(v);
    assert EncodeVarint(v)[0..|EncodeVarint(v)|] == EncodeVarint(v);
  }

  // ---------------------------------------------------------------- writing in place

  /** s with c written over it from index j. */
  function Splice(s: seq<byte>, j: nat, c: seq<byte>): (r: seq<byte>)
    requires j + |c| <= |s|
    ensures |r| == |s|
  {
    s[..j] + c + s[j + |c|..]
  }

  lemma SpliceNothing(s: seq<byte>, j: nat)
    requires j <= |s|
    ensures Splice(s, j, []) == s
  {
  }

  /** Writing c1 and then c2 directly in front of it writes c2 + c1. */
  lemma SpliceInFront(s: seq<byte>, j1: nat, c1: seq<byte>, j2: nat, c2: seq<byte>)
    requires j1 + |c1| <= |s| && j2 + |c2| == j1
    ensures Splice(Splice(s, j1, c1), j2, c2) == Splice(s, j2, c2 + c1)
  {
  }

  /** Writes b right behind the bytes `done` that already stand at `base`. */
  method WriteBehind(buf: array<byte>, ghost was: seq<byte>, ghost base: nat, ghost done: seq<byte>, i: nat, b: byte)
    requires base + |done| == i < buf.Length == |was|
    requires buf[..] == Splice(was, base, done)
    modifies buf
    ensures buf[..] == Splice(was, base, done + [b])
  {
    buf[i] := b;
  }

  /** `encodeVarintConsensus` and `encodeVarintTx`: the varint ends right before `offset`. */
  method EncodeVarintTo(buf: array<byte>, offset: nat, value: uint64) returns (base: nat)
    requires Sov(value) <= offset <= buf.Length
    modifies buf
    ensures base == offset - Sov(value) && |EncodeVarint(value)| == Sov(value)
    ensures buf[..] == Splice(old(buf[..]), base, EncodeVarint(value))
  {
    SovIsEncodedLength(value);
    var v: uint64 := value;
    base := offset - Sov(v);
    var i := base;
    ghost var was := buf[..];
    ghost var done: seq<byte> := [];
    while v >= 128
      invariant i == base + |done| && i + |EncodeVarint(v)| == offset
      invariant done + EncodeVarint(v) == EncodeVarint(value)
      invariant buf[..] == Splice(was, base, done)
    {
      WriteBehind(buf, was, base, done, i, v % 128 + 128);
      done := done + [v % 128 + 128];
      v := v / 128;
      i := i + 1;
    }
    WriteBehind(buf, was, base, done, i, v);
  }
}
