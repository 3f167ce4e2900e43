/** The request and response PDUs of app/engine/modbus.py (sections 6.1 to 6.6, 6.11, 6.12
    and 7 of the MODBUS Application Protocol V1.1b3): bit and register reads, the four
    writes, the checks on a reply, and the integer register values. */
module Pdu {
  import opened Common
  import opened BitsOfByte
  import Crc
  import Mbap

  const READ_COILS := 1
  const READ_DISCRETE_INPUTS := 2
  const WRITE_SINGLE_COIL := 5
  const WRITE_SINGLE_REGISTER := 6
  const WRITE_MULTIPLE_COILS := 15
  const WRITE_MULTIPLE_REGISTERS := 16
  const MAX_READ_BITS := 2000
  const MAX_WRITE_COILS := 1968
  const MAX_WRITE_REGISTERS := 123
  const GATEWAY_TARGET_FAILED := 0x0B

  /** function | 0x80, for a function code held in a byte. */
  function Failed(function': int): Byte { var f := function' % 256; if f < 128 then f + 128 else f }

  function ExceptionPdu(function': int, code: int): Bytes { [Failed(function'), Lo(code)] }

  function ReadPdu(function': int, address: int, count: int): (r: Bytes)
    ensures |r| == 5
  {
    [Lo(function'), Hi(address), Lo(address), Hi(count), Lo(count)]
  }

  predicate SpanOk(address: int, count: int) { 0 <= address <= 0xFFFF && address + count <= 0x10000 }

  function ReadBitsPdu(function': int, address: int, count: int): (r: Result<Bytes>)
  {
    if function' != READ_COILS && function' != READ_DISCRETE_INPUTS then Err
    else if !(1 <= count <= MAX_READ_BITS) || !SpanOk(address, count) then Err
    else Ok(ReadPdu(function', address, count))
  }

  function ResponseData(pdu: Bytes, function': int): (r: Result<Bytes>)
  {
    if pdu == [] then Err
    else if pdu[0] == Failed(function') then Err
    else if pdu[0] != function' || |pdu| < 2 then Err
    else if |pdu| - 2 < pdu[1] then Err
    else Ok(pdu[2..2 + pdu[1]])
  }

  /** The data taken from a reply to a read are exactly those that the reply announces
      behind its function code and byte count. */
  lemma ResponseExact(pdu: Bytes, function': Byte, d: Bytes)
    requires function' < 128
    ensures ResponseData(pdu, function') == Ok(d) <==>
            |d| < 256 && 2 + |d| <= |pdu| && pdu[0] == function' && pdu[1] == |d| && pdu[2..2 + |d|] == d
  {
    if |pdu| >= 2 && 2 + pdu[1] <= |pdu| {
      assert |pdu[2..2 + pdu[1]]| == pdu[1];
    }
  }

  // ---- coils ----

  function Groups(count: nat): nat { (count + 7) / 8 }

  /** decode_bits: the first count bits, least significant first. */
  function DecodeBits(data: Bytes, count: int): (r: Result<seq<bool>>)
  {
    if count < 0 || |data| < Groups(count) then Err
    else Ok(seq(count, i requires 0 <= i < count => DataBit(data, i)))
  }

  predicate DataBit(data: Bytes, i: nat)
    requires i / 8 < |data|
  {
    HasBit(data[i / 8], i % 8)
  }

  predicate IsCoil(v: int) { v == 0 || v == 1 }

  predicate CoilsOk(address: int, values: seq<int>)
  {
    && (forall i :: 0 <= i < |values| ==> IsCoil(values[i]))
    && 1 <= |values| <= MAX_WRITE_COILS && SpanOk(address, |values|)
  }

  function CoilsHeader(address: int, count: int): (r: Bytes)
    requires 0 <= address <= 0xFFFF && 0 <= count <= MAX_WRITE_COILS
    ensures |r| == 6
  {
    [WRITE_MULTIPLE_COILS, Hi(address), Lo(address), Hi(count), Lo(count), Groups(count)]
  }

  /** Coils as packed: bit i is coil i, and the bits behind the last coil are clear. */
  predicate Packs(packed: Bytes, values: seq<int>)
  {
    && |packed| == Groups(|values|)
    && PacksUpTo(packed, values, |values|)
  }

  lemma Octet(i: nat)
    ensures i == 8 * (i / 8) + i % 8
  {
  }

  lemma OctetBound(i: nat, n: nat)
    ensures i < 8 * n <==> i / 8 < n
  {
  }

  /** write_multiple_coils_pdu: the states are set bit by bit in a zeroed buffer. */
  method WriteMultipleCoilsPdu(address: int, values: seq<int>) returns (r: Result<Bytes>)
    ensures r.Ok? <==> CoilsOk(address, values)
    ensures r.Ok? ==> |r.value| == 6 + Groups(|values|) <= Mbap.MAX_PDU
    ensures r.Ok? ==> r.value[..6] == CoilsHeader(address, |values|) && Packs(r.value[6..], values)
  {
    var i := 0;
    while i < |values|
      invariant 0 <= i <= |values| && forall j :: 0 <= j < i ==> IsCoil(values[j])
    {
      if !IsCoil(values[i]) {
        return Err;
      }
      i := i + 1;
    }
    var count := |values|;
    if !(1 <= count <= MAX_WRITE_COILS) || !SpanOk(address, count) {
      return Err;
    }
    var packed := new Byte[Groups(count)](_ => 0);
    NoBits(packed[..], values);
    i := 0;
    while i < count
      invariant 0 <= i <= count && PacksUpTo(packed[..], values, i)
    {
      OctetBound(i, packed.Length);
      ghost var before := packed[..];
      if values[i] == 1 {
        SetBitByte(packed[i / 8], i % 8);
        packed[i / 8] := SetBit(packed[i / 8], i % 8);
        assert packed[..] == Switched(before, i);
      }
      PackOne(before, values, i);
      i := i + 1;
    }
    r := Ok(CoilsHeader(address, count) + packed[..]);
  }

  lemma SetBitByte(b: Byte, k: nat)
    requires k < 8
    ensures SetBit(b, k) < 256
  {
    Pow2Eight();
    SetBitBound(b, k, 8);
  }

  /** data with coil i switched on. */
  function Switched(data: Bytes, i: nat): Bytes
    requires i / 8 < |data|
  {
    SetBitByte(data[i / 8], i % 8);
    data[i / 8 := SetBit(data[i / 8], i % 8)]
  }

  /** The first n coils are in place and nothing else is. */
  predicate PacksUpTo(data: Bytes, values: seq<int>, n: nat)
    requires n <= |values|
  {
    forall j :: 0 <= j < 8 * |data| ==> DataBit(data, j) == (j < n && values[j] == 1)
  }

  lemma NoBits(data: Bytes, values: seq<int>)
    requires forall i :: 0 <= i < |data| ==> data[i] == 0
    ensures PacksUpTo(data, values, 0)
  {
    forall j | 0 <= j < 8 * |data| ensures !DataBit(data, j) {
      OctetBound(j, |data|);
      ZeroHasNoBit(j % 8);
    }
  }

  lemma PackOne(data: Bytes, values: seq<int>, i: nat)
    requires i < |values| && i / 8 < |data| && PacksUpTo(data, values, i)
    ensures values[i] == 1 ==> PacksUpTo(Switched(data, i), values, i + 1)
    ensures values[i] != 1 ==> PacksUpTo(data, values, i + 1)
  {
    if values[i] == 1 {
      var after := Switched(data, i);
      forall j | 0 <= j < 8 * |after| ensures DataBit(after, j) == (j < i + 1 && values[j] == 1) {
        OctetBound(j, |data|);
        SetOne(data, i, j);
        assert DataBit(data, j) == (j < i && values[j] == 1);
      }
    }
  }

  lemma SetOne(data: Bytes, i: nat, j: nat)
    requires i / 8 < |data| && j / 8 < |data|
    ensures DataBit(Switched(data, i), j) == (j == i || DataBit(data, j))
  {
    hide SetBit, HasBit;
    Octet(i);
    Octet(j);
    SetBitSets(data[i / 8], i % 8, j % 8);
  }

  /** decode_bits recovers exactly the coils that were packed. */
  lemma CoilsRoundTrip(packed: Bytes, values: seq<int>)
    requires Packs(packed, values)
    ensures DecodeBits(packed, |values|) == Ok(seq(|values|, i requires 0 <= i < |values| => values[i] == 1))
  {
    forall i | 0 <= i < |values|
      ensures i / 8 < |packed| && DataBit(packed, i) == (values[i] == 1)
    {
      OctetBound(i, |packed|);
    }
    var got := DecodeBits(packed, |values|).value;
    assert got == seq(|values|, i requires 0 <= i < |values| => values[i] == 1);
  }

  /** And packing is unique: coils determine every bit of it. */
  lemma PacksUnique(a: Bytes, b: Bytes, values: seq<int>)
    requires Packs(a, values) && Packs(b, values)
    ensures a == b
  {
    forall k | 0 <= k < |a| ensures a[k] == b[k] {
      forall j | 0 <= j < 8 ensures HasBit(a[k], j) == HasBit(b[k], j) {
        SameOctet(k, j);
        assert DataBit(a, 8 * k + j) == DataBit(b, 8 * k + j);
      }
      SameBits(a[k], b[k]);
    }
  }

  lemma SameOctet(k: nat, j: nat)
    requires j < 8
    ensures (8 * k + j) / 8 == k && (8 * k + j) % 8 == j
  {
  }

  // ---- single writes and registers ----

  function WriteSingleCoilPdu(address: int, on: int): (r: Result<Bytes>)
  {
    if !(0 <= address <= 0xFFFF) || !IsCoil(on) then Err
    else Ok([WRITE_SINGLE_COIL, Hi(address), Lo(address), if on == 1 then 0xFF else 0, 0])
  }

  predicate IsWord(n: int) { 0 <= n <= 0xFFFF }

  function WriteSingleRegisterPdu(address: int, raw: int): (r: Result<Bytes>)
  {
    if !IsWord(address) || !IsWord(raw) then Err
    else Ok([WRITE_SINGLE_REGISTER, Hi(address), Lo(address), Hi(raw), Lo(raw)])
  }

  /** Register words as bytes, big-endian. */
  function RegisterBytes(words: seq<int>): (r: Bytes)
    ensures |r| == 2 * |words|
  {
    if words == [] then [] else [Hi(words[0]), Lo(words[0])] + RegisterBytes(words[1..])
  }

  function WriteMultipleRegistersPdu(address: int, registers: seq<int>): (r: Result<Bytes>)
    ensures r.Ok? ==> |r.value| == 6 + 2 * |registers| <= Mbap.MAX_PDU
  {
    if !(forall i :: 0 <= i < |registers| ==> IsWord(registers[i])) then Err
    else if !(1 <= |registers| <= MAX_WRITE_REGISTERS) || !SpanOk(address, |registers|) then Err
    else
      Ok([WRITE_MULTIPLE_REGISTERS, Hi(address), Lo(address), Hi(|registers|), Lo(|registers|), 2 * |registers|]
         + RegisterBytes(registers))
  }

  predicate IsWriteFunction(f: int)
  {
    f == WRITE_SINGLE_COIL || f == WRITE_SINGLE_REGISTER || f == WRITE_MULTIPLE_COILS || f == WRITE_MULTIPLE_REGISTERS
  }

  /** check_write_response: whether the reply acknowledges the write. */
  predicate Acknowledges(pdu: Bytes, request: Bytes)
  {
    if |request| < 5 || !IsWriteFunction(request[0]) then false
    else if pdu == [] || pdu[0] == Failed(request[0]) || pdu[0] != request[0] then false
    else
      var single := request[0] == WRITE_SINGLE_COIL || request[0] == WRITE_SINGLE_REGISTER;
      var expected := if single then request else request[..5];
      |pdu| >= |expected| && pdu == expected
  }

  /** What a server of section 6 of the protocol answers to a write it has carried out. */
  function Echo(request: Bytes): Bytes
    requires |request| >= 5
  {
    if request[0] == WRITE_SINGLE_COIL || request[0] == WRITE_SINGLE_REGISTER then request else request[..5]
  }

  /** A write is taken as done exactly when the reply is the server's echo; in particular
      never on an exception reply. */
  lemma AcknowledgesOnlyEcho(pdu: Bytes, request: Bytes)
    requires |request| >= 5 && IsWriteFunction(request[0])
    ensures Acknowledges(pdu, request) <==> pdu == Echo(request)
    ensures forall code :: !Acknowledges(ExceptionPdu(request[0], code), request)
  {
  }

  /** Any PDU of 1 to 253 bytes survives both envelopes. */
  lemma PduSurvives(txn: int, unit: int, pdu: Bytes, rest: Bytes)
    requires 1 <= |pdu| <= Mbap.MAX_PDU && 0 <= txn < 65536 && 0 <= unit < 256
    ensures Crc.RtuUnwrap(Crc.RtuWrap(unit, pdu)) == Ok((unit, pdu))
    ensures Mbap.TakeTcpAdu(Mbap.BuildTcpAdu(txn, unit, pdu) + rest) ==
            Mbap.Taken(Mbap.Frame(txn, unit, pdu), Mbap.MBAP_LEN + |pdu|)
  {
    hide Crc.RtuWrap, Crc.RtuUnwrap, Mbap.TakeTcpAdu, Mbap.BuildTcpAdu;
    Crc.WrapUnwrap(unit, pdu);
    Mbap.BuildTake(Mbap.Frame(txn, unit, pdu), rest);
  }

  /** The requests that the gateway's own polls and writes build. */
  datatype Request =
    | ReadBits(function': int, address: int, count: int)
    | WriteCoil(address: int, on: int)
    | WriteCoils(address: int, values: seq<int>)
    | WriteRegister(address: int, raw: int)
    | WriteRegisters(address: int, words: seq<int>)

  /** pdu is what the builder of the request returns. */
  predicate Builds(q: Request, pdu: Bytes)
  {
    match q
    case ReadBits(f, a, n) => ReadBitsPdu(f, a, n) == Ok(pdu)
    case WriteCoil(a, on) => WriteSingleCoilPdu(a, on) == Ok(pdu)
    case WriteCoils(a, vs) =>
      CoilsOk(a, vs) && |pdu| == 6 + Groups(|vs|) && pdu[..6] == CoilsHeader(a, |vs|) && Packs(pdu[6..], vs)
    case WriteRegister(a, raw) => WriteSingleRegisterPdu(a, raw) == Ok(pdu)
    case WriteRegisters(a, words) => WriteMultipleRegistersPdu(a, words) == Ok(pdu)
  }

  lemma GroupsBound(count: nat)
    requires count <= MAX_WRITE_COILS
    ensures Groups(count) <= 246
  {
  }

  /** So every request that a builder accepts survives both envelopes. */
  lemma BuiltSurvives(q: Request, txn: int, unit: int, pdu: Bytes, rest: Bytes)
    requires Builds(q, pdu) && 0 <= txn < 65536 && 0 <= unit < 256
    ensures Crc.RtuUnwrap(Crc.RtuWrap(unit, pdu)) == Ok((unit, pdu))
    ensures Mbap.TakeTcpAdu(Mbap.BuildTcpAdu(txn, unit, pdu) + rest) ==
            Mbap.Taken(Mbap.Frame(txn, unit, pdu), Mbap.MBAP_LEN + |pdu|)
  {
    hide Crc.RtuWrap, Crc.RtuUnwrap, Mbap.TakeTcpAdu, Mbap.BuildTcpAdu, Groups, Packs;
    if q.WriteCoils? {
      GroupsBound(|q.values|);
    }
    PduSurvives(txn, unit, pdu, rest);
  }

  // ---- integer register values ----

  datatype Dtype = UInt16 | Int16 | UInt32 | Int32

  function Registers(d: Dtype): nat { if d.UInt16? || d.Int16? then 1 else 2 }

  function Size(d: Dtype): nat { if d.UInt16? || d.Int16? then 0x1_0000 else 0x1_0000_0000 }

  predicate Signed(d: Dtype) { d.Int16? || d.Int32? }

  predicate InRange(d: Dtype, v: int)
  {
    if Signed(d) then -(Size(d) / 2) <= v < Size(d) / 2 else 0 <= v < Size(d)
  }

  function HighWord(n: int): int { n / 0x1_0000 }

  function LowWord(n: int): int { n % 0x1_0000 }

  function Pattern(d: Dtype, v: int): int { if v < 0 then v + Size(d) else v }

  /** encode_value for an unscaled integer: the words, high word first. */
  function EncodeValue(d: Dtype, v: int): (r: Result<seq<int>>)
  {
    if !InRange(d, v) then Err
    else
      var n := Pattern(d, v);
      Ok(if Registers(d) == 1 then [n] else [HighWord(n), LowWord(n)])
  }

  function Unsigned(data: Bytes): int
    requires |data| == 2 || |data| == 4
  {
    if |data| == 2 then Mbap.Word(data[0], data[1])
    else 0x1_0000 * Mbap.Word(data[0], data[1]) + Mbap.Word(data[2], data[3])
  }

  function FromPattern(d: Dtype, n: int): int { if Signed(d) && n >= Size(d) / 2 then n - Size(d) else n }

  /** decode_value, unscaled: the first value in big-endian register bytes. */
  function DecodeValue(d: Dtype, data: Bytes): (r: Result<int>)
  {
    var need := 2 * Registers(d);
    if |data| < need then Err else Ok(FromPattern(d, Unsigned(data[..need])))
  }

  lemma Patterns(d: Dtype, v: int, n: int)
    ensures InRange(d, v) ==> 0 <= Pattern(d, v) < Size(d) && FromPattern(d, Pattern(d, v)) == v
    ensures 0 <= n < Size(d) ==> InRange(d, FromPattern(d, n)) && Pattern(d, FromPattern(d, n)) == n
  {
  }

  lemma WordsOfLong(n: int)
    requires 0 <= n < 0x1_0000_0000
    ensures IsWord(HighWord(n)) && IsWord(LowWord(n)) && 0x1_0000 * HighWord(n) + LowWord(n) == n
  {
  }

  lemma LongOfWords(a: int, b: int)
    requires IsWord(a) && IsWord(b)
    ensures HighWord(0x1_0000 * a + b) == a && LowWord(0x1_0000 * a + b) == b
  {
  }

  lemma RegisterBytesShort(a: int, b: int)
    ensures RegisterBytes([a]) == [Hi(a), Lo(a)]
    ensures RegisterBytes([a, b]) == [Hi(a), Lo(a), Hi(b), Lo(b)]
  {
    hide Hi, Lo;
    assert [a, b][1..] == [b];
  }

  /** The bytes of a pattern, and the pattern of the bytes. */
  lemma PatternBytes(d: Dtype, n: int)
    requires 0 <= n < Size(d)
    ensures var words := if Registers(d) == 1 then [n] else [HighWord(n), LowWord(n)];
            |RegisterBytes(words)| == 2 * Registers(d) && Unsigned(RegisterBytes(words)) == n
  {
    hide Hi, Lo, HighWord, LowWord, Mbap.Word;
    if Registers(d) == 1 {
      Mbap.WordOfBytes(n);
      RegisterBytesShort(n, n);
    } else {
      WordsOfLong(n);
      Mbap.WordOfBytes(HighWord(n));
      Mbap.WordOfBytes(LowWord(n));
      RegisterBytesShort(HighWord(n), LowWord(n));
    }
  }

  lemma BytesPattern(d: Dtype, data: Bytes)
    requires |data| == 2 * Registers(d)
    ensures var n := Unsigned(data);
            && 0 <= n < Size(d)
            && RegisterBytes(if Registers(d) == 1 then [n] else [HighWord(n), LowWord(n)]) == data
  {
    hide Hi, Lo, HighWord, LowWord, Mbap.Word;
    Mbap.BytesOfWord(data[0], data[1]);
    var a := Mbap.Word(data[0], data[1]);
    if Registers(d) == 1 {
      RegisterBytesShort(a, a);
    } else {
      Mbap.BytesOfWord(data[2], data[3]);
      var b := Mbap.Word(data[2], data[3]);
      LongOfWords(a, b);
      RegisterBytesShort(a, b);
    }
  }

  /** Writing a number and reading the registers back gives the number, whatever registers
      follow. */
  lemma ValueRoundTrip(d: Dtype, v: int, rest: Bytes)
    requires InRange(d, v)
    ensures DecodeValue(d, RegisterBytes(EncodeValue(d, v).value) + rest) == Ok(v)
  {
    hide HighWord, LowWord, Unsigned, RegisterBytes, Pattern, FromPattern;
    Patterns(d, v, 0);
    PatternBytes(d, Pattern(d, v));
    DropLength(RegisterBytes(EncodeValue(d, v).value), rest);
  }

  /** And every register content is some number's: the two are inverse bijections. */
  lemma RegistersRoundTrip(d: Dtype, data: Bytes)
    requires |data| == 2 * Registers(d)
    ensures DecodeValue(d, data).Ok? && InRange(d, DecodeValue(d, data).value)
    ensures RegisterBytes(EncodeValue(d, DecodeValue(d, data).value).value) == data
  {
    hide HighWord, LowWord, Unsigned, RegisterBytes, Pattern, FromPattern;
    assert data[..|data|] == data;
    BytesPattern(d, data);
    Patterns(d, 0, Unsigned(data));
  }
}
