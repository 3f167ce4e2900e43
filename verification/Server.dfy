/** A Modbus server's view of the requests that app/engine/modbus.py builds: what the bytes
    mean by sections 6.1, 6.2, 6.5, 6.6, 6.11 and 6.12 of the MODBUS Application Protocol
    V1.1b3. */
module Server {
  import opened Common
  import opened BitsOfByte
  import opened Pdu
  import Mbap

  /** Two bytes, the high one first. */
  function Number(pdu: Bytes, i: nat): int
    requires i + 1 < |pdu|
  {
    var high: int, low: int := pdu[i], pdu[i + 1];
    256 * high + low
  }

  function Words(data: Bytes): seq<int>
    requires |data| % 2 == 0
  {
    if data == [] then [] else [256 * data[0] + data[1]] + Words(data[2..])
  }

  /** Coil i is bit i % 8 of byte i / 8. */
  function Coils(data: Bytes, count: nat): (r: seq<int>)
    requires count <= 8 * |data|
    ensures |r| == count
  {
    seq(count, i requires 0 <= i < count => if HasBit(data[i / 8], i % 8) then 1 else 0)
  }

  /** The request that a server takes the bytes for, if they are one. */
  function Reads(pdu: Bytes): Option<Request>
  {
    if |pdu| < 5 then None
    else
      var address, second := Number(pdu, 1), Number(pdu, 3);
      if (pdu[0] == 1 || pdu[0] == 2) && |pdu| == 5 then Some(ReadBits(pdu[0], address, second))
      else if pdu[0] == 5 && |pdu| == 5 && second == 0xFF00 then Some(WriteCoil(address, 1))
      else if pdu[0] == 5 && |pdu| == 5 && second == 0 then Some(WriteCoil(address, 0))
      else if pdu[0] == 6 && |pdu| == 5 then Some(WriteRegister(address, second))
      else if pdu[0] == 15 && |pdu| >= 6 && pdu[5] == (second + 7) / 8 == |pdu| - 6 then
        Some(WriteCoils(address, Coils(pdu[6..], second)))
      else if pdu[0] == 16 && |pdu| >= 6 && pdu[5] == 2 * second == |pdu| - 6 then
        Some(WriteRegisters(address, Words(pdu[6..])))
      else None
  }

  lemma WordIs(n: int)
    requires 0 <= n < 65536
    ensures 256 * Hi(n) + Lo(n) == n
  {
  }

  lemma {:induction false} WordsOfRegisters(words: seq<int>)
    requires forall i :: 0 <= i < |words| ==> IsWord(words[i])
    ensures Words(RegisterBytes(words)) == words
  {
    hide Hi, Lo;
    if words != [] {
      var first, rest := [Hi(words[0]), Lo(words[0])], RegisterBytes(words[1..]);
      WordsOfRegisters(words[1..]);
      WordIs(words[0]);
      DropLength(first, rest);
      assert (first + rest)[0] == first[0] && (first + rest)[1] == first[1];
      FirstAndRest(words);
    }
  }

  lemma CoilsOfPacked(data: Bytes, values: seq<int>)
    requires Packs(data, values) && forall i :: 0 <= i < |values| ==> IsCoil(values[i])
    ensures |values| <= 8 * |data| && Coils(data, |values|) == values
  {
    forall i | 0 <= i < |values| ensures i / 8 < |data| && HasBit(data[i / 8], i % 8) == (values[i] == 1) {
      OctetBound(i, |data|);
      assert DataBit(data, i) == (values[i] == 1);
    }
  }

  lemma ReadsCoils(q: Request, pdu: Bytes)
    requires q.WriteCoils? && Builds(q, pdu)
    ensures Reads(pdu) == Some(q)
  {
    hide Packs, Hi, Lo;
    var n := |q.values|;
    WordIs(q.address);
    WordIs(n);
    assert forall i :: 0 <= i < 6 ==> pdu[i] == pdu[..6][i];
    CoilsOfPacked(pdu[6..], q.values);
  }

  lemma ReadsRegisters(q: Request, pdu: Bytes)
    requires q.WriteRegisters? && Builds(q, pdu)
    ensures Reads(pdu) == Some(q)
  {
    hide Hi, Lo;
    var head: Bytes := [16, Hi(q.address), Lo(q.address), Hi(|q.words|), Lo(|q.words|), 2 * |q.words|];
    assert pdu == head + RegisterBytes(q.words);
    WordIs(q.address);
    WordIs(|q.words|);
    DropLength(head, RegisterBytes(q.words));
    assert forall i :: 0 <= i < 6 ==> pdu[i] == head[i];
    WordsOfRegisters(q.words);
  }

  /** Each request that a builder makes is read as that request: address, quantity and
      values. */
  lemma ServerReads(q: Request, pdu: Bytes)
    requires Builds(q, pdu)
    ensures Reads(pdu) == Some(q)
  {
    match q
    case ReadBits(f, a, n) =>
      WordIs(a);
      WordIs(n);
    case WriteCoil(a, on) => WordIs(a);
    case WriteCoils(_, _) => ReadsCoils(q, pdu);
    case WriteRegister(a, raw) =>
      WordIs(a);
      WordIs(raw);
    case WriteRegisters(_, _) => ReadsRegisters(q, pdu);
  }

  /** The requests of the protocol, with the limits it sets. */
  predicate Legal(q: Request)
  {
    match q
    case ReadBits(f, a, n) => (f == 1 || f == 2) && 1 <= n <= 2000 && 0 <= a && a + n <= 65536
    case WriteCoil(a, on) => 0 <= a < 65536 && (on == 0 || on == 1)
    case WriteCoils(a, vs) =>
      1 <= |vs| <= 0x7B0 && 0 <= a && a + |vs| <= 65536 && forall i :: 0 <= i < |vs| ==> vs[i] == 0 || vs[i] == 1
    case WriteRegister(a, raw) => 0 <= a < 65536 && 0 <= raw < 65536
    case WriteRegisters(a, ws) =>
      1 <= |ws| <= 0x7B && 0 <= a && a + |ws| <= 65536 && forall i :: 0 <= i < |ws| ==> 0 <= ws[i] < 65536
  }

  /** And a builder makes every legal request, and no other. */
  lemma BuildersExact(address: int, n: int, f: int, on: int, raw: int, words: seq<int>, values: seq<int>)
    ensures ReadBitsPdu(f, address, n).Ok? <==> Legal(ReadBits(f, address, n))
    ensures WriteSingleCoilPdu(address, on).Ok? <==> Legal(WriteCoil(address, on))
    ensures WriteSingleRegisterPdu(address, raw).Ok? <==> Legal(WriteRegister(address, raw))
    ensures WriteMultipleRegistersPdu(address, words).Ok? <==> Legal(WriteRegisters(address, words))
    ensures CoilsOk(address, values) <==> Legal(WriteCoils(address, values))
  {
  }

  /** An exception names the function with its high bit set, and the code. */
  lemma ExceptionExact(function': Byte, code: Byte)
    requires function' < 128
    ensures ExceptionPdu(function', code) == [function' + 128, code]
  {
  }
}
