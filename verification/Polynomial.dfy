/** The CRC of module Crc is the remainder of a division of polynomials over GF(2), as
    section 2.5.1.2 of "MODBUS over Serial Line" V1.02 defines it. A polynomial is the list
    of its coefficients, the highest power first. */
module Polynomial {
  import opened Common
  import opened ShiftRegister
  import opened BitsOfByte
  import opened Crc

  /** x^15 + x^2 + 1: the generator x^16 + x^15 + x^2 + 1 without its leading term. */
  const GENERATOR: seq<bool> := [
    true, false, false, false, false, false, false, false, false, false, false, false, false, true, false, true
  ]

  /** q added to the first coefficients of p. */
  function AddHead(p: seq<bool>, q: seq<bool>): (r: seq<bool>)
    requires |q| <= |p|
    ensures |r| == |p|
  {
    seq(|p|, i requires 0 <= i < |p| => if i < |q| then p[i] != q[i] else p[i])
  }

  /** Long division: while the degree is 16 or more, subtract the generator at the leading
      term if there is one. */
  function Remainder(p: seq<bool>): seq<bool>
    decreases |p|
  {
    if |p| <= 16 then p
    else if p[0] then Remainder(AddHead(p[1..], GENERATOR))
    else Remainder(p[1..])
  }

  function Zeros(n: nat): (r: seq<bool>)
    ensures |r| == n && forall i :: 0 <= i < n ==> !r[i]
  {
    seq(n, _ => false)
  }

  function Ones(n: nat): (r: seq<bool>)
    ensures |r| == n && forall i :: 0 <= i < n ==> r[i]
  {
    seq(n, _ => true)
  }

  /** The bits of a message in the order they are sent: each byte from its lowest bit. */
  function MessageBits(data: Bytes): (r: seq<bool>)
    ensures |r| == 8 * |data|
  {
    if data == [] then [] else ListOf(BitsOf(data[0])) + MessageBits(data[1..])
  }

  /** Bit i of the register. */
  const MASKS: seq<bv16> := [1, 2, 4, 8, 16, 32, 64, 128, 256, 512, 1024, 2048, 4096, 8192, 16384, 32768]

  predicate On(c: bv16, mask: bv16) { c & mask != 0 }

  /** The register from its lowest bit, which stands for the highest power. */
  function RegisterBits(c: bv16): (r: seq<bool>)
    ensures |r| == 16 && forall i :: 0 <= i < 16 ==> r[i] == On(c, MASKS[i])
  {
    seq(16, i requires 0 <= i < 16 => On(c, MASKS[i]))
  }

  // ---- the register and its bits ----

  predicate Single(mask: bv16) { mask != 0 && mask & (mask - 1) == 0 }

  lemma OnXor(c: bv16, d: bv16, mask: bv16)
    requires Single(mask)
    ensures On(c ^ d, mask) == (On(c, mask) != On(d, mask))
  {
  }

  lemma OnShift(c: bv16, mask: bv16)
    requires Single(mask)
    ensures On(c >> 1, mask) == On(c, mask << 1)
  {
  }

  lemma Masks(i: nat)
    requires i < 16
    ensures Single(MASKS[i]) && (i < 15 ==> MASKS[i + 1] == MASKS[i] << 1) && (i == 15 ==> MASKS[i] << 1 == 0)
  {
  }

  lemma NothingOn(c: bv16)
    ensures !On(c, 0)
  {
  }

  lemma XorBits(c: bv16, d: bv16)
    ensures AddHead(RegisterBits(c), RegisterBits(d)) == RegisterBits(c ^ d)
  {
    hide On, Single;
    forall i | 0 <= i < 16 ensures On(c ^ d, MASKS[i]) == (On(c, MASKS[i]) != On(d, MASKS[i])) {
      Masks(i);
      OnXor(c, d, MASKS[i]);
    }
  }

  lemma ShiftedBit(c: bv16, d: bv16, i: nat)
    requires d == c >> 1 && i < 16
    ensures RegisterBits(d)[i] == (i < 15 && RegisterBits(c)[i + 1])
  {
    hide On, Single;
    Masks(i);
    OnShift(c, MASKS[i]);
    NothingOn(c);
  }

  lemma ShiftBits(c: bv16, d: bv16)
    requires d == c >> 1
    ensures RegisterBits(d) == RegisterBits(c)[1..] + [false]
  {
    hide RegisterBits, On;
    forall i | 0 <= i < 16 ensures RegisterBits(d)[i] == (RegisterBits(c)[1..] + [false])[i] {
      ShiftedBit(c, d, i);
    }
  }

  lemma GeneratorBits()
    ensures RegisterBits(0xA001) == GENERATOR
  {
    GeneratorLow();
    GeneratorHigh();
    hide On;
    assert RegisterBits(0xA001) == GENERATOR;
  }

  lemma GeneratorLow()
    ensures On(0xA001, 1) && !On(0xA001, 2) && !On(0xA001, 4) && !On(0xA001, 8)
    ensures !On(0xA001, 16) && !On(0xA001, 32) && !On(0xA001, 64) && !On(0xA001, 128)
  {
  }

  lemma GeneratorHigh()
    ensures !On(0xA001, 256) && !On(0xA001, 512) && !On(0xA001, 1024) && !On(0xA001, 2048)
    ensures !On(0xA001, 4096) && On(0xA001, 8192) && !On(0xA001, 16384) && On(0xA001, 32768)
  {
  }

  lemma LowestBit(c: bv16)
    ensures RegisterBits(c)[0] == (c & 1 == 1)
  {
    assert On(c, 1) == (c & 1 == 1);
  }

  // ---- one bit ----

  lemma AddTwice(p: seq<bool>, q: seq<bool>, r: seq<bool>)
    requires |q| == |r| <= |p|
    ensures AddHead(AddHead(p, q), r) == AddHead(p, AddHead(q, r))
  {
  }

  lemma DropAdd(p: seq<bool>, q: seq<bool>)
    requires |q| == 16 <= |p|
    ensures AddHead([false] + p, q)[0] == q[0]
    ensures AddHead([false] + p, q)[1..] == AddHead(p, q[1..] + [false])
  {
  }

  /** A bit step of the register is a step of the division. */
  lemma BitDivides(c: bv16, p: seq<bool>)
    requires |p| >= 16
    ensures Remainder(AddHead([false] + p, RegisterBits(c))) == Remainder(AddHead(p, RegisterBits(BitStep(c))))
  {
    var q := RegisterBits(c);
    var l := AddHead([false] + p, q);
    DropAdd(p, q);
    ShiftBits(c, c >> 1);
    LowestBit(c);
    assert l[1..] == AddHead(p, RegisterBits(c >> 1));
    if c & 1 == 1 {
      GeneratorBits();
      AddTwice(p, RegisterBits(c >> 1), GENERATOR);
      XorBits(c >> 1, 0xA001);
    }
  }

  lemma {:induction false} BitsDivide(n: nat, c: bv16, p: seq<bool>)
    requires |p| >= 16
    ensures Remainder(AddHead(Zeros(n) + p, RegisterBits(c))) ==
            Remainder(AddHead(p, RegisterBits(Iterate(BitStep, c, n))))
    decreases n
  {
    hide BitStep, Remainder, AddHead, RegisterBits;
    if n == 0 {
      assert Zeros(0) + p == p;
    } else {
      assert Zeros(n) + p == [false] + (Zeros(n - 1) + p);
      BitDivides(c, Zeros(n - 1) + p);
      BitsDivide(n - 1, BitStep(c), p);
    }
  }

  // ---- one byte ----

  lemma LowBit(t: Bits, i: nat)
    requires i < 8
    ensures On(Pack(t), MASKS[i]) == ListOf(t)[i]
  {
    PackBits(t);
    LowBits(Pack(t));
    hide Pack, On, Unpack;
  }

  lemma HighBit(t: Bits, i: nat)
    requires 8 <= i < 16
    ensures !On(Pack(t), MASKS[i])
  {
    PackSmall(t);
    HighMask(i);
    hide Pack;
    Apart(Pack(t), MASKS[i]);
  }

  lemma HighMask(i: nat)
    requires 8 <= i < 16
    ensures MASKS[i] & 0xFF == 0
  {
  }

  lemma Apart(c: bv16, mask: bv16)
    requires c & 0xFF00 == 0 && mask & 0xFF == 0
    ensures !On(c, mask)
  {
  }

  lemma ByteBits(b: Byte)
    ensures RegisterBits(Widen(b)) == ListOf(BitsOf(b)) + Zeros(8)
  {
    hide BitsOf, ListOf, Pack, On;
    var t := BitsOf(b);
    forall i | 0 <= i < 16 ensures RegisterBits(Widen(b))[i] == (ListOf(t) + Zeros(8))[i] {
      if i < 8 {
        LowBit(t, i);
      } else {
        HighBit(t, i);
      }
    }
  }

  lemma PackSmall(t: Bits)
    ensures Pack(t) & 0xFF00 == 0
  {
  }

  lemma LowBits(c: bv16)
    ensures var t := Unpack(c);
            && On(c, 1) == t.b0 && On(c, 2) == t.b1 && On(c, 4) == t.b2 && On(c, 8) == t.b3
            && On(c, 16) == t.b4 && On(c, 32) == t.b5 && On(c, 64) == t.b6 && On(c, 128) == t.b7
  {
  }

  lemma MoveByte(b: seq<bool>, p: seq<bool>, q: seq<bool>, n: nat)
    requires |b| == 8 == n && |p| >= 16 && |q| == 16
    ensures AddHead(b + p, q) == AddHead(Zeros(n) + p, AddHead(q, b + Zeros(n)))
  {
  }

  /** A byte of the CRC loop is eight steps of the division. */
  lemma ByteDivides(c: bv16, b: Byte, p: seq<bool>, n: nat)
    requires |p| >= 16 && n == 8
    ensures Remainder(AddHead(ListOf(BitsOf(b)) + p, RegisterBits(c))) ==
            Remainder(AddHead(p, RegisterBits(Iterate(BitStep, Xor(c, Widen(b)), n))))
  {
    hide Remainder, AddHead, RegisterBits, Iterate, BitsOf, ListOf, Widen, BitStep, Zeros, On;
    MoveByte(ListOf(BitsOf(b)), p, RegisterBits(c), n);
    ByteBits(b);
    XorBits(c, Widen(b));
    BitsDivide(n, Xor(c, Widen(b)), p);
  }

  lemma {:induction false} BytesDivide(c: bv16, data: Bytes, p: seq<bool>)
    requires |p| >= 16
    ensures Remainder(AddHead(MessageBits(data) + p, RegisterBits(c))) ==
            Remainder(AddHead(p, RegisterBits(Register(8, c, Words(data)))))
    decreases |data|
  {
    hide Remainder, AddHead, RegisterBits, Iterate, BitsOf, ListOf, Widen, Xor, BitStep;
    if data == [] {
      assert MessageBits(data) + p == p;
    } else {
      var rest := MessageBits(data[1..]) + p;
      AppendAssociates(ListOf(BitsOf(data[0])), MessageBits(data[1..]), p);
      ByteDivides(c, data[0], rest, 8);
      assert Words(data)[1..] == Words(data[1..]) && Words(data)[0] == Widen(data[0]);
      BytesDivide(Iterate(BitStep, Xor(c, Widen(data[0])), 8), data[1..], p);
    }
  }

  /** The CRC of any message: its bits times x^16, the first 16 of them inverted, divided by
      the generator. */
  lemma CrcIsRemainder(data: Bytes)
    ensures RegisterBits(Crc16(data)) == Remainder(AddHead(MessageBits(data) + Zeros(16), Ones(16)))
  {
    AllOnes();
    BytesDivide(0xFFFF, data, Zeros(16));
    var r := RegisterBits(Crc16(data));
    hide RegisterBits;
    assert AddHead(Zeros(16), r) == r;
  }

  lemma AllOnes()
    ensures RegisterBits(0xFFFF) == Ones(16)
  {
    forall i | 0 <= i < 16 ensures On(0xFFFF, MASKS[i]) {
    }
  }
}
