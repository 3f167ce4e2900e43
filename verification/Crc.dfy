/** A shift register fed one symbol at a time, over any type of register: what the CRC
    proofs need of "shift one bit" and "exclusive or" is stated here as hypotheses, and
    module Crc discharges them for 16-bit vectors. */
module ShiftRegister {

  function Iterate<T>(f: T -> T, x: T, n: nat): T
    decreases n
  {
    if n == 0 then x else Iterate(f, f(x), n - 1)
  }

  /** The register after the symbols s, each added in and then shifted n times. */
  function Feed<T>(f: T -> T, add: (T, T) -> T, n: nat, c: T, s: seq<T>): T
    decreases |s|
  {
    if s == [] then c else Feed(f, add, n, Iterate(f, add(c, s[0]), n), s[1..])
  }

  ghost predicate Injective<T(!new)>(f: T -> T)
  {
    forall x, y :: f(x) == f(y) ==> x == y
  }

  ghost predicate Cancels<T(!new)>(add: (T, T) -> T)
  {
    forall x, y, w {:trigger add(x, w), add(y, w)} :: add(x, w) == add(y, w) ==> x == y
  }

  lemma {:induction false} IterateInjective<T(!new)>(f: T -> T, x: T, y: T, n: nat)
    requires Injective(f) && Iterate(f, x, n) == Iterate(f, y, n)
    ensures x == y
    decreases n
  {
    if n > 0 {
      IterateInjective(f, f(x), f(y), n - 1);
    }
  }

  lemma {:induction false} IterateFixed<T>(f: T -> T, x: T, n: nat)
    requires f(x) == x
    ensures Iterate(f, x, n) == x
  {
    if n > 0 {
      IterateFixed(f, x, n - 1);
    }
  }

  lemma {:induction false} FeedInjective<T(!new)>(f: T -> T, add: (T, T) -> T, n: nat, x: T, y: T, s: seq<T>)
    requires Injective(f) && Cancels(add)
    requires Feed(f, add, n, x, s) == Feed(f, add, n, y, s)
    ensures x == y
    decreases |s|
  {
    if s != [] {
      FeedInjective(f, add, n, Iterate(f, add(x, s[0]), n), Iterate(f, add(y, s[0]), n), s[1..]);
      IterateInjective(f, add(x, s[0]), add(y, s[0]), n);
    }
  }

  lemma {:induction false} FeedConcat<T>(f: T -> T, add: (T, T) -> T, n: nat, c: T, a: seq<T>, b: seq<T>)
    ensures Feed(f, add, n, c, a + b) == Feed(f, add, n, Feed(f, add, n, c, a), b)
    decreases |a|
  {
    if a == [] {
      assert a + b == b;
    } else {
      FeedConcat(f, add, n, Iterate(f, add(c, a[0]), n), a[1..], b);
      assert (a + b)[1..] == a[1..] + b;
    }
  }

  /** A pattern that is even under every one of n halvings passes n shifts by itself. */
  ghost predicate Passes<T(!new)>(f: T -> T, add: (T, T) -> T, half: T -> T, even: T -> bool)
  {
    forall c, d {:trigger f(add(c, d))} :: even(d) ==> f(add(c, d)) == add(f(c), half(d))
  }

  predicate AllEven<T>(half: T -> T, even: T -> bool, d: T, n: nat)
    decreases n
  {
    n == 0 || (even(d) && AllEven(half, even, half(d), n - 1))
  }

  lemma {:induction false} IterateLinear<T(!new)>(
    f: T -> T, add: (T, T) -> T, half: T -> T, even: T -> bool, c: T, d: T, n: nat)
    requires Passes(f, add, half, even) && AllEven(half, even, d, n)
    ensures Iterate(f, add(c, d), n) == add(Iterate(f, c, n), Iterate(half, d, n))
    decreases n
  {
    if n > 0 {
      IterateLinear(f, add, half, even, f(c), half(d), n - 1);
    }
  }

  /** Two symbols act as one: the second, moved n places up, can be added at the start. */
  lemma FeedPair<T(!new)>(
    f: T -> T, add: (T, T) -> T, half: T -> T, even: T -> bool, n: nat, c: T, lo: T, hi: T, up: T)
    requires Passes(f, add, half, even) && AllEven(half, even, up, n) && Iterate(half, up, n) == hi
    ensures Feed(f, add, n, c, [lo, hi]) == Iterate(f, Iterate(f, add(add(c, lo), up), n), n)
  {
    IterateLinear(f, add, half, even, add(c, lo), up, n);
    var c1 := Iterate(f, add(c, lo), n);
    assert [lo, hi][1..] == [hi] && [hi][1..] == [];
    assert Feed(f, add, n, c, [lo, hi]) == Feed(f, add, n, c1, [hi]);
    assert Feed(f, add, n, c1, [hi]) == Iterate(f, add(c1, hi), n);
  }

  lemma PairInjective<T(!new)>(f: T -> T, x: T, y: T, n: nat)
    requires Injective(f)
    ensures Iterate(f, Iterate(f, x, n), n) == Iterate(f, Iterate(f, y, n), n) <==> x == y
  {
    if Iterate(f, Iterate(f, x, n), n) == Iterate(f, Iterate(f, y, n), n) {
      IterateInjective(f, Iterate(f, x, n), Iterate(f, y, n), n);
      IterateInjective(f, x, y, n);
    }
  }
}

/** The Modbus RTU envelope (app/engine/modbus.py): a bitwise CRC-16 with the reflected
    polynomial 0xA001, appended low byte first (section 2.5.1 of "MODBUS over Serial
    Line" V1.02). The CRC register is a 16-bit vector, as in the source's loop. */
module Crc {
  import opened Common
  import opened ShiftRegister
  import opened BitsOfByte

  /** The eight bits of a byte. The register is a bit vector and a byte an integer; going
      through the bits keeps the two theories apart. */
  datatype Bits = Bits(b0: bool, b1: bool, b2: bool, b3: bool, b4: bool, b5: bool, b6: bool, b7: bool)

  function BitsOf(b: Byte): Bits
  {
    Bits(HasBit(b, 0), HasBit(b, 1), HasBit(b, 2), HasBit(b, 3),
         HasBit(b, 4), HasBit(b, 5), HasBit(b, 6), HasBit(b, 7))
  }

  function ListOf(t: Bits): (r: seq<bool>)
    ensures |r| == 8
  {
    [t.b0, t.b1, t.b2, t.b3, t.b4, t.b5, t.b6, t.b7]
  }

  function Number(t: Bits): Byte
  {
    Pow2Eight();
    Sum(ListOf(t))
  }

  function Pack(t: Bits): bv16
  {
    (if t.b0 then 1 else 0) | (if t.b1 then 2 else 0) | (if t.b2 then 4 else 0) | (if t.b3 then 8 else 0)
    | (if t.b4 then 16 else 0) | (if t.b5 then 32 else 0) | (if t.b6 then 64 else 0) | (if t.b7 then 128 else 0)
  }

  function Unpack(c: bv16): Bits
  {
    Bits(c & 1 != 0, c & 2 != 0, c & 4 != 0, c & 8 != 0, c & 16 != 0, c & 32 != 0, c & 64 != 0, c & 128 != 0)
  }

  /** A byte as a 16-bit word, and the low byte of a word. */
  function Widen(b: Byte): bv16 { Pack(BitsOf(b)) }

  function Low(c: bv16): Byte { Number(Unpack(c)) }

  function High(c: bv16): Byte { Low(c >> 8) }

  /** The word that two consecutive frame bytes carry, low byte first. */
  function Word(lo: bv16, hi: bv16): bv16 { lo | (hi << 8) }

  /** One turn of the inner loop. */
  function BitStep(c: bv16): bv16
  {
    if c & 1 == 1 then (c >> 1) ^ 0xA001 else c >> 1
  }

  function Xor(a: bv16, b: bv16): bv16 { a ^ b }

  function Half(d: bv16): bv16 { d >> 1 }

  predicate Even(d: bv16) { d & 1 == 0 }

  function Words(s: Bytes): (r: seq<bv16>)
    ensures |r| == |s|
    ensures forall i :: 0 <= i < |s| ==> r[i] == Widen(s[i])
  {
    seq(|s|, i requires 0 <= i < |s| => Widen(s[i]))
  }

  /** The register after a string, n bit steps to a byte. */
  function Register(n: nat, c: bv16, s: seq<bv16>): bv16 { Feed(BitStep, Xor, n, c, s) }

  function Crc16(s: Bytes): bv16 { Register(8, 0xFFFF, Words(s)) }

  /** The inner loop of crc16. */
  method CrcByte(crc0: bv16, w: bv16, n: nat) returns (crc: bv16)
    ensures crc == Iterate(BitStep, Xor(crc0, w), n)
  {
    crc := crc0 ^ w;
    for j := 0 to n
      invariant Iterate(BitStep, crc, n - j) == Iterate(BitStep, Xor(crc0, w), n)
    {
      if crc & 1 == 1 {
        crc := (crc >> 1) ^ 0xA001;
      } else {
        crc := crc >> 1;
      }
    }
  }

  /** crc16: the outer loop, with eight bit steps to a byte. */
  method ComputeCrc(data: Bytes) returns (crc: bv16)
    ensures crc == Crc16(data)
  {
    crc := 0xFFFF;
    ghost var words := Words(data);
    assert words[0..] == words;
    for i := 0 to |data|
      invariant Register(8, crc, words[i..]) == Crc16(data)
    {
      crc := CrcByte(crc, Widen(data[i]), 8);
      assert words[i..][1..] == words[i + 1..];
    }
  }

  function RtuWrap(unit: int, pdu: Bytes): (frame: Bytes)
  {
    var body := [unit % 256] + pdu;
    body + [Low(Crc16(body)), High(Crc16(body))]
  }

  function RtuUnwrap(frame: Bytes): (r: Result<(Byte, Bytes)>)
  {
    if |frame| < 4 then Err
    else
      var n := |frame|;
      var body := frame[..n - 2];
      if Crc16(body) != Word(Widen(frame[n - 2]), Widen(frame[n - 1])) then Err
      else Ok((body[0], body[1..]))
  }

  // ---- 16-bit vectors meet the hypotheses ----

  lemma BitStepInjective(x: bv16, y: bv16)
    requires BitStep(x) == BitStep(y)
    ensures x == y
  {
  }

  lemma BitStepPasses(c: bv16, d: bv16)
    requires d & 1 == 0
    ensures BitStep(c ^ d) == BitStep(c) ^ (d >> 1)
  {
    LowBitKept(c, d);
    HalvesOfXor(c, d);
    if c & 1 != 0 {
      XorTwice(c >> 1, d >> 1, 0xA001);
    }
  }

  lemma LowBitKept(c: bv16, d: bv16)
    requires d & 1 == 0
    ensures (c ^ d) & 1 == c & 1
  {
  }

  lemma HalvesOfXor(c: bv16, d: bv16)
    ensures (c ^ d) >> 1 == (c >> 1) ^ (d >> 1)
  {
  }

  lemma XorTwice(a: bv16, b: bv16, p: bv16)
    ensures (a ^ b) ^ p == (a ^ p) ^ b
  {
  }

  lemma XorCancels(x: bv16, y: bv16, w: bv16)
    requires Xor(x, w) == Xor(y, w)
    ensures x == y
  {
  }

  lemma RegisterFacts()
    ensures Injective(BitStep) && Cancels(Xor) && Passes(BitStep, Xor, Half, Even)
  {
    forall x, y | BitStep(x) == BitStep(y) ensures x == y { BitStepInjective(x, y); }
    forall x, y, w | Xor(x, w) == Xor(y, w) ensures x == y { XorCancels(x, y, w); }
    forall c, d | Even(d) ensures BitStep(Xor(c, d)) == Xor(BitStep(c), Half(d)) { BitStepPasses(c, d); }
  }

  predicate IsByte(w: bv16) { w & 0xFF00 == 0 }

  lemma HighByteEven(h: bv16)
    ensures AllEven(Half, Even, h << 8, 8)
  {
    assert AllEven(Half, Even, h << 4, 4);
  }

  lemma HighByteMovesDown(h: bv16)
    requires h & 0xFF00 == 0
    ensures Iterate(Half, h << 8, 8) == h
  {
    assert Iterate(Half, h << 4, 4) == h;
  }

  /** A byte in the high half comes down in eight steps. */
  lemma HighByte(h: bv16)
    requires IsByte(h)
    ensures AllEven(Half, Even, h << 8, 8) && Iterate(Half, h << 8, 8) == h
  {
    hide AllEven, Iterate;
    HighByteEven(h);
    HighByteMovesDown(h);
  }

  lemma XorWord(c: bv16, lo: bv16, hi: bv16)
    requires IsByte(lo) && IsByte(hi)
    ensures Xor(Xor(c, lo), hi << 8) == Xor(c, Word(lo, hi))
  {
  }

  lemma WordBytes(lo: bv16, hi: bv16)
    requires IsByte(lo) && IsByte(hi)
    ensures Word(lo, hi) & 0xFF == lo && Word(lo, hi) >> 8 == hi
  {
  }

  lemma XorZero(c: bv16, w: bv16)
    ensures Xor(c, w) == 0 <==> c == w
  {
    assert Xor(w, w) == 0;
    hide Xor;
    if Xor(c, w) == 0 {
      XorCancels(c, w, w);
    }
  }

  lemma NumberOfBits(b: Byte)
    ensures Number(BitsOf(b)) == b
  {
    hide HasBit, Sum;
    Pow2Eight();
    SumOfBits(b, 8);
    assert ListOf(BitsOf(b)) == BitList(b, 8);
  }

  lemma BitsOfNumber(t: Bits)
    ensures BitsOf(Number(t)) == t
  {
    hide HasBit, Sum;
    var l := ListOf(t);
    HasBitSum(l, 0);
    HasBitSum(l, 1);
    HasBitSum(l, 2);
    HasBitSum(l, 3);
    HasBitSum(l, 4);
    HasBitSum(l, 5);
    HasBitSum(l, 6);
    HasBitSum(l, 7);
  }

  lemma PackBits(t: Bits)
    ensures IsByte(Pack(t)) && Unpack(Pack(t)) == t
  {
  }

  lemma UnpackBits(c: bv16)
    ensures Pack(Unpack(c)) == c & 0xFF
  {
  }

  lemma WidenByte(b: Byte)
    ensures IsByte(Widen(b)) && Low(Widen(b)) == b
  {
    PackBits(BitsOf(b));
    NumberOfBits(b);
  }

  lemma WidenLow(c: bv16)
    ensures Widen(Low(c)) == c & 0xFF
  {
    BitsOfNumber(Unpack(c));
    UnpackBits(c);
  }

  lemma WordOfRegister(c: bv16)
    ensures Word(Widen(Low(c)), Widen(High(c))) == c
  {
    WidenLow(c);
    WidenLow(c >> 8);
    WordParts(c);
  }

  lemma WordParts(c: bv16)
    ensures Word(c & 0xFF, (c >> 8) & 0xFF) == c
  {
  }

  lemma LowHigh(c: bv16, lo: Byte, hi: Byte)
    requires c == Word(Widen(lo), Widen(hi))
    ensures Low(c) == lo && High(c) == hi
  {
    WidenByte(lo);
    WidenByte(hi);
    WordBytes(Widen(lo), Widen(hi));
    LowMasked(c);
  }

  lemma LowMasked(c: bv16)
    ensures Unpack(c) == Unpack(c & 0xFF)
  {
  }

  /** The register is zero after two more bytes exactly when they are its own value, and
      two different pairs of bytes never have the same effect on it. */
  lemma PairOnRegister(n: nat, c: bv16, lo: bv16, hi: bv16)
    requires IsByte(lo) && IsByte(hi)
    requires AllEven(Half, Even, hi << 8, n) && Iterate(Half, hi << 8, n) == hi
    ensures Register(n, c, [lo, hi]) ==
            Iterate(BitStep, Iterate(BitStep, Xor(c, Word(lo, hi)), n), n)
    ensures Register(n, c, [lo, hi]) == 0 <==> c == Word(lo, hi)
  {
    RegisterFacts();
    FeedPair(BitStep, Xor, Half, Even, n, c, lo, hi, hi << 8);
    XorWord(c, lo, hi);
    XorZero(c, Word(lo, hi));
    IterateFixed(BitStep, 0, n);
    PairInjective(BitStep, Xor(c, Word(lo, hi)), 0, n);
  }

  lemma SamePair(n: nat, c: bv16, lo: bv16, hi: bv16, lo': bv16, hi': bv16)
    requires IsByte(lo) && IsByte(hi) && IsByte(lo') && IsByte(hi')
    requires AllEven(Half, Even, hi << 8, n) && Iterate(Half, hi << 8, n) == hi
    requires AllEven(Half, Even, hi' << 8, n) && Iterate(Half, hi' << 8, n) == hi'
    requires Register(n, c, [lo, hi]) == Register(n, c, [lo', hi'])
    ensures lo == lo' && hi == hi'
  {
    RegisterFacts();
    PairOnRegister(n, c, lo, hi);
    PairOnRegister(n, c, lo', hi');
    PairInjective(BitStep, Xor(c, Word(lo, hi)), Xor(c, Word(lo', hi')), n);
    SameWord(c, lo, hi, lo', hi');
  }

  lemma SameWord(c: bv16, lo: bv16, hi: bv16, lo': bv16, hi': bv16)
    requires IsByte(lo) && IsByte(hi) && IsByte(lo') && IsByte(hi')
    requires Xor(c, Word(lo, hi)) == Xor(c, Word(lo', hi'))
    ensures lo == lo' && hi == hi'
  {
  }

  // ---- the frame check ----

  /** A frame of 4 or more bytes is accepted exactly when its whole CRC is zero. */
  lemma UnwrapIffZeroCrc(frame: Bytes)
    requires |frame| >= 4
    ensures RtuUnwrap(frame).Ok? <==> Crc16(frame) == 0
  {
    hide Widen, IsByte, Feed, Iterate, AllEven;
    var n := |frame|;
    var body := frame[..n - 2];
    var lo, hi := Widen(frame[n - 2]), Widen(frame[n - 1]);
    assert Words(frame) == Words(body) + [lo, hi];
    FeedConcat(BitStep, Xor, 8, 0xFFFF, Words(body), [lo, hi]);
    WidenByte(frame[n - 2]);
    WidenByte(frame[n - 1]);
    HighByte(hi);
    PairOnRegister(8, Crc16(body), lo, hi);
  }

  /** Wrapping then unwrapping gives the unit and the PDU back, except for the empty PDU,
      whose 3-byte frame the receiver calls too short. */
  lemma WrapUnwrap(unit: int, pdu: Bytes)
    ensures RtuUnwrap(RtuWrap(unit, pdu)) == if pdu == [] then Err else Ok((unit % 256, pdu))
  {
    hide Crc16, Word, Widen, Low, High;
    var body := [unit % 256] + pdu;
    var crc := Crc16(body);
    WordOfRegister(crc);
    ConsRest(unit % 256, pdu);
    WithTrailer(body, Low(crc), High(crc));
  }

  lemma WithTrailer(body: Bytes, lo: Byte, hi: Byte)
    ensures var frame := body + [lo, hi];
            frame[..|frame| - 2] == body && frame[|frame| - 2] == lo && frame[|frame| - 1] == hi
  {
  }

  /** What is accepted is exactly what some sender wrapped: the check admits nothing else. */
  lemma UnwrapWrap(frame: Bytes)
    requires RtuUnwrap(frame).Ok?
    ensures RtuWrap(RtuUnwrap(frame).value.0, RtuUnwrap(frame).value.1) == frame
  {
    hide Widen, Low, High, Word;
    var n := |frame|;
    var body := frame[..n - 2];
    assert [body[0] % 256] + body[1..] == body;
    LowHigh(Crc16(body), frame[n - 2], frame[n - 1]);
    assert frame == body + [frame[n - 2], frame[n - 1]];
  }

  /** Any change confined to two neighbouring bytes, anywhere in an accepted frame of any
      length, is caught. */
  lemma BurstDetected(frame: Bytes, i: nat, lo: Byte, hi: Byte)
    requires RtuUnwrap(frame).Ok? && i + 1 < |frame|
    requires lo != frame[i] || hi != frame[i + 1]
    ensures RtuUnwrap(frame[i := lo][i + 1 := hi]).Err?
  {
    var bad := frame[i := lo][i + 1 := hi];
    UnwrapIffZeroCrc(frame);
    UnwrapIffZeroCrc(bad);
    SplitAtPair(frame, i);
    SplitAtPair(bad, i);
    assert bad[..i] == frame[..i] && bad[i + 2..] == frame[i + 2..];
    if Crc16(bad) == 0 {
      SameEffect(Register(8, 0xFFFF, Words(frame[..i])), frame[i], frame[i + 1], lo, hi, Words(frame[i + 2..]));
    }
  }

  lemma SplitAtPair(frame: Bytes, i: nat)
    requires i + 1 < |frame|
    ensures Crc16(frame) == Register(8, Register(8, Register(8, 0xFFFF, Words(frame[..i])),
                                                 [Widen(frame[i]), Widen(frame[i + 1])]),
                                     Words(frame[i + 2..]))
  {
    var pre, pair, post := Words(frame[..i]), [Widen(frame[i]), Widen(frame[i + 1])], Words(frame[i + 2..]);
    assert Words(frame) == pre + (pair + post);
    FeedConcat(BitStep, Xor, 8, 0xFFFF, pre, pair + post);
    FeedConcat(BitStep, Xor, 8, Register(8, 0xFFFF, pre), pair, post);
  }

  lemma SameEffect(c: bv16, lo: Byte, hi: Byte, lo': Byte, hi': Byte, post: seq<bv16>)
    requires Register(8, Register(8, c, [Widen(lo), Widen(hi)]), post) ==
             Register(8, Register(8, c, [Widen(lo'), Widen(hi')]), post)
    ensures lo == lo' && hi == hi'
  {
    hide Widen, IsByte, Feed, Iterate, BitStep, Xor, Half, Even, AllEven, Injective, Cancels, Passes;
    RegisterFacts();
    FeedInjective(BitStep, Xor, 8, Register(8, c, [Widen(lo), Widen(hi)]),
                  Register(8, c, [Widen(lo'), Widen(hi')]), post);
    WidenByte(lo);
    WidenByte(hi);
    WidenByte(lo');
    WidenByte(hi');
    HighByte(Widen(hi));
    HighByte(Widen(hi'));
    SamePair(8, c, Widen(lo), Widen(hi), Widen(lo'), Widen(hi'));
  }
}
