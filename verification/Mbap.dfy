/** The Modbus/TCP envelope and its streaming reader (app/engine/modbus.py), as
    section 3.1.3 of the "MODBUS Messaging on TCP/IP Implementation Guide" V1.0b lays out
    the MBAP header: transaction, protocol 0, length, unit. */
module Mbap {
  import opened Common

  const MBAP_LEN: nat := 7
  const MAX_PDU: nat := 253

  datatype Frame = Frame(txn: int, unit: int, pdu: Bytes)

  /** What one look at the buffer finds. Taken says how many bytes the frame used. */
  datatype Look = NeedMore | Bad | Taken(frame: Frame, used: nat)

  function Word(hi: int, lo: int): int { 256 * hi + lo }

  function BuildTcpAdu(txn: int, unit: int, pdu: Bytes): Bytes
  {
    var length := |pdu| + 1;
    [Hi(txn), Lo(txn), 0, 0, Hi(length), Lo(length), Lo(unit)] + pdu
  }

  function TakeTcpAdu(buf: Bytes): (r: Look)
    ensures r.Taken? ==> MBAP_LEN <= r.used <= |buf| && r.used == MBAP_LEN + |r.frame.pdu|
    ensures r.NeedMore? ==> |buf| <= MBAP_LEN + MAX_PDU - 1
  {
    if |buf| < MBAP_LEN then NeedMore
    else
      var txn := Word(buf[0], buf[1]);
      var proto := Word(buf[2], buf[3]);
      var length := Word(buf[4], buf[5]);
      if proto != 0 then Bad
      else if !(1 <= length <= MAX_PDU + 1) then Bad
      else
        var total := MBAP_LEN + (length - 1);
        if |buf| < total then NeedMore
        else Taken(Frame(txn, buf[6], buf[MBAP_LEN..total]), total)
  }

  /** A caller's bytearray, which the reader shortens in place. */
  class Buffer {
    var data: Bytes

    constructor ()
      ensures data == []
    {
      data := [];
    }
  }

  /** take_tcp_adu: pops the frame off the front of the buffer; on any other outcome the
      buffer is left alone. */
  method PopTcpAdu(buf: Buffer) returns (r: Look)
    modifies buf
    ensures r == TakeTcpAdu(old(buf.data))
    ensures r.Taken? ==> buf.data == old(buf.data)[r.used..]
    ensures !r.Taken? ==> buf.data == old(buf.data)
  {
    r := NeedMore;
    if |buf.data| < MBAP_LEN {
      return;
    }
    var d := buf.data;
    var txn, proto, length, unit := Word(d[0], d[1]), Word(d[2], d[3]), Word(d[4], d[5]), d[6];
    if proto != 0 || !(1 <= length <= MAX_PDU + 1) {
      r := Bad;
      return;
    }
    var total := MBAP_LEN + (length - 1);
    if |buf.data| < total {
      return;
    }
    r := Taken(Frame(txn, unit, d[MBAP_LEN..total]), total);
    buf.data := buf.data[total..];
  }

  /** Everything the reader makes of a stream: the frames in order, how many bytes they
      used, and whether a framing error stands right behind them. */
  datatype Scan = Scan(frames: seq<Frame>, used: nat, bad: bool)

  function ScanAll(s: Bytes): (r: Scan)
    ensures r.used <= |s|
    decreases |s|
  {
    match TakeTcpAdu(s)
    case NeedMore => Scan([], 0, false)
    case Bad => Scan([], 0, true)
    case Taken(f, n) => Cons(f, n, ScanAll(s[n..]))
  }

  function Cons(f: Frame, n: nat, x: Scan): Scan { Scan([f] + x.frames, n + x.used, x.bad) }

  /** The state of one connection: what has been decoded, and the bytes still buffered. */
  datatype Reader = Reader(frames: seq<Frame>, used: nat, buf: Bytes, bad: bool)

  /** One read off the socket followed by the source's inner loop; after an error the
      connection is dropped and nothing more is read. */
  function Feed(r: Reader, data: Bytes): Reader
  {
    if r.bad then r
    else
      var all := r.buf + data;
      var sc := ScanAll(all);
      Reader(r.frames + sc.frames, r.used + sc.used, all[sc.used..], sc.bad)
  }

  function FeedAll(r: Reader, chunks: seq<Bytes>): Reader
    decreases |chunks|
  {
    if chunks == [] then r else FeedAll(Feed(r, chunks[0]), chunks[1..])
  }

  const START := Reader([], 0, [], false)

  /** The inner loop itself: pop until the buffer gives no frame. */
  method DrainBuffer(buf: Buffer) returns (frames: seq<Frame>, bad: bool)
    modifies buf
    ensures var sc := ScanAll(old(buf.data));
            frames == sc.frames && bad == sc.bad && buf.data == old(buf.data)[sc.used..]
  {
    frames := [];
    ghost var all, used := buf.data, 0;
    ThenNothing(ScanAll(all));
    while true
      invariant 0 <= used <= |all| && buf.data == all[used..]
      invariant ScanAll(all) == Then(Scan(frames, used, false), ScanAll(buf.data))
      decreases |buf.data|
    {
      var look := PopTcpAdu(buf);
      match look {
        case NeedMore =>
          ThenEnds(frames, used, false);
          bad := false;
          return;
        case Bad =>
          ThenEnds(frames, used, true);
          bad := true;
          return;
        case Taken(f, n) =>
          ThenMoves(frames, used, f, n, ScanAll(buf.data));
          DropTwice(all, used, n);
          frames := frames + [f];
          used := used + n;
      }
    }
  }

  // ---- independence of chunking ----

  /** More bytes behind a decision do not change it. */
  lemma TakeStable(a: Bytes, b: Bytes)
    ensures TakeTcpAdu(a).Taken? ==> TakeTcpAdu(a + b) == TakeTcpAdu(a)
    ensures TakeTcpAdu(a).Bad? ==> TakeTcpAdu(a + b).Bad?
  {
    if |a| >= MBAP_LEN {
      assert forall i :: 0 <= i < MBAP_LEN ==> (a + b)[i] == a[i];
      if TakeTcpAdu(a).Taken? {
        var n := TakeTcpAdu(a).used;
        assert (a + b)[MBAP_LEN..n] == a[MBAP_LEN..n];
      }
    }
  }

  function Rest(s: Bytes): Bytes { s[ScanAll(s).used..] }

  /** Scanning a stream in two parts: the second part starts from what the first left. */
  lemma {:induction false} ScanSplit(a: Bytes, b: Bytes)
    ensures ScanAll(a).bad ==> ScanAll(a + b) == ScanAll(a)
    ensures !ScanAll(a).bad ==> ScanAll(a + b) == Then(ScanAll(a), ScanAll(Rest(a) + b))
    ensures !ScanAll(a).bad ==> Rest(a + b) == Rest(Rest(a) + b)
    decreases |a|
  {
    TakeStable(a, b);
    match TakeTcpAdu(a)
    case NeedMore =>
      assert Rest(a) == a;
      ThenNothing(ScanAll(a + b));
    case Bad =>
    case Taken(f, n) =>
      ScanSplit(a[n..], b);
      SplitTaken(a, b);
  }

  lemma SplitTaken(a: Bytes, b: Bytes)
    requires TakeTcpAdu(a).Taken? && TakeTcpAdu(a + b) == TakeTcpAdu(a)
    requires var t := a[TakeTcpAdu(a).used..];
             if ScanAll(t).bad then ScanAll(t + b) == ScanAll(t)
             else ScanAll(t + b) == Then(ScanAll(t), ScanAll(Rest(t) + b)) && Rest(t + b) == Rest(Rest(t) + b)
    ensures ScanAll(a).bad ==> ScanAll(a + b) == ScanAll(a)
    ensures !ScanAll(a).bad ==> ScanAll(a + b) == Then(ScanAll(a), ScanAll(Rest(a) + b))
    ensures !ScanAll(a).bad ==> Rest(a + b) == Rest(Rest(a) + b)
  {
    var Taken(f, n) := TakeTcpAdu(a);
    DropOfAppend(a, b, n);
    RestTaken(a);
    RestTaken(a + b);
    var x, y := ScanAll(a[n..]), ScanAll(Rest(a) + b);
    if !x.bad {
      ThenAssociates(f, n, x, y);
    }
  }

  function Then(x: Scan, y: Scan): Scan { Scan(x.frames + y.frames, x.used + y.used, y.bad) }

  lemma ThenNothing(y: Scan)
    ensures Then(Scan([], 0, false), y) == y
  {
    assert [] + y.frames == y.frames;
  }

  lemma ThenAssociates(f: Frame, n: nat, x: Scan, y: Scan)
    ensures Then(Cons(f, n, x), y) == Cons(f, n, Then(x, y))
  {
    AppendAssociates([f], x.frames, y.frames);
  }

  lemma ThenEnds(frames: seq<Frame>, used: nat, bad: bool)
    ensures Then(Scan(frames, used, false), Scan([], 0, bad)) == Scan(frames, used, bad)
  {
    assert frames + [] == frames;
  }

  lemma ThenMoves(frames: seq<Frame>, used: nat, f: Frame, n: nat, x: Scan)
    ensures Then(Scan(frames, used, false), Cons(f, n, x)) == Then(Scan(frames + [f], used + n, false), x)
  {
    AppendAssociates(frames, [f], x.frames);
  }

  lemma RestTaken(s: Bytes)
    requires TakeTcpAdu(s).Taken?
    ensures Rest(s) == Rest(s[TakeTcpAdu(s).used..])
  {
    var n := TakeTcpAdu(s).used;
    DropTwice(s, n, ScanAll(s[n..]).used);
  }

  /** Reading a stream in any chunks gives the frames, the error and the error position of
      reading it at once. */
  lemma ChunkingIrrelevant(chunks: seq<Bytes>)
    ensures var r, sc := FeedAll(START, chunks), ScanAll(Concat(chunks));
            r.frames == sc.frames && r.used == sc.used && r.bad == sc.bad
    ensures !FeedAll(START, chunks).bad ==>
              FeedAll(START, chunks).buf == Concat(chunks)[ScanAll(Concat(chunks)).used..]
  {
    assert Represents(START, []);
    FeedAllRepresents(START, [], chunks);
    assert [] + Concat(chunks) == Concat(chunks);
  }

  /** r is what reading the stream s leaves behind. */
  predicate Represents(r: Reader, s: Bytes)
  {
    var sc := ScanAll(s);
    r.frames == sc.frames && r.used == sc.used && r.bad == sc.bad && (!r.bad ==> r.buf == Rest(s))
  }

  lemma FeedRepresents(r: Reader, s: Bytes, data: Bytes)
    requires Represents(r, s)
    ensures Represents(Feed(r, data), s + data)
  {
    ScanSplit(s, data);
  }

  lemma {:induction false} FeedAllRepresents(r: Reader, s: Bytes, chunks: seq<Bytes>)
    requires Represents(r, s)
    ensures Represents(FeedAll(r, chunks), s + Concat(chunks))
    decreases |chunks|
  {
    if chunks == [] {
      assert s + Concat(chunks) == s;
    } else {
      FeedRepresents(r, s, chunks[0]);
      FeedAllRepresents(Feed(r, chunks[0]), s + chunks[0], chunks[1..]);
      ConcatFirst(s, chunks);
    }
  }

  /** A connection that is still up never buffers a whole frame's worth of bytes. */
  lemma {:induction false} LeftoverBounded(s: Bytes)
    requires !ScanAll(s).bad
    ensures |s| - ScanAll(s).used <= MBAP_LEN + MAX_PDU - 1 == 259
    decreases |s|
  {
    match TakeTcpAdu(s)
    case NeedMore =>
    case Taken(f, n) => LeftoverBounded(s[n..]);
  }

  // ---- the reader inverts the builder ----

  function Encode(frames: seq<Frame>): Bytes
  {
    if frames == [] then []
    else BuildTcpAdu(frames[0].txn, frames[0].unit, frames[0].pdu) + Encode(frames[1..])
  }

  /** A frame as the wire carries it. */
  predicate OnWire(f: Frame)
  {
    0 <= f.txn < 65536 && 0 <= f.unit < 256 && |f.pdu| <= MAX_PDU
  }

  lemma TakenOnWire(buf: Bytes)
    requires TakeTcpAdu(buf).Taken?
    ensures OnWire(TakeTcpAdu(buf).frame)
  {
    assert forall i :: 0 <= i < 7 ==> 0 <= buf[i] < 256;
  }

  /** Nothing else is ever read. */
  lemma {:induction false} FramesOnWire(s: Bytes)
    ensures forall f :: f in ScanAll(s).frames ==> OnWire(f)
    decreases |s|
  {
    hide OnWire;
    var look := TakeTcpAdu(s);
    if look.Taken? {
      TakenOnWire(s);
      FramesOnWire(s[look.used..]);
    }
  }

  lemma WordOfBytes(n: int)
    requires 0 <= n < 65536
    ensures Word(Hi(n), Lo(n)) == n
  {
  }

  lemma TakeHeader(f: Frame, adu: Bytes, h: Bytes, rest: Bytes)
    requires adu == h + f.pdu
    requires |h| == MBAP_LEN && h[2] == 0 && h[3] == 0 && h[6] == f.unit
    requires Word(h[0], h[1]) == f.txn && Word(h[4], h[5]) == |f.pdu| + 1 <= MAX_PDU + 1
    ensures TakeTcpAdu(adu + rest) == Taken(f, MBAP_LEN + |f.pdu|)
  {
    var s := adu + rest;
    assert s[0] == h[0] && s[1] == h[1] && s[2] == h[2] && s[3] == h[3];
    assert s[4] == h[4] && s[5] == h[5] && s[6] == h[6];
    assert s[MBAP_LEN..MBAP_LEN + |f.pdu|] == f.pdu;
  }

  lemma Header(f: Frame) returns (h: Bytes)
    requires OnWire(f)
    ensures BuildTcpAdu(f.txn, f.unit, f.pdu) == h + f.pdu
    ensures |h| == MBAP_LEN && h[2] == 0 && h[3] == 0
    ensures Word(h[0], h[1]) == f.txn && Word(h[4], h[5]) == |f.pdu| + 1 && h[6] == f.unit
  {
    var length := |f.pdu| + 1;
    h := [Hi(f.txn), Lo(f.txn), 0, 0, Hi(length), Lo(length), Lo(f.unit)];
    WordOfBytes(f.txn);
    WordOfBytes(length);
  }

  lemma BuildTake(f: Frame, rest: Bytes)
    requires OnWire(f)
    ensures TakeTcpAdu(BuildTcpAdu(f.txn, f.unit, f.pdu) + rest) == Taken(f, MBAP_LEN + |f.pdu|)
  {
    hide BuildTcpAdu;
    var h := Header(f);
    TakeHeader(f, BuildTcpAdu(f.txn, f.unit, f.pdu), h, rest);
  }

  /** Every concatenation of built frames is read back exactly. */
  lemma {:induction false} ScanEncoded(frames: seq<Frame>, rest: Bytes)
    requires forall f :: f in frames ==> OnWire(f)
    ensures ScanAll(Encode(frames) + rest) == Then(Scan(frames, |Encode(frames)|, false), ScanAll(rest))
    decreases |frames|
  {
    if frames == [] {
      assert Encode(frames) + rest == rest;
      ThenNothing(ScanAll(rest));
    } else {
      var f, fs := frames[0], frames[1..];
      var adu := BuildTcpAdu(f.txn, f.unit, f.pdu);
      ScanEncoded(fs, rest);
      BuildTake(f, Encode(fs) + rest);
      ScanOne(f, adu, Encode(fs) + rest);
      AppendAssociates(adu, Encode(fs), rest);
      FirstAndRest(frames);
      ThenAssociates(f, |adu|, Scan(fs, |Encode(fs)|, false), ScanAll(rest));
    }
  }

  lemma ScanOne(f: Frame, adu: Bytes, tail: Bytes)
    requires TakeTcpAdu(adu + tail) == Taken(f, |adu|)
    ensures ScanAll(adu + tail) == Cons(f, |adu|, ScanAll(tail))
  {
    DropLength(adu, tail);
  }

  // ---- what is read is what is built ----

  lemma BytesOfWord(hi: Byte, lo: Byte)
    ensures 0 <= Word(hi, lo) < 65536 && Hi(Word(hi, lo)) == hi && Lo(Word(hi, lo)) == lo
  {
  }

  lemma HeaderOf(buf: Bytes, f: Frame)
    requires |buf| >= MBAP_LEN && 0 <= f.txn < 65536 && 0 <= f.unit < 256
    requires f.txn == Word(buf[0], buf[1]) && f.unit == buf[6] && |f.pdu| + 1 == Word(buf[4], buf[5])
    requires buf[2] == 0 && buf[3] == 0
    ensures BuildTcpAdu(f.txn, f.unit, f.pdu)[..MBAP_LEN] == buf[..MBAP_LEN]
  {
    BytesOfWord(buf[0], buf[1]);
    BytesOfWord(buf[4], buf[5]);
    LowOfByte(buf[6]);
    hide Hi, Lo, Word;
    var adu := BuildTcpAdu(f.txn, f.unit, f.pdu);
    assert adu == [buf[0], buf[1], 0, 0, buf[4], buf[5], buf[6]] + f.pdu;
    assert adu[..MBAP_LEN] == [buf[0], buf[1], 0, 0, buf[4], buf[5], buf[6]];
  }

  lemma LowOfByte(b: Byte)
    ensures Lo(b) == b
  {
  }

  /** A frame is taken exactly when its built form stands at the head of the buffer. */
  lemma TakeExact(buf: Bytes, f: Frame, n: nat)
    ensures TakeTcpAdu(buf) == Taken(f, n) <==>
            OnWire(f) && n == MBAP_LEN + |f.pdu| <= |buf| && buf[..n] == BuildTcpAdu(f.txn, f.unit, f.pdu)
  {
    if TakeTcpAdu(buf) == Taken(f, n) {
      TakenOnWire(buf);
      HeaderOf(buf, f);
      hide TakeTcpAdu;
      var adu := BuildTcpAdu(f.txn, f.unit, f.pdu);
      assert adu == adu[..MBAP_LEN] + f.pdu;
      assert buf[..n] == buf[..MBAP_LEN] + buf[MBAP_LEN..n];
    }
    if OnWire(f) && n == MBAP_LEN + |f.pdu| <= |buf| && buf[..n] == BuildTcpAdu(f.txn, f.unit, f.pdu) {
      hide BuildTcpAdu, TakeTcpAdu;
      BuildTake(f, buf[n..]);
      assert buf[..n] + buf[n..] == buf;
    }
  }

  /** The stream is broken exactly when a whole header stands there that no frame has. */
  lemma BadExact(buf: Bytes)
    ensures TakeTcpAdu(buf).Bad? <==>
            |buf| >= MBAP_LEN
            && forall f :: OnWire(f) ==> BuildTcpAdu(f.txn, f.unit, f.pdu)[..MBAP_LEN] != buf[..MBAP_LEN]
  {
    if TakeTcpAdu(buf).Bad? {
      forall f | OnWire(f) ensures BuildTcpAdu(f.txn, f.unit, f.pdu)[..MBAP_LEN] != buf[..MBAP_LEN] {
        OtherHeader(buf, f);
      }
    } else if |buf| >= MBAP_LEN {
      var f := Frame(Word(buf[0], buf[1]), buf[6], seq(Word(buf[4], buf[5]) - 1, _ => 0));
      HeaderOf(buf, f);
      assert OnWire(f);
    }
  }

  lemma OtherHeader(buf: Bytes, f: Frame)
    requires TakeTcpAdu(buf).Bad? && OnWire(f)
    ensures BuildTcpAdu(f.txn, f.unit, f.pdu)[..MBAP_LEN] != buf[..MBAP_LEN]
  {
    var h := Header(f);
    hide BuildTcpAdu;
    var adu := BuildTcpAdu(f.txn, f.unit, f.pdu);
    assert adu[..MBAP_LEN] == h;
  }
}
