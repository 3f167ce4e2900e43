/** What a telnet session does with each thing a peer can send, by the words of RFC 854:
    data, negotiation, subnegotiation and other commands. */
module TelnetExact {
  import opened Common
  import opened Telnet
  import opened TelnetRuns

  // ---- negotiation ----

  /** The rule of "General Considerations": a request to change an option is answered only
      if it changes something, an option that is not supported is refused, and the answer
      says what the option now is. A full output swallows the answer. */
  function Rule(s: State, verb: Byte, opt: Byte): State
  {
    var mine := verb == DO || verb == DONT;
    var on := (verb == DO || verb == WILL) && (opt == 0 || opt == 3);
    var table := if mine then s.local else s.remote;
    if opt in table && table[opt] == on then s
    else
      var word := if mine then (if on then WILL else WONT) else if on then DO else DONT;
      var s1 := if mine then s.(local := table[opt := on]) else s.(remote := table[opt := on]);
      if |s.netOut| < 65536
      then s1.(netOut := s.netOut + [IAC, word, opt], sent := s.sent + [Command(word, opt)])
      else s1
  }

  lemma ThreeSteps(s: State, a: Byte, b: Byte, c: Byte)
    ensures var (s1, o1) := Step(s, a);
            var (s2, o2) := Step(s1, b);
            var (s3, o3) := Step(s2, c);
            FromNetwork(s, [a, b, c]) == (s3, o1 + (o2 + o3))
  {
    hide Step;
    var s1 := Step(s, a).0;
    var s2 := Step(s1, b).0;
    assert [a, b, c][1..] == [b, c] && [b, c][1..] == [c];
    Unroll1(s2, [c]);
    assert FromNetwork(s1, [b, c]).0 == FromNetwork(s2, [c]).0;
  }

  lemma TwoSteps(s: State, a: Byte, b: Byte)
    ensures var (s1, o1) := Step(s, a);
            var (s2, o2) := Step(s1, b);
            FromNetwork(s, [a, b]) == (s2, o1 + o2)
  {
    hide Step;
    assert [a, b][1..] == [b];
    Unroll1(Step(s, a).0, [b]);
  }

  lemma NothingAdded(x: Bytes)
    ensures [] + x == x && x + [] == x
  {
  }

  /** A whole command, in any state of the tables and of the output. */
  lemma NegotiationExact(s: State, verb: Byte, opt: Byte)
    requires s.mode == Data && IsVerb(verb)
    ensures FromNetwork(s, [IAC, verb, opt]) == (Rule(s, verb, opt).(cmd := verb), [])
  {
    ThreeSteps(s, IAC, verb, opt);
    RuleAfter(s, verb, opt);
    NothingAdded([]);
  }

  lemma RuleAfter(s: State, verb: Byte, opt: Byte)
    requires IsVerb(verb)
    ensures Negotiate(s.(mode := Opt, cmd := verb), verb, opt).(mode := s.mode) == Rule(s, verb, opt).(cmd := verb)
  {
  }

  // ---- everything else ----

  /** What lies between IAC SB and IAC SE: bytes, and pairs of IAC and anything but SE. */
  datatype SubItem = SubByte(b: Byte) | SubPair(b: Byte)

  predicate GoodSub(i: SubItem) { if i.SubByte? then i.b != IAC else i.b != SE }

  function SubBytes(items: seq<SubItem>): Bytes
  {
    if items == [] then []
    else (if items[0].SubByte? then [items[0].b] else [IAC, items[0].b]) + SubBytes(items[1..])
  }

  datatype Piece = Datum(b: Byte) | Request(verb: Byte, opt: Byte) | Sub(items: seq<SubItem>) | Other(b: Byte)

  predicate GoodPiece(p: Piece)
  {
    match p
    case Datum(_) => true
    case Request(verb, _) => IsVerb(verb)
    case Sub(items) => forall i :: 0 <= i < |items| ==> GoodSub(items[i])
    case Other(b) => b != IAC && b != SB && !IsVerb(b)
  }

  function PieceBytes(p: Piece): Bytes
  {
    match p
    case Datum(b) => if b == IAC then [IAC, IAC] else [b]
    case Request(verb, opt) => [IAC, verb, opt]
    case Sub(items) => [IAC, SB] + (SubBytes(items) + [IAC, SE])
    case Other(b) => [IAC, b]
  }

  /** Only a request changes the session, and only data reach the serial side. */
  function After(s: State, p: Piece): State { if p.Request? then Rule(s, p.verb, p.opt).(cmd := p.verb) else s }

  function Delivered(p: Piece): Bytes { if p.Datum? then [p.b] else [] }

  lemma {:induction false} SubSkipped(s: State, items: seq<SubItem>)
    requires s.mode == Sb && forall i :: 0 <= i < |items| ==> GoodSub(items[i])
    ensures FromNetwork(s, SubBytes(items)) == (s, [])
    decreases |items|
  {
    if items != [] {
      var first := if items[0].SubByte? then [items[0].b] else [IAC, items[0].b];
      assert GoodSub(items[0]);
      if items[0].SubByte? {
        Unroll1(s, first);
      } else {
        TwoSteps(s, IAC, items[0].b);
      }
      NothingAdded([]);
      assert FromNetwork(s, first) == (s, []);
      hide FromNetwork;
      SubSkipped(s, items[1..]);
      ChunkingIrrelevant(s, first, SubBytes(items[1..]));
    }
  }

  lemma PieceExact(s: State, p: Piece)
    requires s.mode == Data && GoodPiece(p)
    ensures FromNetwork(s, PieceBytes(p)) == (After(s, p), Delivered(p))
  {
    NothingAdded([]);
    match p
    case Datum(b) =>
      if b == IAC {
        NothingAdded([IAC]);
        TwoSteps(s, IAC, IAC);
      } else {
        Unroll1(s, [b]);
      }
    case Request(verb, opt) => NegotiationExact(s, verb, opt);
    case Other(b) => TwoSteps(s, IAC, b);
    case Sub(items) =>
      TwoSteps(s, IAC, SB);
      var inside := s.(mode := Sb);
      assert FromNetwork(s, [IAC, SB]) == (inside, []);
      SubSkipped(inside, items);
      TwoSteps(inside, IAC, SE);
      hide FromNetwork;
      ChunkingIrrelevant(inside, SubBytes(items), [IAC, SE]);
      ChunkingIrrelevant(s, [IAC, SB], SubBytes(items) + [IAC, SE]);
  }

  function PiecesBytes(ps: seq<Piece>): Bytes
  {
    if ps == [] then [] else PieceBytes(ps[0]) + PiecesBytes(ps[1..])
  }

  function AfterAll(s: State, ps: seq<Piece>): State
    decreases |ps|
  {
    if ps == [] then s else AfterAll(After(s, ps[0]), ps[1..])
  }

  function DeliveredAll(ps: seq<Piece>): Bytes
  {
    if ps == [] then [] else Delivered(ps[0]) + DeliveredAll(ps[1..])
  }

  /** Any stream of them: the session is changed by each request in turn, and exactly the
      data are delivered. */
  lemma {:induction false} StreamExact(s: State, ps: seq<Piece>)
    requires s.mode == Data && forall i :: 0 <= i < |ps| ==> GoodPiece(ps[i])
    ensures FromNetwork(s, PiecesBytes(ps)) == (AfterAll(s, ps), DeliveredAll(ps))
    decreases |ps|
  {
    hide FromNetwork, GoodPiece, PieceBytes, Rule;
    if ps == [] {
      FromNothing(s);
    } else {
      assert GoodPiece(ps[0]);
      PieceExact(s, ps[0]);
      StaysInData(s, ps[0]);
      StreamExact(After(s, ps[0]), ps[1..]);
      ChunkingIrrelevant(s, PieceBytes(ps[0]), PiecesBytes(ps[1..]));
    }
  }

  lemma StaysInData(s: State, p: Piece)
    ensures After(s, p).mode == s.mode
  {
  }

  // ---- refusals, counted exactly ----

  /** An unsupported option that was ever asked about has been refused once, on each side
      it was asked about, and one that was not has not been mentioned. */
  predicate RefusedExactly(s: State, opt: Byte)
  {
    && Count(s.sent, Command(WILL, opt)) == 0 && Count(s.sent, Command(DO, opt)) == 0
    && Count(s.sent, Command(WONT, opt)) == (if opt in s.local then 1 else 0)
    && Count(s.sent, Command(DONT, opt)) == (if opt in s.remote then 1 else 0)
    && (opt in s.local ==> !s.local[opt]) && (opt in s.remote ==> !s.remote[opt])
  }

  ghost predicate AllRefused(s: State) { forall opt: Byte :: !Supported(opt) ==> RefusedExactly(s, opt) }

  lemma SentCounts(s: State, c: Command, o: Byte)
    requires |s.netOut| < MAX_NET_OUT
    ensures forall v: Byte ::
              Count(Send(s, c).sent, Command(v, o)) ==
              Count(s.sent, Command(v, o)) + if c == Command(v, o) then 1 else 0
  {
    forall v: Byte
      ensures Count(Send(s, c).sent, Command(v, o)) ==
              Count(s.sent, Command(v, o)) + if c == Command(v, o) then 1 else 0
    {
      CountSnoc(s.sent, c, Command(v, o));
    }
  }

  lemma SetRefuses(s: State, side: Side, opt: Byte, v: bool, o: Byte)
    requires |s.netOut| < MAX_NET_OUT && !Has(Table(s, side), opt, v) && (v ==> Supported(opt))
    requires !Supported(o) && RefusedExactly(s, o)
    ensures var s1 := if side.Local? then s.(local := s.local[opt := v]) else s.(remote := s.remote[opt := v]);
            RefusedExactly(Send(s1, Command(VerbFor(side, v), opt)), o)
  {
    hide Count;
    var s1 := if side.Local? then s.(local := s.local[opt := v]) else s.(remote := s.remote[opt := v]);
    SentCounts(s1, Command(VerbFor(side, v), opt), o);
  }

  lemma NegotiateRefuses(s: State, verb: Byte, opt: Byte)
    requires AllRefused(s) && |s.netOut| < MAX_NET_OUT
    ensures AllRefused(Negotiate(s, verb, opt))
  {
    hide RefusedExactly, Send;
    forall o: Byte | !Supported(o) ensures RefusedExactly(Negotiate(s, verb, opt), o) {
      assert RefusedExactly(s, o);
      if verb == DO || verb == DONT {
        var a := Answer(s.local, opt, verb == DO);
        if a.Some? {
          SetRefuses(s, Local, opt, a.value, o);
        }
      } else if verb == WILL || verb == WONT {
        var a := Answer(s.remote, opt, verb == WILL);
        if a.Some? {
          SetRefuses(s, Remote, opt, a.value, o);
        }
      }
    }
  }

  lemma RefusedElsewhere(s: State, s': State)
    requires AllRefused(s) && s'.local == s.local && s'.remote == s.remote && s'.sent == s.sent
    ensures AllRefused(s')
  {
    hide Count;
    forall o: Byte | !Supported(o) ensures RefusedExactly(s', o) {
      assert RefusedExactly(s, o);
    }
  }

  lemma StepRefuses(s: State, b: Byte, n: nat)
    requires AllRefused(s) && Room(s, n + 1)
    ensures AllRefused(Step(s, b).0) && Room(Step(s, b).0, n)
  {
    hide AllRefused;
    if s.mode == Opt {
      NegotiateRefuses(s, s.cmd, b);
      RefusedElsewhere(Negotiate(s, s.cmd, b), Step(s, b).0);
    } else {
      RefusedElsewhere(s, Step(s, b).0);
    }
  }

  lemma {:induction false} ReadRefuses(s: State, data: Bytes)
    requires AllRefused(s) && Room(s, |data|)
    ensures AllRefused(FromNetwork(s, data).0)
    decreases |data|
  {
    hide AllRefused, Step;
    if data != [] {
      StepRefuses(s, data[0], |data| - 1);
      ReadRefuses(Step(s, data[0]).0, data[1..]);
    }
  }

  lemma {:induction false} PumpRefuses(s: State, chunks: seq<Bytes>)
    requires AllRefused(s) && s.netOut == []
    requires forall c :: c in chunks ==> |c| <= READ_CHUNK
    ensures AllRefused(Pump(s, chunks))
    decreases |chunks|
  {
    hide AllRefused, FromNetwork;
    if chunks != [] {
      ReadRefuses(s, chunks[0]);
      RefusedElsewhere(FromNetwork(s, chunks[0]).0, Drain(FromNetwork(s, chunks[0]).0));
      PumpRefuses(Drain(FromNetwork(s, chunks[0]).0), chunks[1..]);
    }
  }

  lemma FreshRefuses()
    ensures AllRefused(Drain(FRESH))
  {
    hide Count;
    forall o: Byte | !Supported(o) ensures RefusedExactly(Drain(FRESH), o) {
      NotAmongOffers(o);
    }
  }

  /** Served by the bridge, whose output never reaches its cap, the refusals are exact. */
  lemma RefusalsExact(chunks: seq<Bytes>, opt: Byte)
    requires !Supported(opt) && forall c :: c in chunks ==> |c| <= READ_CHUNK
    ensures RefusedExactly(Pump(Drain(FRESH), chunks), opt)
  {
    hide RefusedExactly, Pump;
    FreshRefuses();
    PumpRefuses(Drain(FRESH), chunks);
  }
}
