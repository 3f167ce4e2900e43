/** The telnet session of app/engine/protocols/telnet.py: a five-state byte machine that
    strips the commands of RFC 854 (section "TELNET Command Structure") from the network
    stream and answers option negotiation, offering binary transmission (RFC 856) and
    suppress-go-ahead in both directions. */
module Telnet {
  import opened Common

  const IAC: Byte := 255
  const DONT: Byte := 254
  const DO: Byte := 253
  const WONT: Byte := 252
  const WILL: Byte := 251
  const SB: Byte := 250
  const SE: Byte := 240
  const OPT_BINARY: Byte := 0
  const OPT_SGA: Byte := 3
  const MAX_NET_OUT: nat := 65536

  datatype Mode = Data | Iac | Opt | Sb | SbIac

  datatype Command = Command(verb: Byte, opt: Byte)

  /** The fields of a session, and as history every command it ever put in netOut. */
  datatype State = State(mode: Mode, cmd: Byte, local: map<Byte, bool>, remote: map<Byte, bool>,
                         netOut: Bytes, sent: seq<Command>)

  predicate Supported(opt: Byte) { opt == OPT_BINARY || opt == OPT_SGA }

  predicate IsVerb(b: Byte) { b == DO || b == DONT || b == WILL || b == WONT }

  predicate Has(table: map<Byte, bool>, opt: Byte, v: bool) { opt in table && table[opt] == v }

  function CommandBytes(c: Command): Bytes { [IAC, c.verb, c.opt] }

  /** _send: a full buffer swallows the reply. */
  function Send(s: State, c: Command): State
  {
    if |s.netOut| < MAX_NET_OUT then s.(netOut := s.netOut + CommandBytes(c), sent := s.sent + [c]) else s
  }

  /** The new state of an option the peer asks to enable or disable, if it changes. */
  function Answer(table: map<Byte, bool>, opt: Byte, enable: bool): Option<bool>
  {
    var target := enable && Supported(opt);
    if Has(table, opt, target) then None else Some(target)
  }

  function Negotiate(s: State, verb: Byte, opt: Byte): State
  {
    if verb == DO || verb == DONT then
      var a := Answer(s.local, opt, verb == DO);
      if a.None? then s
      else Send(s.(local := s.local[opt := a.value]), Command(if a.value then WILL else WONT, opt))
    else if verb == WILL || verb == WONT then
      var a := Answer(s.remote, opt, verb == WILL);
      if a.None? then s
      else Send(s.(remote := s.remote[opt := a.value]), Command(if a.value then DO else DONT, opt))
    else s
  }

  /** One byte off the network: the new state, and what goes to the serial side. */
  function Step(s: State, b: Byte): (State, Bytes)
  {
    match s.mode
    case Data => if b == IAC then (s.(mode := Iac), []) else (s, [b])
    case Iac =>
      if b == IAC then (s.(mode := Data), [IAC])
      else if IsVerb(b) then (s.(cmd := b, mode := Opt), [])
      else if b == SB then (s.(mode := Sb), [])
      else (s.(mode := Data), [])
    case Opt => (Negotiate(s, s.cmd, b).(mode := Data), [])
    case Sb => if b == IAC then (s.(mode := SbIac), []) else (s, [])
    case SbIac => (s.(mode := if b == SE then Data else Sb), [])
  }

  function FromNetwork(s: State, data: Bytes): (State, Bytes)
    decreases |data|
  {
    if data == [] then (s, [])
    else
      var (s1, o1) := Step(s, data[0]);
      var (s2, o2) := FromNetwork(s1, data[1..]);
      (s2, o1 + o2)
  }

  /** from_serial: every 0xFF is doubled. */
  function Escape(data: Bytes): Bytes
  {
    if data == [] then [] else (if data[0] == IAC then [IAC, IAC] else [data[0]]) + Escape(data[1..])
  }

  const OFFERS := [Command(WILL, OPT_BINARY), Command(DO, OPT_BINARY), Command(WILL, OPT_SGA), Command(DO, OPT_SGA)]
  const OPENING: Bytes := [IAC, WILL, OPT_BINARY, IAC, DO, OPT_BINARY, IAC, WILL, OPT_SGA, IAC, DO, OPT_SGA]
  const WILLING := map[OPT_BINARY := true, OPT_SGA := true]

  /** A new session, its opening offers still in netOut. */
  const FRESH := State(Data, 0, WILLING, WILLING, OPENING, OFFERS)

  /** The offer of one option, both ways. */
  function Offer(s: State, opt: Byte): State
  {
    var ours := Send(s.(local := s.local[opt := true]), Command(WILL, opt));
    Send(ours.(remote := ours.remote[opt := true]), Command(DO, opt))
  }

  function Offered(opts: Bytes): State
  {
    if opts == [] then State(Data, 0, map[], map[], [], []) else Offer(Offered(opts[..|opts| - 1]), opts[|opts| - 1])
  }

  lemma OfferedNext(opts: Bytes, i: nat)
    requires i < |opts|
    ensures Offered(opts[..i + 1]) == Offer(Offered(opts[..i]), opts[i])
  {
    hide Offer;
    assert opts[..i + 1][..i] == opts[..i];
  }

  lemma OfferedBoth()
    ensures Offered([OPT_BINARY, OPT_SGA]) == FRESH
  {
    var opts := [OPT_BINARY, OPT_SGA];
    OfferedNext(opts, 0);
    OfferedNext(opts, 1);
    assert opts[..2] == opts && opts[..0] == [];
    var first := Offer(Offered([]), OPT_BINARY);
    assert first == State(Data, 0, map[OPT_BINARY := true], map[OPT_BINARY := true], OPENING[..6], OFFERS[..2]);
    assert Offer(first, OPT_SGA) == FRESH;
  }

  function Drain(s: State): State { s.(netOut := []) }

  class TelnetSession {
    var netOut: Bytes
    var mode: Mode
    var cmd: Byte
    var local: map<Byte, bool>
    var remote: map<Byte, bool>
    ghost var sent: seq<Command>

    ghost function View(): State
      reads this
    {
      State(mode, cmd, local, remote, netOut, sent)
    }

    constructor ()
      ensures View() == FRESH
    {
      netOut, mode, cmd, local, remote, sent := [], Data, 0, map[], map[], [];
      new;
      var opts := [OPT_BINARY, OPT_SGA];
      for i := 0 to 2
        invariant View() == Offered(opts[..i])
      {
        hide Send;
        OfferedNext(opts, i);
        local := local[opts[i] := true];
        SendCommand(WILL, opts[i]);
        remote := remote[opts[i] := true];
        SendCommand(DO, opts[i]);
      }
      assert opts[..2] == opts;
      OfferedBoth();
    }

    method SendCommand(verb: Byte, opt: Byte)
      modifies this`netOut, this`sent
      ensures View() == Send(old(View()), Command(verb, opt))
    {
      if |netOut| < MAX_NET_OUT {
        netOut, sent := netOut + [IAC, verb, opt], sent + [Command(verb, opt)];
      }
    }

    method TakeNetOut() returns (out: Bytes)
      modifies this`netOut
      ensures out == old(netOut) && View() == Drain(old(View()))
    {
      out := netOut;
      netOut := [];
    }

    method NegotiateOption(verb: Byte, opt: Byte)
      modifies this`netOut, this`sent, this`local, this`remote
      ensures View() == Negotiate(old(View()), verb, opt)
    {
      if verb == DO {
        if Supported(opt) {
          if !Has(local, opt, true) {
            local := local[opt := true];
            SendCommand(WILL, opt);
          }
        } else if !Has(local, opt, false) {
          local := local[opt := false];
          SendCommand(WONT, opt);
        }
      } else if verb == DONT {
        if !Has(local, opt, false) {
          local := local[opt := false];
          SendCommand(WONT, opt);
        }
      } else if verb == WILL {
        if Supported(opt) {
          if !Has(remote, opt, true) {
            remote := remote[opt := true];
            SendCommand(DO, opt);
          }
        } else if !Has(remote, opt, false) {
          remote := remote[opt := false];
          SendCommand(DONT, opt);
        }
      } else if verb == WONT {
        if !Has(remote, opt, false) {
          remote := remote[opt := false];
          SendCommand(DONT, opt);
        }
      }
    }

    /** The body of from_network's loop. */
    method ReceiveByte(byte: Byte) returns (out: Bytes)
      modifies this
      ensures (View(), out) == Step(old(View()), byte)
    {
      out := [];
      if mode == Data {
        if byte == IAC {
          mode := Iac;
        } else {
          out := [byte];
        }
      } else if mode == Iac {
        if byte == IAC {
          out := [IAC];
          mode := Data;
        } else if IsVerb(byte) {
          cmd := byte;
          mode := Opt;
        } else if byte == SB {
          mode := Sb;
        } else {
          mode := Data;
        }
      } else if mode == Opt {
        NegotiateOption(cmd, byte);
        mode := Data;
      } else if mode == Sb {
        if byte == IAC {
          mode := SbIac;
        }
      } else {
        mode := if byte == SE then Data else Sb;
      }
    }

    /** from_network: the loop over the bytes. */
    method Receive(data: Bytes) returns (out: Bytes)
      modifies this
      ensures (View(), out) == FromNetwork(old(View()), data)
      ensures old(Safe(View())) ==> Safe(View())
    {
      hide Step, Safe;
      if Safe(View()) {
        FromNetworkSafe(View(), data);
      }
      out := [];
      ghost var spec := FromNetwork(View(), data);
      assert data[0..] == data && [] + spec.1 == spec.1;
      for i := 0 to |data|
        invariant spec.0 == FromNetwork(View(), data[i..]).0
        invariant spec.1 == out + FromNetwork(View(), data[i..]).1
      {
        FromNetworkFirst(View(), data, i, out);
        var more := ReceiveByte(data[i]);
        out := out + more;
      }
      assert out + [] == out;
    }
  }

  lemma FromNetworkFirst(s: State, data: Bytes, i: nat, out: Bytes)
    requires i < |data|
    ensures var (s1, o1) := Step(s, data[i]);
            && FromNetwork(s, data[i..]).0 == FromNetwork(s1, data[i + 1..]).0
            && out + FromNetwork(s, data[i..]).1 == (out + o1) + FromNetwork(s1, data[i + 1..]).1
  {
    hide Step;
    var (s1, o1) := Step(s, data[i]);
    DropTwice(data, i, 1);
    AppendAssociates(out, o1, FromNetwork(s1, data[i + 1..]).1);
  }

  // ---- against any peer ----

  /** The session does not see chunk boundaries. */
  lemma {:induction false} ChunkingIrrelevant(s: State, a: Bytes, b: Bytes)
    ensures FromNetwork(s, a + b).0 == FromNetwork(FromNetwork(s, a).0, b).0
    ensures FromNetwork(s, a + b).1 == FromNetwork(s, a).1 + FromNetwork(FromNetwork(s, a).0, b).1
    decreases |a|
  {
    hide Step;
    if a == [] {
      assert a + b == b;
      assert [] + FromNetwork(s, b).1 == FromNetwork(s, b).1;
    } else {
      var (s1, o1) := Step(s, a[0]);
      ChunkingIrrelevant(s1, a[1..], b);
      DropOfAppend(a, b, 1);
      AppendAssociates(o1, FromNetwork(s1, a[1..]).1, FromNetwork(FromNetwork(s1, a[1..]).0, b).1);
    }
  }

  /** netOut holds whole three-byte commands. */
  predicate Whole(out: Bytes)
    decreases |out|
  {
    out == [] || (|out| >= 3 && out[0] == IAC && IsVerb(out[1]) && Whole(out[3..]))
  }

  lemma {:induction false} WholeAppend(out: Bytes, c: Command)
    requires Whole(out) && IsVerb(c.verb)
    ensures Whole(out + CommandBytes(c))
    decreases |out|
  {
    if out == [] {
      assert out + CommandBytes(c) == CommandBytes(c);
      assert CommandBytes(c)[3..] == [];
    } else {
      WholeAppend(out[3..], c);
      DropOfAppend(out, CommandBytes(c), 3);
    }
  }

  lemma {:induction false} WholeLength(out: Bytes)
    requires Whole(out)
    ensures |out| % 3 == 0
    decreases |out|
  {
    if out != [] {
      WholeLength(out[3..]);
    }
  }

  function Count(cs: seq<Command>, c: Command): nat
  {
    if cs == [] then 0 else (if cs[|cs| - 1] == c then 1 else 0) + Count(cs[..|cs| - 1], c)
  }

  lemma CountSnoc(cs: seq<Command>, d: Command, c: Command)
    ensures Count(cs + [d], c) == Count(cs, c) + if d == c then 1 else 0
  {
    assert (cs + [d])[..|cs|] == cs;
  }

  /** What is true of an unsupported option: never offered, refused at most once each way. */
  predicate Refused(s: State, opt: Byte)
  {
    && Count(s.sent, Command(WILL, opt)) == 0 && Count(s.sent, Command(DO, opt)) == 0
    && Count(s.sent, Command(WONT, opt)) <= (if Has(s.local, opt, false) then 1 else 0)
    && Count(s.sent, Command(DONT, opt)) <= (if Has(s.remote, opt, false) then 1 else 0)
  }

  ghost predicate Safe(s: State)
  {
    && Whole(s.netOut) && |s.netOut| <= MAX_NET_OUT + 2
    && forall opt: Byte :: !Supported(opt) ==> Refused(s, opt)
  }

  lemma SendSafe(s: State, c: Command)
    requires Whole(s.netOut) && |s.netOut| <= MAX_NET_OUT + 2 && IsVerb(c.verb)
    ensures Whole(Send(s, c).netOut) && |Send(s, c).netOut| <= MAX_NET_OUT + 2
  {
    WholeLength(s.netOut);
    WholeAppend(s.netOut, c);
  }

  lemma SendCounts(s: State, c: Command, d: Command)
    ensures Count(Send(s, c).sent, d) <= Count(s.sent, d) + if c == d then 1 else 0
    ensures c != d ==> Count(Send(s, c).sent, d) == Count(s.sent, d)
  {
    CountSnoc(s.sent, c, d);
  }

  lemma NegotiateSafe(s: State, verb: Byte, opt: Byte)
    requires Safe(s)
    ensures Safe(Negotiate(s, verb, opt))
  {
    hide Safe, Send;
    if verb == DO || verb == DONT {
      var a := Answer(s.local, opt, verb == DO);
      if a.Some? {
        LocalSafe(s, opt, a.value);
      }
    } else if verb == WILL || verb == WONT {
      var a := Answer(s.remote, opt, verb == WILL);
      if a.Some? {
        RemoteSafe(s, opt, a.value);
      }
    }
  }

  lemma LocalSafe(s: State, opt: Byte, on: bool)
    requires Safe(s) && !Has(s.local, opt, on) && (on ==> Supported(opt))
    ensures Safe(Send(s.(local := s.local[opt := on]), Command(if on then WILL else WONT, opt)))
  {
    hide Count, Whole;
    var c := Command(if on then WILL else WONT, opt);
    var s1 := s.(local := s.local[opt := on]);
    SendSafe(s1, c);
    forall o: Byte | !Supported(o) ensures Refused(Send(s1, c), o) {
      assert Refused(s, o);
      AllCounts(s1, c, o);
    }
  }

  lemma RemoteSafe(s: State, opt: Byte, on: bool)
    requires Safe(s) && !Has(s.remote, opt, on) && (on ==> Supported(opt))
    ensures Safe(Send(s.(remote := s.remote[opt := on]), Command(if on then DO else DONT, opt)))
  {
    hide Count, Whole;
    var c := Command(if on then DO else DONT, opt);
    var s1 := s.(remote := s.remote[opt := on]);
    SendSafe(s1, c);
    forall o: Byte | !Supported(o) ensures Refused(Send(s1, c), o) {
      assert Refused(s, o);
      AllCounts(s1, c, o);
    }
  }

  lemma AllCounts(s: State, c: Command, o: Byte)
    ensures forall v: Byte :: Count(Send(s, c).sent, Command(v, o)) <=
                              Count(s.sent, Command(v, o)) + if c == Command(v, o) then 1 else 0
  {
    forall v: Byte
      ensures Count(Send(s, c).sent, Command(v, o)) <=
              Count(s.sent, Command(v, o)) + if c == Command(v, o) then 1 else 0
    {
      SendCounts(s, c, Command(v, o));
    }
  }

  /** The mode and the pending verb do not matter. */
  lemma SafeElsewhere(s: State, s': State)
    requires Safe(s) && s'.local == s.local && s'.remote == s.remote && s'.netOut == s.netOut && s'.sent == s.sent
    ensures Safe(s')
  {
    forall opt: Byte | !Supported(opt) ensures Refused(s', opt) {
      assert Refused(s, opt);
    }
  }

  lemma {:induction false} FromNetworkSafe(s: State, data: Bytes)
    requires Safe(s)
    ensures Safe(FromNetwork(s, data).0)
    decreases |data|
  {
    hide Refused, Whole, Negotiate;
    if data != [] {
      if s.mode == Opt {
        NegotiateSafe(s, s.cmd, data[0]);
        SafeElsewhere(Negotiate(s, s.cmd, data[0]), Step(s, data[0]).0);
      } else {
        SafeElsewhere(s, Step(s, data[0]).0);
      }
      FromNetworkSafe(Step(s, data[0]).0, data[1..]);
    }
  }

  datatype Event = Read(data: Bytes) | Take

  function Run(s: State, events: seq<Event>): State
    decreases |events|
  {
    if events == [] then s
    else Run(match events[0] case Read(d) => FromNetwork(s, d).0 case Take => Drain(s), events[1..])
  }

  lemma FreshSafe()
    ensures Safe(FRESH)
  {
    assert OPENING[9..][3..] == [];
    DropTwice(OPENING, 6, 3);
    DropTwice(OPENING, 3, 3);
    assert Whole(OPENING[9..]);
    assert Whole(OPENING[6..]);
    assert Whole(OPENING[3..]);
    forall opt: Byte | !Supported(opt) ensures Refused(FRESH, opt) {
      NotAmongOffers(opt);
    }
  }

  lemma NotAmongOffers(opt: Byte)
    requires !Supported(opt)
    ensures forall v: Byte :: Count(OFFERS, Command(v, opt)) == 0
  {
    forall v: Byte ensures Count(OFFERS, Command(v, opt)) == 0 {
      NeverIn(OFFERS, Command(v, opt));
    }
  }

  lemma {:induction false} NeverIn(cs: seq<Command>, c: Command)
    requires c !in cs
    ensures Count(cs, c) == 0
  {
    if cs != [] {
      NeverIn(cs[..|cs| - 1], c);
    }
  }

  /** Whatever the peer sends, in whatever chunks, and however seldom the output is taken:
      netOut is whole commands and at most 65538 bytes, and an unsupported option ever
      gets at most one WONT and one DONT, and neither WILL nor DO. */
  lemma {:induction false} AlwaysSafe(s: State, events: seq<Event>)
    requires Safe(s)
    ensures Safe(Run(s, events))
    decreases |events|
  {
    hide FromNetwork, Refused, Whole;
    if events != [] {
      match events[0] {
        case Read(d) =>
          FromNetworkSafe(s, d);
          AlwaysSafe(FromNetwork(s, d).0, events[1..]);
        case Take =>
          EmptyIsWhole();
          assert forall opt: Byte :: !Supported(opt) ==> Refused(Drain(s), opt) by {
            forall opt: Byte | !Supported(opt) ensures Refused(Drain(s), opt) {
              SameRefusals(s, opt);
            }
          }
          AlwaysSafe(Drain(s), events[1..]);
      }
    }
  }

  lemma EmptyIsWhole()
    ensures Whole([])
  {
  }

  lemma SameRefusals(s: State, opt: Byte)
    ensures Refused(Drain(s), opt) == Refused(s, opt)
  {
  }

  /** From the start of a session. */
  lemma FreshAlwaysSafe(events: seq<Event>)
    ensures Safe(Run(FRESH, events))
  {
    FreshSafe();
    AlwaysSafe(FRESH, events);
  }
}

/** Runs of whole sessions: the bridge's reads against an arbitrary peer, and two sessions
    facing each other. */
module TelnetRuns {
  import opened Common
  import opened Telnet

  // ---- the bridge drains the output after every read ----

  const READ_CHUNK: nat := 4096

  datatype Side = Local | Remote

  predicate Concerns(c: Command, opt: Byte, side: Side)
  {
    && c.opt == opt
    && match side
       case Local => c.verb == WILL || c.verb == WONT
       case Remote => c.verb == DO || c.verb == DONT
  }

  /** The verbs sent about one option on one side, in order. */
  function Verbs(cs: seq<Command>, opt: Byte, side: Side): seq<Byte>
  {
    if cs == [] then []
    else
      var last := cs[|cs| - 1];
      Verbs(cs[..|cs| - 1], opt, side) + if Concerns(last, opt, side) then [last.verb] else []
  }

  lemma VerbsSnoc(cs: seq<Command>, c: Command, opt: Byte, side: Side)
    ensures Verbs(cs + [c], opt, side) ==
            if Concerns(c, opt, side) then Verbs(cs, opt, side) + [c.verb] else Verbs(cs, opt, side)
  {
    assert (cs + [c])[..|cs|] == cs;
  }

  predicate Alternates(vs: seq<Byte>) { forall i :: 0 < i < |vs| ==> vs[i - 1] != vs[i] }

  function Table(s: State, side: Side): map<Byte, bool> { if side.Local? then s.local else s.remote }

  function VerbFor(side: Side, v: bool): Byte
  {
    match side
    case Local => if v then WILL else WONT
    case Remote => if v then DO else DONT
  }

  /** The last verb sent says what the table holds, and no verb is sent twice in a row. */
  predicate Tracks(s: State, opt: Byte, side: Side)
  {
    var vs := Verbs(s.sent, opt, side);
    && opt in Table(s, side) && vs != []
    && vs[|vs| - 1] == VerbFor(side, Table(s, side)[opt])
    && Alternates(vs)
  }

  ghost predicate AllTrack(s: State)
  {
    forall opt: Byte, side: Side :: Supported(opt) ==> Tracks(s, opt, side)
  }

  /** How much of a command the machine has already read. */
  function Credit(m: Mode): nat { if m == Iac then 1 else if m == Opt then 2 else 0 }

  /** Enough room for the answers to n more bytes. */
  predicate Room(s: State, n: nat) { |s.netOut| + Credit(s.mode) + n < MAX_NET_OUT }

  lemma SetTracks(s: State, side: Side, opt: Byte, v: bool, opt': Byte, side': Side)
    requires Tracks(s, opt', side')
    requires |s.netOut| < MAX_NET_OUT && !Has(Table(s, side), opt, v)
    ensures var s1 := if side.Local? then s.(local := s.local[opt := v]) else s.(remote := s.remote[opt := v]);
            Tracks(Send(s1, Command(VerbFor(side, v), opt)), opt', side')
  {
    VerbsSnoc(s.sent, Command(VerbFor(side, v), opt), opt', side');
  }

  lemma NegotiateTracks(s: State, verb: Byte, opt: Byte)
    requires AllTrack(s) && |s.netOut| < MAX_NET_OUT
    ensures AllTrack(Negotiate(s, verb, opt))
  {
    hide Tracks;
    forall opt': Byte, side': Side | Supported(opt') ensures Tracks(Negotiate(s, verb, opt), opt', side') {
      assert Tracks(s, opt', side');
      if verb == DO || verb == DONT {
        var a := Answer(s.local, opt, verb == DO);
        if a.Some? {
          SetTracks(s, Local, opt, a.value, opt', side');
        }
      } else if verb == WILL || verb == WONT {
        var a := Answer(s.remote, opt, verb == WILL);
        if a.Some? {
          SetTracks(s, Remote, opt, a.value, opt', side');
        }
      }
    }
  }

  lemma TracksElsewhere(s: State, s': State)
    requires AllTrack(s) && s'.local == s.local && s'.remote == s.remote && s'.sent == s.sent
    ensures AllTrack(s')
  {
    forall opt: Byte, side: Side | Supported(opt) ensures Tracks(s', opt, side) {
      assert Tracks(s, opt, side);
    }
  }

  lemma StepTracks(s: State, b: Byte, n: nat)
    requires AllTrack(s) && Room(s, n + 1)
    ensures AllTrack(Step(s, b).0) && Room(Step(s, b).0, n)
  {
    hide AllTrack;
    if s.mode == Opt {
      NegotiateTracks(s, s.cmd, b);
      TracksElsewhere(Negotiate(s, s.cmd, b), Step(s, b).0);
    } else {
      TracksElsewhere(s, Step(s, b).0);
    }
  }

  lemma {:induction false} FromNetworkTracks(s: State, data: Bytes)
    requires AllTrack(s) && Room(s, |data|)
    ensures AllTrack(FromNetwork(s, data).0)
    decreases |data|
  {
    hide AllTrack, Step;
    if data != [] {
      StepTracks(s, data[0], |data| - 1);
      FromNetworkTracks(Step(s, data[0]).0, data[1..]);
    }
  }

  /** The bridge's network pump: read, then take the output. */
  function Pump(s: State, chunks: seq<Bytes>): State
    decreases |chunks|
  {
    if chunks == [] then s else Pump(Drain(FromNetwork(s, chunks[0]).0), chunks[1..])
  }

  lemma {:induction false} PumpTracks(s: State, chunks: seq<Bytes>)
    requires AllTrack(s) && s.netOut == []
    requires forall c :: c in chunks ==> |c| <= READ_CHUNK
    ensures AllTrack(Pump(s, chunks))
    decreases |chunks|
  {
    hide AllTrack, FromNetwork;
    if chunks != [] {
      FromNetworkTracks(s, chunks[0]);
      TracksElsewhere(FromNetwork(s, chunks[0]).0, Drain(FromNetwork(s, chunks[0]).0));
      PumpTracks(Drain(FromNetwork(s, chunks[0]).0), chunks[1..]);
    }
  }

  /** The first n offers say about an option what those of it among them say. */
  lemma OfferVerbs(n: nat, opt: Byte, side: Side)
    requires n < 4
    ensures var c := OFFERS[n];
            Verbs(OFFERS[..n + 1], opt, side) ==
            Verbs(OFFERS[..n], opt, side) + if Concerns(c, opt, side) then [c.verb] else []
  {
    hide Verbs, Concerns;
    assert OFFERS[..n + 1] == OFFERS[..n] + [OFFERS[n]];
    VerbsSnoc(OFFERS[..n], OFFERS[n], opt, side);
    var vs := Verbs(OFFERS[..n], opt, side);
    assert vs + [] == vs;
  }

  lemma OpeningVerbs(opt: Byte, side: Side)
    requires Supported(opt)
    ensures Verbs(OFFERS, opt, side) == [VerbFor(side, true)]
  {
    assert Verbs(OFFERS[..0], opt, side) == [];
    hide Verbs;
    OfferVerbs(0, opt, side);
    OfferVerbs(1, opt, side);
    OfferVerbs(2, opt, side);
    OfferVerbs(3, opt, side);
    assert OFFERS[..4] == OFFERS;
  }

  lemma FreshTracks()
    ensures AllTrack(Drain(FRESH))
  {
    hide Verbs;
    forall opt: Byte, side: Side | Supported(opt) ensures Tracks(Drain(FRESH), opt, side) {
      OpeningVerbs(opt, side);
    }
  }

  /** Served by the bridge, whose reads are at most 4096 bytes and whose output is taken
      after each, a session never loses a reply: what it says about a supported option
      strictly alternates, whatever the peer sends. */
  lemma RepliesAlternate(chunks: seq<Bytes>, opt: Byte, side: Side)
    requires forall c :: c in chunks ==> |c| <= READ_CHUNK
    requires Supported(opt)
    ensures Tracks(Pump(Drain(FRESH), chunks), opt, side)
    ensures Alternates(Verbs(Pump(Drain(FRESH), chunks).sent, opt, side))
  {
    FreshTracks();
    PumpTracks(Drain(FRESH), chunks);
  }

  // ---- two sessions facing each other ----

  /** What a well-behaved sender puts on the wire: data bytes, and offers of supported
      options. */
  datatype Token = Lit(b: Byte) | Offer(c: Command)

  predicate IsOffer(c: Command) { (c.verb == WILL || c.verb == DO) && Supported(c.opt) }

  predicate Offers(ts: seq<Token>) { forall t :: t in ts && t.Offer? ==> IsOffer(t.c) }

  function TokenBytes(t: Token): Bytes
  {
    match t
    case Lit(b) => if b == IAC then [IAC, IAC] else [b]
    case Offer(c) => CommandBytes(c)
  }

  function TokensBytes(ts: seq<Token>): Bytes
  {
    if ts == [] then [] else TokenBytes(ts[0]) + TokensBytes(ts[1..])
  }

  /** The data among the tokens. */
  function Content(ts: seq<Token>): Bytes
  {
    if ts == [] then [] else (match ts[0] case Lit(b) => [b] case Offer(_) => []) + Content(ts[1..])
  }

  /** Every supported option is on in both directions. */
  predicate Settled(s: State)
  {
    && Has(s.local, OPT_BINARY, true) && Has(s.local, OPT_SGA, true)
    && Has(s.remote, OPT_BINARY, true) && Has(s.remote, OPT_SGA, true)
  }

  /** Nothing but the reading position has changed. */
  predicate Quiet(s: State, s': State)
  {
    s'.local == s.local && s'.remote == s.remote && s'.netOut == s.netOut && s'.sent == s.sent
  }

  lemma {:induction false} WholeToken(s: State, t: Token)
    requires s.mode == Data && Settled(s) && (t.Offer? ==> IsOffer(t.c))
    ensures var (s', out) := FromNetwork(s, TokenBytes(t));
            s'.mode == Data && Quiet(s, s') && out == Content([t])
  {
    var bytes := TokenBytes(t);
    assert Content([t][1..]) == [];
    var s1 := Step(s, bytes[0]).0;
    if |bytes| == 1 {
      Unroll1(s, bytes);
    } else if |bytes| == 2 {
      Unroll1(s1, bytes[1..]);
    } else {
      Unroll1(Step(s1, bytes[1]).0, bytes[2..]);
      assert bytes[1..][1..] == bytes[2..];
      assert FromNetwork(s1, bytes[1..]).0 == FromNetwork(Step(s1, bytes[1]).0, bytes[2..]).0;
    }
  }

  lemma Unroll1(s: State, bytes: Bytes)
    requires |bytes| == 1
    ensures FromNetwork(s, bytes) == Step(s, bytes[0])
  {
    hide Step;
    assert bytes[1..] == [];
    assert Step(s, bytes[0]).1 + [] == Step(s, bytes[0]).1;
  }

  /** Cut anywhere inside a token, the receiver has said and delivered nothing of it. */
  lemma PartOfToken(s: State, t: Token, n: nat)
    requires s.mode == Data && Settled(s) && n < |TokenBytes(t)| && (t.Offer? ==> IsOffer(t.c))
    ensures var (s', out) := FromNetwork(s, TokenBytes(t)[..n]);
            Quiet(s, s') && out == []
  {
    var part := TokenBytes(t)[..n];
    if n == 1 {
      Unroll1(s, part);
    } else if n == 2 {
      Unroll1(Step(s, part[0]).0, part[1..]);
    }
  }

  predicate IsPrefix(a: Bytes, b: Bytes) { |a| <= |b| && a == b[..|a|] }

  lemma PrefixAfter(x: Bytes, a: Bytes, b: Bytes)
    requires IsPrefix(a, b)
    ensures IsPrefix(x + a, x + b)
  {
  }

  /** Any prefix of such a stream leaves the receiver quiet, and delivers a prefix of the
      data; the whole stream delivers all of it. */
  lemma {:induction false} PrefixOfTokens(s: State, ts: seq<Token>, n: nat)
    requires s.mode == Data && Settled(s) && Offers(ts) && n <= |TokensBytes(ts)|
    ensures var (s', out) := FromNetwork(s, TokensBytes(ts)[..n]);
            && Quiet(s, s') && IsPrefix(out, Content(ts))
            && (n == |TokensBytes(ts)| ==> out == Content(ts))
    decreases |ts|
  {
    hide FromNetwork, Step, TokenBytes;
    if ts == [] {
      FromNothing(s);
    } else {
      var first, rest := TokenBytes(ts[0]), TokensBytes(ts[1..]);
      if n < |first| {
        assert (first + rest)[..n] == first[..n];
        PartOfToken(s, ts[0], n);
      } else {
        WholeToken(s, ts[0]);
        var s1 := FromNetwork(s, first).0;
        PrefixOfTokens(s1, ts[1..], n - |first|);
        assert (first + rest)[..n] == first + rest[..n - |first|];
        ChunkingIrrelevant(s, first, rest[..n - |first|]);
        ContentFirst(ts);
        PrefixAfter(Content([ts[0]]), FromNetwork(s1, rest[..n - |first|]).1, Content(ts[1..]));
      }
    }
  }

  lemma FromNothing(s: State)
    ensures FromNetwork(s, []) == (s, [])
  {
  }

  lemma ContentFirst(ts: seq<Token>)
    requires ts != []
    ensures Content(ts) == Content([ts[0]]) + Content(ts[1..])
  {
    assert Content([ts[0]][1..]) == [];
  }

  /** The opening offers followed by escaped serial data, as tokens. */
  function Stream(serial: Bytes): seq<Token>
  {
    [Offer(OFFERS[0]), Offer(OFFERS[1]), Offer(OFFERS[2]), Offer(OFFERS[3])] + Lits(serial)
  }

  function Lits(serial: Bytes): seq<Token> { seq(|serial|, i requires 0 <= i < |serial| => Lit(serial[i])) }

  lemma {:induction false} LitsBytes(serial: Bytes)
    ensures TokensBytes(Lits(serial)) == Escape(serial) && Content(Lits(serial)) == serial
    decreases |serial|
  {
    if serial != [] {
      assert Lits(serial)[1..] == Lits(serial[1..]);
      LitsBytes(serial[1..]);
      FirstAndRest(serial);
    }
  }

  lemma StreamBytes(serial: Bytes)
    ensures TokensBytes(Stream(serial)) == OPENING + Escape(serial)
    ensures Content(Stream(serial)) == serial && Offers(Stream(serial))
  {
    hide TokensBytes, Content, Escape, Lits;
    LitsBytes(serial);
    var l := Lits(serial);
    var s3 := [Offer(OFFERS[3])] + l;
    var s2 := [Offer(OFFERS[2])] + s3;
    var s1 := [Offer(OFFERS[1])] + s2;
    var s0 := [Offer(OFFERS[0])] + s1;
    PeelOffer(OFFERS[3], l);
    PeelOffer(OFFERS[2], s3);
    PeelOffer(OFFERS[1], s2);
    PeelOffer(OFFERS[0], s1);
    OpeningLayout(Escape(serial));
    FourOffers(l);
    OnlyOffers(serial);
  }

  lemma FourOffers(l: seq<Token>)
    ensures [Offer(OFFERS[0]), Offer(OFFERS[1]), Offer(OFFERS[2]), Offer(OFFERS[3])] + l ==
            [Offer(OFFERS[0])] + ([Offer(OFFERS[1])] + ([Offer(OFFERS[2])] + ([Offer(OFFERS[3])] + l)))
  {
  }

  lemma OnlyOffers(serial: Bytes)
    ensures Offers(Stream(serial))
  {
  }

  lemma PeelOffer(c: Command, rest: seq<Token>)
    ensures TokensBytes([Offer(c)] + rest) == CommandBytes(c) + TokensBytes(rest)
    ensures Content([Offer(c)] + rest) == Content(rest)
  {
    ConsRest(Offer(c), rest);
    assert [] + Content(rest) == Content(rest);
  }

  lemma OpeningLayout(e: Bytes)
    ensures var c := seq(4, i requires 0 <= i < 4 => CommandBytes(OFFERS[i]));
            c[0] + (c[1] + (c[2] + (c[3] + e))) == OPENING + e
  {
  }

  lemma {:induction false} EscapeAppend(a: Bytes, b: Bytes)
    ensures Escape(a + b) == Escape(a) + Escape(b)
    decreases |a|
  {
    if a == [] {
      assert a + b == b;
    } else {
      EscapeAppend(a[1..], b);
      DropOfAppend(a, b, 1);
      AppendAssociates(if a[0] == IAC then [IAC, IAC] else [a[0]], Escape(a[1..]), Escape(b));
    }
  }

  /** One direction of the link: the sender's serial data so far, the bytes in flight, and
      the receiver with what it has delivered. */
  datatype Half = Half(serial: Bytes, channel: Bytes, receiver: State, got: Bytes)

  datatype Link = Link(toA: Half, toB: Half)

  /** Serial data arrives on a side, or n bytes of a channel reach the other side (in
      whatever chunks). */
  datatype LinkEvent = SerialA(data: Bytes) | SerialB(data: Bytes) | DeliverA(n: nat) | DeliverB(n: nat)

  const START := Link(Half([], OPENING, Drain(FRESH), []), Half([], OPENING, Drain(FRESH), []))

  function Serial(h: Half, data: Bytes): Half
  {
    h.(serial := h.serial + data, channel := h.channel + Escape(data))
  }

  function Deliver(h: Half, n: nat): Half
    requires n <= |h.channel|
  {
    var (s, out) := FromNetwork(h.receiver, h.channel[..n]);
    h.(channel := h.channel[n..], receiver := Drain(s), got := h.got + out)
  }

  /** What the receiver of h answers to those n bytes; it goes into the other channel. */
  function Replies(h: Half, n: nat): Bytes
    requires n <= |h.channel|
  {
    FromNetwork(h.receiver, h.channel[..n]).0.netOut
  }

  function LinkStep(l: Link, e: LinkEvent): Link
  {
    match e
    case SerialA(d) => l.(toB := Serial(l.toB, d))
    case SerialB(d) => l.(toA := Serial(l.toA, d))
    case DeliverA(n) =>
      if n > |l.toA.channel| then l
      else Link(Deliver(l.toA, n), l.toB.(channel := l.toB.channel + Replies(l.toA, n)))
    case DeliverB(n) =>
      if n > |l.toB.channel| then l
      else Link(l.toA.(channel := l.toA.channel + Replies(l.toB, n)), Deliver(l.toB, n))
  }

  function LinkRun(l: Link, es: seq<LinkEvent>): Link
    decreases |es|
  {
    if es == [] then l else LinkRun(LinkStep(l, es[0]), es[1..])
  }

  /** The receiver stands n bytes into the sender's stream. */
  predicate At(h: Half, n: nat)
  {
    var all := OPENING + Escape(h.serial);
    && n <= |all| && h.channel == all[n..]
    && (h.receiver, h.got) == FromNetwork(Drain(FRESH), all[..n])
  }

  ghost predicate InStep(h: Half) { exists n: nat :: At(h, n) }

  lemma AtFacts(h: Half, n: nat)
    requires At(h, n)
    ensures Quiet(Drain(FRESH), h.receiver) && IsPrefix(h.got, h.serial)
    ensures h.channel == [] ==> h.got == h.serial
  {
    hide FromNetwork;
    StreamBytes(h.serial);
    PrefixOfTokens(Drain(FRESH), Stream(h.serial), n);
  }

  lemma SerialKeeps(h: Half, data: Bytes)
    requires InStep(h)
    ensures InStep(Serial(h, data))
  {
    hide FromNetwork;
    var n: nat :| At(h, n);
    var all := OPENING + Escape(h.serial);
    EscapeAppend(h.serial, data);
    AppendAssociates(OPENING, Escape(h.serial), Escape(data));
    DropOfAppend(all, Escape(data), n);
    assert (all + Escape(data))[..n] == all[..n];
    assert At(Serial(h, data), n);
  }

  lemma DeliverKeeps(h: Half, n: nat)
    requires InStep(h) && n <= |h.channel|
    ensures InStep(Deliver(h, n)) && Replies(h, n) == []
  {
    hide FromNetwork;
    var m: nat :| At(h, m);
    var all := OPENING + Escape(h.serial);
    assert all[..m + n] == all[..m] + all[m..][..n];
    DropTwice(all, m, n);
    ChunkingIrrelevant(Drain(FRESH), all[..m], all[m..][..n]);
    var (s, out) := FromNetwork(h.receiver, h.channel[..n]);
    var h' := Half(h.serial, h.channel[n..], s, h.got + out);
    assert At(h', m + n);
    AtFacts(h', m + n);
    assert s.netOut == [] && Drain(s) == s;
    assert Deliver(h, n) == h';
  }

  lemma StartInStep()
    ensures InStep(START.toA) && InStep(START.toB)
  {
    FromNothing(Drain(FRESH));
    var all := OPENING + Escape([]);
    assert all == OPENING && all[0..] == OPENING && all[..0] == [];
    assert At(START.toA, 0) && At(START.toB, 0);
  }

  lemma {:induction false} LinkKeeps(l: Link, es: seq<LinkEvent>)
    requires InStep(l.toA) && InStep(l.toB)
    ensures InStep(LinkRun(l, es).toA) && InStep(LinkRun(l, es).toB)
    decreases |es|
  {
    hide InStep, Serial, Deliver, Replies;
    if es != [] {
      match es[0] {
        case SerialA(d) => SerialKeeps(l.toB, d);
        case SerialB(d) => SerialKeeps(l.toA, d);
        case DeliverA(n) =>
          if n <= |l.toA.channel| {
            DeliverKeeps(l.toA, n);
            assert l.toB.channel + [] == l.toB.channel;
          }
        case DeliverB(n) =>
          if n <= |l.toB.channel| {
            DeliverKeeps(l.toB, n);
            assert l.toA.channel + [] == l.toA.channel;
          }
      }
      LinkKeeps(LinkStep(l, es[0]), es[1..]);
    }
  }

  /** Two fresh sessions joined back to back, with any serial data on both sides and any
      delivery: each side has delivered a prefix of the other's serial data (all of it
      once the channel is empty), and neither ever says a word of negotiation beyond its
      opening offers. */
  lemma LinkDeliversPrefix(es: seq<LinkEvent>)
    ensures var l := LinkRun(START, es);
            && IsPrefix(l.toA.got, l.toA.serial) && IsPrefix(l.toB.got, l.toB.serial)
            && (l.toA.channel == [] ==> l.toA.got == l.toA.serial)
            && (l.toB.channel == [] ==> l.toB.got == l.toB.serial)
            && l.toA.receiver.sent == OFFERS && l.toB.receiver.sent == OFFERS
  {
    hide FromNetwork, LinkRun, At;
    StartInStep();
    LinkKeeps(START, es);
    var l := LinkRun(START, es);
    var i: nat :| At(l.toA, i);
    var j: nat :| At(l.toB, j);
    AtFacts(l.toA, i);
    AtFacts(l.toB, j);
  }
}
