/** The per-client output queues of the bridge (app/engine/bridge.py): every chunk from the
    device is put in each client's bounded queue; a client whose queue is full is dropped.
    One step is one stretch of the source between two awaits. */
module Clients {
  import opened Common
  import Telnet

  datatype Protocol = Raw | Tel

  /** What waits for the writer: serial data as the protocol presents it, control bytes
      (telnet replies), or the graceful-close mark. */
  datatype Item = Serial(net: Bytes) | Control(net: Bytes) | Close

  /** A connection: its queue, and as history the device chunks since its session began
      and the items written to its socket. */
  datatype Client = Client(queueMax: int, protocol: Option<Protocol>, closing: bool, out: seq<Item>,
                           done: bool, offered: seq<Bytes>, written: seq<Item>)

  function FromSerial(p: Protocol, data: Bytes): Bytes { if p.Raw? then data else Telnet.Escape(data) }

  /** An asyncio.Queue with a limit of 0 or less has none. */
  predicate Full(c: Client) { 0 < c.queueMax <= |c.out| }

  /** client_queue_max or CLIENT_QUEUE_MAX */
  function QueueMax(configured: int): int { if configured == 0 then 2048 else configured }

  function NewClient(configured: int): Client { Client(QueueMax(configured), None, false, [], false, [], []) }

  /** run() creates the session; serial data counts from here. */
  function Begin(c: Client, p: Protocol): Client { if c.protocol.Some? then c else c.(protocol := Some(p)) }

  /** feed_from_serial, on a nonempty chunk. */
  function FeedSerial(c: Client, data: Bytes): Client
  {
    if c.protocol.None? then c
    else
      var c1 := c.(offered := c.offered + [data]);
      if c.closing then c1
      else if Full(c) then c1.(closing := true)
      else c1.(out := c.out + [Serial(FromSerial(c.protocol.value, data))])
  }

  /** The network pump queues control bytes, and drops them when the queue is full. */
  function QueueControl(c: Client, bytes: Bytes): Client
  {
    if c.done || Full(c) then c else c.(out := c.out + [Control(bytes)])
  }

  function Kick(c: Client): Client { c.(closing := true) }

  /** request_graceful_close: the mark goes in behind what is queued. */
  function GracefulClose(c: Client): Client
  {
    if c.closing then c
    else if Full(c) then c.(closing := true)
    else c.(closing := true, out := c.out + [Close])
  }

  function WithoutMarks(items: seq<Item>): seq<Item>
  {
    if items == [] then [] else (if items[0].Close? then [] else [items[0]]) + WithoutMarks(items[1..])
  }

  /** One turn of the serial-to-network pump: write one item, or at the mark flush and end. */
  function PumpOut(c: Client): Client
  {
    if c.done || c.out == [] then c
    else if c.out[0].Close? then
      c.(done := true, closing := true, written := c.written + WithoutMarks(c.out[1..]), out := [])
    else c.(written := c.written + [c.out[0]], out := c.out[1..])
  }

  /** Any other end of the session: a pump error, a timer, the peer closing. */
  function End(c: Client): Client { c.(done := true, closing := true) }

  // ---- the connection as an object ----

  class ClientConn {
    const queueMax: int
    var session: Option<Protocol>
    var closing: bool
    var out: seq<Item>
    var done: bool
    ghost var offered: seq<Bytes>
    ghost var written: seq<Item>

    ghost function View(): Client
      reads this
    {
      Client(queueMax, session, closing, out, done, offered, written)
    }

    constructor (configured: int)
      ensures View() == NewClient(configured)
    {
      queueMax := if configured == 0 then 2048 else configured;
      session, closing, out, done, offered, written := None, false, [], false, [], [];
    }

    /** put_nowait: false stands for QueueFull. */
    method PutNowait(item: Item) returns (ok: bool)
      modifies this`out
      ensures ok == !old(Full(View()))
      ensures out == if ok then old(out) + [item] else old(out)
    {
      ok := !(0 < queueMax <= |out|);
      if ok {
        out := out + [item];
      }
    }

    method FeedFromSerial(data: Bytes)
      modifies this
      ensures View() == FeedSerial(old(View()), data)
      ensures old(InOrder(View())) ==> InOrder(View())
      ensures old(session.Some? && !closing) ==>
                && closing == old(0 < queueMax && queueMax <= |out|)
                && out == old(out) + (if closing then [] else [Serial(FromSerial(session.value, data))])
      ensures old(session.None? || closing) ==> out == old(out) && closing == old(closing)
    {
      hide InOrder;
      if InOrder(View()) {
        FeedKeeps(View(), data);
      }
      if session.None? {
        return;
      }
      offered := offered + [data];
      if closing {
        return;
      }
      var net := FromSerial(session.value, data);
      var ok := PutNowait(Serial(net));
      if !ok {
        closing := true;
      }
    }

    method RequestGracefulClose()
      modifies this
      ensures View() == GracefulClose(old(View()))
      ensures old(InOrder(View())) ==> InOrder(View())
    {
      hide InOrder;
      if InOrder(View()) {
        StepKeeps(View(), CloseAll);
      }
      if closing {
        return;
      }
      closing := true;
      var _ := PutNowait(Close);
    }

    /** _pump_serial_to_net: one turn of its loop; the socket is the list of items written. */
    method PumpSerialToNet()
      modifies this
      ensures View() == PumpOut(old(View()))
      ensures old(!done && out != [] && !out[0].Close?) ==> written == old(written + [out[0]]) && out == old(out[1..])
      ensures old(InOrder(View())) ==> InOrder(View()) && Stream(View()) == old(Stream(View()))
    {
      hide InOrder, Stream;
      if InOrder(View()) {
        PumpKeeps(View());
      }
      if done || out == [] {
        return;
      }
      var data := out[0];
      out := out[1..];
      if data.Close? {
        ghost var before, rest := written, out;
        while out != []
          invariant written + WithoutMarks(out) == before + WithoutMarks(rest)
          invariant done == old(done) && closing == old(closing) && session == old(session) && offered == old(offered)
          decreases |out|
        {
          var d := out[0];
          AppendAssociates(written, if d.Close? then [] else [d], WithoutMarks(out[1..]));
          out := out[1..];
          if !d.Close? {
            written := written + [d];
          }
        }
        assert written + [] == written;
        done, closing := true, true;
      } else {
        written := written + [data];
      }
    }
  }

  predicate Distinct(clients: seq<ClientConn>)
  {
    forall i, j :: 0 <= i < j < |clients| ==> clients[i] != clients[j]
  }

  /** The loop of _serial_read_loop: each client gets the chunk, and what one of them does
      with it leaves the others alone. */
  method Broadcast(clients: seq<ClientConn>, data: Bytes)
    requires Distinct(clients)
    modifies clients
    ensures forall i :: 0 <= i < |clients| ==> clients[i].View() == FeedSerial(old(clients[i].View()), data)
  {
    hide FeedSerial, InOrder;
    for k := 0 to |clients|
      invariant forall i :: 0 <= i < k ==> clients[i].View() == FeedSerial(old(clients[i].View()), data)
      invariant forall i :: k <= i < |clients| ==> clients[i].View() == old(clients[i].View())
    {
      clients[k].FeedFromSerial(data);
    }
  }

  /** The loop of _check_closeon after a match. */
  method CloseClients(clients: seq<ClientConn>)
    requires Distinct(clients)
    modifies clients
    ensures forall i :: 0 <= i < |clients| ==> clients[i].View() == GracefulClose(old(clients[i].View()))
  {
    hide GracefulClose, InOrder;
    for k := 0 to |clients|
      invariant forall i :: 0 <= i < k ==> clients[i].View() == GracefulClose(old(clients[i].View()))
      invariant forall i :: k <= i < |clients| ==> clients[i].View() == old(clients[i].View())
    {
      clients[k].RequestGracefulClose();
    }
  }

  // ---- what every client's stream keeps ----

  function Serials(items: seq<Item>): seq<Bytes>
  {
    if items == [] then [] else (if items[0].Serial? then [items[0].net] else []) + Serials(items[1..])
  }

  function Translated(p: Protocol, chunks: seq<Bytes>): (r: seq<Bytes>)
    ensures |r| == |chunks|
  {
    seq(|chunks|, i requires 0 <= i < |chunks| => FromSerial(p, chunks[i]))
  }

  /** The serial data written and still queued, in order. */
  function Stream(c: Client): seq<Bytes> { Serials(c.written) + Serials(c.out) }

  /** It is the device's first chunks since the session began, no gap and no reorder; it
      falls behind only once the client is closing; and the queue keeps its limit. */
  predicate InOrder(c: Client)
  {
    var k := |Stream(c)|;
    && k <= |c.offered|
    && (c.protocol.None? ==> c.offered == [])
    && (c.protocol.Some? ==> Stream(c) == Translated(c.protocol.value, c.offered[..k]))
    && (k < |c.offered| ==> c.closing)
    && (c.queueMax > 0 ==> |c.out| <= c.queueMax)
  }

  lemma {:induction false} SerialsAppend(a: seq<Item>, b: seq<Item>)
    ensures Serials(a + b) == Serials(a) + Serials(b)
  {
    if a == [] {
      assert a + b == b;
    } else {
      SerialsAppend(a[1..], b);
      DropOfAppend(a, b, 1);
      AppendAssociates(if a[0].Serial? then [a[0].net] else [], Serials(a[1..]), Serials(b));
    }
  }

  lemma SerialsOne(i: Item)
    ensures Serials([i]) == if i.Serial? then [i.net] else []
  {
    assert Serials([i][1..]) == [];
  }

  lemma {:induction false} SerialsWithoutMarks(items: seq<Item>)
    ensures Serials(WithoutMarks(items)) == Serials(items)
  {
    if items != [] {
      SerialsWithoutMarks(items[1..]);
      var first := if items[0].Close? then [] else [items[0]];
      SerialsAppend(first, WithoutMarks(items[1..]));
      SerialsOne(items[0]);
      assert items[0].Close? ==> Serials(first) == [];
    }
  }

  lemma StreamPut(c: Client, item: Item)
    ensures Stream(c.(out := c.out + [item])) == Stream(c) + if item.Serial? then [item.net] else []
  {
    SerialsAppend(c.out, [item]);
    SerialsOne(item);
    AppendAssociates(Serials(c.written), Serials(c.out), Serials([item]));
    assert Stream(c) + [] == Stream(c);
  }

  lemma FeedKeeps(c: Client, data: Bytes)
    requires InOrder(c)
    ensures InOrder(FeedSerial(c, data))
  {
    if c.protocol.Some? {
      var k := |Stream(c)|;
      assert (c.offered + [data])[..k] == c.offered[..k];
      if !c.closing && !Full(c) {
        var item := Serial(FromSerial(c.protocol.value, data));
        StreamPut(c, item);
        assert k == |c.offered| && c.offered[..k] == c.offered;
        assert (c.offered + [data])[..k + 1] == c.offered + [data];
        assert Translated(c.protocol.value, c.offered + [data]) == Translated(c.protocol.value, c.offered) + [item.net];
      }
    }
  }

  lemma PumpKeeps(c: Client)
    requires InOrder(c)
    ensures InOrder(PumpOut(c)) && Stream(PumpOut(c)) == Stream(c)
  {
    if !c.done && c.out != [] {
      var rest := c.out[1..];
      FirstAndRest(c.out);
      SerialsAppend([c.out[0]], rest);
      SerialsOne(c.out[0]);
      if c.out[0].Close? {
        SerialsAppend(c.written, WithoutMarks(rest));
        SerialsWithoutMarks(rest);
        assert Serials(c.out) == Serials(rest);
        assert Serials(c.written + WithoutMarks(rest)) + [] == Serials(c.written) + Serials(rest);
      } else {
        SerialsAppend(c.written, [c.out[0]]);
        AppendAssociates(Serials(c.written), Serials([c.out[0]]), Serials(rest));
      }
    }
  }

  // ---- all clients of one device ----

  /** What happens to one client, or to all of them. */
  datatype Event =
    | ToAll(data: Bytes)           // a chunk from the device
    | CloseAll                     // a closeon match
    | BeginAt(id: nat, p: Protocol)
    | ControlAt(id: nat, bytes: Bytes)
    | KickAt(id: nat)
    | PumpAt(id: nat)
    | EndAt(id: nat)

  predicate Reaches(e: Event, id: nat) { e.ToAll? || e.CloseAll? || e.id == id }

  function ClientStep(c: Client, e: Event): Client
  {
    match e
    case ToAll(d) => FeedSerial(c, d)
    case CloseAll => GracefulClose(c)
    case BeginAt(_, p) => Begin(c, p)
    case ControlAt(_, b) => QueueControl(c, b)
    case KickAt(_) => Kick(c)
    case PumpAt(_) => PumpOut(c)
    case EndAt(_) => End(c)
  }

  function Step(cs: map<nat, Client>, e: Event): map<nat, Client>
  {
    map id | id in cs :: if Reaches(e, id) then ClientStep(cs[id], e) else cs[id]
  }

  function Run(cs: map<nat, Client>, es: seq<Event>): map<nat, Client>
    decreases |es|
  {
    if es == [] then cs else Run(Step(cs, es[0]), es[1..])
  }

  function RunClient(c: Client, es: seq<Event>): Client
    decreases |es|
  {
    if es == [] then c else RunClient(ClientStep(c, es[0]), es[1..])
  }

  /** The part of a run that reaches one client. */
  function Seen(es: seq<Event>, id: nat): seq<Event>
  {
    if es == [] then [] else (if Reaches(es[0], id) then [es[0]] else []) + Seen(es[1..], id)
  }

  lemma StepKeeps(c: Client, e: Event)
    requires InOrder(c)
    ensures InOrder(ClientStep(c, e))
  {
    match e
    case ToAll(d) => FeedKeeps(c, d);
    case CloseAll => StreamPut(c, Close);
    case BeginAt(_, p) =>
    case ControlAt(_, b) => StreamPut(c, Control(b));
    case KickAt(_) =>
    case PumpAt(_) => PumpKeeps(c);
    case EndAt(_) =>
  }

  /** In every run, every client's stream stays in order. */
  lemma {:induction false} AlwaysInOrder(cs: map<nat, Client>, es: seq<Event>)
    requires forall id :: id in cs ==> InOrder(cs[id])
    ensures Run(cs, es).Keys == cs.Keys
    ensures forall id :: id in cs ==> InOrder(Run(cs, es)[id])
    decreases |es|
  {
    hide InOrder, ClientStep;
    if es != [] {
      forall id | id in cs ensures InOrder(Step(cs, es[0])[id]) {
        StepKeeps(cs[id], es[0]);
      }
      AlwaysInOrder(Step(cs, es[0]), es[1..]);
    }
  }

  lemma NewInOrder(configured: int)
    ensures InOrder(NewClient(configured))
  {
  }

  /** A client depends on the device and on its own events alone: no other client's
      overflow, kick or pace changes anything about it. In this step system that is so by
      construction; that the loops over the client objects work that way is the contract
      of Broadcast and CloseClients. */
  lemma {:induction false} ClientsIndependent(cs: map<nat, Client>, es: seq<Event>, id: nat)
    requires id in cs
    ensures id in Run(cs, es) && Run(cs, es)[id] == RunClient(cs[id], Seen(es, id))
    decreases |es|
  {
    hide ClientStep, Reaches;
    if es != [] {
      ClientsIndependent(Step(cs, es[0]), es[1..], id);
      if Reaches(es[0], id) {
        ConsRest(es[0], Seen(es[1..], id));
      } else {
        assert [] + Seen(es[1..], id) == Seen(es[1..], id);
      }
    }
  }

  /** An open client has lost nothing: all the device sent it is written or queued. */
  lemma OpenIsComplete(c: Client)
    requires InOrder(c) && c.protocol.Some? && !c.closing
    ensures Stream(c) == Translated(c.protocol.value, c.offered)
  {
    assert c.offered[..|c.offered|] == c.offered;
  }

  // ---- what becomes of a chunk ----

  /** The queue has a limit and has reached it. */
  predicate AtLimit(c: Client) { 0 < c.queueMax && c.queueMax <= |c.out| }

  /** A chunk for an open client is queued, and the client stays open, if and only if its
      queue is not at its limit; nothing else about the client changes. */
  lemma FeedExact(c: Client, data: Bytes)
    requires c.protocol.Some? && !c.closing
    ensures var r := FeedSerial(c, data);
            && r.closing == AtLimit(c)
            && Stream(r) == Stream(c) + (if AtLimit(c) then [] else [FromSerial(c.protocol.value, data)])
            && r == c.(closing := r.closing, out := r.out, offered := c.offered + [data])
  {
    var item := Serial(FromSerial(c.protocol.value, data));
    StreamPut(c, item);
    assert Stream(c) + [] == Stream(c);
  }

  /** Control bytes are queued behind what is there, unless the queue is at its limit or the
      client has ended; a session begins once. */
  lemma ControlExact(c: Client, bytes: Bytes, p: Protocol)
    ensures QueueControl(c, bytes) == if !c.done && !AtLimit(c) then c.(out := c.out + [Control(bytes)]) else c
    ensures Stream(QueueControl(c, bytes)) == Stream(c)
    ensures Begin(c, p).protocol == Some(if c.protocol.Some? then c.protocol.value else p)
  {
    StreamPut(c, Control(bytes));
    assert Stream(c) + [] == Stream(c);
  }

  /** What can close a client: a chunk for a queue at its limit, a kick, a match of closeon,
      or the end of its session. */
  predicate Cause(c: Client, e: Event)
  {
    match e
    case ToAll(_) => c.protocol.Some? && AtLimit(c)
    case CloseAll => true
    case KickAt(_) => true
    case EndAt(_) => true
    case BeginAt(_, _) => false
    case ControlAt(_, _) => false
    case PumpAt(_) => false
  }

  /** No close mark is queued. */
  predicate Unmarked(c: Client) { Close !in c.out }

  lemma OpenStep(c: Client, e: Event)
    requires !c.closing && Unmarked(c)
    ensures var r := ClientStep(c, e);
            r.closing == Cause(c, e) && (!r.closing ==> Unmarked(r))
  {
    if c.out != [] {
      assert c.out[0] in c.out;
    }
  }

  lemma {:induction false} StaysClosing(c: Client, es: seq<Event>)
    requires c.closing
    ensures RunClient(c, es).closing
    decreases |es|
  {
    if es != [] {
      StaysClosing(ClientStep(c, es[0]), es[1..]);
    }
  }

  lemma RunLater(c: Client, es: seq<Event>, i: nat)
    requires i < |es|
    ensures RunClient(c, es[..i + 1]) == RunClient(ClientStep(c, es[0]), es[1..][..i])
  {
    hide ClientStep;
    assert es[..i + 1][1..] == es[1..][..i];
  }

  ghost predicate Caused(c: Client, es: seq<Event>)
  {
    exists i :: 0 <= i < |es| && Cause(RunClient(c, es[..i]), es[i])
  }

  lemma CausedFirst(c: Client, es: seq<Event>)
    requires es != []
    ensures Caused(c, es) <==> Cause(c, es[0]) || Caused(ClientStep(c, es[0]), es[1..])
  {
    hide Cause, ClientStep;
    var c1, rest := ClientStep(c, es[0]), es[1..];
    assert RunClient(c, es[..0]) == c;
    if Caused(c, es) {
      var i :| 0 <= i < |es| && Cause(RunClient(c, es[..i]), es[i]);
      if i > 0 {
        RunLater(c, es, i - 1);
        assert Cause(RunClient(c1, rest[..i - 1]), rest[i - 1]);
      }
    }
    if Caused(c1, rest) {
      var i :| 0 <= i < |rest| && Cause(RunClient(c1, rest[..i]), rest[i]);
      RunLater(c, es, i);
      assert Cause(RunClient(c, es[..i + 1]), es[i + 1]);
    }
  }

  /** In every run a client that was open is closing if and only if one of these happened
      to it. */
  lemma {:induction false} ClosingHasCause(c: Client, es: seq<Event>)
    requires !c.closing && Unmarked(c)
    ensures RunClient(c, es).closing <==> Caused(c, es)
    decreases |es|
  {
    hide ClientStep, Cause;
    if es != [] {
      CausedFirst(c, es);
      OpenStep(c, es[0]);
      if Cause(c, es[0]) {
        StaysClosing(ClientStep(c, es[0]), es[1..]);
      } else {
        ClosingHasCause(ClientStep(c, es[0]), es[1..]);
      }
    }
  }

  // ---- what is queued is written ----

  function PumpTimes(c: Client, n: nat): Client
    decreases n
  {
    if n == 0 then c else PumpTimes(PumpOut(c), n - 1)
  }

  /** As many turns of the pump as items are queued write them all, in order. */
  lemma {:induction false} QueueWritten(c: Client)
    requires !c.done && Unmarked(c)
    ensures PumpTimes(c, |c.out|) == c.(written := c.written + c.out, out := [])
    decreases |c.out|
  {
    if c.out == [] {
      assert c.written + [] == c.written;
    } else {
      assert c.out[0] in c.out;
      QueueWritten(PumpOut(c));
      FirstAndRest(c.out);
      AppendAssociates(c.written, [c.out[0]], c.out[1..]);
    }
  }

  /** A client asked to close gracefully, with room for the mark, is closed after all that
      was queued is written. */
  lemma GracefulFlushes(c: Client)
    requires !c.done && !c.closing && Unmarked(c) && !AtLimit(c)
    ensures var r := PumpTimes(GracefulClose(c), |c.out| + 1);
            r.done && r.closing && r.out == [] && r.written == c.written + c.out
  {
    MarkFlushes(GracefulClose(c), c.out);
  }

  lemma {:induction false} MarkFlushes(c: Client, queued: seq<Item>)
    requires !c.done && c.out == queued + [Close] && Close !in queued
    ensures var r := PumpTimes(c, |queued| + 1);
            r.done && r.closing && r.out == [] && r.written == c.written + queued
    decreases |queued|
  {
    if queued == [] {
      assert c.out == [Close] && c.out[1..] == [];
      assert PumpTimes(PumpOut(c), 0) == PumpOut(c);
    } else {
      assert c.out[0] == queued[0] && queued[0] in queued;
      assert c.out[1..] == queued[1..] + [Close];
      MarkFlushes(PumpOut(c), queued[1..]);
      FirstAndRest(queued);
      AppendAssociates(c.written, [queued[0]], queued[1..]);
    }
  }
}
