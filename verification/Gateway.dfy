/** The Modbus gateway of app/engine/modbus_gateway.py: any number of Modbus/TCP masters,
    polls and writes share one serial bus behind a lock. Each stretch between two awaits
    is one step; the network, the serial line, timeouts and the scheduler are arbitrary. */
module Gateway {
  import opened Common
  import opened Mbap
  import Crc
  import Pdu

  // ---- the bus, as a log of what happened on it ----

  /** How a transaction ended: after a silence behind the reply, without one, or because
      its coroutine was cancelled. */
  datatype Ending = Silence | Failure | Cancelled

  datatype BusEvent =
    | Begin(who: nat)
    | Junk(who: nat, data: Bytes)
    | Sent(who: nat, frame: Bytes)
    | Heard(who: nat, data: Bytes)
    | End(who: nat, how: Ending)

  datatype Transaction = Transaction(who: nat, sent: Option<Bytes>, heard: Bytes, how: Ending)

  /** The log read as transactions one after the other. It is serial when it can be read
      so to its end: nothing of one transaction lies inside another. */
  datatype View = View(serial: bool, done: seq<Transaction>, open: Option<Transaction>)

  const EMPTY := View(true, [], None)

  function Extend(v: View, e: BusEvent): View
  {
    if e.Begin? && v.open.None? then v.(open := Some(Transaction(e.who, None, [], Failure)))
    else if e.Begin? then v.(serial := false)
    else if v.open.None? || v.open.value.who != e.who then v.(serial := false)
    else
      var t := v.open.value;
      match e
      case Junk(_, _) => if t.sent.None? then v else v.(serial := false)
      case Sent(_, frame) => if t.sent.None? then v.(open := Some(t.(sent := Some(frame)))) else v.(serial := false)
      case Heard(_, data) => if t.sent.Some? then v.(open := Some(t.(heard := t.heard + data))) else v.(serial := false)
      case End(_, how) => v.(done := v.done + [t.(how := how)], open := None)
  }

  function Read(log: seq<BusEvent>): View
  {
    if log == [] then EMPTY else Extend(Read(log[..|log| - 1]), log[|log| - 1])
  }

  lemma ReadSnoc(log: seq<BusEvent>, e: BusEvent)
    ensures Read(log + [e]) == Extend(Read(log), e)
  {
    assert (log + [e])[..|log|] == log;
  }

  /** The transactions of one task that were not cancelled. */
  function Mine(done: seq<Transaction>, who: nat): seq<Transaction>
  {
    if done == [] then []
    else
      var rest, t := Mine(done[..|done| - 1], who), done[|done| - 1];
      if t.who == who && !t.how.Cancelled? then rest + [t] else rest
  }

  lemma MineSnoc(done: seq<Transaction>, t: Transaction, who: nat)
    ensures Mine(done + [t], who) ==
            if t.who == who && !t.how.Cancelled? then Mine(done, who) + [t] else Mine(done, who)
  {
    assert (done + [t])[..|done|] == done;
  }

  // ---- tasks ----

  datatype Phase =
    | Idle
    | Wanting(req: Frame)
    | Locked(req: Frame)
    | Draining(req: Frame)
    | Awaiting(req: Frame, got: Bytes)
    | Replying
    | Closed

  predicate Holding(p: Phase) { p.Locked? || p.Draining? || p.Awaiting? }

  predicate Busy(p: Phase) { p.Wanting? || Holding(p) }

  /** A master's connection, or a poll or write of the gateway's own. Apart from phase and
      buf the fields are history: the bytes received, how many of them were used, the
      requests made of them, the answers and the bytes written. */
  datatype Task = Task(master: bool, phase: Phase, buf: Bytes, input: Bytes, used: nat,
                       requests: seq<Frame>, answers: seq<Bytes>, out: Bytes)

  function Fresh(master: bool): Task { Task(master, Idle, [], [], 0, [], [], []) }

  /** The head of a master's inner loop: take a frame off the buffer, if there is one. */
  function Next(t: Task): Task
  {
    match TakeTcpAdu(t.buf)
    case NeedMore => t.(phase := Idle)
    case Bad => t.(phase := Closed)
    case Taken(f, n) => t.(phase := Wanting(f), requests := t.requests + [f], buf := t.buf[n..], used := t.used + n)
  }

  function FunctionOf(pdu: Bytes): int { if pdu == [] then 0 else pdu[0] }

  /** What _transaction returns, by what was heard and how it ended. */
  function Answer(req: Frame, heard: Bytes, how: Ending): Bytes
  {
    var r := Crc.RtuUnwrap(heard);
    if how.Silence? && r.Ok? && r.value.0 == req.unit then r.value.1
    else Pdu.ExceptionPdu(FunctionOf(req.pdu), Pdu.GATEWAY_TARGET_FAILED)
  }

  function Answered(t: Task, req: Frame, answer: Bytes): Task
  {
    if t.master
    then t.(phase := Replying, answers := t.answers + [answer], out := t.out + BuildTcpAdu(req.txn, req.unit, answer))
    else t.(phase := Idle, answers := t.answers + [answer])
  }

  // ---- steps ----

  /** Steps of a task on its own. */
  datatype Move = NetRead(data: Bytes) | Submit(unit: int, pdu: Bytes) | Flushed

  /** Steps of _transaction under the lock. */
  datatype BusMove = SerialFound | Discard(data: Bytes) | Send | Hear(data: Bytes) | Finish(how: Ending)

  datatype Event =
    | Start(who: nat, master: bool)
    | SerialChange(up: bool)
    | Local(who: nat, move: Move)
    | Acquire(who: nat)
    | OnBus(who: nat, step: BusMove)
    | Stop(who: nat)

  datatype Sys = Sys(tasks: map<nat, Task>, lock: Option<nat>, serialUp: bool, log: seq<BusEvent>)

  const INIT := Sys(map[], None, false, [])

  function LocalStep(t: Task, m: Move): Option<Task>
  {
    match m
    case NetRead(data) =>
      if t.master && t.phase.Idle? && data != []
      then Some(Next(t.(input := t.input + data, buf := t.buf + data))) else None
    case Submit(unit, pdu) =>
      if !t.master && t.phase.Idle?
      then Some(t.(phase := Wanting(Frame(0, unit, pdu)), requests := t.requests + [Frame(0, unit, pdu)])) else None
    case Flushed => if t.master && t.phase.Replying? then Some(Next(t)) else None
  }

  /** The phase after a step under the lock and what the bus sees; a Finish is in EndStep. */
  function HoldStep(who: nat, p: Phase, m: BusMove, up: bool): Option<(Phase, Option<BusEvent>)>
    requires !m.Finish?
  {
    match m
    case SerialFound => if p.Locked? && up then Some((Draining(p.req), None)) else None
    case Discard(data) => if p.Draining? then Some((p, Some(Junk(who, data)))) else None
    case Send =>
      if p.Draining? then Some((Awaiting(p.req, []), Some(Sent(who, Crc.RtuWrap(p.req.unit, p.req.pdu))))) else None
    case Hear(data) =>
      if p.Awaiting? && data != [] then Some((Awaiting(p.req, p.got + data), Some(Heard(who, data)))) else None
  }

  /** A transaction can end: without a serial port, by an error or a timeout once the
      request is out, or by a silence after some bytes. */
  predicate MayEnd(p: Phase, how: Ending, up: bool)
  {
    || (how.Failure? && ((p.Locked? && !up) || p.Awaiting?))
    || (how.Silence? && p.Awaiting? && p.got != [])
  }

  function Got(p: Phase): Bytes { if p.Awaiting? then p.got else [] }

  function Put(s: Sys, who: nat, t: Task): Sys { s.(tasks := s.tasks[who := t]) }

  function Logged(s: Sys, e: BusEvent): Sys { s.(log := s.log + [e]) }

  function Apply(s: Sys, e: Event): Option<Sys>
  {
    match e
    case Start(a, master) => if a in s.tasks then None else Some(Put(s, a, Fresh(master)))
    case SerialChange(up) => Some(s.(serialUp := up))
    case Local(a, m) =>
      if a !in s.tasks then None
      else
        var r := LocalStep(s.tasks[a], m);
        if r.None? then None else Some(Put(s, a, r.value))
    case Acquire(a) =>
      if a !in s.tasks || !s.tasks[a].phase.Wanting? || s.lock.Some? then None
      else
        var t := s.tasks[a];
        Some(Logged(Put(s, a, t.(phase := Locked(t.phase.req))), Begin(a)).(lock := Some(a)))
    case OnBus(a, Finish(how)) =>
      if a !in s.tasks || !MayEnd(s.tasks[a].phase, how, s.serialUp) then None
      else
        var t := s.tasks[a];
        var answer := Answer(t.phase.req, Got(t.phase), how);
        Some(Logged(Put(s, a, Answered(t, t.phase.req, answer)), End(a, how)).(lock := None))
    case OnBus(a, m) =>
      if a !in s.tasks then None
      else
        var r := HoldStep(a, s.tasks[a].phase, m, s.serialUp);
        if r.None? then None
        else
          var s' := Put(s, a, s.tasks[a].(phase := r.value.0));
          Some(if r.value.1.None? then s' else Logged(s', r.value.1.value))
    case Stop(a) =>
      if a !in s.tasks then None
      else
        var s' := Put(s, a, s.tasks[a].(phase := Closed));
        Some(if Holding(s.tasks[a].phase) then Logged(s', End(a, Cancelled)).(lock := None) else s')
  }

  /** The state after a run, if every event of it can happen. */
  function Run(events: seq<Event>): Option<Sys>
  {
    if events == [] then Some(INIT)
    else
      var s := Run(events[..|events| - 1]);
      if s.None? then None else Apply(s.value, events[|events| - 1])
  }

  // ---- what a task keeps ----

  /** Every request but the one in progress has its answer. */
  predicate Counted(t: Task)
  {
    && |t.answers| <= |t.requests| <= |t.answers| + 1
    && (Busy(t.phase) ==> |t.requests| == |t.answers| + 1 && t.requests[|t.answers|] == t.phase.req)
    && (!Busy(t.phase) && !t.phase.Closed? ==> |t.requests| == |t.answers|)
  }

  function Replies(requests: seq<Frame>, answers: seq<Bytes>): (r: seq<Frame>)
    requires |answers| <= |requests|
    ensures |r| == |answers|
  {
    seq(|answers|, i requires 0 <= i < |answers| => Frame(requests[i].txn, requests[i].unit, answers[i]))
  }

  /** What was written is one frame per answer, in order, each with the transaction id and
      unit of its request. */
  predicate Replied(t: Task)
    requires Counted(t)
  {
    t.master ==> t.out == Encode(Replies(t.requests, t.answers))
  }

  /** The requests are what the bytes received so far hold. */
  predicate Scanned(t: Task)
  {
    t.master ==>
      && Cut(t.input, t.requests, t.used, t.buf)
      && (t.phase.Idle? ==> TakeTcpAdu(t.buf).NeedMore?)
      && (forall f :: f in t.requests ==> OnWire(f))
  }

  /** The first bytes of input, `used` of them, are the frames; buf is what follows. */
  predicate Cut(input: Bytes, frames: seq<Frame>, used: nat, buf: Bytes)
  {
    && used <= |input| && buf == input[used..]
    && ScanAll(input) == Then(Scan(frames, used, false), ScanAll(buf))
  }

  lemma CutTake(input: Bytes, frames: seq<Frame>, used: nat, buf: Bytes)
    requires Cut(input, frames, used, buf) && TakeTcpAdu(buf).Taken?
    ensures var look := TakeTcpAdu(buf);
            Cut(input, frames + [look.frame], used + look.used, buf[look.used..])
  {
    var look := TakeTcpAdu(buf);
    assert ScanAll(buf) == Cons(look.frame, look.used, ScanAll(buf[look.used..]));
    hide ScanAll, TakeTcpAdu;
    ThenMoves(frames, used, look.frame, look.used, ScanAll(buf[look.used..]));
    DropTwice(input, used, look.used);
  }

  lemma CutMore(input: Bytes, frames: seq<Frame>, used: nat, buf: Bytes, data: Bytes)
    requires Cut(input, frames, used, buf) && TakeTcpAdu(buf).NeedMore?
    ensures ScanAll(input) == Scan(frames, used, false)
    ensures Cut(input + data, frames, used, buf + data)
  {
    NothingMore(buf);
    hide ScanAll, TakeTcpAdu;
    ThenEnds(frames, used, false);
    ScanSplit(input, data);
    DropOfAppend(input, data, used);
  }

  predicate TaskOk(t: Task) { Counted(t) && Replied(t) && Scanned(t) }

  lemma RepliesSame(requests: seq<Frame>, more: seq<Frame>, answers: seq<Bytes>)
    requires |answers| <= |requests|
    ensures Replies(requests + more, answers) == Replies(requests, answers)
  {
  }

  lemma RepliesSnoc(requests: seq<Frame>, answers: seq<Bytes>, answer: Bytes)
    requires |answers| < |requests|
    ensures var req := requests[|answers|];
            Replies(requests, answers + [answer]) == Replies(requests, answers) + [Frame(req.txn, req.unit, answer)]
  {
  }

  lemma {:induction false} EncodeSnoc(frames: seq<Frame>, f: Frame)
    ensures Encode(frames + [f]) == Encode(frames) + BuildTcpAdu(f.txn, f.unit, f.pdu)
  {
    hide BuildTcpAdu;
    if frames == [] {
      assert frames + [f] == [f];
      assert [f][1..] == [];
      var adu := BuildTcpAdu(f.txn, f.unit, f.pdu);
      assert adu + [] == adu == [] + adu;
    } else {
      EncodeSnoc(frames[1..], f);
      DropOfAppend(frames, [f], 1);
      AppendAssociates(BuildTcpAdu(frames[0].txn, frames[0].unit, frames[0].pdu), Encode(frames[1..]),
                       BuildTcpAdu(f.txn, f.unit, f.pdu));
    }
  }

  /** Taking the next frame off the buffer. */
  lemma NextOk(t: Task)
    requires t.master && !Busy(t.phase) && !t.phase.Closed?
    requires Counted(t) && Replied(t)
    requires Scanned(t.(phase := Replying))
    ensures TaskOk(Next(t))
  {
    hide BuildTcpAdu, Encode, OnWire, TakeTcpAdu, Cut;
    var look := TakeTcpAdu(t.buf);
    if look.Taken? {
      TakenOnWire(t.buf);
      RepliesSame(t.requests, [look.frame], t.answers);
      CutTake(t.input, t.requests, t.used, t.buf);
    }
  }

  lemma NetReadOk(t: Task, data: Bytes)
    requires TaskOk(t) && t.master && t.phase.Idle?
    ensures TaskOk(Next(t.(input := t.input + data, buf := t.buf + data)))
  {
    hide TakeTcpAdu, Encode, OnWire, Next, Cut;
    CutMore(t.input, t.requests, t.used, t.buf, data);
    NextOk(t.(input := t.input + data, buf := t.buf + data));
  }

  lemma NothingMore(s: Bytes)
    requires TakeTcpAdu(s).NeedMore?
    ensures ScanAll(s) == Scan([], 0, false)
  {
  }

  lemma LocalOk(t: Task, m: Move)
    requires TaskOk(t) && LocalStep(t, m).Some?
    ensures TaskOk(LocalStep(t, m).value)
    ensures var t' := LocalStep(t, m).value;
            && t'.answers == t.answers && t.requests <= t'.requests && !Holding(t'.phase) && !Holding(t.phase)
  {
    hide TakeTcpAdu, ScanAll, Encode, OnWire;
    match m
    case NetRead(data) => NetReadOk(t, data);
    case Submit(unit, pdu) =>
    case Flushed => NextOk(t);
  }

  lemma AnsweredOk(t: Task, answer: Bytes)
    requires TaskOk(t) && Holding(t.phase)
    ensures TaskOk(Answered(t, t.phase.req, answer))
  {
    hide TakeTcpAdu, ScanAll, Encode, OnWire, BuildTcpAdu;
    var req := t.phase.req;
    RepliesSnoc(t.requests, t.answers, answer);
    EncodeSnoc(Replies(t.requests, t.answers), Frame(req.txn, req.unit, answer));
  }

  // ---- what the system keeps ----

  predicate Explains(req: Frame, answer: Bytes, tr: Transaction)
  {
    && (tr.sent.Some? ==> tr.sent.value == Crc.RtuWrap(req.unit, req.pdu))
    && answer == Answer(req, tr.heard, tr.how)
  }

  /** The answers of a task are those of its transactions on the bus, one each, in order. */
  predicate Explained(requests: seq<Frame>, answers: seq<Bytes>, ts: seq<Transaction>)
  {
    && |ts| == |answers| <= |requests|
    && forall i :: 0 <= i < |answers| ==> Explains(requests[i], answers[i], ts[i])
  }

  /** The transaction that a task holding the lock has open. */
  function OpenBy(who: nat, p: Phase): (r: Transaction)
    requires Holding(p)
    ensures r.who == who
  {
    if p.Awaiting? then Transaction(who, Some(Crc.RtuWrap(p.req.unit, p.req.pdu)), p.got, Failure)
    else Transaction(who, None, [], Failure)
  }

  predicate TaskInv(s: Sys, a: nat)
    requires a in s.tasks
  {
    && TaskOk(s.tasks[a])
    && Explained(s.tasks[a].requests, s.tasks[a].answers, Mine(Read(s.log).done, a))
    && (Holding(s.tasks[a].phase) ==> s.lock == Some(a))
  }

  predicate BusInv(s: Sys)
  {
    && Read(s.log).serial
    && (s.lock.None? ==> Read(s.log).open.None?)
    && (s.lock.Some? ==>
          && s.lock.value in s.tasks && Holding(s.tasks[s.lock.value].phase)
          && Read(s.log).open == Some(OpenBy(s.lock.value, s.tasks[s.lock.value].phase)))
  }

  ghost predicate Inv(s: Sys)
  {
    && BusInv(s)
    && (forall a :: a in s.tasks ==> TaskInv(s, a))
    && (forall a: nat :: a !in s.tasks ==> Mine(Read(s.log).done, a) == [])
  }

  // ---- every step keeps it ----

  lemma InitOk()
    ensures Inv(INIT)
  {
  }

  /** A task that a step does not touch, when its own transactions stay the same. */
  lemma Untouched(s: Sys, s': Sys, b: nat)
    requires b in s.tasks && b in s'.tasks && s.tasks[b] == s'.tasks[b] && TaskInv(s, b)
    requires Mine(Read(s'.log).done, b) == Mine(Read(s.log).done, b)
    requires Holding(s.tasks[b].phase) ==> s'.lock == s.lock
    ensures TaskInv(s', b)
  {
    hide TaskOk, Explained;
  }

  lemma LongerRequests(requests: seq<Frame>, more: seq<Frame>, answers: seq<Bytes>, ts: seq<Transaction>)
    requires requests <= more && Explained(requests, answers, ts)
    ensures Explained(more, answers, ts)
  {
    hide Explains;
  }

  /** A step of one task that the bus does not see. */
  lemma QuietKeeps(s: Sys, a: nat, t: Task)
    requires Inv(s) && TaskOk(t)
    requires !Holding(t.phase)
    requires if a in s.tasks
             then !Holding(s.tasks[a].phase) && s.tasks[a].answers == t.answers && s.tasks[a].requests <= t.requests
             else t.answers == []
    ensures Inv(Put(s, a, t))
  {
    hide TaskOk, Explained, Mine, Read, OpenBy;
    var s' := Put(s, a, t);
    forall b | b in s'.tasks ensures TaskInv(s', b) {
      if b != a {
        Untouched(s, s', b);
      } else if a in s.tasks {
        LongerRequests(s.tasks[a].requests, t.requests, t.answers, Mine(Read(s.log).done, a));
      } else {
        NothingToExplain(t.requests);
      }
    }
  }

  lemma NothingToExplain(requests: seq<Frame>)
    ensures Explained(requests, [], [])
  {
  }

  lemma AcquireKeeps(s: Sys, a: nat)
    requires Inv(s) && Apply(s, Acquire(a)).Some?
    ensures Inv(Apply(s, Acquire(a)).value)
  {
    hide Explained, Mine, Read, Replied, Scanned;
    var s' := Apply(s, Acquire(a)).value;
    ReadSnoc(s.log, Begin(a));
    forall b | b in s'.tasks ensures TaskInv(s', b) {
      if b != a {
        Untouched(s, s', b);
      } else {
        RephaseOk(s.tasks[a], s'.tasks[a].phase);
      }
    }
  }

  /** Moving on within a transaction. */
  lemma RephaseOk(t: Task, p: Phase)
    requires TaskOk(t) && Busy(t.phase) && Busy(p) && p.req == t.phase.req
    ensures TaskOk(t.(phase := p))
  {
    hide Cut, TakeTcpAdu, Encode, OnWire;
  }

  /** What a step under the lock does to the open transaction. */
  lemma HoldOpen(who: nat, p: Phase, m: BusMove, up: bool, v: View)
    requires !m.Finish? && HoldStep(who, p, m, up).Some?
    requires Holding(p) ==> v.open == Some(OpenBy(who, p))
    ensures var r := HoldStep(who, p, m, up).value;
            && Holding(p) && Holding(r.0) && r.0.req == p.req
            && (r.1.None? ==> OpenBy(who, r.0) == OpenBy(who, p))
            && (r.1.Some? ==> Extend(v, r.1.value) == v.(open := Some(OpenBy(who, r.0))))
  {
    hide Crc.RtuWrap;
  }

  lemma HoldKeeps(s: Sys, a: nat, m: BusMove)
    requires Inv(s) && !m.Finish? && Apply(s, OnBus(a, m)).Some?
    ensures Inv(Apply(s, OnBus(a, m)).value)
  {
    hide Explained, Mine, Read, TaskOk, OpenBy, HoldStep, Extend;
    var s' := Apply(s, OnBus(a, m)).value;
    var t := s.tasks[a];
    var r := HoldStep(a, t.phase, m, s.serialUp).value;
    assert TaskInv(s, a);
    HoldOpen(a, t.phase, m, s.serialUp, Read(s.log));
    if r.1.Some? {
      ReadSnoc(s.log, r.1.value);
    }
    forall b | b in s'.tasks ensures TaskInv(s', b) {
      if b != a {
        Untouched(s, s', b);
      } else {
        RephaseOk(t, r.0);
      }
    }
  }

  lemma ExplainedSnoc(requests: seq<Frame>, answers: seq<Bytes>, ts: seq<Transaction>, answer: Bytes, tr: Transaction)
    requires Explained(requests, answers, ts) && |answers| < |requests|
    requires Explains(requests[|answers|], answer, tr)
    ensures Explained(requests, answers + [answer], ts + [tr])
  {
    hide Explains;
  }

  lemma EndKeeps(s: Sys, a: nat, how: Ending)
    requires Inv(s) && Apply(s, OnBus(a, Finish(how))).Some?
    ensures Inv(Apply(s, OnBus(a, Finish(how))).value)
  {
    hide Explained, Mine, Read, Replied, Scanned, Answer, Crc.RtuWrap, TaskOk;
    var s' := Apply(s, OnBus(a, Finish(how))).value;
    var t := s.tasks[a];
    var answer := Answer(t.phase.req, Got(t.phase), how);
    var tr := OpenBy(a, t.phase).(how := how);
    assert TaskInv(s, a);
    ReadSnoc(s.log, End(a, how));
    forall b: nat
      ensures Mine(Read(s'.log).done, b) == Mine(Read(s.log).done, b) + if b == a then [tr] else []
    {
      var before := Mine(Read(s.log).done, b);
      assert before + [] == before;
      MineSnoc(Read(s.log).done, tr, b);
    }
    forall b | b in s'.tasks ensures TaskInv(s', b) {
      if b != a {
        Untouched(s, s', b);
      } else {
        AnsweredOk(t, answer);
        InProgress(t);
        ExplainedSnoc(t.requests, t.answers, Mine(Read(s.log).done, a), answer, tr);
      }
    }
  }

  lemma InProgress(t: Task)
    requires TaskOk(t) && Holding(t.phase)
    ensures |t.answers| < |t.requests| && t.requests[|t.answers|] == t.phase.req
  {
  }

  lemma StoppedOk(t: Task)
    requires TaskOk(t)
    ensures TaskOk(t.(phase := Closed))
  {
    hide Cut, TakeTcpAdu, Encode, OnWire;
  }

  lemma StopKeeps(s: Sys, a: nat)
    requires Inv(s) && Apply(s, Stop(a)).Some?
    ensures Inv(Apply(s, Stop(a)).value)
  {
    hide Explained, Mine, Read, TaskOk, OpenBy, BusInv;
    assert TaskInv(s, a);
    if Holding(s.tasks[a].phase) {
      CancelKeeps(s, a);
    } else {
      StoppedOk(s.tasks[a]);
      QuietKeeps(s, a, s.tasks[a].(phase := Closed));
    }
  }

  lemma CancelledLog(log: seq<BusEvent>, tr: Transaction)
    requires Read(log).serial && Read(log).open == Some(tr)
    ensures var v := Read(log + [End(tr.who, Cancelled)]);
            v.serial && v.open == None && forall b: nat :: Mine(v.done, b) == Mine(Read(log).done, b)
  {
    hide Read, Mine;
    ReadSnoc(log, End(tr.who, Cancelled));
    forall b: nat ensures Mine(Read(log).done + [tr.(how := Cancelled)], b) == Mine(Read(log).done, b) {
      MineSnoc(Read(log).done, tr.(how := Cancelled), b);
    }
  }

  /** A task cancelled under the lock: its transaction ends unanswered. */
  lemma CancelKeeps(s: Sys, a: nat)
    requires Inv(s) && a in s.tasks && Holding(s.tasks[a].phase)
    ensures Inv(Logged(Put(s, a, s.tasks[a].(phase := Closed)), End(a, Cancelled)).(lock := None))
  {
    hide Explained, Mine, Read, TaskOk, Apply, OpenBy, Extend;
    var t := s.tasks[a];
    var s' := Logged(Put(s, a, t.(phase := Closed)), End(a, Cancelled)).(lock := None);
    assert TaskInv(s, a);
    StoppedOk(t);
    CancelledLog(s.log, OpenBy(a, t.phase));
    forall b | b in s'.tasks && b != a ensures TaskInv(s', b) {
      Untouched(s, s', b);
    }
  }

  lemma StepKeeps(s: Sys, e: Event)
    requires Inv(s) && Apply(s, e).Some?
    ensures Inv(Apply(s, e).value)
  {
    hide Inv, TaskOk;
    match e
    case Start(a, master) =>
      FreshOk(master);
      QuietKeeps(s, a, Fresh(master));
    case SerialChange(up) => SerialKeeps(s, up);
    case Local(a, m) => LocalKeeps(s, a, m);
    case Acquire(a) => AcquireKeeps(s, a);
    case OnBus(a, Finish(how)) => EndKeeps(s, a, how);
    case OnBus(a, m) => HoldKeeps(s, a, m);
    case Stop(a) => StopKeeps(s, a);
  }

  lemma SerialKeeps(s: Sys, up: bool)
    requires Inv(s)
    ensures Inv(s.(serialUp := up))
  {
    hide TaskOk, Explained, Read, Mine;
    var s' := s.(serialUp := up);
    forall b | b in s'.tasks ensures TaskInv(s', b) {
      Untouched(s, s', b);
    }
  }

  lemma FreshOk(master: bool)
    ensures TaskOk(Fresh(master))
  {
    hide Cut, Encode, TakeTcpAdu, OnWire;
    CutNothing([]);
    assert Replies([], []) == [];
    EncodeNothing([]);
  }

  lemma CutNothing(s: Bytes)
    requires |s| == 0
    ensures TakeTcpAdu(s).NeedMore? && Cut(s, [], 0, s)
  {
    hide TakeTcpAdu, ScanAll;
    TooShort(s);
    NothingMore(s);
    var nothing := Scan([], 0, false);
    ThenNothing(nothing);
    WholeDrop(s);
  }

  lemma WholeDrop(s: Bytes)
    ensures s[0..] == s
  {
  }

  lemma TooShort(s: Bytes)
    requires |s| < MBAP_LEN
    ensures TakeTcpAdu(s).NeedMore?
  {
  }

  lemma EncodeNothing(frames: seq<Frame>)
    requires |frames| == 0
    ensures Encode(frames) == []
  {
  }

  lemma LocalKeeps(s: Sys, a: nat, m: Move)
    requires Inv(s) && Apply(s, Local(a, m)).Some?
    ensures Inv(Apply(s, Local(a, m)).value)
  {
    hide TaskOk, Explained, Read, Mine, LocalStep, BusInv;
    assert TaskInv(s, a);
    LocalOk(s.tasks[a], m);
    QuietKeeps(s, a, LocalStep(s.tasks[a], m).value);
  }

  // ---- every run ----

  lemma {:induction false} AlwaysInv(events: seq<Event>)
    requires Run(events).Some?
    ensures Inv(Run(events).value)
  {
    hide Inv, Apply;
    if events == [] {
      InitOk();
    } else {
      var before := events[..|events| - 1];
      AlwaysInv(before);
      StepKeeps(Run(before).value, events[|events| - 1]);
    }
  }

  predicate Holder(s: Sys, a: nat) { a in s.tasks && Holding(s.tasks[a].phase) }

  /** At most one task is in a transaction, and what the bus sees is one whole transaction
      after the other. */
  lemma OneOnTheBus(events: seq<Event>)
    requires Run(events).Some?
    ensures var s := Run(events).value;
            && Read(s.log).serial
            && (forall a: nat, b: nat :: Holder(s, a) && Holder(s, b) ==> a == b)
            && (Read(s.log).open.Some? <==> exists a: nat :: Holder(s, a))
  {
    hide Run, Read, TaskOk, Explained, Mine;
    AlwaysInv(events);
    var s := Run(events).value;
    forall a: nat, b: nat | Holder(s, a) && Holder(s, b) ensures a == b {
      assert TaskInv(s, a) && TaskInv(s, b);
    }
    forall a: nat | Holder(s, a) ensures s.lock == Some(a) {
      assert TaskInv(s, a);
    }
    assert s.lock.Some? ==> Holder(s, s.lock.value);
  }

  /** A serial log in plain words: once a task has begun, nobody else appears on the bus
      before that task's transaction has ended. */
  lemma {:induction false} SerialMeans(log: seq<BusEvent>, i: nat, j: nat)
    requires i < j < |log| && Read(log).serial && log[i].Begin? && log[j].who != log[i].who
    ensures exists k :: i < k < j && log[k].End? && log[k].who == log[i].who
  {
    SerialPrefix(log, j + 1);
    SerialPrefix(log, j);
    assert log[..j + 1][..j] == log[..j];
    assert Read(log[..j + 1]) == Extend(Read(log[..j]), log[j]);
    if forall k :: i < k < j ==> !(log[k].End? && log[k].who == log[i].who) {
      StillOpen(log, i, j);
    }
  }

  lemma {:induction false} SerialPrefix(log: seq<BusEvent>, n: nat)
    requires n <= |log| && Read(log).serial
    ensures Read(log[..n]).serial
    decreases |log|
  {
    if n < |log| {
      SerialPrefix(log[..|log| - 1], n);
      assert log[..|log| - 1][..n] == log[..n];
    } else {
      assert log[..n] == log;
    }
  }

  lemma {:induction false} StillOpen(log: seq<BusEvent>, i: nat, j: nat)
    requires i < j <= |log| && Read(log[..j]).serial && log[i].Begin?
    requires forall k :: i < k < j ==> !(log[k].End? && log[k].who == log[i].who)
    ensures Read(log[..j]).open.Some? && Read(log[..j]).open.value.who == log[i].who
    decreases j
  {
    assert log[..j][..j - 1] == log[..j - 1];
    assert Read(log[..j]) == Extend(Read(log[..j - 1]), log[j - 1]);
    if i < j - 1 {
      StillOpen(log, i, j - 1);
    }
  }

  /** The transaction heard this PDU for the request: in a frame with a right CRC and the
      requested unit, ended by a silence. */
  predicate HeardReply(req: Frame, pdu: Bytes, tr: Transaction)
  {
    pdu != [] && tr.how.Silence? && tr.heard == Crc.RtuWrap(req.unit, pdu)
  }

  /** The exception of the request's function, code 0x0B. */
  function Refusal(req: Frame): Bytes
  {
    var f := if req.pdu == [] then 0 else req.pdu[0];
    [if f < 128 then f + 128 else f, 0x0B]
  }

  /** The answer is the PDU heard after the request was sent, and if none was heard, the
      exception. */
  ghost predicate ProperReply(req: Frame, answer: Bytes, tr: Transaction)
  {
    && (forall pdu :: HeardReply(req, pdu, tr) ==> answer == pdu && tr.sent == Some(Crc.RtuWrap(req.unit, req.pdu)))
    && ((forall pdu :: !HeardReply(req, pdu, tr)) ==> answer == Refusal(req))
  }

  /** Only a transaction that sent its request has heard anything. */
  predicate HeardAfterSent(done: seq<Transaction>)
  {
    forall i :: 0 <= i < |done| ==> (done[i].sent.None? ==> done[i].heard == [])
  }

  lemma {:induction false} OnlyHeardAfterSent(log: seq<BusEvent>)
    requires Read(log).serial
    ensures HeardAfterSent(Read(log).done)
    ensures Read(log).open.Some? && Read(log).open.value.sent.None? ==> Read(log).open.value.heard == []
  {
    if log != [] {
      OnlyHeardAfterSent(log[..|log| - 1]);
    }
  }

  lemma {:induction false} MineAmong(done: seq<Transaction>, who: nat, i: nat)
    requires i < |Mine(done, who)|
    ensures Mine(done, who)[i] in done && Mine(done, who)[i].who == who
  {
    var front := done[..|done| - 1];
    if i < |Mine(front, who)| {
      MineAmong(front, who, i);
    }
  }

  lemma AnswerProper(req: Frame, answer: Bytes, tr: Transaction)
    requires Explains(req, answer, tr) && (tr.sent.None? ==> tr.heard == []) && 0 <= req.unit < 256
    ensures ProperReply(req, answer, tr)
  {
    hide Crc.RtuWrap, Crc.RtuUnwrap;
    forall pdu | HeardReply(req, pdu, tr)
      ensures answer == pdu && tr.sent == Some(Crc.RtuWrap(req.unit, req.pdu))
    {
      Crc.WrapUnwrap(req.unit, pdu);
      WrappedNonempty(req.unit, pdu);
    }
    var r := Crc.RtuUnwrap(tr.heard);
    if tr.how.Silence? && r.Ok? && r.value.0 == req.unit {
      Crc.UnwrapWrap(tr.heard);
      UnwrappedNonempty(tr.heard);
      assert HeardReply(req, r.value.1, tr);
    } else {
      assert answer == Refusal(req);
    }
  }

  lemma WrappedNonempty(unit: int, pdu: Bytes)
    ensures Crc.RtuWrap(unit, pdu) != []
  {
  }

  lemma UnwrappedNonempty(frame: Bytes)
    requires Crc.RtuUnwrap(frame).Ok?
    ensures Crc.RtuUnwrap(frame).value.1 != []
  {
  }

  /** In every run, for masters and for the gateway's own polls and writes: as many answers
      as transactions on the bus, each the proper one. */
  lemma AnswersExact(events: seq<Event>, a: nat)
    requires Run(events).Some? && a in Run(events).value.tasks
    ensures var s := Run(events).value;
            var t, ts := s.tasks[a], Mine(Read(s.log).done, a);
            && |ts| == |t.answers| <= |t.requests| <= |t.answers| + 1
            && (!Busy(t.phase) && !t.phase.Closed? ==> |t.answers| == |t.requests|)
            && (forall i :: 0 <= i < |ts| && 0 <= t.requests[i].unit < 256 ==>
                  ProperReply(t.requests[i], t.answers[i], ts[i]))
  {
    hide Run, Read, Mine, ProperReply, Explains, Replied, Scanned;
    AlwaysInv(events);
    var s := Run(events).value;
    assert TaskInv(s, a);
    var t, done := s.tasks[a], Read(s.log).done;
    var ts := Mine(done, a);
    OnlyHeardAfterSent(s.log);
    forall i | 0 <= i < |ts| && 0 <= t.requests[i].unit < 256 ensures ProperReply(t.requests[i], t.answers[i], ts[i]) {
      MineAmong(done, a, i);
      AnswerProper(t.requests[i], t.answers[i], ts[i]);
    }
  }

  /** What each master gets, in every run: its requests are the frames of the bytes it
      sent; each has had exactly one reply, in order and with its transaction id and unit,
      except one that is in progress or was cut off; each reply is proper, by its
      own transactions on the bus. A master that is waited on has had all its replies. */
  lemma RepliesExact(events: seq<Event>, a: nat)
    requires Run(events).Some? && a in Run(events).value.tasks && Run(events).value.tasks[a].master
    ensures var s := Run(events).value;
            var t, ts := s.tasks[a], Mine(Read(s.log).done, a);
            && t.requests <= ScanAll(t.input).frames
            && |ts| == |t.answers| <= |t.requests| <= |t.answers| + 1
            && (!Busy(t.phase) && !t.phase.Closed? ==> |t.answers| == |t.requests|)
            && (t.phase.Idle? ==> t.requests == ScanAll(t.input).frames)
            && t.out == Encode(Replies(t.requests, t.answers))
            && (forall i :: 0 <= i < |ts| ==> ProperReply(t.requests[i], t.answers[i], ts[i]))
  {
    hide Run, Encode, TakeTcpAdu, ScanAll, Read, Mine, ProperReply, Explains;
    AlwaysInv(events);
    var s := Run(events).value;
    assert TaskInv(s, a);
    var t := s.tasks[a];
    if t.phase.Idle? {
      CutMore(t.input, t.requests, t.used, t.buf, []);
    }
    AnswersExact(events, a);
    forall i | 0 <= i < |t.answers| ensures 0 <= t.requests[i].unit < 256 {
      assert t.requests[i] in t.requests;
    }
  }

  predicate AllFit(answers: seq<Bytes>) { forall i :: 0 <= i < |answers| ==> |answers[i]| <= MAX_PDU }

  /** A stream of replies is read back as those replies if and only if each fits the frame
      of Modbus/TCP. */
  lemma RepliesReadBack(requests: seq<Frame>, answers: seq<Bytes>)
    requires |answers| <= |requests| && forall f :: f in requests ==> OnWire(f)
    ensures var frames := Replies(requests, answers);
            ScanAll(Encode(frames)) == Scan(frames, |Encode(frames)|, false) <==> AllFit(answers)
  {
    hide Encode, TakeTcpAdu, ScanAll;
    var frames := Replies(requests, answers);
    var out := Encode(frames);
    if AllFit(answers) {
      forall f | f in frames ensures OnWire(f) {
        var i :| 0 <= i < |frames| && frames[i] == f;
        assert requests[i] in requests;
      }
      ScanEncoded(frames, []);
      assert out + [] == out;
      TooShort([]);
      NothingMore([]);
      ThenEnds(frames, |out|, false);
    }
    if ScanAll(out) == Scan(frames, |out|, false) {
      FramesOnWire(out);
      forall i | 0 <= i < |answers| ensures |answers[i]| <= MAX_PDU {
        assert frames[i] in frames;
      }
    }
  }

  /** In every run a master that reads the gateway's stream as Modbus/TCP gets exactly its
      replies if and only if no reply is longer than a PDU may be. */
  lemma MasterReadsReplies(events: seq<Event>, a: nat)
    requires Run(events).Some? && a in Run(events).value.tasks && Run(events).value.tasks[a].master
    ensures var t := Run(events).value.tasks[a];
            && |t.answers| <= |t.requests|
            && (ScanAll(t.out) == Scan(Replies(t.requests, t.answers), |t.out|, false) <==> AllFit(t.answers))
  {
    hide Run, Encode, TakeTcpAdu, ScanAll, Read, Mine, Explained, AllFit;
    AlwaysInv(events);
    var s := Run(events).value;
    assert TaskInv(s, a);
    RepliesReadBack(s.tasks[a].requests, s.tasks[a].answers);
  }

  /** A device that keeps to the 256 bytes of an RTU frame never breaks it. */
  lemma ShortFramesFit(events: seq<Event>, a: nat)
    requires Run(events).Some? && a in Run(events).value.tasks && Run(events).value.tasks[a].master
    requires forall tr :: tr in Mine(Read(Run(events).value.log).done, a) ==> |tr.heard| <= 256
    ensures AllFit(Run(events).value.tasks[a].answers)
  {
    hide Run, Read, Mine, Explains;
    AlwaysInv(events);
    var s := Run(events).value;
    assert TaskInv(s, a);
    var t, ts := s.tasks[a], Mine(Read(s.log).done, a);
    forall i | 0 <= i < |t.answers| ensures |t.answers[i]| <= MAX_PDU {
      assert ts[i] in ts;
      AnswerFits(t.requests[i], t.answers[i], ts[i]);
    }
  }

  lemma AnswerFits(req: Frame, answer: Bytes, tr: Transaction)
    requires Explains(req, answer, tr) && |tr.heard| <= 256
    ensures |answer| <= MAX_PDU
  {
  }

  // ---- a reply that is too long ----

  lemma RunSnoc(events: seq<Event>, e: Event)
    requires Run(events).Some?
    ensures Run(events + [e]) == Apply(Run(events).value, e)
  {
    hide Apply;
    assert (events + [e])[..|events|] == events;
  }

  const ASKED := Frame(1, 1, [3])

  /** One master asks unit 1, and the device answers with this PDU in a right frame. */
  function Exchange(pdu: Bytes): seq<Event>
  {
    Asked() + [OnBus(0, Hear(Crc.RtuWrap(1, pdu)))] + [OnBus(0, Finish(Silence))]
  }

  function Asked(): seq<Event>
  {
    [] + [Start(0, true)] + [SerialChange(true)] + [Local(0, NetRead(BuildTcpAdu(1, 1, [3])))] + [Acquire(0)]
    + [OnBus(0, SerialFound)] + [OnBus(0, Send)]
  }

  lemma AskedState()
    ensures Run(Asked()).Some?
    ensures var s := Run(Asked()).value;
            0 in s.tasks && s.tasks[0].master && s.tasks[0].phase == Awaiting(ASKED, []) && s.tasks[0].answers == []
  {
    hide Run, BuildTcpAdu, TakeTcpAdu, Crc.RtuWrap;
    assert Run([]) == Some(INIT) by {
      RunNothing([]);
    }
    RunSnoc([], Start(0, true));
    var e1 := [] + [Start(0, true)];
    RunSnoc(e1, SerialChange(true));
    var e2 := e1 + [SerialChange(true)];
    var adu := BuildTcpAdu(1, 1, [3]);
    Asks(adu);
    RunSnoc(e2, Local(0, NetRead(adu)));
    var e3 := e2 + [Local(0, NetRead(adu))];
    RunSnoc(e3, Acquire(0));
    var e4 := e3 + [Acquire(0)];
    RunSnoc(e4, OnBus(0, SerialFound));
    var e5 := e4 + [OnBus(0, SerialFound)];
    RunSnoc(e5, OnBus(0, Send));
  }

  lemma RunNothing(events: seq<Event>)
    requires |events| == 0
    ensures Run(events) == Some(INIT)
  {
  }

  lemma Asks(adu: Bytes)
    requires adu == BuildTcpAdu(1, 1, [3])
    ensures adu != [] && [] + adu == adu && TakeTcpAdu(adu) == Taken(ASKED, 8)
  {
    hide TakeTcpAdu;
    BuildTake(ASKED, []);
    assert adu + [] == adu;
  }

  /** Whatever PDU the device answers with is passed on, also one of more than 253 bytes;
      and that one is not what the master reads. */
  lemma LongReplyPassedOn(pdu: Bytes)
    requires pdu != []
    ensures Run(Exchange(pdu)).Some? && 0 in Run(Exchange(pdu)).value.tasks
    ensures var t := Run(Exchange(pdu)).value.tasks[0];
            && t.master && t.answers == [pdu]
            && |t.answers| <= |t.requests|
            && (|pdu| > MAX_PDU ==> ScanAll(t.out) != Scan(Replies(t.requests, t.answers), |t.out|, false))
  {
    hide Run, BuildTcpAdu, ScanAll, Crc.RtuWrap, Crc.RtuUnwrap, Asked;
    AskedState();
    Crc.WrapUnwrap(1, pdu);
    WrappedNonempty(1, pdu);
    var frame := Crc.RtuWrap(1, pdu);
    var e := Asked() + [OnBus(0, Hear(frame))];
    RunSnoc(Asked(), OnBus(0, Hear(frame)));
    assert [] + frame == frame;
    RunSnoc(e, OnBus(0, Finish(Silence)));
    MasterReadsReplies(Exchange(pdu), 0);
    var t := Run(Exchange(pdu)).value.tasks[0];
    assert t.answers == [pdu] && t.answers[0] == pdu;
    assert |pdu| > MAX_PDU ==> !AllFit(t.answers);
  }

  // ---- what can happen ----

  /** A master is read from whenever it is waited on, and served as far as its bytes go: the
      next frame becomes a request, and the connection is closed exactly when there is none
      and the stream is broken. */
  lemma ReadServed(t: Task, m: Move)
    requires TaskOk(t) && t.master
    requires (m.NetRead? && m.data != [] && t.phase.Idle?) || (m.Flushed? && t.phase.Replying?)
    ensures LocalStep(t, m).Some?
    ensures var t' := LocalStep(t, m).value;
            var all := ScanAll(t'.input);
            && t'.input == t.input + (if m.NetRead? then m.data else [])
            && if |t.requests| < |all.frames|
               then t'.phase == Wanting(all.frames[|t.requests|]) && t'.requests == all.frames[..|t.requests| + 1]
               else t'.requests == t.requests == all.frames && t'.phase == if all.bad then Closed else Idle
  {
    hide TakeTcpAdu, ScanAll, Encode, OnWire;
    var t1 := if m.NetRead? then t.(input := t.input + m.data, buf := t.buf + m.data) else t;
    if m.NetRead? {
      CutMore(t.input, t.requests, t.used, t.buf, m.data);
    } else {
      assert t.input + [] == t.input;
    }
    CutNext(t1.input, t1.requests, t1.used, t1.buf);
  }

  /** A poll or write of the gateway's own gets in line with its request. */
  lemma SubmitServed(t: Task, unit: int, pdu: Bytes)
    requires !t.master && t.phase.Idle?
    ensures var req := Frame(0, unit, pdu);
            LocalStep(t, Submit(unit, pdu)) == Some(t.(phase := Wanting(req), requests := t.requests + [req]))
  {
  }

  lemma CutNext(input: Bytes, frames: seq<Frame>, used: nat, buf: Bytes)
    requires Cut(input, frames, used, buf)
    ensures var look, all := TakeTcpAdu(buf), ScanAll(input);
            && (look.Taken? ==> |frames| < |all.frames| && all.frames[..|frames| + 1] == frames + [look.frame])
            && (!look.Taken? ==> all.frames == frames && all.bad == look.Bad?)
  {
    var look := TakeTcpAdu(buf);
    if look.Taken? {
      assert ScanAll(buf) == Cons(look.frame, look.used, ScanAll(buf[look.used..]));
    } else {
      assert ScanAll(buf) == Scan([], 0, look.Bad?);
    }
  }

  function RunFrom(s: Sys, es: seq<Event>): Option<Sys>
    decreases |es|
  {
    if es == [] then Some(s)
    else
      var r := Apply(s, es[0]);
      if r.None? then None else RunFrom(r.value, es[1..])
  }

  lemma RunFromStep(s: Sys, e: Event, es: seq<Event>)
    requires Apply(s, e).Some?
    ensures RunFrom(s, [e] + es) == RunFrom(Apply(s, e).value, es)
  {
    hide Apply;
    ConsRest(e, es);
  }

  lemma RunFromOne(s: Sys, e: Event)
    ensures RunFrom(s, [e]) == Apply(s, e)
  {
    hide Apply;
    assert [e][1..] == [];
  }

  /** From the lock to the request on the bus. */
  function Opening(a: nat): seq<Event> { [Acquire(a)] + ([OnBus(a, SerialFound)] + [OnBus(a, Send)]) }

  /** A transaction from the lock to the answer, with the bytes the device sends. */
  function Whole(a: nat, data: Bytes): seq<Event>
  {
    Opening(a) + ([OnBus(a, Hear(data))] + [OnBus(a, Finish(Silence))])
  }

  lemma {:induction false} RunFromAppend(s: Sys, a: seq<Event>, b: seq<Event>)
    requires RunFrom(s, a).Some?
    ensures RunFrom(s, a + b) == RunFrom(RunFrom(s, a).value, b)
    decreases |a|
  {
    hide Apply;
    if a == [] {
      assert a + b == b;
    } else {
      RunFromAppend(Apply(s, a[0]).value, a[1..], b);
      DropOfAppend(a, b, 1);
    }
  }

  /** The state in which a task waits for the reply to its request. */
  function Waiting(s: Sys, a: nat, req: Frame, got: Bytes, events: seq<BusEvent>): Sys
    requires a in s.tasks
  {
    s.(tasks := s.tasks[a := s.tasks[a].(phase := Awaiting(req, got))], lock := Some(a), log := s.log + events)
  }

  lemma RequestSent(s: Sys, a: nat)
    requires a in s.tasks && s.tasks[a].phase.Wanting? && s.lock.None? && s.serialUp
    ensures var req := s.tasks[a].phase.req;
            RunFrom(s, Opening(a)) == Some(Waiting(s, a, req, [], [Begin(a), Sent(a, Crc.RtuWrap(req.unit, req.pdu))]))
  {
    hide Crc.RtuWrap, RunFrom;
    var req := s.tasks[a].phase.req;
    var found, send := OnBus(a, SerialFound), OnBus(a, Send);
    var s1 := Apply(s, Acquire(a)).value;
    var s2 := Apply(s1, found).value;
    RunFromOne(s2, send);
    RunFromStep(s1, found, [send]);
    RunFromStep(s, Acquire(a), [found] + [send]);
    var s3 := Apply(s2, send).value;
    var sent := Sent(a, Crc.RtuWrap(req.unit, req.pdu));
    assert s3.log == s.log + [Begin(a), sent];
    assert s3.tasks == s.tasks[a := s.tasks[a].(phase := Awaiting(req, []))];
  }

  /** Whenever a request waits and the lock is free, its transaction can be carried out; the
      bus sees the request, and the answer is the proper one for whatever the device sends.
      No other task is touched. */
  lemma TransactionCompletes(s: Sys, a: nat, data: Bytes)
    requires a in s.tasks && s.tasks[a].phase.Wanting? && s.lock.None? && s.serialUp && data != []
    ensures RunFrom(s, Whole(a, data)).Some?
    ensures var s', t, req := RunFrom(s, Whole(a, data)).value, s.tasks[a], s.tasks[a].phase.req;
            && s'.lock.None? && a in s'.tasks && s'.tasks == s.tasks[a := s'.tasks[a]]
            && s'.log == s.log + [Begin(a), Sent(a, Crc.RtuWrap(req.unit, req.pdu)), Heard(a, data), End(a, Silence)]
            && |s'.tasks[a].answers| == |t.answers| + 1 && s'.tasks[a].answers[..|t.answers|] == t.answers
            && (0 <= req.unit < 256 ==>
                  ProperReply(req, s'.tasks[a].answers[|t.answers|],
                              Transaction(a, Some(Crc.RtuWrap(req.unit, req.pdu)), data, Silence)))
  {
    hide Crc.RtuWrap, RunFrom, ProperReply, Answer, BuildTcpAdu, Opening;
    var t, req := s.tasks[a], s.tasks[a].phase.req;
    var hear, finish := OnBus(a, Hear(data)), OnBus(a, Finish(Silence));
    var sent := Sent(a, Crc.RtuWrap(req.unit, req.pdu));
    var s3 := Waiting(s, a, req, [], [Begin(a), sent]);
    RequestSent(s, a);
    RunFromAppend(s, Opening(a), [hear] + [finish]);
    var s4 := Apply(s3, hear).value;
    assert [] + data == data;
    assert s4.tasks[a].phase == Awaiting(req, data);
    RunFromOne(s4, finish);
    RunFromStep(s3, hear, [finish]);
    var s5 := Apply(s4, finish).value;
    var answer := Answer(req, data, Silence);
    assert s5.tasks[a].answers == t.answers + [answer];
    FourLogged(s.log, Begin(a), sent, Heard(a, data), End(a, Silence));
    if 0 <= req.unit < 256 {
      AnswerProper(req, answer, Transaction(a, Some(Crc.RtuWrap(req.unit, req.pdu)), data, Silence));
    }
  }

  lemma FourLogged(log: seq<BusEvent>, a: BusEvent, b: BusEvent, c: BusEvent, d: BusEvent)
    ensures ((log + [a, b]) + [c]) + [d] == log + [a, b, c, d]
  {
  }

  /** Without a serial port, or when nothing comes before the timeout, the answer is the
      exception. */
  lemma TransactionFails(s: Sys, a: nat)
    requires Inv(s) && a in s.tasks && s.tasks[a].phase.Wanting? && s.lock.None?
    ensures var fail := OnBus(a, Finish(Failure));
            var es := [Acquire(a)]
                      + (if s.serialUp then [OnBus(a, SerialFound)] + ([OnBus(a, Send)] + [fail]) else [fail]);
            && RunFrom(s, es).Some? && a in RunFrom(s, es).value.tasks && RunFrom(s, es).value.lock.None?
            && RunFrom(s, es).value.tasks[a].answers == s.tasks[a].answers + [Refusal(s.tasks[a].phase.req)]
  {
    hide Crc.RtuWrap, Crc.RtuUnwrap, Inv, RunFrom, BuildTcpAdu;
    var fail := OnBus(a, Finish(Failure));
    var s1 := Apply(s, Acquire(a)).value;
    if s.serialUp {
      var s2 := Apply(s1, OnBus(a, SerialFound)).value;
      var s3 := Apply(s2, OnBus(a, Send)).value;
      RunFromOne(s3, fail);
      RunFromStep(s2, OnBus(a, Send), [fail]);
      RunFromStep(s1, OnBus(a, SerialFound), [OnBus(a, Send)] + [fail]);
      RunFromStep(s, Acquire(a), [OnBus(a, SerialFound)] + ([OnBus(a, Send)] + [fail]));
    } else {
      RunFromOne(s1, fail);
      RunFromStep(s, Acquire(a), [fail]);
    }
  }
}
