/** The messages of the edge node as bytes (SparkplugNode._metric and _publish of
    app/engine/sparkplug_node.py): a host that decodes the payloads and replays them holds
    the node's values. */
module NodeWire {
  import opened Common
  import opened Wire
  import opened Sparkplug
  import opened SparkplugTheorems
  import D = SparkplugDomain
  import N = Node

  /** What the topic of a message says. */
  datatype Topic = NBirthTopic | DBirthTopic(unit: int) | DDataTopic(unit: int)

  datatype Packet = Packet(topic: Topic, bytes: Bytes)

  function TopicOf(m: N.Message): Topic
  {
    match m
    case NBirth(_) => NBirthTopic
    case DBirth(_, unit, _) => DBirthTopic(unit)
    case DData(_, unit, _) => DDataTopic(unit)
  }

  /** The datatype of each point, from datatype_for. */
  type Kinds = map<N.Name, int>

  function KindOf(kinds: Kinds, n: N.Name): int { if n in kinds then kinds[n] else 0 }

  /** _metric, at any time. */
  predicate IsMetric(m: Metric, r: N.Report, kinds: Kinds)
  {
    && m.name == r.name && m.kind == KindOf(kinds, r.name) && m.alias == None
    && m.value == r.value && m.isNull == r.value.None?
  }

  /** _publish, at any time. An NBIRTH carries metrics of the node's own. */
  predicate Carries(p: Payload, m: N.Message, kinds: Kinds)
  {
    && p.sequence == Some(m.sequence) && p.uuid == None && p.body == None
    && (!m.NBirth? ==>
          && |p.metrics| == |m.metrics|
          && forall i :: 0 <= i < |p.metrics| ==> IsMetric(p.metrics[i], m.metrics[i], kinds))
  }

  /** p is m on the wire, from a payload that could be encoded. */
  ghost predicate Sends(m: N.Message, packet: Packet, kinds: Kinds)
  {
    && packet.topic == TopicOf(m)
    && exists p :: Carries(p, m, kinds) && PayloadFields(p, true).Ok?
                   && packet.bytes == FieldsBytes(PayloadFields(p, true).value)
  }

  // ---- the host ----

  function ReportsOf(ms: seq<Metric>): (r: seq<N.Report>)
    ensures |r| == |ms|
  {
    seq(|ms|, i requires 0 <= i < |ms| => N.Report(ms[i].name, if ms[i].isNull then None else ms[i].value))
  }

  function Hear(packet: Packet): Result<N.Message>
  {
    var p :- DecodePayload(packet.bytes);
    if p.sequence.None? || p.sequence.value < 0 then Err
    else
      match packet.topic
      case NBirthTopic => Ok(N.NBirth(p.sequence.value))
      case DBirthTopic(unit) => Ok(N.DBirth(p.sequence.value, unit, ReportsOf(p.metrics)))
      case DDataTopic(unit) => Ok(N.DData(p.sequence.value, unit, ReportsOf(p.metrics)))
  }

  /** A host that decodes and replays. */
  function HostView(packets: seq<Packet>): Result<N.View>
  {
    if packets == [] then Ok(map[])
    else
      var before :- HostView(packets[..|packets| - 1]);
      var m :- Hear(packets[|packets| - 1]);
      Ok(N.Apply(before, m))
  }

  // ---- one message ----

  /** A value as its datatype presents it to the host. */
  function Presented(kinds: Kinds, n: N.Name, v: Option<Value>): Option<Value>
  {
    if v.None? then None else Some(Canonical(KindOf(kinds, n), v.value))
  }

  function PresentedReports(kinds: Kinds, rs: seq<N.Report>): (r: seq<N.Report>)
    ensures |r| == |rs|
    ensures forall i :: 0 <= i < |rs| ==> r[i] == rs[i].(value := Presented(kinds, rs[i].name, rs[i].value))
  {
    seq(|rs|, i requires 0 <= i < |rs| => rs[i].(value := Presented(kinds, rs[i].name, rs[i].value)))
  }

  function PresentedMessage(kinds: Kinds, m: N.Message): N.Message
  {
    if m.NBirth? then m else m.(metrics := PresentedReports(kinds, m.metrics))
  }

  lemma {:induction false} ReceivedAt(ms: seq<Metric>, i: nat)
    requires AllHeadsOk(ms)
    ensures |ReceivedAll(ms, true)| == |ms|
    ensures i < |ms| ==> ms[i] in ms && ReceivedAll(ms, true)[i] == Received(ms[i], true)
    decreases |ms|
  {
    hide HeadOk, Received;
    if ms != [] {
      ReceivedAt(ms[1..], if i > 0 then i - 1 else 0);
    }
  }

  lemma {:induction false} MetricsEncode(ms: seq<Metric>, i: nat)
    requires MetricsFields(ms, true).Ok? && i < |ms|
    ensures MetricFields(ms[i], true).Ok?
    decreases i
  {
    hide MetricFields;
    if i > 0 {
      MetricsEncode(ms[1..], i - 1);
    }
  }

  lemma ReportHeard(m: Metric, r: N.Report, kinds: Kinds)
    requires IsMetric(m, r, kinds) && MetricFields(m, true).Ok?
    ensures HeadOk(m)
    ensures var got := Received(m, true);
            N.Report(got.name, if got.isNull then None else got.value) ==
            r.(value := Presented(kinds, r.name, r.value))
  {
    hide HeadFields, ValueFields;
  }

  /** What the host hears is the message, with each value as its datatype presents it. */
  lemma Heard(m: N.Message, packet: Packet, kinds: Kinds)
    requires Sends(m, packet, kinds)
    ensures Hear(packet) == Ok(PresentedMessage(kinds, m))
  {
    hide PayloadFields, FieldsBytes, DecodePayload, IsMetric, Presented;
    var p :| Carries(p, m, kinds) && PayloadFields(p, true).Ok?
             && packet.bytes == FieldsBytes(PayloadFields(p, true).value);
    PayloadRoundTrip(p, true);
    if !m.NBirth? {
      ReceivedAt(p.metrics, 0);
      var got := ReportsOf(ReceivedAll(p.metrics, true));
      forall i | 0 <= i < |got| ensures got[i] == PresentedReports(kinds, m.metrics)[i] {
        ReceivedAt(p.metrics, i);
        PayloadMetrics(p);
        MetricsEncode(p.metrics, i);
        ReportHeard(p.metrics[i], m.metrics[i], kinds);
      }
      assert got == PresentedReports(kinds, m.metrics);
    }
  }

  lemma PayloadMetrics(p: Payload)
    requires PayloadFields(p, true).Ok?
    ensures MetricsFields(p.metrics, true).Ok?
  {
  }

  // ---- all messages ----

  /** host holds what view holds, each value as its datatype presents it. */
  predicate Mirrors(host: N.View, view: N.View, kinds: Kinds)
  {
    host.Keys == view.Keys && forall k :: k in view ==> host[k] == Presented(kinds, k.1, view[k])
  }

  lemma {:induction false} SetAllMirrors(host: N.View, view: N.View, unit: int, rs: seq<N.Report>, kinds: Kinds)
    requires Mirrors(host, view, kinds)
    ensures Mirrors(N.SetAll(host, unit, PresentedReports(kinds, rs)), N.SetAll(view, unit, rs), kinds)
    decreases |rs|
  {
    hide Presented;
    if rs != [] {
      var r := rs[0];
      var host1 := host[(unit, r.name) := Presented(kinds, r.name, r.value)];
      var view1 := view[(unit, r.name) := r.value];
      assert Mirrors(host1, view1, kinds);
      assert PresentedReports(kinds, rs)[1..] == PresentedReports(kinds, rs[1..]);
      SetAllMirrors(host1, view1, unit, rs[1..], kinds);
    }
  }

  ghost predicate AllSent(msgs: seq<N.Message>, packets: seq<Packet>, kinds: Kinds)
  {
    |msgs| == |packets| && forall i :: 0 <= i < |msgs| ==> Sends(msgs[i], packets[i], kinds)
  }

  lemma {:induction false} HostMirrors(msgs: seq<N.Message>, packets: seq<Packet>, kinds: Kinds)
    requires AllSent(msgs, packets, kinds)
    ensures HostView(packets).Ok? && Mirrors(HostView(packets).value, N.Replay(msgs), kinds)
    decreases |msgs|
  {
    hide Sends, Hear, Presented;
    if msgs != [] {
      var n := |msgs| - 1;
      HostMirrors(msgs[..n], packets[..n], kinds);
      var m := msgs[n];
      Heard(m, packets[n], kinds);
      if !m.NBirth? {
        SetAllMirrors(HostView(packets[..n]).value, N.Replay(msgs[..n]), m.unit, m.metrics, kinds);
      }
    }
  }

  /** In every run of births and updates a host that decodes the bytes published since the
      last NBIRTH holds the node's value of every point, and null where none was read. */
  lemma HostHoldsValues(
      s: N.State, points: seq<N.Point>, es: seq<N.Event>, same: N.Equality, packets: seq<Packet>, kinds: Kinds)
    requires AllSent(N.Run(N.Birth(s, N.Devices(points)), points, es, same).since, packets, kinds)
    ensures HostView(packets).Ok?
    ensures var now := N.Run(N.Birth(s, N.Devices(points)), points, es, same);
            forall p :: p in points ==>
              && (p.unit, p.name) in HostView(packets).value
              && HostView(packets).value[(p.unit, p.name)] == Presented(kinds, p.name, N.Lookup(now.values, p.name))
  {
    hide N.Run, N.Birth, N.Devices, AllSent, HostView, Presented, N.Replay, N.Numbered;
    var born := N.Birth(s, N.Devices(points));
    N.BirthSyncs(s, points);
    N.AlwaysInSync(born, points, es, same);
    var now := N.Run(born, points, es, same);
    HostMirrors(now.since, packets, kinds);
    forall p | p in points
      ensures (p.unit, p.name) in HostView(packets).value
      ensures HostView(packets).value[(p.unit, p.name)] == Presented(kinds, p.name, N.Lookup(now.values, p.name))
    {
      assert N.Shows(N.Replay(now.since), p.unit, p.name, now.values);
    }
  }

  /** So it holds the last polled value of each point that was new when it was polled. */
  lemma HostHoldsLastPolled(
      s: N.State, points: seq<N.Point>, es: seq<N.Event>, same: N.Equality, packets: seq<Packet>, kinds: Kinds,
      p: N.Point)
    requires p in points
    requires AllSent(N.Run(N.Birth(s, N.Devices(points)), points, es, same).since, packets, kinds)
    ensures HostView(packets).Ok? && (p.unit, p.name) in HostView(packets).value
    ensures HostView(packets).value[(p.unit, p.name)] ==
            Presented(kinds, p.name, N.LastNew(N.Lookup(s.values, p.name), es, p.name, same))
  {
    hide N.Run, N.Birth, N.Devices, AllSent, HostView, Presented, N.LastNew;
    HostHoldsValues(s, points, es, same, packets, kinds);
    N.RunStores(N.Birth(s, N.Devices(points)), points, es, same, p.name);
    N.BirthKeeps(s, N.Devices(points));
  }

  // ---- every birth can be sent ----

  /** "bdSeq" and "Node Control/Rebirth". */
  const BDSEQ: Bytes := [98, 100, 83, 101, 113]
  const REBIRTH: Bytes := [
    78, 111, 100, 101, 32, 67, 111, 110, 116, 114, 111, 108, 47, 82, 101, 98, 105, 114, 116, 104
  ]

  /** The payload of an NBIRTH. */
  function BirthPayload(bdSeq: int, time: int): Payload
  {
    Payload(Some(time), [Metric(BDSEQ, UINT64, Some(IntV(bdSeq)), None, None, false),
                         Metric(REBIRTH, BOOLEAN, Some(BoolV(false)), None, None, false)], Some(0), None, None)
  }

  lemma FieldSize(f: Field)
    requires Sendable(f)
    ensures |FieldBytes(f)| <= 20 + if f.value.Raw? then |f.value.bytes| else 0
  {
    hide Varint;
    Pow128Ten();
    VarintLength(8 * f.number + f.wire, 10);
    match f.value
    case Int(v) => VarintLength(v, 10);
    case Raw(b) =>
      if f.wire == LEN {
        VarintLength(|b|, 10);
      }
  }

  function RawSize(fs: seq<Field>): nat
  {
    if fs == [] then 0 else (if fs[0].value.Raw? then |fs[0].value.bytes| else 0) + RawSize(fs[1..])
  }

  lemma {:induction false} FieldsSize(fs: seq<Field>)
    requires AllSendable(fs)
    ensures |FieldsBytes(fs)| <= 20 * |fs| + RawSize(fs)
  {
    hide FieldBytes, Sendable;
    if fs != [] {
      FieldsSize(fs[1..]);
      assert fs[0] in fs;
      FieldSize(fs[0]);
    }
  }

  lemma ShortMetric(m: Metric)
    requires D.Carriable(m) && |m.name| <= 100 && m.alias == None && m.timestamp == None && !m.isNull
    requires m.value.value.IntV? || m.value.value.BoolV?
    ensures MetricFields(m, true).Ok? && |FieldsBytes(MetricFields(m, true).value)| < 1000
  {
    hide FieldsBytes, ValidUtf8;
    D.MetricEncodable(m, true);
    D.MetricLayout(m, true);
    MetricFieldsSendable(m, true);
    var fs := MetricFields(m, true).value;
    hide MetricFields, D.Carriable;
    FieldsSize(fs);
    assert |fs| <= 3;
    assert RawSize(fs) <= 100 by {
      ThreeFields(fs);
    }
  }

  /** Only the first of them can hold bytes here. */
  lemma ThreeFields(fs: seq<Field>)
    requires |fs| <= 3 && forall i :: 1 <= i < |fs| ==> fs[i].value.Int?
    ensures RawSize(fs) == if fs != [] && fs[0].value.Raw? then |fs[0].value.bytes| else 0
  {
    if |fs| > 1 {
      assert fs[1..][0] == fs[1];
      if |fs| > 2 {
        assert fs[1..][1..][0] == fs[2];
      }
    }
  }

  lemma AsciiValid(s: Bytes)
    requires forall i :: 0 <= i < |s| ==> s[i] < 0x80
    ensures ValidUtf8(s)
  {
    if s != [] {
      AsciiValid(s[1..]);
    }
  }

  predicate AsciiName(s: Bytes) { |s| <= 100 && forall i :: 0 <= i < |s| ==> s[i] < 0x80 }

  lemma NodeMetric(name: Bytes, kind: int, v: Value)
    requires AsciiName(name) && D.Fits(kind, v) && (v.IntV? || v.BoolV?)
    ensures var m := Metric(name, kind, Some(v), None, None, false);
            && D.Carriable(m) && MetricFields(m, true).Ok?
            && |FieldsBytes(MetricFields(m, true).value)| < 1000
  {
    hide ValidUtf8, MetricFields, FieldsBytes;
    AsciiValid(name);
    ShortMetric(Metric(name, kind, Some(v), None, None, false));
  }

  lemma NodeNames()
    ensures AsciiName(BDSEQ) && AsciiName(REBIRTH)
  {
  }

  /** Every NBIRTH can be sent, and the host takes it for one. */
  lemma BirthSent(bdSeq: int, time: int, kinds: Kinds)
    requires 0 <= bdSeq < 256 && 0 <= time < U64
    ensures var p := BirthPayload(bdSeq, time);
            && PayloadFields(p, true).Ok?
            && Sends(N.NBirth(0), Packet(NBirthTopic, FieldsBytes(PayloadFields(p, true).value)), kinds)
  {
    hide FieldsBytes, MetricFields, PayloadFields, ValidUtf8, AsciiName, D.Carriable;
    var p := BirthPayload(bdSeq, time);
    NodeNames();
    NodeMetric(BDSEQ, UINT64, IntV(bdSeq));
    NodeMetric(REBIRTH, BOOLEAN, BoolV(false));
    assert D.AllCarriable(p.metrics, true);
    D.PayloadEncodable(p, true);
    assert Carries(p, N.NBirth(0), kinds);
  }
}
