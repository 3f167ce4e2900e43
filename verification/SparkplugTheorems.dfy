/** What the codec of module Sparkplug guarantees: every payload it can encode is decoded
    to the same payload, and fields it does not model change nothing. */
module SparkplugTheorems {
  import opened Common
  import opened Wire
  import opened Sparkplug

  // ---- what a receiver sees ----

  /** A value as its datatype presents it: a Boolean given as 0 or 1 arrives as a bool. */
  function Canonical(dt: int, v: Value): Value
  {
    if dt == BOOLEAN && v.IntV? then BoolV(v.i != 0) else v
  }

  /** A value sent without its datatype: integers stay the unsigned pattern of the field. */
  function Untyped(dt: int, v: Value): Value
    requires Supported(dt)
  {
    if IsInt(dt) && v.IntV? then IntV(Mask(v.i, FieldSize(ValueField(dt)))) else Canonical(dt, v)
  }

  function ReceivedValue(m: Metric, typed: bool): Option<Value>
    requires HeadOk(m)
  {
    if m.isNull || m.value.None? || m.kind == 0 then None
    else Some(if typed then Canonical(m.kind, m.value.value) else Untyped(m.kind, m.value.value))
  }

  /** The metric a receiver holds: everything but a null metric's value. */
  function Received(m: Metric, typed: bool): Metric
    requires HeadOk(m)
  {
    Metric(m.name, if typed then m.kind else 0, ReceivedValue(m, typed), m.alias, m.timestamp, m.isNull)
  }

  predicate AllHeadsOk(ms: seq<Metric>) { forall m :: m in ms ==> HeadOk(m) }

  function ReceivedAll(ms: seq<Metric>, typed: bool): seq<Metric>
    requires AllHeadsOk(ms)
  {
    if ms == [] then [] else [Received(ms[0], typed)] + ReceivedAll(ms[1..], typed)
  }

  // ---- written fields are read back ----

  predicate AllSendable(fs: seq<Field>) { forall f :: f in fs ==> Sendable(f) }

  lemma {:induction false} FieldsOfWritten(fs: seq<Field>)
    requires AllSendable(fs)
    ensures Fields(FieldsBytes(fs)) == Ok(fs)
  {
    hide FieldBytes, ReadTurn;
    if fs != [] {
      var first, rest := FieldBytes(fs[0]), FieldsBytes(fs[1..]);
      FieldsOfWritten(fs[1..]);
      TurnOfWritten(fs[0], rest);
      DropLength(first, rest);
      FirstAndRest(fs);
    }
  }

  lemma MetricFieldsSendable(m: Metric, typed: bool)
    requires MetricFields(m, typed).Ok?
    ensures AllSendable(MetricFields(m, typed).value)
  {
    HeadSendable(m, typed);
    TailSendable(m);
  }

  lemma HeadSendable(m: Metric, typed: bool)
    requires HeadOk(m)
    ensures AllSendable(HeadFields(m, typed))
  {
  }

  lemma TailSendable(m: Metric)
    requires HeadOk(m) && TailFields(m).Ok?
    ensures AllSendable(TailFields(m).value)
  {
  }

  // ---- one metric ----

  lemma {:induction false} FoldMetricAppend(acc: Result<Partial>, a: seq<Field>, b: seq<Field>)
    ensures FoldMetric(acc, a + b) == FoldMetric(FoldMetric(acc, a), b)
    decreases |a|
  {
    hide MetricStep;
    if a == [] {
      assert a + b == b;
    } else if acc.Ok? {
      FoldMetricAppend(MetricStep(acc.value, a[0]), a[1..], b);
      DropOfAppend(a, b, 1);
    }
  }

  lemma FoldMetricOne(acc: Partial, fs: seq<Field>)
    requires |fs| <= 1
    ensures FoldMetric(Ok(acc), fs) == if fs == [] then Ok(acc) else MetricStep(acc, fs[0])
  {
    hide MetricStep;
  }

  lemma SmallMod(n: nat, size: nat)
    requires n < size
    ensures n % size == n
  {
  }

  lemma FoldHead(m: Metric, typed: bool)
    requires HeadOk(m)
    ensures FoldMetric(Ok(NEW_PARTIAL), HeadFields(m, typed)) ==
            Ok(Partial(Metric(m.name, if typed then m.kind else 0, None, m.alias, m.timestamp, false), None))
  {
    hide FoldMetric;
    var a, b, c, d := NameFields(m), NumberFields(2, m.alias), NumberFields(3, m.timestamp), TypeFields(m, typed);
    FoldMetricAppend(Ok(NEW_PARTIAL), a, b + (c + d));
    FoldMetricOne(NEW_PARTIAL, a);
    var m1 := NEW_METRIC.(name := m.name);
    FoldMetricAppend(Ok(Partial(m1, None)), b, c + d);
    FoldMetricOne(Partial(m1, None), b);
    var m2 := m1.(alias := m.alias);
    FoldMetricAppend(Ok(Partial(m2, None)), c, d);
    FoldMetricOne(Partial(m2, None), c);
    var m3 := m2.(timestamp := m.timestamp);
    FoldMetricOne(Partial(m3, None), d);
    if m.kind != 0 {
      SmallMod(m.kind, U32);
    }
  }

  /** What the value field leaves in the oneof. */
  lemma StepValue(acc: Partial, dt: int, v: Value)
    requires Supported(dt) && ValueFields(dt, v).Ok?
    ensures |ValueFields(dt, v).value| == 1
    ensures MetricStep(acc, ValueFields(dt, v).value[0]) ==
            Ok(acc.(value := Some((ValueField(dt), Untyped(dt, v)))))
  {
    if IsInt(dt) {
      var w := Mask(v.i, FieldSize(ValueField(dt)));
      if ValueField(dt) == F_INT {
        SmallMod(w, U32);
      }
    }
  }

  /** Two's complement of the field width is undone by the datatype. */
  lemma IntRoundTrip(dt: int, i: int)
    requires IsInt(dt) && InRange(dt, i)
    ensures var size := FieldSize(ValueField(dt));
            0 <= Mask(i, size) < size && IntFromWire(Mask(i, size), size, dt) == Ok(i)
  {
  }

  /** The wire forms accepted for a number are exactly its sign-extended pattern and, for
      a signed type, the pattern of its own width. */
  lemma AcceptedForms(raw: nat, number: nat, dt: int, i: int)
    requires IsInt(dt) && (number == F_INT || number == F_LONG)
    requires raw < FieldSize(number) && Size(dt) <= FieldSize(number)
    ensures IntFromWire(raw, FieldSize(number), dt) == Ok(i) <==>
            InRange(dt, i) && (raw == Mask(i, FieldSize(number)) || (IsSigned(dt) && raw == Mask(i, Size(dt))))
  {
  }

  lemma DecodeCanonical(dt: int, v: Value)
    requires Supported(dt) && ValueFields(dt, v).Ok?
    ensures DecodeValue(dt, ValueField(dt), Untyped(dt, v)) == Ok(Canonical(dt, v))
  {
    if IsInt(dt) {
      IntRoundTrip(dt, v.i);
    }
  }

  lemma MetricOfFields(m: Metric, typed: bool)
    requires MetricFields(m, typed).Ok?
    ensures MetricOf(MetricFields(m, typed)) == Ok(Received(m, typed))
  {
    hide HeadFields, FoldMetric, ValueFields;
    var head, tail := HeadFields(m, typed), TailFields(m).value;
    FoldMetricAppend(Ok(NEW_PARTIAL), head, tail);
    FoldHead(m, typed);
    var acc := Partial(Metric(m.name, if typed then m.kind else 0, None, m.alias, m.timestamp, false), None);
    if !m.isNull {
      StepValue(acc, m.kind, m.value.value);
      DecodeCanonical(m.kind, m.value.value);
    }
    FoldMetricOne(acc, tail);
  }

  /** A metric survives the wire. */
  lemma MetricRoundTrip(m: Metric, typed: bool)
    requires MetricFields(m, typed).Ok?
    ensures DecodeMetric(FieldsBytes(MetricFields(m, typed).value)) == Ok(Received(m, typed))
  {
    hide MetricFields, MetricOf, FieldsBytes;
    MetricFieldsSendable(m, typed);
    FieldsOfWritten(MetricFields(m, typed).value);
    MetricOfFields(m, typed);
  }

  // ---- one payload ----

  lemma {:induction false} FoldPayloadAppend(acc: Result<Payload>, a: seq<Field>, b: seq<Field>)
    ensures FoldPayload(acc, a + b) == FoldPayload(FoldPayload(acc, a), b)
    decreases |a|
  {
    hide PayloadStep;
    if a == [] {
      assert a + b == b;
    } else if acc.Ok? {
      FoldPayloadAppend(PayloadStep(acc.value, a[0]), a[1..], b);
      DropOfAppend(a, b, 1);
    }
  }

  lemma FoldPayloadOne(acc: Payload, fs: seq<Field>)
    requires |fs| <= 1
    ensures FoldPayload(Ok(acc), fs) == if fs == [] then Ok(acc) else PayloadStep(acc, fs[0])
  {
    hide PayloadStep;
  }

  lemma {:induction false} MetricsHeads(ms: seq<Metric>, typed: bool)
    requires MetricsFields(ms, typed).Ok?
    ensures AllHeadsOk(ms) && AllSendable(MetricsFields(ms, typed).value)
  {
    hide Sendable, HeadOk;
    if ms != [] {
      MetricsHeads(ms[1..], typed);
      MetricHead(ms[0], typed);
      var first := Serialize(MetricFields(ms[0], typed)).value;
      LengthFieldSendable(2, first);
    }
  }

  lemma MetricHead(m: Metric, typed: bool)
    requires MetricFields(m, typed).Ok?
    ensures HeadOk(m)
  {
  }

  lemma LengthFieldSendable(number: nat, b: Bytes)
    requires 1 <= number <= MAX_FIELD && |b| < U64
    ensures Sendable(Field(number, LEN, Raw(b)))
  {
  }

  lemma {:induction false} FoldMetrics(p: Payload, ms: seq<Metric>, typed: bool)
    requires MetricsFields(ms, typed).Ok? && AllHeadsOk(ms)
    ensures FoldPayload(Ok(p), MetricsFields(ms, typed).value) ==
            Ok(p.(metrics := p.metrics + ReceivedAll(ms, typed)))
    decreases |ms|
  {
    hide MetricFields, DecodeMetric, Received, HeadOk;
    if ms == [] {
      assert p.metrics + [] == p.metrics;
    } else {
      var first := Serialize(MetricFields(ms[0], typed)).value;
      var field, rest := Field(2, LEN, Raw(first)), MetricsFields(ms[1..], typed).value;
      MetricRoundTrip(ms[0], typed);
      var p1 := p.(metrics := p.metrics + [Received(ms[0], typed)]);
      assert PayloadStep(p, field) == Ok(p1);
      FoldPayloadAppend(Ok(p), [field], rest);
      FoldPayloadOne(p, [field]);
      FoldMetrics(p1, ms[1..], typed);
      AppendAssociates(p.metrics, [Received(ms[0], typed)], ReceivedAll(ms[1..], typed));
    }
  }

  lemma FoldTrailer(p: Payload, p0: Payload)
    requires EnvelopeOk(p) && p0.sequence.None? && p0.uuid.None? && p0.body.None?
    ensures FoldPayload(Ok(p0), Trailer(p)) == Ok(p0.(sequence := p.sequence, uuid := p.uuid, body := p.body))
  {
    hide FoldPayload;
    var a, b, c := NumberFields(3, p.sequence), BytesFields(4, p.uuid), BytesFields(5, p.body);
    FoldPayloadAppend(Ok(p0), a, b + c);
    FoldPayloadOne(p0, a);
    var p1 := p0.(sequence := p.sequence);
    FoldPayloadAppend(Ok(p1), b, c);
    FoldPayloadOne(p1, b);
    FoldPayloadOne(p1.(uuid := p.uuid), c);
  }

  /** decode_payload undoes encode_payload, for every payload that can be encoded: any
      number of metrics, any supported datatypes, full ranges; only a null metric loses
      its value, and without datatypes an integer arrives as its unsigned pattern. */
  lemma PayloadRoundTrip(p: Payload, typed: bool)
    requires PayloadFields(p, typed).Ok?
    ensures AllHeadsOk(p.metrics)
    ensures DecodePayload(FieldsBytes(PayloadFields(p, typed).value)) ==
            Ok(p.(metrics := ReceivedAll(p.metrics, typed)))
  {
    hide MetricsFields, Trailer, FoldPayload, FieldsBytes;
    var a, b, c := NumberFields(1, p.timestamp), MetricsFields(p.metrics, typed).value, Trailer(p);
    MetricsHeads(p.metrics, typed);
    TrailerSendable(p);
    FieldsOfWritten(a + (b + c));
    FoldPayloadAppend(Ok(NEW_PAYLOAD), a, b + c);
    FoldPayloadOne(NEW_PAYLOAD, a);
    var p1 := NEW_PAYLOAD.(timestamp := p.timestamp);
    FoldPayloadAppend(Ok(p1), b, c);
    FoldMetrics(p1, p.metrics, typed);
    assert [] + ReceivedAll(p.metrics, typed) == ReceivedAll(p.metrics, typed);
    FoldTrailer(p, p1.(metrics := ReceivedAll(p.metrics, typed)));
  }

  lemma TrailerSendable(p: Payload)
    requires EnvelopeOk(p)
    ensures AllSendable(Trailer(p)) && AllSendable(NumberFields(1, p.timestamp))
  {
  }

  // ---- unmodelled fields ----

  /** A field that _decode_metric passes over: an unknown number, or a known one with the
      wrong wire type. */
  predicate MetricIgnores(f: Field)
  {
    match f.value
    case Int(_) => f.number !in {2, 3, 4, 7, F_INT, F_LONG, F_BOOL}
    case Raw(_) =>
      if f.wire == LEN then f.number !in {1, F_STRING, F_BYTES}
      else !(f.number == F_FLOAT && f.wire == I32) && !(f.number == F_DOUBLE && f.wire == I64)
  }

  predicate PayloadIgnores(f: Field)
  {
    match f.value
    case Int(_) => f.number !in {1, 3}
    case Raw(_) => f.wire != LEN || f.number !in {2, 4, 5}
  }

  lemma {:induction false} FoldIgnored(acc: Result<Partial>, fs: seq<Field>)
    requires forall f :: f in fs ==> MetricIgnores(f)
    ensures FoldMetric(acc, fs) == acc
    decreases |fs|
  {
    if acc.Ok? && fs != [] {
      assert MetricIgnores(fs[0]);
      FoldIgnored(acc, fs[1..]);
    }
  }

  lemma {:induction false} FoldPayloadIgnored(acc: Result<Payload>, fs: seq<Field>)
    requires forall f :: f in fs ==> PayloadIgnores(f)
    ensures FoldPayload(acc, fs) == acc
    decreases |fs|
  {
    if acc.Ok? && fs != [] {
      assert PayloadIgnores(fs[0]);
      FoldPayloadIgnored(acc, fs[1..]);
    }
  }

  /** The fields of three parts, the first two well formed. */
  lemma FieldsOfThree(a: Bytes, x: Bytes, b: Bytes)
    requires Fields(a).Ok? && Fields(x).Ok?
    ensures Fields(a + (x + b)) == Join(Ok(Fields(a).value + Fields(x).value), Fields(b))
    ensures Fields(a + b) == Join(Fields(a), Fields(b))
  {
    FieldsAppend(a, x + b);
    FieldsAppend(x, b);
    FieldsAppend(a, b);
    JoinMoves(Fields(a).value, Fields(x).value, Fields(b));
  }

  /** Unmodelled fields between two fields of a metric change nothing, whatever follows:
      the decoded metric is the same, and an error is the same error. */
  lemma MetricTransparent(a: Bytes, x: Bytes, b: Bytes)
    requires Fields(a).Ok? && Fields(x).Ok?
    requires forall f :: f in Fields(x).value ==> MetricIgnores(f)
    ensures DecodeMetric(a + (x + b)) == DecodeMetric(a + b)
  {
    hide FoldMetric, Fields, MetricIgnores;
    FieldsOfThree(a, x, b);
    if Fields(b).Ok? {
      var fa, fx, fb := Fields(a).value, Fields(x).value, Fields(b).value;
      var start := Ok(NEW_PARTIAL);
      FoldMetricAppend(start, fa + fx, fb);
      FoldMetricAppend(start, fa, fx);
      FoldIgnored(FoldMetric(start, fa), fx);
      FoldMetricAppend(start, fa, fb);
    }
  }

  lemma PayloadTransparent(a: Bytes, x: Bytes, b: Bytes)
    requires Fields(a).Ok? && Fields(x).Ok?
    requires forall f :: f in Fields(x).value ==> PayloadIgnores(f)
    ensures DecodePayload(a + (x + b)) == DecodePayload(a + b)
  {
    hide FoldPayload, Fields, PayloadIgnores;
    FieldsOfThree(a, x, b);
    if Fields(b).Ok? {
      var fa, fx, fb := Fields(a).value, Fields(x).value, Fields(b).value;
      var start := Ok(NEW_PAYLOAD);
      FoldPayloadAppend(start, fa + fx, fb);
      FoldPayloadAppend(start, fa, fx);
      FoldPayloadIgnored(FoldPayload(start, fa), fx);
      FoldPayloadAppend(start, fa, fb);
    }
  }

  /** In particular any tree of unmodelled fields and groups, nested to any depth (a group
      may hold fields of any number, also modelled ones). */
  lemma ItemsTransparent(a: Bytes, items: seq<Item>, b: Bytes)
    requires Fields(a).Ok? && SendableItems(items)
    ensures (forall f :: f in Reported(items) ==> MetricIgnores(f)) ==>
              DecodeMetric(a + (ItemsBytes(items) + b)) == DecodeMetric(a + b)
    ensures (forall f :: f in Reported(items) ==> PayloadIgnores(f)) ==>
              DecodePayload(a + (ItemsBytes(items) + b)) == DecodePayload(a + b)
  {
    hide DecodeMetric, DecodePayload, Fields, MetricIgnores, PayloadIgnores, ItemsBytes, Reported, SendableItems;
    FieldsOfItems(items);
    if forall f :: f in Reported(items) ==> MetricIgnores(f) {
      MetricTransparent(a, ItemsBytes(items), b);
    }
    if forall f :: f in Reported(items) ==> PayloadIgnores(f) {
      PayloadTransparent(a, ItemsBytes(items), b);
    }
  }

  /** And inside a metric of a payload: re-framed with the unmodelled items in it, the
      metric leaves the whole payload as it was. */
  lemma NestedTransparent(pre: Bytes, a: Bytes, items: seq<Item>, b: Bytes, post: Bytes)
    requires Fields(pre).Ok? && Fields(a).Ok? && SendableItems(items)
    requires forall f :: f in Reported(items) ==> MetricIgnores(f)
    requires |a + (ItemsBytes(items) + b)| < U64
    ensures DecodePayload(pre + (FieldBytes(Field(2, LEN, Raw(a + (ItemsBytes(items) + b)))) + post)) ==
            DecodePayload(pre + (FieldBytes(Field(2, LEN, Raw(a + b))) + post))
  {
    hide DecodeMetric, Fields, FieldBytes, MetricIgnores, ItemsBytes, Reported, SendableItems, FoldPayload;
    var long, short := Field(2, LEN, Raw(a + (ItemsBytes(items) + b))), Field(2, LEN, Raw(a + b));
    ItemsTransparent(a, items, b);
    DecodeOneField(pre, long, post);
    DecodeOneField(pre, short, post);
  }

  lemma DecodeOneField(pre: Bytes, f: Field, post: Bytes)
    requires Fields(pre).Ok? && Sendable(f)
    ensures DecodePayload(pre + (FieldBytes(f) + post)) ==
            if Fields(post).Err? then Err
            else
              var acc := FoldPayload(Ok(NEW_PAYLOAD), Fields(pre).value);
              if acc.Err? then Err else FoldPayload(PayloadStep(acc.value, f), Fields(post).value)
  {
    hide FieldBytes, PayloadStep, Sendable;
    OneField(f);
    FieldsOfThree(pre, FieldBytes(f), post);
    if Fields(post).Ok? {
      var fpre := Fields(pre).value;
      FoldPayloadAppend(Ok(NEW_PAYLOAD), fpre + [f], Fields(post).value);
      FoldPayloadAppend(Ok(NEW_PAYLOAD), fpre, [f]);
      var acc := FoldPayload(Ok(NEW_PAYLOAD), fpre);
      if acc.Ok? {
        FoldPayloadOne(acc.value, [f]);
      }
    }
  }

  lemma OneField(f: Field)
    requires Sendable(f)
    ensures Fields(FieldBytes(f)) == Ok([f])
  {
    hide FieldBytes, Sendable, Fields;
    assert AllSendable([f]);
    FieldsOfWritten([f]);
    SerializeOne([f]);
  }
}
