/** The Sparkplug B payload codec of app/engine/sparkplug.py (section 6 of the Eclipse
    Sparkplug 3.0 specification, "Payloads"), on top of module Wire.

    A str is modelled by its UTF-8 bytes (a str with lone surrogates by bytes that are not
    valid UTF-8), and a float by the 4 or 8 bytes that carry it. */
module Sparkplug {
  import opened Common
  import opened Wire

  datatype Value =
    | IntV(i: int) | BoolV(b: bool) | FloatV(bits: Bytes) | DoubleV(bits: Bytes)
    | TextV(text: Bytes) | BlobV(blob: Bytes)

  datatype Metric = Metric(name: Bytes, kind: int, value: Option<Value>, alias: Option<int>,
                           timestamp: Option<int>, isNull: bool)

  datatype Payload = Payload(timestamp: Option<int>, metrics: seq<Metric>, sequence: Option<int>,
                             uuid: Option<Bytes>, body: Option<Bytes>)

  const NEW_METRIC := Metric([], 0, None, None, None, false)
  const NEW_PAYLOAD := Payload(None, [], None, None, None)

  // datatypes
  const INT8 := 1
  const INT16 := 2
  const INT32 := 3
  const INT64 := 4
  const UINT8 := 5
  const UINT16 := 6
  const UINT32 := 7
  const UINT64 := 8
  const FLOAT := 9
  const DOUBLE := 10
  const BOOLEAN := 11
  const STRING := 12
  const DATETIME := 13
  const TEXT := 14
  const BYTES := 17

  // members of the "value" oneof
  const F_INT: nat := 10
  const F_LONG: nat := 11
  const F_FLOAT: nat := 12
  const F_DOUBLE: nat := 13
  const F_BOOL: nat := 14
  const F_STRING: nat := 15
  const F_BYTES: nat := 16

  predicate IsInt(dt: int) { INT8 <= dt <= UINT64 || dt == DATETIME }

  predicate IsSigned(dt: int) { INT8 <= dt <= INT64 }

  /** 2 to the bit width of an integer datatype. */
  function Size(dt: int): (r: nat)
    requires IsInt(dt)
  {
    if dt == INT8 || dt == UINT8 then 0x100
    else if dt == INT16 || dt == UINT16 then 0x1_0000
    else if dt == INT32 || dt == UINT32 then U32
    else U64
  }

  predicate InRange(dt: int, i: int)
    requires IsInt(dt)
  {
    if IsSigned(dt) then -(Size(dt) / 2) <= i < Size(dt) / 2 else 0 <= i < Size(dt)
  }

  predicate Supported(dt: int)
  {
    IsInt(dt) || dt == FLOAT || dt == DOUBLE || dt == BOOLEAN || dt == STRING || dt == TEXT || dt == BYTES
  }

  /** The value field a datatype is encoded in. */
  function ValueField(dt: int): nat
    requires Supported(dt)
  {
    if IsInt(dt) then (if Size(dt) <= U32 then F_INT else F_LONG)
    else if dt == FLOAT then F_FLOAT
    else if dt == DOUBLE then F_DOUBLE
    else if dt == BOOLEAN then F_BOOL
    else if dt == BYTES then F_BYTES
    else F_STRING
  }

  /** The value fields a datatype is accepted in: also the other integer or float field. */
  predicate Accepts(dt: int, number: nat)
    requires Supported(dt)
  {
    if IsInt(dt) then number == F_INT || number == F_LONG
    else if dt == FLOAT || dt == DOUBLE then number == F_FLOAT || number == F_DOUBLE
    else number == ValueField(dt)
  }

  // ---- UTF-8 ----

  predicate Continuation(b: Byte) { 0x80 <= b < 0xC0 }

  /** Well-formed UTF-8, as Table 3-7 of the Unicode standard has it. */
  predicate ValidUtf8(s: Bytes)
    decreases |s|
  {
    if s == [] then true
    else if s[0] < 0x80 then ValidUtf8(s[1..])
    else if 0xC2 <= s[0] < 0xE0 then
      |s| >= 2 && Continuation(s[1]) && ValidUtf8(s[2..])
    else if 0xE0 <= s[0] < 0xF0 then
      && |s| >= 3 && Continuation(s[1]) && Continuation(s[2])
      && (s[0] == 0xE0 ==> s[1] >= 0xA0) && (s[0] == 0xED ==> s[1] < 0xA0)
      && ValidUtf8(s[3..])
    else if 0xF0 <= s[0] < 0xF5 then
      && |s| >= 4 && Continuation(s[1]) && Continuation(s[2]) && Continuation(s[3])
      && (s[0] == 0xF0 ==> s[1] >= 0x90) && (s[0] == 0xF4 ==> s[1] < 0x90)
      && ValidUtf8(s[4..])
    else false
  }

  // ---- metric values ----

  /** value & mask, for a value no lower than minus the size of the field. */
  function Mask(i: int, size: nat): int { if i < 0 then i + size else i }

  /** _signed: a two's complement pattern below size, read as a signed number. */
  function ReadSigned(raw: nat, size: nat): int { if raw >= size / 2 then raw - size else raw }

  function FieldSize(number: nat): nat { if number == F_INT then U32 else U64 }

  /** _encode_value, up to the bytes: the one field that carries the value. */
  function ValueFields(dt: int, v: Value): (r: Result<seq<Field>>)
    requires Supported(dt)
  {
    var number := ValueField(dt);
    if IsInt(dt) then
      if v.IntV? && InRange(dt, v.i) then Ok([Field(number, VARINT, Int(Mask(v.i, FieldSize(number))))]) else Err
    else if number == F_FLOAT then
      if v.FloatV? && |v.bits| == 4 then Ok([Field(number, I32, Raw(v.bits))]) else Err
    else if number == F_DOUBLE then
      if v.DoubleV? && |v.bits| == 8 then Ok([Field(number, I64, Raw(v.bits))]) else Err
    else if number == F_BOOL then
      if v.BoolV? then Ok([Field(number, VARINT, Int(if v.b then 1 else 0))])
      else if v.IntV? && (v.i == 0 || v.i == 1) then Ok([Field(number, VARINT, Int(v.i))])
      else Err
    else if number == F_STRING then
      if v.TextV? && ValidUtf8(v.text) && |v.text| < U64 then Ok([Field(number, LEN, Raw(v.text))]) else Err
    else
      if v.BlobV? && |v.blob| < U64 then Ok([Field(number, LEN, Raw(v.blob))]) else Err
  }

  /** _int_from_wire: the sign-extended form, or the narrow one some encoders emit. */
  function IntFromWire(raw: nat, fieldSize: nat, dt: int): (r: Result<int>)
    requires IsInt(dt)
  {
    var size := Size(dt);
    if !IsSigned(dt) then
      if raw >= size then Err else Ok(raw)
    else
      var value := ReadSigned(raw, fieldSize);
      if -(size / 2) <= value < size / 2 then Ok(value)
      else if size < fieldSize && raw < size then Ok(ReadSigned(raw, size))
      else Err
  }

  function DecodeValue(dt: int, number: nat, wire: Value): (r: Result<Value>)
  {
    if !Supported(dt) then Ok(wire)
    else if !Accepts(dt, number) then Err
    else if IsInt(dt) && wire.IntV? && wire.i >= 0 then
      var r := IntFromWire(wire.i, FieldSize(number), dt);
      if r.Err? then Err else Ok(IntV(r.value))
    else Ok(wire)
  }

  // ---- encoding ----

  function FieldsBytes(fs: seq<Field>): Bytes
  {
    if fs == [] then [] else FieldBytes(fs[0]) + FieldsBytes(fs[1..])
  }

  function NameFields(m: Metric): (r: seq<Field>)
    ensures |r| <= 1
  {
    if m.name == [] then [] else [Field(1, LEN, Raw(m.name))]
  }

  function NumberFields(number: nat, n: Option<int>): (r: seq<Field>)
    requires n.Some? ==> n.value >= 0
    ensures |r| <= 1
  {
    if n.None? then [] else [Field(number, VARINT, Int(n.value))]
  }

  function TypeFields(m: Metric, typed: bool): (r: seq<Field>)
    requires m.kind >= 0
    ensures |r| <= 1
  {
    if m.kind != 0 && typed then [Field(4, VARINT, Int(m.kind))] else []
  }

  predicate IsUint(n: Option<int>, size: nat) { n.Some? ==> 0 <= n.value < size }

  predicate IsText(t: Bytes) { ValidUtf8(t) && |t| < U64 }

  /** What _encode_metric can carry besides the value. */
  predicate HeadOk(m: Metric)
  {
    IsText(m.name) && IsUint(m.alias, U64) && IsUint(m.timestamp, U64) && (m.kind != 0 ==> Supported(m.kind))
  }

  function HeadFields(m: Metric, typed: bool): seq<Field>
    requires HeadOk(m)
  {
    NameFields(m) + (NumberFields(2, m.alias) + (NumberFields(3, m.timestamp) + TypeFields(m, typed)))
  }

  function TailFields(m: Metric): Result<seq<Field>>
    requires HeadOk(m)
  {
    if m.isNull then Ok([Field(7, VARINT, Int(1))])
    else if m.kind == 0 || m.value.None? then Err
    else ValueFields(m.kind, m.value.value)
  }

  /** The fields of an encoded metric, in the order they are written. */
  function MetricFields(m: Metric, typed: bool): (r: Result<seq<Field>>)
  {
    if !HeadOk(m) then Err else Join(Ok(HeadFields(m, typed)), TailFields(m))
  }

  function Serialize(fs: Result<seq<Field>>): Result<Bytes>
  {
    if fs.Err? then Err else Ok(FieldsBytes(fs.value))
  }

  /** _encode_metric: the output buffer grows field by field. */
  method EncodeMetric(m: Metric, typed: bool) returns (r: Result<Bytes>)
    ensures r == Serialize(MetricFields(m, typed))
  {
    assert FieldsBytes([]) == [];
    hide IsText, FieldsBytes, TailFields, NameFields, NumberFields, TypeFields, FieldBytes;
    if !IsText(m.name) || !IsUint(m.alias, U64) || !IsUint(m.timestamp, U64) {
      return Err;
    }
    if m.kind != 0 && !Supported(m.kind) {
      return Err;
    }
    ghost var a, b, c, d := NameFields(m), NumberFields(2, m.alias), NumberFields(3, m.timestamp), TypeFields(m, typed);
    var out := WriteOptional([], [], NameFields(m));
    assert [] + a == a;
    out := WriteOptional(out, a, NumberFields(2, m.alias));
    out := WriteOptional(out, a + b, NumberFields(3, m.timestamp));
    out := WriteOptional(out, (a + b) + c, TypeFields(m, typed));
    AppendAssociates(a + b, c, d);
    AppendAssociates(a, b, c + d);
    var tail := TailFields(m);
    if tail.Err? {
      return Err;
    }
    FieldsBytesAppend(HeadFields(m, typed), tail.value);
    r := Ok(out + FieldsBytes(tail.value));
  }

  /** One conditional "out +=": a field that may be absent. */
  method WriteOptional(out: Bytes, ghost fs: seq<Field>, more: seq<Field>) returns (r: Bytes)
    requires out == FieldsBytes(fs) && |more| <= 1
    ensures r == FieldsBytes(fs + more)
  {
    SerializeMore(fs, more);
    r := if more == [] then out else out + FieldBytes(more[0]);
  }

  lemma SerializeOne(fs: seq<Field>)
    requires |fs| <= 1
    ensures FieldsBytes(fs) == if fs == [] then [] else FieldBytes(fs[0])
  {
    if fs != [] {
      assert FieldBytes(fs[0]) + [] == FieldBytes(fs[0]);
    }
  }

  lemma SerializeMore(fs: seq<Field>, more: seq<Field>)
    requires |more| <= 1
    ensures FieldsBytes(fs + more) == FieldsBytes(fs) + (if more == [] then [] else FieldBytes(more[0]))
    ensures FieldsBytes(fs + more) == FieldsBytes(fs) + FieldsBytes(more)
  {
    FieldsBytesAppend(fs, more);
    SerializeOne(more);
  }

  lemma {:induction false} FieldsBytesAppend(a: seq<Field>, b: seq<Field>)
    ensures FieldsBytes(a + b) == FieldsBytes(a) + FieldsBytes(b)
  {
    if a == [] {
      assert a + b == b;
    } else {
      FieldsBytesAppend(a[1..], b);
      DropOfAppend(a, b, 1);
      AppendAssociates(FieldBytes(a[0]), FieldsBytes(a[1..]), FieldsBytes(b));
    }
  }

  /** One field 2 per metric. */
  function MetricsFields(ms: seq<Metric>, typed: bool): (r: Result<seq<Field>>)
  {
    if ms == [] then Ok([])
    else
      var first := Serialize(MetricFields(ms[0], typed));
      if first.Err? || |first.value| >= U64 then Err
      else Join(Ok([Field(2, LEN, Raw(first.value))]), MetricsFields(ms[1..], typed))
  }

  predicate IsBlob(b: Option<Bytes>) { b.Some? ==> |b.value| < U64 }

  function BytesFields(number: nat, b: Option<Bytes>): seq<Field>
  {
    if b.None? then [] else [Field(number, LEN, Raw(b.value))]
  }

  predicate EnvelopeOk(p: Payload)
  {
    && IsUint(p.timestamp, U64) && IsUint(p.sequence, 256)
    && (p.uuid.Some? ==> IsText(p.uuid.value)) && IsBlob(p.body)
  }

  function Trailer(p: Payload): seq<Field>
    requires EnvelopeOk(p)
  {
    NumberFields(3, p.sequence) + (BytesFields(4, p.uuid) + BytesFields(5, p.body))
  }

  function PayloadFields(p: Payload, typed: bool): (r: Result<seq<Field>>)
  {
    if !EnvelopeOk(p) then Err
    else Join(Ok(NumberFields(1, p.timestamp)), Join(MetricsFields(p.metrics, typed), Ok(Trailer(p))))
  }

  /** encode_payload: the output buffer, with a loop over the metrics. */
  method EncodePayload(p: Payload, typed: bool) returns (r: Result<Bytes>)
    ensures r == Serialize(PayloadFields(p, typed))
  {
    if !EnvelopeOk(p) {
      return Err;
    }
    var fs := NumberFields(1, p.timestamp);
    var out := FieldsBytes(fs);
    ghost var spec := Join(Ok(fs), MetricsFields(p.metrics, typed));
    for i := 0 to |p.metrics|
      invariant out == FieldsBytes(fs)
      invariant spec == Join(Ok(fs), MetricsFields(p.metrics[i..], typed))
    {
      var metric := EncodeMetric(p.metrics[i], typed);
      EncodeStep(fs, p.metrics, i, typed);
      if metric.Err? || |metric.value| >= U64 {
        return Err;
      }
      var field := Field(2, LEN, Raw(metric.value));
      out := out + FieldBytes(field);
      SerializeMore(fs, [field]);
      fs := fs + [field];
    }
    JoinEnds(fs);
    FieldsBytesAppend(fs, Trailer(p));
    assert PayloadFields(p, typed) == Join(spec, Ok(Trailer(p))) by {
      JoinAssociates(NumberFields(1, p.timestamp), MetricsFields(p.metrics, typed), Ok(Trailer(p)));
    }
    r := Ok(out + FieldsBytes(Trailer(p)));
  }

  lemma EncodeStep(fs: seq<Field>, ms: seq<Metric>, i: nat, typed: bool)
    requires i < |ms|
    ensures var first, whole := Serialize(MetricFields(ms[i], typed)), Join(Ok(fs), MetricsFields(ms[i..], typed));
            if first.Err? || |first.value| >= U64 then whole.Err?
            else whole == Join(Ok(fs + [Field(2, LEN, Raw(first.value))]), MetricsFields(ms[i + 1..], typed))
  {
    hide MetricFields;
    var first := Serialize(MetricFields(ms[i], typed));
    assert ms[i..][0] == ms[i];
    DropTwice(ms, i, 1);
    if first.Ok? {
      JoinMoves(fs, [Field(2, LEN, Raw(first.value))], MetricsFields(ms[i + 1..], typed));
    }
  }

  // ---- decoding ----

  /** A metric half read: the value oneof is kept apart until every field is seen. */
  datatype Partial = Partial(metric: Metric, value: Option<(nat, Value)>)

  const NEW_PARTIAL := Partial(NEW_METRIC, None)

  /** The body of _decode_metric's loop. */
  function MetricStep(acc: Partial, f: Field): (r: Result<Partial>)
  {
    var m := acc.metric;
    match f.value
    case Int(n) =>
      if f.number == 2 then Ok(acc.(metric := m.(alias := Some(n))))
      else if f.number == 3 then Ok(acc.(metric := m.(timestamp := Some(n))))
      else if f.number == 4 then Ok(acc.(metric := m.(kind := n % U32)))
      else if f.number == 7 then Ok(acc.(metric := m.(isNull := n != 0)))
      else if f.number == F_INT then Ok(acc.(value := Some((f.number, IntV(n % U32)))))
      else if f.number == F_LONG then Ok(acc.(value := Some((f.number, IntV(n)))))
      else if f.number == F_BOOL then Ok(acc.(value := Some((f.number, BoolV(n != 0)))))
      else Ok(acc)
    case Raw(b) =>
      if f.wire == LEN then
        if f.number == 1 then if ValidUtf8(b) then Ok(acc.(metric := m.(name := b))) else Err
        else if f.number == F_STRING then
          if ValidUtf8(b) then Ok(acc.(value := Some((f.number, TextV(b))))) else Err
        else if f.number == F_BYTES then Ok(acc.(value := Some((f.number, BlobV(b)))))
        else Ok(acc)
      else if f.number == F_FLOAT && f.wire == I32 then Ok(acc.(value := Some((f.number, FloatV(b)))))
      else if f.number == F_DOUBLE && f.wire == I64 then Ok(acc.(value := Some((f.number, DoubleV(b)))))
      else Ok(acc)
  }

  function FoldMetric(acc: Result<Partial>, fs: seq<Field>): (r: Result<Partial>)
    decreases |fs|
  {
    if acc.Err? || fs == [] then acc else FoldMetric(MetricStep(acc.value, fs[0]), fs[1..])
  }

  function FinishMetric(acc: Partial): (r: Result<Metric>)
  {
    if acc.value.None? || acc.metric.isNull then Ok(acc.metric)
    else
      var v := DecodeValue(acc.metric.kind, acc.value.value.0, acc.value.value.1);
      if v.Err? then Err else Ok(acc.metric.(value := Some(v.value)))
  }

  function MetricOf(fs: Result<seq<Field>>): (r: Result<Metric>)
  {
    if fs.Err? then Err
    else
      var acc := FoldMetric(Ok(NEW_PARTIAL), fs.value);
      if acc.Err? then Err else FinishMetric(acc.value)
  }

  /** What _decode_metric makes of the bytes of one metric. */
  function DecodeMetric(data: Bytes): (r: Result<Metric>) { MetricOf(Fields(data)) }

  /** The body of decode_payload's loop. */
  function PayloadStep(p: Payload, f: Field): (r: Result<Payload>)
  {
    match f.value
    case Int(n) =>
      if f.number == 1 then Ok(p.(timestamp := Some(n)))
      else if f.number == 3 then Ok(p.(sequence := Some(n)))
      else Ok(p)
    case Raw(b) =>
      if f.wire != LEN then Ok(p)
      else if f.number == 2 then
        var m := DecodeMetric(b);
        if m.Err? then Err else Ok(p.(metrics := p.metrics + [m.value]))
      else if f.number == 4 then if ValidUtf8(b) then Ok(p.(uuid := Some(b))) else Err
      else if f.number == 5 then Ok(p.(body := Some(b)))
      else Ok(p)
  }

  function FoldPayload(acc: Result<Payload>, fs: seq<Field>): (r: Result<Payload>)
    decreases |fs|
  {
    if acc.Err? || fs == [] then acc else FoldPayload(PayloadStep(acc.value, fs[0]), fs[1..])
  }

  function PayloadOf(fs: Result<seq<Field>>): (r: Result<Payload>)
  {
    if fs.Err? then Err else FoldPayload(Ok(NEW_PAYLOAD), fs.value)
  }

  function DecodePayload(data: Bytes): (r: Result<Payload>) { PayloadOf(Fields(data)) }

  /** _decode_metric: the loop that fills in the metric. */
  method ParseMetric(data: Bytes) returns (r: Result<Metric>)
    ensures r == DecodeMetric(data)
  {
    var fields := WalkFields(data);
    if fields.Err? {
      return Err;
    }
    var fs, acc := fields.value, NEW_PARTIAL;
    assert fs[0..] == fs;
    for i := 0 to |fs|
      invariant FoldMetric(Ok(acc), fs[i..]) == FoldMetric(Ok(NEW_PARTIAL), fs)
    {
      hide MetricStep;
      var next := MetricStep(acc, fs[i]);
      DropTwice(fs, i, 1);
      if next.Err? {
        return Err;
      }
      acc := next.value;
    }
    r := FinishMetric(acc);
  }

  /** decode_payload: the loop that fills in the payload. */
  method ParsePayload(data: Bytes) returns (r: Result<Payload>)
    ensures r == DecodePayload(data)
  {
    var fields := WalkFields(data);
    if fields.Err? {
      return Err;
    }
    var fs, p := fields.value, NEW_PAYLOAD;
    assert fs[0..] == fs;
    for i := 0 to |fs|
      invariant FoldPayload(Ok(p), fs[i..]) == FoldPayload(Ok(NEW_PAYLOAD), fs)
    {
      hide PayloadStep;
      var next := PayloadStep(p, fs[i]);
      DropTwice(fs, i, 1);
      if next.Err? {
        return Err;
      }
      p := next.value;
    }
    r := Ok(p);
  }
}
