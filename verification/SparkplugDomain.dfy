/** What the codec of module Sparkplug accepts, and where on the wire it puts it, stated by
    the tables of section 6.4 of the Eclipse Sparkplug 3.0 specification. */
module SparkplugDomain {
  import opened Common
  import opened Wire
  import opened Sparkplug
  import opened SparkplugTheorems

  const TWO64 := 0x1_0000_0000_0000_0000

  // ---- what can be encoded ----

  /** The integers of a datatype, from the lowest to the highest. */
  function Lowest(dt: int): int
  {
    match dt
    case 1 => -0x80
    case 2 => -0x8000
    case 3 => -0x8000_0000
    case 4 => -0x8000_0000_0000_0000
    case _ => 0
  }

  function Highest(dt: int): int
  {
    match dt
    case 1 => 0x7F
    case 2 => 0x7FFF
    case 3 => 0x7FFF_FFFF
    case 4 => 0x7FFF_FFFF_FFFF_FFFF
    case 5 => 0xFF
    case 6 => 0xFFFF
    case 7 => 0xFFFF_FFFF
    case 8 => 0xFFFF_FFFF_FFFF_FFFF
    case 13 => 0xFFFF_FFFF_FFFF_FFFF
    case _ => -1
  }

  /** A value that its datatype can hold. */
  predicate Fits(dt: int, v: Value)
  {
    match v
    case IntV(i) => Lowest(dt) <= i <= Highest(dt) || (dt == 11 && (i == 0 || i == 1))
    case BoolV(_) => dt == 11
    case FloatV(bits) => dt == 9 && |bits| == 4
    case DoubleV(bits) => dt == 10 && |bits| == 8
    case TextV(t) => (dt == 12 || dt == 14) && ValidUtf8(t) && |t| < TWO64
    case BlobV(b) => dt == 17 && |b| < TWO64
  }

  predicate Word64(n: Option<int>) { n.Some? ==> 0 <= n.value < TWO64 }

  /** A metric that can be sent. */
  predicate Carriable(m: Metric)
  {
    && ValidUtf8(m.name) && |m.name| < TWO64 && Word64(m.alias) && Word64(m.timestamp)
    && (m.kind == 0 || 1 <= m.kind <= 14 || m.kind == 17)
    && (m.isNull || (m.kind != 0 && m.value.Some? && Fits(m.kind, m.value.value)))
  }

  lemma ValueFits(dt: int, v: Value)
    requires Supported(dt)
    ensures ValueFields(dt, v).Ok? <==> Fits(dt, v)
  {
    hide ValidUtf8;
  }

  /** The encoder takes a metric exactly when it is carriable. */
  lemma MetricEncodable(m: Metric, typed: bool)
    ensures MetricFields(m, typed).Ok? <==> Carriable(m)
  {
    hide ValidUtf8, ValueFields, HeadFields, Fits;
    if Supported(m.kind) && m.value.Some? {
      ValueFits(m.kind, m.value.value);
    }
  }

  predicate Size64(b: Option<Bytes>) { b.Some? ==> |b.value| < TWO64 }

  predicate Envelope(p: Payload)
  {
    && Word64(p.timestamp) && (p.sequence.Some? ==> 0 <= p.sequence.value <= 255)
    && Size64(p.uuid) && (p.uuid.Some? ==> ValidUtf8(p.uuid.value)) && Size64(p.body)
  }

  /** Every metric can be sent, in fewer than 2^64 bytes. */
  predicate AllCarriable(ms: seq<Metric>, typed: bool)
  {
    forall i :: 0 <= i < |ms| ==>
      Carriable(ms[i]) && (MetricFields(ms[i], typed).Ok? ==> |FieldsBytes(MetricFields(ms[i], typed).value)| < TWO64)
  }

  lemma {:induction false} MetricsEncodable(ms: seq<Metric>, typed: bool)
    ensures MetricsFields(ms, typed).Ok? <==> AllCarriable(ms, typed)
  {
    hide MetricFields, Carriable, FieldsBytes;
    if ms != [] {
      MetricEncodable(ms[0], typed);
      MetricsEncodable(ms[1..], typed);
      assert AllCarriable(ms, typed) ==> AllCarriable(ms[1..], typed);
      FirstAndRest(ms);
      if AllCarriable(ms[1..], typed) {
        forall i | 1 <= i < |ms|
          ensures Carriable(ms[i])
          ensures MetricFields(ms[i], typed).Ok? ==> |FieldsBytes(MetricFields(ms[i], typed).value)| < TWO64
        {
          assert ms[i] == ms[1..][i - 1];
        }
      }
    }
  }

  /** And a payload exactly when its envelope is in range and every metric is carriable. */
  lemma PayloadEncodable(p: Payload, typed: bool)
    ensures PayloadFields(p, typed).Ok? <==> Envelope(p) && AllCarriable(p.metrics, typed)
  {
    hide ValidUtf8, MetricsFields, AllCarriable, Trailer, NumberFields;
    MetricsEncodable(p.metrics, typed);
  }

  // ---- where it goes ----

  /** The field of a value: its number, its wire type and its contents. */
  function OnWire(dt: int, v: Value): Field
    requires Fits(dt, v)
  {
    match v
    case IntV(i) =>
      if dt == 11 then Field(14, 0, Int(if i == 0 then 0 else 1))
      else if dt == 4 || dt == 8 || dt == 13 then Field(11, 0, Int(if i < 0 then i + TWO64 else i))
      else Field(10, 0, Int(if i < 0 then i + 0x1_0000_0000 else i))
    case BoolV(b) => Field(14, 0, Int(if b then 1 else 0))
    case FloatV(bits) => Field(12, 5, Raw(bits))
    case DoubleV(bits) => Field(13, 1, Raw(bits))
    case TextV(t) => Field(15, 2, Raw(t))
    case BlobV(b) => Field(16, 2, Raw(b))
  }

  lemma ValueLayout(dt: int, v: Value)
    requires Supported(dt) && Fits(dt, v)
    ensures ValueFields(dt, v) == Ok([OnWire(dt, v)])
  {
    hide ValidUtf8;
  }

  function IntField(number: nat, n: Option<int>): seq<Field>
    requires Word64(n)
  {
    if n.None? then [] else [Field(number, 0, Int(n.value))]
  }

  /** The fields of a metric: name 1, alias 2, timestamp 3, datatype 4, is_null 7, and the
      value in one of 10 to 16. */
  lemma MetricLayout(m: Metric, typed: bool)
    requires Carriable(m)
    ensures MetricFields(m, typed) ==
            Ok(((if m.name == [] then [] else [Field(1, 2, Raw(m.name))])
                + (IntField(2, m.alias)
                   + (IntField(3, m.timestamp)
                      + (if typed && m.kind != 0 then [Field(4, 0, Int(m.kind))] else []))))
               + [if m.isNull then Field(7, 0, Int(1)) else OnWire(m.kind, m.value.value)])
  {
    hide ValidUtf8, ValueFields, OnWire;
    if !m.isNull {
      ValueLayout(m.kind, m.value.value);
    }
  }

  function BytesField(number: nat, b: Option<Bytes>): seq<Field>
  {
    if b.None? then [] else [Field(number, 2, Raw(b.value))]
  }

  predicate AllEncode(ms: seq<Metric>, typed: bool)
  {
    forall i :: 0 <= i < |ms| ==> MetricFields(ms[i], typed).Ok?
  }

  function MetricsOnWire(ms: seq<Metric>, typed: bool): seq<Field>
    requires AllEncode(ms, typed)
  {
    seq(|ms|, i requires 0 <= i < |ms| => Field(2, 2, Raw(FieldsBytes(MetricFields(ms[i], typed).value))))
  }

  /** The fields of a payload: timestamp 1, a field 2 for each metric in order, sequence 3,
      uuid 4, body 5. */
  lemma PayloadLayout(p: Payload, typed: bool)
    requires PayloadFields(p, typed).Ok?
    ensures Envelope(p) && AllEncode(p.metrics, typed)
    ensures PayloadFields(p, typed) ==
            Ok(IntField(1, p.timestamp)
               + (MetricsOnWire(p.metrics, typed)
                  + (IntField(3, p.sequence) + (BytesField(4, p.uuid) + BytesField(5, p.body)))))
  {
    hide ValidUtf8, MetricFields, FieldsBytes, MetricsOnWire, MetricsFields, AllEncode;
    MetricsLayout(p.metrics, typed);
  }

  lemma {:induction false} MetricsLayout(ms: seq<Metric>, typed: bool)
    requires MetricsFields(ms, typed).Ok?
    ensures AllEncode(ms, typed) && MetricsFields(ms, typed).value == MetricsOnWire(ms, typed)
  {
    hide MetricFields, FieldsBytes;
    if ms != [] {
      MetricsLayout(ms[1..], typed);
      forall i | 0 <= i < |ms| ensures MetricFields(ms[i], typed).Ok? {
        assert i > 0 ==> ms[i] == ms[1..][i - 1];
      }
    }
  }

  // ---- what is decoded ----

  /** The wire forms that the decoder takes for an integer of a datatype: in either integer
      field, the two's complement of the field, or of the datatype where that is narrower. */
  predicate WireForm(dt: int, number: nat, raw: nat, i: int)
  {
    var field := if number == 10 then 0x1_0000_0000 else TWO64;
    && (number == 10 || number == 11)
    && Lowest(dt) <= i <= Highest(dt)
    && (raw == i || (i < 0 && (raw == i + field || raw == i + 2 * (Highest(dt) + 1))))
  }

  lemma IntDecoded(dt: int, number: nat, raw: nat, i: int)
    requires IsInt(dt) && (number == 10 ==> raw < 0x1_0000_0000) && raw < TWO64
    ensures DecodeValue(dt, number, IntV(raw)) == Ok(IntV(i)) <==>
            WireForm(dt, number, raw, i) && DecodedRange(dt, number, raw, i)
  {
  }

  /** A 64-bit signed number in the 32-bit field is read as 32-bit. */
  predicate DecodedRange(dt: int, number: nat, raw: nat, i: int)
  {
    dt == 4 && number == 10 ==> -0x8000_0000 <= i <= 0x7FFF_FFFF && raw == if i < 0 then i + 0x1_0000_0000 else i
  }

  /** Without a datatype, or with one that is not modelled, a value is what its field says;
      other values are taken from the fields of their datatype and refused from others. */
  lemma OtherDecoded(dt: int, number: nat, v: Value)
    requires !IsInt(dt)
    ensures DecodeValue(dt, number, v) ==
            if !(1 <= dt <= 14 || dt == 17) then Ok(v)
            else if (dt == 9 || dt == 10) && (number == 12 || number == 13) then Ok(v)
            else if (dt == 11 && number == 14) || ((dt == 12 || dt == 14) && number == 15) || (dt == 17 && number == 16)
            then Ok(v)
            else Err
  {
  }
}
