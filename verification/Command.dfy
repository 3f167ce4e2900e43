/** A number on its way from a Sparkplug host to a Modbus register and back: the command
    payload, SparkplugNode.on_device_command (app/engine/sparkplug_node.py), the register
    words of write_point (app/engine/modbus_gateway.py) and the value read back. */
module Command {
  import opened Common
  import S = Sparkplug
  import T = SparkplugTheorems
  import P = Pdu

  /** datatype_for, for an unscaled integer point. */
  function DatatypeFor(d: P.Dtype): int
  {
    match d
    case UInt16 => S.UINT16
    case Int16 => S.INT16
    case UInt32 => S.UINT32
    case Int32 => S.INT32
  }

  /** The value a device command carries to the bus: a datatype-less integer is the raw
      unsigned field, which is read as the point's signed type. */
  function CommandValue(m: S.Metric, d: P.Dtype): Option<S.Value>
  {
    if m.isNull then None
    else if m.kind == 0 && m.value.Some? && m.value.value.IntV? && P.Signed(d) && m.value.value.i > 0x7FFF_FFFF then
      Some(S.IntV(m.value.value.i - 0x1_0000_0000))
    else m.value
  }

  /** The words that write_point sends for an integer point, or nothing. */
  function Words(v: Option<S.Value>, d: P.Dtype): Result<seq<int>>
  {
    if v.Some? && v.value.IntV? then P.EncodeValue(d, v.value.i) else Err
  }

  /** A host's command: a metric named after the point, with a value of datatype k. */
  function HostMetric(name: Bytes, k: int, v: int): S.Metric
  {
    S.Metric(name, k, Some(S.IntV(v)), None, None, false)
  }

  /** What the node makes of the bytes of that command. */
  function WordsOfCommand(wire: Bytes, d: P.Dtype): Result<seq<int>>
  {
    var m := S.DecodeMetric(wire);
    if m.Err? then Err else Words(CommandValue(m.value, d), d)
  }

  lemma HostMetricEncodes(name: Bytes, k: int, v: int, typed: bool)
    requires S.IsText(name) && S.IsInt(k) && S.InRange(k, v)
    ensures S.MetricFields(HostMetric(name, k, v), typed).Ok?
  {
  }

  /** The number that a command without datatype asks for: the unsigned pattern of the
      field, read as a 32-bit signed one for a signed point. */
  function Asked(k: int, v: int, d: P.Dtype): int
    requires S.Supported(k)
  {
    var raw := S.Mask(v, S.FieldSize(S.ValueField(k)));
    if P.Signed(d) && raw > 0x7FFF_FFFF then raw - 0x1_0000_0000 else raw
  }

  /** Every number that a host can send, in any integer datatype. With the datatype on the
      wire the words written are that number's, or none if it does not fit the point;
      without it they are those of the number asked for. */
  lemma CommandWrites(name: Bytes, k: int, v: int, d: P.Dtype, typed: bool)
    requires S.IsText(name) && S.IsInt(k) && S.InRange(k, v)
    ensures S.MetricFields(HostMetric(name, k, v), typed).Ok?
    ensures var wire := S.FieldsBytes(S.MetricFields(HostMetric(name, k, v), typed).value);
            WordsOfCommand(wire, d) == P.EncodeValue(d, if typed then v else Asked(k, v, d))
  {
    hide S.MetricFields, S.FieldsBytes, S.DecodeMetric, P.EncodeValue;
    HostMetricEncodes(name, k, v, typed);
    T.MetricRoundTrip(HostMetric(name, k, v), typed);
    IntegerAsSent(k, v);
  }

  lemma IntegerAsSent(k: int, v: int)
    requires S.IsInt(k) && S.InRange(k, v)
    ensures T.Canonical(k, S.IntV(v)) == S.IntV(v)
  {
  }

  /** Where a command without datatype goes wrong: a negative number that the point can
      hold is lost in the 64-bit field; a signed point takes a large one as 2^32 less; an
      unsigned 32-bit point takes a negative one as 2^32 more. */
  predicate Misread(k: int, v: int, d: P.Dtype)
    requires S.Supported(k)
  {
    || (v < 0 && S.ValueField(k) == S.F_LONG && P.InRange(d, v))
    || (P.Signed(d) && v > 0x7FFF_FFFF && P.InRange(d, v - 0x1_0000_0000))
    || (d.UInt32? && v < 0 && S.ValueField(k) == S.F_INT)
  }

  /** In all other cases, and only in them, leaving the datatype off changes nothing: the
      same words are written, or the same number refused. */
  lemma UntypedAgrees(k: int, v: int, d: P.Dtype)
    requires S.IsInt(k) && S.InRange(k, v)
    ensures P.EncodeValue(d, Asked(k, v, d)) == P.EncodeValue(d, v) <==> !Misread(k, v, d)
  {
    hide P.HighWord, P.LowWord;
    var n := Asked(k, v, d);
    if n != v {
      assert P.InRange(d, v) ==> !P.InRange(d, n);
    }
  }

  /** For one: 2^32 + 5, sent as a 64-bit number without datatype to a signed 32-bit point,
      is written as 5, and with the datatype it is refused. */
  lemma LargeNumberWrapped(name: Bytes)
    requires S.IsText(name)
    ensures var m := HostMetric(name, S.UINT64, 0x1_0000_0005);
            && S.MetricFields(m, false).Ok?
            && WordsOfCommand(S.FieldsBytes(S.MetricFields(m, false).value), P.Int32) == P.EncodeValue(P.Int32, 5)
            && P.EncodeValue(P.Int32, 0x1_0000_0005).Err? && P.EncodeValue(P.Int32, 5).Ok?
  {
    hide S.MetricFields, S.FieldsBytes, WordsOfCommand;
    CommandWrites(name, S.UINT64, 0x1_0000_0005, P.Int32, false);
  }

  /** End to end: the number sent in the point's own datatype, without the datatype on the
      wire, is the number a later read of the registers decodes. */
  lemma CommandReadBack(name: Bytes, v: int, d: P.Dtype, rest: Bytes)
    requires S.IsText(name) && P.InRange(d, v)
    ensures S.IsInt(DatatypeFor(d)) && S.InRange(DatatypeFor(d), v)
    ensures S.MetricFields(HostMetric(name, DatatypeFor(d), v), false).Ok?
    ensures var wire := S.FieldsBytes(S.MetricFields(HostMetric(name, DatatypeFor(d), v), false).value);
            && WordsOfCommand(wire, d).Ok?
            && P.DecodeValue(d, P.RegisterBytes(WordsOfCommand(wire, d).value) + rest) == Ok(v)
  {
    hide S.MetricFields, S.FieldsBytes, WordsOfCommand, P.DecodeValue, P.RegisterBytes;
    CommandWrites(name, DatatypeFor(d), v, d, false);
    UntypedAgrees(DatatypeFor(d), v, d);
    P.ValueRoundTrip(d, v, rest);
  }
}
