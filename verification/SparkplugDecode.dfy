/** What the decoder makes of any fields, known and unknown, once or repeatedly: of each
    part of a metric or payload the last occurrence counts, as in protobuf. */
module SparkplugDecode {
  import opened Common
  import opened Wire
  import opened Sparkplug
  import opened SparkplugTheorems

  /** The last number under a field number, and the last bytes under one. */
  function LastInt(fs: seq<Field>, number: nat): Option<nat>
  {
    if fs == [] then None
    else
      var f := fs[|fs| - 1];
      if f.number == number && f.value.Int? then Some(f.value.n) else LastInt(fs[..|fs| - 1], number)
  }

  function LastBytes(fs: seq<Field>, number: nat): Option<Bytes>
  {
    if fs == [] then None
    else
      var f := fs[|fs| - 1];
      if f.number == number && f.wire == 2 && f.value.Raw? then Some(f.value.bytes)
      else LastBytes(fs[..|fs| - 1], number)
  }

  /** What a field says about the value of a metric, if anything. */
  function ValueIn(f: Field): Option<(nat, Value)>
  {
    match f.value
    case Int(n) =>
      if f.number == 10 then Some((10, IntV(n % 0x1_0000_0000)))
      else if f.number == 11 then Some((11, IntV(n)))
      else if f.number == 14 then Some((14, BoolV(n != 0)))
      else None
    case Raw(b) =>
      if f.number == 15 && f.wire == 2 then Some((15, TextV(b)))
      else if f.number == 16 && f.wire == 2 then Some((16, BlobV(b)))
      else if f.number == 12 && f.wire == 5 then Some((12, FloatV(b)))
      else if f.number == 13 && f.wire == 1 then Some((13, DoubleV(b)))
      else None
  }

  function LastValue(fs: seq<Field>): Option<(nat, Value)>
  {
    if fs == [] then None
    else
      var v := ValueIn(fs[|fs| - 1]);
      if v.Some? then v else LastValue(fs[..|fs| - 1])
  }

  /** A name or a text value that is not UTF-8 spoils the metric. */
  predicate TextOk(f: Field)
  {
    f.value.Raw? && f.wire == 2 && (f.number == 1 || f.number == 15) ==> ValidUtf8(f.value.bytes)
  }

  predicate AllTextOk(fs: seq<Field>) { forall i :: 0 <= i < |fs| ==> TextOk(fs[i]) }

  function Or<T>(a: Option<T>, b: T): T { if a.Some? then a.value else b }

  function Gathered(fs: seq<Field>): Partial
  {
    Partial(Metric(Or(LastBytes(fs, 1), []), Or(LastInt(fs, 4), 0) % 0x1_0000_0000, None,
                   LastInt(fs, 2), LastInt(fs, 3), Or(LastInt(fs, 7), 0) != 0),
            LastValue(fs))
  }

  lemma StepGathers(front: seq<Field>, f: Field)
    ensures MetricStep(Gathered(front), f) == if TextOk(f) then Ok(Gathered(front + [f])) else Err
  {
    hide ValidUtf8;
    var fs := front + [f];
    assert fs[..|fs| - 1] == front && fs[|fs| - 1] == f;
    assert forall n: nat ::
        LastInt(fs, n) == if f.number == n && f.value.Int? then Some(f.value.n) else LastInt(front, n);
    assert forall n: nat ::
        LastBytes(fs, n) ==
        if f.number == n && f.wire == 2 && f.value.Raw? then Some(f.value.bytes) else LastBytes(front, n);
    assert LastValue(fs) == if ValueIn(f).Some? then ValueIn(f) else LastValue(front);
    hide LastInt, LastBytes, LastValue;
  }

  lemma {:induction false} FoldGathers(fs: seq<Field>)
    ensures FoldMetric(Ok(NEW_PARTIAL), fs) == if AllTextOk(fs) then Ok(Gathered(fs)) else Err
  {
    hide MetricStep, Gathered, TextOk;
    if fs == [] {
      NothingGathered();
    } else {
      var front, f := fs[..|fs| - 1], fs[|fs| - 1];
      FoldGathers(front);
      assert fs == front + [f];
      FoldMetricAppend(Ok(NEW_PARTIAL), front, [f]);
      if AllTextOk(front) {
        FoldMetricOne(Gathered(front), [f]);
        StepGathers(front, f);
      } else {
        assert !AllTextOk(fs);
        FoldFailed([f]);
      }
    }
  }

  lemma NothingGathered()
    ensures Gathered([]) == NEW_PARTIAL
  {
  }

  lemma FoldFailed(fs: seq<Field>)
    ensures FoldMetric(Err, fs) == Err
  {
  }

  /** The metric that any fields decode to. */
  lemma MetricDecoded(fs: seq<Field>)
    ensures MetricOf(Ok(fs)) ==
            if !AllTextOk(fs) then Err
            else
              var m, v := Gathered(fs).metric, LastValue(fs);
              if v.None? || m.isNull then Ok(m)
              else
                var x := DecodeValue(m.kind, v.value.0, v.value.1);
                if x.Err? then Err else Ok(m.(value := Some(x.value)))
  {
    hide FoldMetric, AllTextOk, DecodeValue;
    FoldGathers(fs);
  }

  // ---- payloads ----

  /** The metrics under field 2, in order; one that cannot be decoded spoils the payload. */
  function MetricsIn(fs: seq<Field>): Result<seq<Metric>>
  {
    if fs == [] then Ok([])
    else
      var front, f := MetricsIn(fs[..|fs| - 1]), fs[|fs| - 1];
      if front.Err? then Err
      else if f.number == 2 && f.wire == 2 && f.value.Raw? then
        var m := MetricOf(Fields(f.value.bytes));
        if m.Err? then Err else Ok(front.value + [m.value])
      else front
  }

  predicate UuidOk(fs: seq<Field>)
  {
    forall i :: 0 <= i < |fs| && fs[i].value.Raw? && fs[i].wire == 2 && fs[i].number == 4 ==>
      ValidUtf8(fs[i].value.bytes)
  }

  function GatheredPayload(fs: seq<Field>): Result<Payload>
  {
    var ms := MetricsIn(fs);
    if ms.Err? || !UuidOk(fs) then Err
    else Ok(Payload(LastInt(fs, 1), ms.value, LastInt(fs, 3), LastBytes(fs, 4), LastBytes(fs, 5)))
  }

  lemma PayloadStepGathers(front: seq<Field>, f: Field)
    requires GatheredPayload(front).Ok?
    ensures PayloadStep(GatheredPayload(front).value, f) == GatheredPayload(front + [f])
  {
    hide ValidUtf8, MetricOf, Fields;
    var fs := front + [f];
    assert fs[..|fs| - 1] == front && fs[|fs| - 1] == f;
    assert forall n: nat ::
        LastInt(fs, n) == if f.number == n && f.value.Int? then Some(f.value.n) else LastInt(front, n);
    assert forall n: nat ::
        LastBytes(fs, n) ==
        if f.number == n && f.wire == 2 && f.value.Raw? then Some(f.value.bytes) else LastBytes(front, n);
    UuidSnoc(front, f);
    hide LastInt, LastBytes, UuidOk;
  }

  lemma UuidSnoc(front: seq<Field>, f: Field)
    ensures UuidOk(front + [f]) <==>
            UuidOk(front) && (f.value.Raw? && f.wire == 2 && f.number == 4 ==> ValidUtf8(f.value.bytes))
  {
    hide ValidUtf8;
    var fs := front + [f];
    assert fs[|front|] == f;
    assert forall i :: 0 <= i < |front| ==> fs[i] == front[i];
  }

  lemma {:induction false} PayloadDecoded(fs: seq<Field>)
    ensures PayloadOf(Ok(fs)) == GatheredPayload(fs)
  {
    hide PayloadStep, GatheredPayload;
    if fs == [] {
      NothingInPayload();
    } else {
      var front, f := fs[..|fs| - 1], fs[|fs| - 1];
      PayloadDecoded(front);
      assert fs == front + [f];
      FoldPayloadAppend(Ok(NEW_PAYLOAD), front, [f]);
      if GatheredPayload(front).Ok? {
        FoldPayloadOne(GatheredPayload(front).value, [f]);
        PayloadStepGathers(front, f);
      } else {
        StillSpoilt(front, f);
      }
    }
  }

  lemma NothingInPayload()
    ensures GatheredPayload([]) == Ok(NEW_PAYLOAD)
  {
  }

  lemma StillSpoilt(front: seq<Field>, f: Field)
    requires GatheredPayload(front).Err?
    ensures GatheredPayload(front + [f]).Err? && FoldPayload(Err, [f]) == Err
  {
    hide ValidUtf8, MetricOf, Fields;
    var fs := front + [f];
    assert fs[..|fs| - 1] == front && fs[|fs| - 1] == f;
    UuidSnoc(front, f);
  }
}
