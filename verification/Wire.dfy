/** The protobuf wire format as app/engine/sparkplug.py reads and writes it by hand:
    base-128 varints, field keys, value spans, groups skipped with an explicit stack, and
    the walk over the fields of one message. The functions here read from the front of a
    string and say how many bytes they used; the methods are the source's loops over a
    position in the whole message. */
module Wire {
  import opened Common

  const U32: nat := 0x1_0000_0000
  const U64: nat := 0x1_0000_0000_0000_0000
  const MAX_FIELD: nat := 0x1FFF_FFFF

  const VARINT: nat := 0
  const I64: nat := 1
  const LEN: nat := 2
  const SGROUP: nat := 3
  const EGROUP: nat := 4
  const I32: nat := 5

  // ---- varints ----

  function Varint(v: nat): (r: Bytes)
    decreases v
  {
    if v < 128 then [v] else [128 + v % 128] + Varint(v / 128)
  }

  /** The first varint of s, however long: its value and its length. */
  function ReadRaw(s: Bytes): (r: Result<(nat, nat)>)
    ensures r.Ok? ==> 1 <= r.value.1 <= |s|
    decreases |s|
  {
    if s == [] then Err
    else if s[0] < 128 then Ok((s[0], 1))
    else
      var r := ReadRaw(s[1..]);
      if r.Err? then Err else Ok((s[0] - 128 + 128 * r.value.0, r.value.1 + 1))
  }

  /** _read_varint: at most ten bytes, and bits beyond 64 are dropped. */
  function ReadVarint(s: Bytes): (r: Result<(nat, nat)>)
    ensures r.Ok? ==> r.value.0 < U64 && 1 <= r.value.1 <= |s|
  {
    var r := ReadRaw(s);
    if r.Err? || r.value.1 > 10 then Err else Ok((r.value.0 % U64, r.value.1))
  }

  function Pow128(n: nat): (r: nat)
    ensures r > 0
  {
    if n == 0 then 1 else 128 * Pow128(n - 1)
  }

  /** _varint: the loop, and the range check that guards it. */
  method EncodeVarint(value: int) returns (r: Result<Bytes>)
    ensures r == if 0 <= value < U64 then Ok(Varint(value)) else Err
  {
    if !(0 <= value < U64) {
      return Err;
    }
    var v: nat, out: Bytes := value, [];
    while v > 127
      invariant out + Varint(v) == Varint(value)
    {
      AppendAssociates(out, [128 + v % 128], Varint(v / 128));
      out := out + [128 + v % 128];
      v := v / 128;
    }
    r := Ok(out + [v]);
  }

  /** What is still to be read, put behind the part already read: i bytes worth acc. */
  function Combine(acc: nat, i: nat, rest: Result<(nat, nat)>): Result<(nat, nat)>
  {
    if rest.Err? then Err else Ok((acc + Pow128(i) * rest.value.0, i + rest.value.1))
  }

  /** _read_varint: the loop over a position. Each turn sets seven bits above those already
      in acc (acc < 128^i), so the source's "or" is a sum. */
  method ReadVarintAt(data: Bytes, pos: nat) returns (r: Result<(nat, nat)>)
    requires pos <= |data|
    ensures var spec := ReadVarint(data[pos..]);
            r == if spec.Err? then Err else Ok((spec.value.0, pos + spec.value.1))
  {
    hide ReadRaw;
    var acc: nat := 0;
    ghost var whole := ReadRaw(data[pos..]);
    for i := 0 to 10
      invariant pos + i <= |data| && acc < Pow128(i)
      invariant whole == Combine(acc, i, ReadRaw(data[pos + i..]))
    {
      if pos + i >= |data| {
        ReadRawEmpty(data[pos + i..]);
        return Err;
      }
      var byte := data[pos + i];
      var low := byte % 128;
      ReadRawByte(data, pos + i);
      Accumulate(acc, i, low, ReadRaw(data[pos + i + 1..]));
      acc := acc + Pow128(i) * low;
      if byte < 128 {
        return Ok((acc % U64, pos + i + 1));
      }
    }
    r := Err;
  }

  lemma ReadRawEmpty(s: Bytes)
    requires s == []
    ensures ReadRaw(s).Err?
  {
  }

  lemma ReadRawByte(data: Bytes, i: nat)
    requires i < |data|
    ensures data[i] < 128 ==> ReadRaw(data[i..]) == Ok((data[i] % 128, 1))
    ensures data[i] >= 128 ==>
              var r := ReadRaw(data[i + 1..]);
              ReadRaw(data[i..]) ==
              if r.Err? then Err else Ok((data[i] % 128 + 128 * r.value.0, r.value.1 + 1))
  {
    DropTwice(data, i, 1);
  }

  lemma Accumulate(acc: nat, i: nat, low: nat, rest: Result<(nat, nat)>)
    requires low < 128 && acc < Pow128(i)
    ensures acc + Pow128(i) * low < Pow128(i + 1)
    ensures rest.Ok? ==> Combine(acc, i, Ok((low + 128 * rest.value.0, rest.value.1 + 1))) ==
                         Combine(acc + Pow128(i) * low, i + 1, rest)
  {
    var p := Pow128(i);
    assert Pow128(i + 1) == 128 * p;
    DigitFits(acc, p, low);
    if rest.Ok? {
      Distribute(p, low, rest.value.0);
    }
  }

  lemma DigitFits(acc: nat, p: nat, low: nat)
    requires acc < p && low < 128
    ensures acc + p * low < 128 * p
  {
    assert p * low <= p * 127;
  }

  lemma Distribute(p: nat, low: nat, v: nat)
    ensures p * (low + 128 * v) == p * low + (128 * p) * v
  {
    assert p * (low + 128 * v) == p * low + p * (128 * v);
    assert p * (128 * v) == (128 * p) * v;
  }

  lemma {:induction false} ReadRawInverts(v: nat, t: Bytes)
    ensures ReadRaw(Varint(v) + t) == Ok((v, |Varint(v)|))
    decreases v
  {
    if v >= 128 {
      ReadRawInverts(v / 128, t);
      AppendAssociates([128 + v % 128], Varint(v / 128), t);
      ReadRawFirst(128 + v % 128, Varint(v / 128) + t);
    }
  }

  lemma ReadRawFirst(b: Byte, t: Bytes)
    requires b >= 128 && ReadRaw(t).Ok?
    ensures ReadRaw([b] + t) == Ok((b - 128 + 128 * ReadRaw(t).value.0, ReadRaw(t).value.1 + 1))
  {
    hide ReadRaw;
    ConsRest(b, t);
    ReadRawStep([b] + t);
  }

  lemma ReadRawStep(s: Bytes)
    requires s != [] && s[0] >= 128 && ReadRaw(s[1..]).Ok?
    ensures var r := ReadRaw(s[1..]);
            ReadRaw(s) == Ok((s[0] - 128 + 128 * r.value.0, r.value.1 + 1))
  {
  }

  lemma {:induction false} VarintLength(v: nat, n: nat)
    requires n > 0 && v < Pow128(n)
    ensures |Varint(v)| <= n
    decreases n
  {
    if v >= 128 {
      VarintLength(v / 128, n - 1);
    }
  }

  /** Reading back what was written, whatever follows. */
  lemma VarintRoundTrip(v: nat, t: Bytes)
    requires v < U64
    ensures ReadVarint(Varint(v) + t) == Ok((v, |Varint(v)|))
  {
    hide Pow128, Varint, ReadRaw;
    Pow128Ten();
    VarintLength(v, 10);
    ReadRawInverts(v, t);
  }

  lemma Pow128Ten()
    ensures Pow128(10) > U64
  {
    assert Pow128(4) == 0x1000_0000;
    assert Pow128(7) == 128 * (128 * (128 * Pow128(4)));
    assert Pow128(10) == 128 * (128 * (128 * Pow128(7)));
  }

  lemma {:induction false} ReadRawStable(s: Bytes, t: Bytes)
    requires ReadRaw(s).Ok?
    ensures ReadRaw(s + t) == ReadRaw(s)
    decreases |s|
  {
    if s[0] >= 128 {
      ReadRawStable(s[1..], t);
      DropOfAppend(s, t, 1);
    }
  }

  lemma ReadVarintStable(s: Bytes, t: Bytes)
    requires ReadVarint(s).Ok?
    ensures ReadVarint(s + t) == ReadVarint(s)
  {
    ReadRawStable(s, t);
  }

  // ---- keys and value spans ----

  datatype Key = Key(number: nat, wire: nat, used: nat)

  /** A valid key: the varint's number and wire type. */
  function MakeKey(v: nat, used: nat): (r: Result<Key>)
  {
    if 1 <= v / 8 <= MAX_FIELD then Ok(Key(v / 8, v % 8, used)) else Err
  }

  function ReadKey(s: Bytes): (r: Result<Key>)
    ensures r.Ok? ==> 1 <= r.value.number <= MAX_FIELD && r.value.wire < 8 && 1 <= r.value.used <= |s|
  {
    var r := ReadVarint(s);
    if r.Err? then Err else MakeKey(r.value.0, r.value.1)
  }

  function KeyBytes(number: nat, wire: nat): Bytes { Varint(8 * number + wire) }

  /** Where the value of a field lies: (start, end). */
  datatype Span = Span(start: nat, end: nat)

  function Fixed(s: Bytes, start: nat, size: nat): Result<Span>
  {
    if start + size > |s| then Err else Ok(Span(start, start + size))
  }

  function ValueSpan(s: Bytes, wire: nat): (r: Result<Span>)
    ensures r.Ok? ==> r.value.start <= r.value.end <= |s|
  {
    if wire == VARINT then
      var r := ReadVarint(s);
      if r.Err? then Err else Ok(Span(0, r.value.1))
    else if wire == I64 then Fixed(s, 0, 8)
    else if wire == I32 then Fixed(s, 0, 4)
    else if wire == LEN then
      var r := ReadVarint(s);
      if r.Err? then Err else Fixed(s, r.value.1, r.value.0)
    else Err
  }

  lemma ReadKeyStable(s: Bytes, t: Bytes)
    requires ReadKey(s).Ok?
    ensures ReadKey(s + t) == ReadKey(s)
  {
    ReadVarintStable(s, t);
  }

  lemma ValueSpanStable(s: Bytes, t: Bytes, wire: nat)
    requires ValueSpan(s, wire).Ok?
    ensures ValueSpan(s + t, wire) == ValueSpan(s, wire)
  {
    if wire == VARINT || wire == LEN {
      ReadVarintStable(s, t);
    }
  }

  lemma KeyRoundTrip(number: nat, wire: nat, t: Bytes)
    requires 1 <= number <= MAX_FIELD && wire < 8
    ensures ReadKey(KeyBytes(number, wire) + t) == Ok(Key(number, wire, |KeyBytes(number, wire)|))
  {
    VarintRoundTrip(8 * number + wire, t);
    SplitKey(number, wire);
  }

  lemma SplitKey(number: nat, wire: nat)
    requires wire < 8
    ensures (8 * number + wire) / 8 == number && (8 * number + wire) % 8 == wire
  {
  }

  // ---- groups ----

  /** Longer by n bytes. */
  function Shift(n: nat, r: Result<nat>): Result<nat> { if r.Err? then Err else Ok(n + r.value) }

  /** One key inside open groups: the groups open behind it, and how far it reaches. */
  datatype Inside = Inside(open: seq<nat>, used: nat)

  function GroupStep(s: Bytes, open: seq<nat>): (r: Result<Inside>)
    requires open != []
    ensures r.Ok? ==> 1 <= r.value.used <= |s|
  {
    var k := ReadKey(s);
    if k.Err? then Err
    else
      var Key(number, wire, used) := k.value;
      if wire == SGROUP then Ok(Inside(open + [number], used))
      else if wire == EGROUP then
        if open[|open| - 1] != number then Err else Ok(Inside(open[..|open| - 1], used))
      else
        var v := ValueSpan(s[used..], wire);
        if v.Err? then Err else Ok(Inside(open, used + v.value.end))
  }

  /** The bytes up to and including the key that closes the outermost open group. */
  function SkipGroup(s: Bytes, open: seq<nat>): (r: Result<nat>)
    ensures r.Ok? ==> r.value <= |s|
    decreases |s|
  {
    if open == [] then Ok(0)
    else
      var g := GroupStep(s, open);
      if g.Err? then Err else Shift(g.value.used, SkipGroup(s[g.value.used..], g.value.open))
  }

  /** _skip_group: the loop with its stack of open groups. */
  method SkipGroupAt(data: Bytes, pos0: nat, number: nat) returns (r: Result<nat>)
    requires pos0 <= |data|
    ensures r == Shift(pos0, SkipGroup(data[pos0..], [number]))
  {
    hide GroupStep, SkipGroup;
    var open, pos := [number], pos0;
    ghost var spec := Shift(pos0, SkipGroup(data[pos0..], [number]));
    while open != []
      invariant pos <= |data| && spec == Shift(pos, SkipGroup(data[pos..], open))
      decreases |data| - pos, |open|
    {
      var g := GroupStep(data[pos..], open);
      SkipStep(data, pos, open);
      if g.Err? {
        return Err;
      }
      open, pos := g.value.open, pos + g.value.used;
    }
    SkipNothing(data[pos..]);
    r := Ok(pos);
  }

  lemma SkipNothing(s: Bytes)
    ensures SkipGroup(s, []) == Ok(0)
  {
  }

  lemma SkipStep(data: Bytes, pos: nat, open: seq<nat>)
    requires pos <= |data| && open != []
    ensures var g, whole := GroupStep(data[pos..], open), Shift(pos, SkipGroup(data[pos..], open));
            if g.Err? then whole.Err?
            else whole == Shift(pos + g.value.used, SkipGroup(data[pos + g.value.used..], g.value.open))
  {
    hide GroupStep;
    var g := GroupStep(data[pos..], open);
    if g.Ok? {
      DropTwice(data, pos, g.value.used);
    }
  }

  lemma GroupStepStable(s: Bytes, t: Bytes, open: seq<nat>)
    requires open != [] && GroupStep(s, open).Ok?
    ensures GroupStep(s + t, open) == GroupStep(s, open)
  {
    ReadKeyStable(s, t);
    var k := ReadKey(s).value;
    if k.wire != SGROUP && k.wire != EGROUP {
      ValueSpanStable(s[k.used..], t, k.wire);
      DropOfAppend(s, t, k.used);
    }
  }

  lemma {:induction false} SkipGroupStable(s: Bytes, t: Bytes, open: seq<nat>)
    requires SkipGroup(s, open).Ok?
    ensures SkipGroup(s + t, open) == SkipGroup(s, open)
    decreases |s|
  {
    if open != [] {
      GroupStepStable(s, t, open);
      var g := GroupStep(s, open).value;
      SkipGroupStable(s[g.used..], t, g.open);
      DropOfAppend(s, t, g.used);
    }
  }

  // ---- the walk over one message ----

  datatype WireValue = Int(n: nat) | Raw(bytes: Bytes)

  datatype Field = Field(number: nat, wire: nat, value: WireValue)

  /** One turn of the walk: the field it yields, if any (a group yields none). */
  datatype Turn = Turn(fields: seq<Field>, used: nat)

  function BodyOf(s: Bytes, k: Key): (r: Result<Turn>)
    requires k.used <= |s|
    ensures r.Ok? ==> k.used <= r.value.used <= |s|
  {
    var rest := s[k.used..];
    if k.wire == SGROUP then
      var g := SkipGroup(rest, [k.number]);
      if g.Err? then Err else Ok(Turn([], k.used + g.value))
    else if k.wire == VARINT then
      var v := ReadVarint(rest);
      if v.Err? then Err else Ok(Turn([Field(k.number, k.wire, Int(v.value.0))], k.used + v.value.1))
    else
      var sp := ValueSpan(rest, k.wire);
      if sp.Err? then Err
      else Ok(Turn([Field(k.number, k.wire, Raw(rest[sp.value.start..sp.value.end]))], k.used + sp.value.end))
  }

  function ReadTurn(s: Bytes): (r: Result<Turn>)
    ensures r.Ok? ==> 1 <= r.value.used <= |s|
  {
    var k := ReadKey(s);
    if k.Err? then Err else BodyOf(s, k.value)
  }

  function Join(a: Result<seq<Field>>, b: Result<seq<Field>>): Result<seq<Field>>
  {
    if a.Err? || b.Err? then Err else Ok(a.value + b.value)
  }

  /** _fields, as the list of everything it yields; an error anywhere is the error. */
  function Fields(s: Bytes): (r: Result<seq<Field>>)
    decreases |s|
  {
    if s == [] then Ok([])
    else
      var t := ReadTurn(s);
      if t.Err? then Err else Join(Ok(t.value.fields), Fields(s[t.value.used..]))
  }

  /** One turn of the loop of _fields, at a position. */
  method ReadTurnAt(data: Bytes, pos0: nat) returns (r: Result<Turn>)
    requires pos0 <= |data|
    ensures r == ReadTurn(data[pos0..])
  {
    hide ReadKey, SkipGroup, ReadVarint, ValueSpan;
    var k := ReadKey(data[pos0..]);
    if k.Err? {
      return Err;
    }
    var Key(number, wire, used) := k.value;
    var pos := pos0 + used;
    DropTwice(data, pos0, used);
    if wire == SGROUP {
      var g := SkipGroupAt(data, pos, number);
      return if g.Err? then Err else Ok(Turn([], g.value - pos0));
    } else if wire == VARINT {
      var v := ReadVarintAt(data, pos);
      return if v.Err? then Err else Ok(Turn([Field(number, wire, Int(v.value.0))], v.value.1 - pos0));
    } else {
      var sp := ValueSpan(data[pos..], wire);
      return if sp.Err? then Err
        else Ok(Turn([Field(number, wire, Raw(data[pos..][sp.value.start..sp.value.end]))], used + sp.value.end));
    }
  }

  /** _fields: the loop over the position. */
  method WalkFields(data: Bytes) returns (r: Result<seq<Field>>)
    ensures r == Fields(data)
  {
    hide ReadTurn;
    var pos, fields := 0, [];
    ghost var spec := Fields(data);
    JoinNothing(spec);
    assert data[0..] == data;
    while pos < |data|
      invariant 0 <= pos <= |data| && spec == Join(Ok(fields), Fields(data[pos..]))
    {
      var t := ReadTurnAt(data, pos);
      WalkStep(data, pos, fields);
      if t.Err? {
        return Err;
      }
      fields, pos := fields + t.value.fields, pos + t.value.used;
    }
    JoinEnds(fields);
    r := Ok(fields);
  }

  lemma WalkStep(data: Bytes, pos: nat, fields: seq<Field>)
    requires pos < |data|
    ensures var t, whole := ReadTurn(data[pos..]), Join(Ok(fields), Fields(data[pos..]));
            if t.Err? then whole.Err?
            else whole == Join(Ok(fields + t.value.fields), Fields(data[pos + t.value.used..]))
  {
    hide ReadTurn;
    var t := ReadTurn(data[pos..]);
    if t.Ok? {
      DropTwice(data, pos, t.value.used);
      JoinMoves(fields, t.value.fields, Fields(data[pos + t.value.used..]));
    }
  }

  lemma JoinNothing(r: Result<seq<Field>>)
    ensures Join(Ok([]), r) == r
  {
    if r.Ok? {
      assert [] + r.value == r.value;
    }
  }

  lemma JoinEnds(a: seq<Field>)
    ensures Join(Ok(a), Ok([])) == Ok(a)
  {
    assert a + [] == a;
  }

  lemma JoinMoves(a: seq<Field>, b: seq<Field>, c: Result<seq<Field>>)
    ensures Join(Ok(a), Join(Ok(b), c)) == Join(Ok(a + b), c)
  {
    if c.Ok? {
      AppendAssociates(a, b, c.value);
    }
  }

  lemma ReadTurnStable(s: Bytes, t: Bytes)
    requires ReadTurn(s).Ok?
    ensures ReadTurn(s + t) == ReadTurn(s)
  {
    ReadKeyStable(s, t);
    var k := ReadKey(s).value;
    BodyStable(s, t, k);
  }

  lemma BodyStable(s: Bytes, t: Bytes, k: Key)
    requires k.used <= |s| && BodyOf(s, k).Ok?
    ensures BodyOf(s + t, k) == BodyOf(s, k)
  {
    hide SkipGroup, ReadVarint, ValueSpan;
    DropOfAppend(s, t, k.used);
    if k.wire == SGROUP {
      SkipGroupStable(s[k.used..], t, [k.number]);
    } else if k.wire == VARINT {
      ReadVarintStable(s[k.used..], t);
    } else {
      SlicedStable(s[k.used..], t, k.wire);
    }
  }

  lemma SlicedStable(s: Bytes, t: Bytes, wire: nat)
    requires ValueSpan(s, wire).Ok?
    ensures ValueSpan(s + t, wire) == ValueSpan(s, wire)
    ensures var sp := ValueSpan(s, wire).value;
            sp.end <= |s + t| && (s + t)[sp.start..sp.end] == s[sp.start..sp.end]
  {
    ValueSpanStable(s, t, wire);
    var sp := ValueSpan(s, wire).value;
    SliceOfAppend(s, t, sp.start, sp.end);
  }

  lemma SliceOfAppend(a: Bytes, b: Bytes, i: nat, j: nat)
    requires i <= j <= |a|
    ensures (a + b)[i..j] == a[i..j]
  {
  }

  /** The walk is a homomorphism: behind a well-formed message it starts afresh, and an
      error in the second part is an error of the whole. */
  lemma {:induction false} FieldsAppend(a: Bytes, b: Bytes)
    requires Fields(a).Ok?
    ensures Fields(a + b) == Join(Fields(a), Fields(b))
    decreases |a|
  {
    if a == [] {
      assert a + b == b;
      JoinNothing(Fields(b));
    } else {
      ReadTurnStable(a, b);
      var t := ReadTurn(a).value;
      FieldsAppend(a[t.used..], b);
      DropOfAppend(a, b, t.used);
      JoinAssociates(t.fields, Fields(a[t.used..]), Fields(b));
    }
  }

  lemma JoinAssociates(a: seq<Field>, b: Result<seq<Field>>, c: Result<seq<Field>>)
    ensures Join(Ok(a), Join(b, c)) == Join(Join(Ok(a), b), c)
  {
    if b.Ok? && c.Ok? {
      AppendAssociates(a, b.value, c.value);
    }
  }

  // ---- writing fields, and messages as trees ----

  function FieldBytes(f: Field): Bytes
  {
    KeyBytes(f.number, f.wire) + ValueBytes(f)
  }

  /** A field that the wire format can carry. */
  predicate Sendable(f: Field)
  {
    && 1 <= f.number <= MAX_FIELD
    && match f.value
       case Int(v) => f.wire == VARINT && v < U64
       case Raw(b) =>
         || (f.wire == LEN && |b| < U64)
         || (f.wire == I64 && |b| == 8)
         || (f.wire == I32 && |b| == 4)
  }

  /** Any message: fields, and groups of such, nested to any depth. */
  datatype Item = Plain(f: Field) | Group(number: nat, body: seq<Item>)

  function ItemBytes(item: Item): Bytes
    decreases item, 0
  {
    match item
    case Plain(f) => FieldBytes(f)
    case Group(n, body) => KeyBytes(n, SGROUP) + (ItemsBytes(body) + KeyBytes(n, EGROUP))
  }

  function ItemsBytes(items: seq<Item>): Bytes
    decreases items, 1
  {
    if items == [] then [] else ItemBytes(items[0]) + ItemsBytes(items[1..])
  }

  predicate SendableItem(item: Item)
    decreases item, 0
  {
    match item
    case Plain(f) => Sendable(f)
    case Group(n, body) => 1 <= n <= MAX_FIELD && SendableItems(body)
  }

  predicate SendableItems(items: seq<Item>)
    decreases items, 1
  {
    items == [] || (SendableItem(items[0]) && SendableItems(items[1..]))
  }

  /** What the walk reports of a message: its fields in order, without the groups. */
  function Reported(items: seq<Item>): seq<Field>
  {
    if items == [] then []
    else (match items[0] case Plain(f) => [f] case Group(_, _) => []) + Reported(items[1..])
  }

  function ValueBytes(f: Field): Bytes
  {
    match f.value
    case Int(v) => Varint(v)
    case Raw(b) => if f.wire == LEN then Varint(|b|) + b else b
  }

  /** The value of a written field, whatever follows it. */
  lemma SpanOfWritten(f: Field, t: Bytes)
    requires Sendable(f)
    ensures ValueSpan(ValueBytes(f) + t, f.wire).Ok?
    ensures var sp := ValueSpan(ValueBytes(f) + t, f.wire).value;
            sp.end == |ValueBytes(f)| &&
            (f.value.Raw? ==> (ValueBytes(f) + t)[sp.start..sp.end] == f.value.bytes)
    ensures f.value.Int? ==> ReadVarint(ValueBytes(f) + t) == Ok((f.value.n, |ValueBytes(f)|))
  {
    match f.value
    case Int(v) => VarintRoundTrip(v, t);
    case Raw(b) =>
      if f.wire == LEN {
        var n := Varint(|b|);
        AppendAssociates(n, b, t);
        VarintRoundTrip(|b|, b + t);
        MiddleOfThree(n, b, t);
      } else {
        DropLength(b, t);
      }
  }

  lemma MiddleOfThree(a: Bytes, b: Bytes, c: Bytes)
    ensures ((a + b) + c)[|a|..|a| + |b|] == b
  {
  }

  lemma TurnOfWritten(f: Field, t: Bytes)
    requires Sendable(f)
    ensures ReadTurn(FieldBytes(f) + t) == Ok(Turn([f], |FieldBytes(f)|))
  {
    var k := KeyBytes(f.number, f.wire);
    AppendAssociates(k, ValueBytes(f), t);
    KeyRoundTrip(f.number, f.wire, ValueBytes(f) + t);
    DropLength(k, ValueBytes(f) + t);
    SpanOfWritten(f, t);
  }

  lemma SkipOne(a: Bytes, t: Bytes, open: seq<nat>, open': seq<nat>)
    requires open != [] && GroupStep(a + t, open) == Ok(Inside(open', |a|))
    ensures SkipGroup(a + t, open) == Shift(|a|, SkipGroup(t, open'))
  {
    DropLength(a, t);
  }

  lemma SkipPlain(f: Field, t: Bytes, open: seq<nat>)
    requires Sendable(f) && open != []
    ensures SkipGroup(FieldBytes(f) + t, open) == Shift(|FieldBytes(f)|, SkipGroup(t, open))
  {
    hide SkipGroup, KeyBytes, ValueBytes, ReadKey, ValueSpan, ReadVarint;
    var k := KeyBytes(f.number, f.wire);
    AppendAssociates(k, ValueBytes(f), t);
    KeyRoundTrip(f.number, f.wire, ValueBytes(f) + t);
    DropLength(k, ValueBytes(f) + t);
    SpanOfWritten(f, t);
    SkipOne(FieldBytes(f), t, open, open);
  }

  lemma SkipOpening(n: nat, t: Bytes, open: seq<nat>)
    requires 1 <= n <= MAX_FIELD && open != []
    ensures SkipGroup(KeyBytes(n, SGROUP) + t, open) ==
            Shift(|KeyBytes(n, SGROUP)|, SkipGroup(t, open + [n]))
  {
    KeyRoundTrip(n, SGROUP, t);
    SkipOne(KeyBytes(n, SGROUP), t, open, open + [n]);
  }

  lemma SkipClosing(n: nat, t: Bytes, open: seq<nat>)
    requires 1 <= n <= MAX_FIELD
    ensures SkipGroup(KeyBytes(n, EGROUP) + t, open + [n]) == Shift(|KeyBytes(n, EGROUP)|, SkipGroup(t, open))
  {
    KeyRoundTrip(n, EGROUP, t);
    assert (open + [n])[..|open|] == open;
    SkipOne(KeyBytes(n, EGROUP), t, open + [n], open);
  }

  /** The bytes of a group, regrouped around what follows. */
  lemma GroupLayout(n: nat, body: seq<Item>, t: Bytes)
    ensures ItemBytes(Group(n, body)) + t ==
            KeyBytes(n, SGROUP) + (ItemsBytes(body) + (KeyBytes(n, EGROUP) + t))
    ensures |ItemBytes(Group(n, body))| == |KeyBytes(n, SGROUP)| + (|ItemsBytes(body)| + |KeyBytes(n, EGROUP)|)
  {
    var first, last := KeyBytes(n, SGROUP), KeyBytes(n, EGROUP);
    AppendAssociates(first, ItemsBytes(body) + last, t);
    AppendAssociates(ItemsBytes(body), last, t);
  }

  lemma ShiftTwice(i: nat, j: nat, r: Result<nat>)
    ensures Shift(i, Shift(j, r)) == Shift(i + j, r)
  {
  }

  /** Inside a group a written item is passed over as a whole. */
  lemma {:induction false} SkipItem(item: Item, t: Bytes, open: seq<nat>)
    requires SendableItem(item) && open != []
    ensures SkipGroup(ItemBytes(item) + t, open) == Shift(|ItemBytes(item)|, SkipGroup(t, open))
    decreases item, 0
  {
    match item
    case Plain(f) => SkipPlain(f, t, open);
    case Group(n, body) =>
      var last := KeyBytes(n, EGROUP);
      SkipItems(body, last + t, open + [n]);
      SkipAround(n, body, t, open);
  }

  lemma SkipAround(n: nat, body: seq<Item>, t: Bytes, open: seq<nat>)
    requires 1 <= n <= MAX_FIELD && open != []
    requires var tail := KeyBytes(n, EGROUP) + t;
             SkipGroup(ItemsBytes(body) + tail, open + [n]) ==
             Shift(|ItemsBytes(body)|, SkipGroup(tail, open + [n]))
    ensures SkipGroup(ItemBytes(Group(n, body)) + t, open) ==
            Shift(|ItemBytes(Group(n, body))|, SkipGroup(t, open))
  {
    hide SkipGroup, KeyBytes, ItemBytes, ItemsBytes;
    var tail := KeyBytes(n, EGROUP) + t;
    GroupLayout(n, body, t);
    SkipOpening(n, ItemsBytes(body) + tail, open);
    SkipClosing(n, t, open);
    ShiftTwice(|ItemsBytes(body)|, |KeyBytes(n, EGROUP)|, SkipGroup(t, open));
    ShiftTwice(|KeyBytes(n, SGROUP)|, |ItemsBytes(body)| + |KeyBytes(n, EGROUP)|, SkipGroup(t, open));
  }

  lemma {:induction false} SkipItems(items: seq<Item>, t: Bytes, open: seq<nat>)
    requires SendableItems(items) && open != []
    ensures SkipGroup(ItemsBytes(items) + t, open) == Shift(|ItemsBytes(items)|, SkipGroup(t, open))
    decreases items, 1
  {
    hide SkipGroup;
    if items == [] {
      assert ItemsBytes(items) + t == t;
    } else {
      var first, rest := ItemBytes(items[0]), ItemsBytes(items[1..]);
      AppendAssociates(first, rest, t);
      SkipItem(items[0], rest + t, open);
      SkipItems(items[1..], t, open);
      ShiftTwice(|first|, |rest|, SkipGroup(t, open));
    }
  }

  /** A whole group is one turn of the walk, and yields nothing. */
  lemma TurnOfGroup(n: nat, body: seq<Item>, t: Bytes)
    requires 1 <= n <= MAX_FIELD && SendableItems(body)
    ensures var g := ItemBytes(Group(n, body));
            ReadTurn(g + t) == Ok(Turn([], |g|))
  {
    hide SkipGroup, KeyBytes, ItemBytes, ItemsBytes, SendableItems, ReadKey, ReadVarint, ValueSpan;
    var first, last := KeyBytes(n, SGROUP), KeyBytes(n, EGROUP);
    var inner := ItemsBytes(body) + (last + t);
    GroupLayout(n, body, t);
    KeyRoundTrip(n, SGROUP, inner);
    DropLength(first, inner);
    GroupSkipped(n, body, t);
  }

  lemma GroupSkipped(n: nat, body: seq<Item>, t: Bytes)
    requires 1 <= n <= MAX_FIELD && SendableItems(body)
    ensures SkipGroup(ItemsBytes(body) + (KeyBytes(n, EGROUP) + t), [n]) ==
            Ok(|ItemsBytes(body)| + |KeyBytes(n, EGROUP)|)
  {
    hide SkipGroup, KeyBytes, ItemsBytes;
    SkipNothing(t);
    SkipItems(body, KeyBytes(n, EGROUP) + t, [n]);
    SkipClosing(n, t, []);
    assert [] + [n] == [n];
  }

  /** Every message is read back: the walk over its bytes reports its fields. */
  lemma {:induction false} FieldsOfItems(items: seq<Item>)
    requires SendableItems(items)
    ensures Fields(ItemsBytes(items)) == Ok(Reported(items))
    decreases |items|
  {
    if items != [] {
      var first, rest := ItemBytes(items[0]), ItemsBytes(items[1..]);
      FieldsOfItems(items[1..]);
      match items[0] {
        case Plain(f) => TurnOfWritten(f, rest);
        case Group(n, body) => TurnOfGroup(n, body, rest);
      }
      DropLength(first, rest);
    }
  }
}
