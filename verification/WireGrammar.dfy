/** What the field walk of module Wire accepts, exactly: the messages of the protobuf wire
    format, with varints of any length up to ten bytes and balanced groups of any depth. */
module WireGrammar {
  import opened Common
  import opened Wire

  // ---- varints ----

  /** Little-endian digits of seven bits. */
  function Digits(b: Bytes): nat
  {
    if b == [] then 0 else b[0] % 128 + 128 * Digits(b[1..])
  }

  /** All bytes but the last have their high bit set. */
  predicate IsVarint(b: Bytes)
  {
    b != [] && b[|b| - 1] < 128 && forall i :: 0 <= i < |b| - 1 ==> b[i] >= 128
  }

  lemma {:induction false} RawIsVarint(s: Bytes)
    requires ReadRaw(s).Ok?
    ensures var (v, n) := ReadRaw(s).value;
            IsVarint(s[..n]) && v == Digits(s[..n])
    decreases |s|
  {
    var n := ReadRaw(s).value.1;
    var b := s[..n];
    if s[0] < 128 {
      assert b == [s[0]] && b[1..] == [];
    } else {
      RawIsVarint(s[1..]);
      assert b[1..] == s[1..][..n - 1];
      assert forall i :: 1 <= i < n ==> b[i] == b[1..][i - 1];
    }
  }

  lemma {:induction false} VarintIsRaw(b: Bytes, t: Bytes)
    requires IsVarint(b)
    ensures ReadRaw(b + t) == Ok((Digits(b), |b|))
    decreases |b|
  {
    var s := b + t;
    assert s[0] == b[0] && s[1..] == b[1..] + t;
    if |b| == 1 {
      assert b[1..] == [];
    } else {
      assert IsVarint(b[1..]) by {
        assert forall i :: 0 <= i < |b| - 1 ==> b[1..][i] == b[i + 1];
      }
      VarintIsRaw(b[1..], t);
      assert b[0] % 128 == b[0] - 128;
    }
  }

  predicate Short(b: Bytes) { IsVarint(b) && |b| <= 10 }

  function Num(b: Bytes): nat { Digits(b) % U64 }

  lemma ShortReads(b: Bytes, t: Bytes)
    requires Short(b)
    ensures ReadVarint(b + t) == Ok((Num(b), |b|))
  {
    hide Digits, ReadRaw;
    VarintIsRaw(b, t);
  }

  lemma ReadIsShort(s: Bytes)
    requires ReadVarint(s).Ok?
    ensures var (v, n) := ReadVarint(s).value;
            Short(s[..n]) && v == Num(s[..n])
  {
    hide Digits, ReadRaw, IsVarint;
    RawIsVarint(s);
  }

  /** A varint is read exactly when one of at most ten bytes stands there, and as its digits
      cut to 64 bits. */
  lemma ReadVarintExact(s: Bytes, v: nat, n: nat)
    ensures ReadVarint(s) == Ok((v, n)) <==> n <= |s| && Short(s[..n]) && v == Num(s[..n])
  {
    hide Digits, ReadRaw, IsVarint;
    if ReadVarint(s).Ok? {
      ReadIsShort(s);
    }
    if n <= |s| && Short(s[..n]) {
      ShortReads(s[..n], s[n..]);
      assert s[..n] + s[n..] == s;
    }
  }

  /** A number is written in the fewest bytes. */
  lemma {:induction false} VarintShortest(v: nat)
    ensures IsVarint(Varint(v)) && Digits(Varint(v)) == v
    ensures |Varint(v)| > 1 ==> Varint(v)[|Varint(v)| - 1] != 0
    decreases v
  {
    var b := Varint(v);
    if v < 128 {
      assert b[1..] == [];
    } else {
      VarintShortest(v / 128);
      assert b[1..] == Varint(v / 128);
      assert forall i :: 1 <= i < |b| ==> b[i] == b[1..][i - 1];
    }
  }

  // ---- messages ----

  /** A field, or a group with what lies between its two keys. */
  datatype Part = Leaf(key: Bytes, head: Bytes, body: Bytes) | Node(first: Bytes, parts: seq<Part>, last: Bytes)

  predicate IsKey(b: Bytes, wire: nat) { Short(b) && Num(b) % 8 == wire && 1 <= Num(b) / 8 <= MAX_FIELD }

  predicate LeafOk(key: Bytes, head: Bytes, body: Bytes)
  {
    || (IsKey(key, 0) && Short(head) && body == [])
    || (IsKey(key, 1) && head == [] && |body| == 8)
    || (IsKey(key, 2) && Short(head) && |body| == Num(head))
    || (IsKey(key, 5) && head == [] && |body| == 4)
  }

  predicate PartOk(p: Part)
    decreases p, 0
  {
    match p
    case Leaf(key, head, body) => LeafOk(key, head, body)
    case Node(first, parts, last) =>
      IsKey(first, 3) && IsKey(last, 4) && Num(first) / 8 == Num(last) / 8 && PartsOk(parts)
  }

  predicate PartsOk(ps: seq<Part>)
    decreases ps, 1
  {
    ps == [] || (PartOk(ps[0]) && PartsOk(ps[1..]))
  }

  function PartBytes(p: Part): Bytes
    decreases p, 0
  {
    match p
    case Leaf(key, head, body) => key + (head + body)
    case Node(first, parts, last) => first + (PartsBytes(parts) + last)
  }

  function PartsBytes(ps: seq<Part>): Bytes
    decreases ps, 1
  {
    if ps == [] then [] else PartBytes(ps[0]) + PartsBytes(ps[1..])
  }

  /** What is reported: the fields at the top, with their values. */
  function FieldOf(key: Bytes, head: Bytes, body: Bytes): Field
  {
    Field(Num(key) / 8, Num(key) % 8, if Num(key) % 8 == 0 then Int(Num(head)) else Raw(body))
  }

  function FieldsAt(ps: seq<Part>): seq<Field>
  {
    if ps == [] then []
    else (match ps[0] case Leaf(k, h, b) => [FieldOf(k, h, b)] case Node(_, _, _) => []) + FieldsAt(ps[1..])
  }

  lemma KeyReads(b: Bytes, wire: nat, t: Bytes)
    requires IsKey(b, wire)
    ensures ReadKey(b + t) == Ok(Key(Num(b) / 8, wire, |b|))
  {
    hide Short, Num, ReadVarint;
    ShortReads(b, t);
  }

  lemma ReadIsKey(s: Bytes)
    requires ReadKey(s).Ok?
    ensures var k := ReadKey(s).value;
            IsKey(s[..k.used], k.wire) && Num(s[..k.used]) / 8 == k.number
  {
    hide Short, Num, ReadVarint;
    ReadIsShort(s);
  }

  // ---- what is in the grammar is accepted ----

  lemma LeafSpan(key: Bytes, head: Bytes, body: Bytes, t: Bytes)
    requires LeafOk(key, head, body)
    ensures var wire := Num(key) % 8;
            && ValueSpan((head + body) + t, wire) == Ok(Span(if wire == 0 then 0 else |head|, |head| + |body|))
            && (wire == 0 ==> ReadVarint((head + body) + t) == Ok((Num(head), |head|)))
  {
    hide Short, Num, ReadVarint;
    AppendAssociates(head, body, t);
    if Short(head) {
      ShortReads(head, body + t);
    } else {
      assert head + body == body;
      EmptyIsNotShort();
    }
  }

  lemma EmptyIsNotShort()
    ensures !Short([])
  {
  }

  lemma LeafStep(p: Part, t: Bytes, open: seq<nat>)
    requires p.Leaf? && PartOk(p) && open != []
    ensures SkipGroup(PartBytes(p) + t, open) == Shift(|PartBytes(p)|, SkipGroup(t, open))
  {
    hide SkipGroup, Num, ReadKey, ValueSpan, ReadVarint, Short;
    var value := (p.head + p.body) + t;
    AppendAssociates(p.key, p.head + p.body, t);
    KeyReads(p.key, Num(p.key) % 8, value);
    LeafSpan(p.key, p.head, p.body, t);
    DropLength(p.key, value);
    SkipOne(PartBytes(p), t, open, open);
  }

  lemma KeySteps(b: Bytes, wire: nat, t: Bytes, open: seq<nat>, open': seq<nat>)
    requires IsKey(b, wire) && open != []
    requires (wire == SGROUP && open' == open + [Num(b) / 8])
             || (wire == EGROUP && open == open' + [Num(b) / 8])
    ensures SkipGroup(b + t, open) == Shift(|b|, SkipGroup(t, open'))
  {
    hide SkipGroup, Num, ReadKey, Short;
    KeyReads(b, wire, t);
    if wire == EGROUP {
      assert open[..|open| - 1] == open';
    }
    SkipOne(b, t, open, open');
  }

  lemma {:induction false} PartSteps(p: Part, t: Bytes, open: seq<nat>)
    requires PartOk(p) && open != []
    ensures SkipGroup(PartBytes(p) + t, open) == Shift(|PartBytes(p)|, SkipGroup(t, open))
    decreases p, 0
  {
    hide SkipGroup, IsKey, Num, PartsBytes;
    if p.Leaf? {
      LeafStep(p, t, open);
    } else {
      var n := Num(p.first) / 8;
      var inner := PartsBytes(p.parts);
      AppendAssociates(p.first, inner + p.last, t);
      AppendAssociates(inner, p.last, t);
      KeySteps(p.first, SGROUP, inner + (p.last + t), open, open + [n]);
      PartsStep(p.parts, p.last + t, open + [n]);
      KeySteps(p.last, EGROUP, t, open + [n], open);
    }
  }

  lemma {:induction false} PartsStep(ps: seq<Part>, t: Bytes, open: seq<nat>)
    requires PartsOk(ps) && open != []
    ensures SkipGroup(PartsBytes(ps) + t, open) == Shift(|PartsBytes(ps)|, SkipGroup(t, open))
    decreases ps, 1
  {
    hide SkipGroup, PartBytes, PartOk;
    if ps == [] {
      assert PartsBytes(ps) + t == t;
      ShiftNothing(SkipGroup(t, open));
    } else {
      var rest := PartsBytes(ps[1..]);
      AppendAssociates(PartBytes(ps[0]), rest, t);
      PartSteps(ps[0], rest + t, open);
      PartsStep(ps[1..], t, open);
    }
  }

  lemma ShiftNothing(r: Result<nat>)
    ensures Shift(0, r) == r
  {
  }

  lemma LeafTurn(p: Part, t: Bytes)
    requires p.Leaf? && PartOk(p)
    ensures ReadTurn(PartBytes(p) + t) == Ok(Turn([FieldOf(p.key, p.head, p.body)], |PartBytes(p)|))
  {
    hide Num, ReadKey, ValueSpan, ReadVarint, Short, SkipGroup;
    var value := (p.head + p.body) + t;
    AppendAssociates(p.key, p.head + p.body, t);
    KeyReads(p.key, Num(p.key) % 8, value);
    LeafSpan(p.key, p.head, p.body, t);
    DropLength(p.key, value);
    MiddleOfThree(p.head, p.body, t);
  }

  lemma NodeTurn(p: Part, t: Bytes)
    requires p.Node? && PartOk(p)
    ensures ReadTurn(PartBytes(p) + t) == Ok(Turn([], |PartBytes(p)|))
  {
    hide Num, ReadKey, IsKey, SkipGroup, PartsBytes, PartsOk, ReadVarint, ValueSpan;
    var n, inner := Num(p.first) / 8, PartsBytes(p.parts);
    var rest := inner + (p.last + t);
    AppendAssociates(p.first, inner + p.last, t);
    AppendAssociates(inner, p.last, t);
    KeyReads(p.first, SGROUP, rest);
    DropLength(p.first, rest);
    PartsStep(p.parts, p.last + t, [n]);
    assert [n] == [] + [n];
    KeySteps(p.last, EGROUP, t, [n], []);
    SkipNothing(t);
  }

  lemma {:induction false} PartsAccepted(ps: seq<Part>)
    requires PartsOk(ps)
    ensures Fields(PartsBytes(ps)) == Ok(FieldsAt(ps))
    decreases |ps|
  {
    hide ReadTurn, PartBytes, PartOk, FieldOf;
    if ps != [] {
      var first, rest := PartBytes(ps[0]), PartsBytes(ps[1..]);
      PartsAccepted(ps[1..]);
      if ps[0].Leaf? {
        LeafTurn(ps[0], rest);
      } else {
        NodeTurn(ps[0], rest);
      }
      PartNonempty(ps[0]);
      DropLength(first, rest);
    }
  }

  lemma PartNonempty(p: Part)
    requires PartOk(p)
    ensures PartBytes(p) != []
  {
    hide Num, PartsBytes, PartsOk;
  }

  // ---- what is accepted is in the grammar ----

  lemma SpanIsLeaf(s: Bytes) returns (p: Part)
    requires ReadKey(s).Ok? && ReadKey(s).value.wire != SGROUP
    requires ValueSpan(s[ReadKey(s).value.used..], ReadKey(s).value.wire).Ok?
    ensures var k := ReadKey(s).value;
            var sp := ValueSpan(s[k.used..], k.wire).value;
            p.Leaf? && PartOk(p) && PartBytes(p) == s[..k.used + sp.end]
  {
    hide Num, ReadKey, ReadVarint, Short;
    var k := ReadKey(s).value;
    var value := s[k.used..];
    var sp := ValueSpan(value, k.wire).value;
    var key := s[..k.used];
    ReadIsKey(s);
    if k.wire == VARINT || k.wire == LEN {
      ReadIsShort(value);
      var n := ReadVarint(value).value.1;
      p := Leaf(key, value[..n], value[n..sp.end]);
      assert value[..n] + value[n..sp.end] == value[..sp.end];
    } else {
      p := Leaf(key, [], value[..sp.end]);
      assert [] + value[..sp.end] == value[..sp.end];
    }
    Prefix(s, k.used, sp.end);
  }

  lemma Prefix(s: Bytes, m: nat, n: nat)
    requires m + n <= |s|
    ensures s[..m] + s[m..][..n] == s[..m + n]
  {
  }

  /** The innermost open group: its parts, and the key that closes it. */
  datatype Closing = Closing(parts: seq<Part>, last: Bytes)

  function ClosingBytes(c: Closing): Bytes { PartsBytes(c.parts) + c.last }

  predicate Closes(s: Bytes, open: seq<nat>, c: Closing)
    requires open != []
  {
    var n := |ClosingBytes(c)|;
    && PartsOk(c.parts) && IsKey(c.last, 4) && Num(c.last) / 8 == open[|open| - 1]
    && n <= |s| && s[..n] == ClosingBytes(c)
    && SkipGroup(s, open) == Shift(n, SkipGroup(s[n..], open[..|open| - 1]))
  }

  /** A part in front of what closes the group. */
  lemma PartBefore(s: Bytes, open: seq<nat>, p: Part, u: nat, after: Closing) returns (c: Closing)
    requires open != [] && u <= |s| && PartOk(p) && PartBytes(p) == s[..u]
    requires SkipGroup(s, open) == Shift(u, SkipGroup(s[u..], open)) && Closes(s[u..], open, after)
    ensures Closes(s, open, c)
  {
    hide SkipGroup, PartOk, PartBytes, IsKey, Num;
    c := Closing([p] + after.parts, after.last);
    ConsRest(p, after.parts);
    var n := |ClosingBytes(after)|;
    AppendAssociates(PartBytes(p), PartsBytes(after.parts), after.last);
    assert ClosingBytes(c) == PartBytes(p) + ClosingBytes(after);
    Prefix(s, u, n);
    DropTwice(s, u, n);
    ShiftTwice(u, n, SkipGroup(s[u + n..], open[..|open| - 1]));
  }

  lemma NodeBefore(s: Bytes, open: seq<nat>, u: nat, inner: Closing) returns (p: Part)
    requires open != [] && ReadKey(s).Ok? && ReadKey(s).value.wire == SGROUP && u == ReadKey(s).value.used
    requires SkipGroup(s, open) == Shift(u, SkipGroup(s[u..], open + [ReadKey(s).value.number]))
    requires Closes(s[u..], open + [ReadKey(s).value.number], inner)
    ensures var w := u + |ClosingBytes(inner)|;
            && w <= |s| && PartOk(p) && PartBytes(p) == s[..w]
            && SkipGroup(s, open) == Shift(w, SkipGroup(s[w..], open))
  {
    hide SkipGroup, IsKey, Num, PartsOk, PartsBytes, ReadKey;
    p := Node(s[..u], inner.parts, inner.last);
    ReadIsKey(s);
    var n, number := |ClosingBytes(inner)|, ReadKey(s).value.number;
    assert (open + [number])[..|open|] == open;
    Prefix(s, u, n);
    DropTwice(s, u, n);
    ShiftTwice(u, n, SkipGroup(s[u + n..], open));
  }

  lemma StepOf(s: Bytes, open: seq<nat>)
    requires open != [] && SkipGroup(s, open).Ok?
    ensures ReadKey(s).Ok?
    ensures var k := ReadKey(s).value;
            && (k.wire == SGROUP ==> SkipGroup(s, open) == Shift(k.used, SkipGroup(s[k.used..], open + [k.number])))
            && (k.wire == EGROUP ==>
                  && open[|open| - 1] == k.number
                  && SkipGroup(s, open) == Shift(k.used, SkipGroup(s[k.used..], open[..|open| - 1])))
            && (k.wire != SGROUP && k.wire != EGROUP ==>
                  var sp := ValueSpan(s[k.used..], k.wire);
                  && sp.Ok? && k.used + sp.value.end <= |s|
                  && SkipGroup(s, open) == Shift(k.used + sp.value.end, SkipGroup(s[k.used + sp.value.end..], open)))
  {
    hide ReadKey, ValueSpan;
  }

  lemma {:induction false} GroupIsParts(s: Bytes, open: seq<nat>) returns (c: Closing)
    requires open != [] && SkipGroup(s, open).Ok?
    ensures Closes(s, open, c)
    decreases |s|
  {
    hide SkipGroup, ReadKey, ValueSpan, PartOk, PartBytes, Closes;
    StepOf(s, open);
    var k := ReadKey(s).value;
    if k.wire == EGROUP {
      c := Closing([], s[..k.used]);
      EndCloses(s, open);
    } else if k.wire == SGROUP {
      var inner := GroupIsParts(s[k.used..], open + [k.number]);
      var p := NodeBefore(s, open, k.used, inner);
      var w := k.used + |ClosingBytes(inner)|;
      var after := GroupIsParts(s[w..], open);
      c := PartBefore(s, open, p, w, after);
    } else {
      var w := k.used + ValueSpan(s[k.used..], k.wire).value.end;
      var p := SpanIsLeaf(s);
      var after := GroupIsParts(s[w..], open);
      c := PartBefore(s, open, p, w, after);
    }
  }

  lemma EndCloses(s: Bytes, open: seq<nat>)
    requires open != [] && ReadKey(s).Ok? && ReadKey(s).value.wire == EGROUP
    requires open[|open| - 1] == ReadKey(s).value.number
    requires var u := ReadKey(s).value.used;
             SkipGroup(s, open) == Shift(u, SkipGroup(s[u..], open[..|open| - 1]))
    ensures Closes(s, open, Closing([], s[..ReadKey(s).value.used]))
  {
    hide SkipGroup, ReadKey, IsKey, Num;
    ReadIsKey(s);
    var last := s[..ReadKey(s).value.used];
    assert [] + last == last;
  }

  lemma TurnIsPart(s: Bytes) returns (p: Part)
    requires ReadTurn(s).Ok?
    ensures PartOk(p) && PartBytes(p) == s[..ReadTurn(s).value.used]
  {
    hide ReadKey, ValueSpan, SkipGroup, PartBytes, PartOk, Closes;
    var k := ReadKey(s).value;
    if k.wire == SGROUP {
      var rest := s[k.used..];
      var inner := GroupIsParts(rest, [k.number]);
      p := NodeAlone(s, inner);
    } else {
      VarintSpan(s[k.used..]);
      p := SpanIsLeaf(s);
    }
  }

  lemma VarintSpan(s: Bytes)
    ensures ReadVarint(s).Ok? ==> ValueSpan(s, VARINT) == Ok(Span(0, ReadVarint(s).value.1))
  {
  }

  lemma NodeAlone(s: Bytes, inner: Closing) returns (p: Part)
    requires ReadKey(s).Ok? && ReadKey(s).value.wire == SGROUP
    requires Closes(s[ReadKey(s).value.used..], [ReadKey(s).value.number], inner)
    ensures PartOk(p)
    ensures var k := ReadKey(s).value;
            var g := SkipGroup(s[k.used..], [k.number]);
            g.Ok? && k.used + g.value <= |s| && PartBytes(p) == s[..k.used + g.value]
  {
    hide ReadKey, SkipGroup, IsKey, Num, PartsOk, PartsBytes;
    var k := ReadKey(s).value;
    var rest, n := s[k.used..], |ClosingBytes(inner)|;
    ReadIsKey(s);
    p := Node(s[..k.used], inner.parts, inner.last);
    assert [k.number][..0] == [];
    SkipNothing(rest[n..]);
    Prefix(s, k.used, n);
  }

  lemma {:induction false} FieldsIsParts(s: Bytes) returns (ps: seq<Part>)
    requires Fields(s).Ok?
    ensures PartsOk(ps) && PartsBytes(ps) == s
    decreases |s|
  {
    hide ReadTurn, PartOk, PartBytes;
    if s == [] {
      ps := [];
    } else {
      var u := ReadTurn(s).value.used;
      var p := TurnIsPart(s);
      var rest := FieldsIsParts(s[u..]);
      ps := [p] + rest;
      ConsRest(p, rest);
      assert s[..u] + s[u..] == s;
    }
  }

  /** The walk accepts exactly the messages of the grammar, and reports of each the fields
      at its top. */
  lemma AcceptedExactly(s: Bytes)
    ensures Fields(s).Ok? <==> exists ps :: PartsOk(ps) && PartsBytes(ps) == s
    ensures forall ps :: PartsOk(ps) && PartsBytes(ps) == s ==> Fields(s) == Ok(FieldsAt(ps))
  {
    hide Fields, PartsOk, PartsBytes, FieldsAt;
    if Fields(s).Ok? {
      var ps := FieldsIsParts(s);
    }
    forall ps | PartsOk(ps) && PartsBytes(ps) == s ensures Fields(s) == Ok(FieldsAt(ps)) {
      PartsAccepted(ps);
    }
  }
}
