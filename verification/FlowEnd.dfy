/** Trees written in YAML flow style: lists and maps over double-quoted, single-quoted and
    plain scalars, with any blanks and comments after brackets, commas and colons. */
module FlowPrint {
  import opened Common

  /** A map keeps its entries in order, repeated keys included. */
  datatype Tree = Scalar(text: string) | List(items: seq<Tree>) | Map(entries: seq<Entry>)

  datatype Entry = Entry(key: Tree, value: Tree)

  /** The blanks and comments inside brackets, those after a comma or a colon, the texts
      that are written plain, without quotes, and those written in single quotes. The
      canonical layout is Layout("", " ", {}, {}). */
  datatype Layout = Layout(edge: string, gap: string, plain: set<string>, single: set<string>)

  predicate IsBlank(c: char) { c == ' ' || c == '\t' || c == '\n' }

  predicate Punctuation(c: char) { c == ',' || c == '[' || c == ']' || c == '{' || c == '}' }

  function FirstNewline(s: string): (r: nat)
    requires '\n' in s
    ensures r < |s| && s[r] == '\n' && '\n' !in s[..r]
  {
    if s[0] == '\n' then 0 else 1 + FirstNewline(s[1..])
  }

  /** Blanks, and comments to the end of their line; a comment has a blank before it. */
  predicate IsGap(s: string, afterBlank: bool)
    decreases |s|
  {
    || s == ""
    || (IsBlank(s[0]) && IsGap(s[1..], true))
    || (afterBlank && s[0] == '#' && '\n' in s && IsGap(s[FirstNewline(s) + 1..], true))
  }

  predicate PlainChar(c: char)
  {
    !Punctuation(c) && c != ':' && c != '#' && c != '"' && c != '\'' && c != '\n'
  }

  /** A text that can stand without quotes. */
  predicate PlainSafe(s: string)
  {
    && s != "" && (forall i :: 0 <= i < |s| ==> PlainChar(s[i]))
    && !IsSpace(s[0]) && !IsSpace(s[|s| - 1]) && s[0] != '*'
  }

  /** A text that single quotes can enclose as it is. */
  predicate SingleSafe(s: string) { '\'' !in s && '\n' !in s }

  /** A plain scalar ends at the next punctuation, so nothing may stand in between. */
  predicate LegalLayout(l: Layout)
  {
    && IsGap(l.edge, false) && IsGap(l.gap, false)
    && (forall s :: s in l.plain ==> PlainSafe(s))
    && (forall s :: s in l.single ==> SingleSafe(s))
    && (l.plain != {} ==> l.edge == "" && l.gap != "")
  }

  function EscapeChar(c: char): string
  {
    if c == '"' then "\\\"" else if c == '\\' then "\\\\" else if c == '\n' then "\\n" else [c]
  }

  function Escape(s: string): string
  {
    if s == "" then "" else EscapeChar(s[0]) + Escape(s[1..])
  }

  function Open(t: Tree): char { if t.Map? then '{' else '[' }

  function Close(t: Tree): char { if t.Map? then '}' else ']' }

  function Count(t: Tree): nat
    requires !t.Scalar?
  {
    if t.List? then |t.items| else |t.entries|
  }

  /** What stands before element i, or before the closing bracket. */
  function Lead(l: Layout, t: Tree, i: nat): string
    requires !t.Scalar?
  {
    if 0 < i < Count(t) then "," + l.gap else l.edge
  }

  function Element(l: Layout, t: Tree, i: nat): string
    requires !t.Scalar? && i < Count(t)
    decreases t, 0
  {
    if t.List? then Print(l, t.items[i])
    else Print(l, t.entries[i].key) + (":" + (l.gap + Print(l, t.entries[i].value)))
  }

  /** The elements from the i-th on, up to the closing bracket. */
  function Inside(l: Layout, t: Tree, i: nat): string
    requires !t.Scalar? && i <= Count(t)
    decreases t, 1 + Count(t) - i
  {
    Lead(l, t, i) + if i == Count(t) then "" else Element(l, t, i) + Inside(l, t, i + 1)
  }

  function Print(l: Layout, t: Tree): string
    decreases t, if t.Scalar? then 0 else Count(t) + 2
  {
    if t.Scalar? then
      if t.text in l.plain then t.text
      else if t.text in l.single then "'" + (t.text + "'")
      else "\"" + (Escape(t.text) + "\"")
    else [Open(t)] + (Inside(l, t, 0) + [Close(t)])
  }
}

/** Where a flow collection ends: _flow_end of app/ser2net_import.py. */
module FlowEnd {
  import opened Common
  import opened FlowPrint

  // ---- the scan as an automaton over single characters ----

  datatype Mode = Plain(prev: Option<char>) | Quoted(quote: char) | Escaped | Comment

  datatype State = State(depth: int, mode: Mode)

  const START := State(0, Plain(None))

  /** The characters after which a quote opens a quoted scalar. */
  predicate Starter(c: char) { IsBlank(c) || c == ',' || c == '[' || c == '{' || c == ':' }

  predicate OpensQuote(prev: Option<char>, c: char) { (c == '"' || c == '\'') && (prev.None? || Starter(prev.value)) }

  predicate OpensComment(prev: Option<char>, c: char) { c == '#' && (prev.None? || IsBlank(prev.value)) }

  function Step(st: State, c: char): State
  {
    match st.mode
    case Quoted(q) =>
      if c == '\\' && q == '"' then st.(mode := Escaped)
      else if c == q then st.(mode := Plain(Some(c)))
      else st
    case Escaped => st.(mode := Quoted('"'))
    case Comment => if c == '\n' then st.(mode := Plain(Some(c))) else st
    case Plain(prev) =>
      if OpensQuote(prev, c) then st.(mode := Quoted(c))
      else if OpensComment(prev, c) then st.(mode := Comment)
      else if c == '[' || c == '{' then State(st.depth + 1, Plain(Some(c)))
      else if c == ']' || c == '}' then State(st.depth - 1, Plain(Some(c)))
      else st.(mode := Plain(Some(c)))
  }

  /** The bracket that ends the collection. */
  predicate Ends(st: State, c: char) { st.mode.Plain? && st.depth == 1 && (c == ']' || c == '}') }

  function Run(st: State, text: string): State
    decreases |text|
  {
    if text == "" then st else Run(Step(st, text[0]), text[1..])
  }

  /** The length of text up to the end of the collection, if it ends in text. */
  function EndFrom(st: State, text: string): (r: Option<nat>)
    ensures r.Some? ==> 0 < r.value <= |text|
    decreases |text|
  {
    if text == "" then None
    else if Ends(st, text[0]) then Some(1)
    else Bump(1, EndFrom(Step(st, text[0]), text[1..]))
  }

  function AsIndex(r: Option<nat>): int { if r.None? then -1 else r.value }

  // ---- the loop ----

  /** text.find of a newline. */
  method FindNewline(text: string, from: nat) returns (r: int)
    requires from <= |text|
    ensures r == -1 ==> '\n' !in text[from..]
    ensures r != -1 ==> from <= r < |text| && text[r] == '\n' && '\n' !in text[from..r]
  {
    r := from;
    while r < |text|
      invariant from <= r <= |text| && '\n' !in text[from..r]
    {
      if text[r] == '\n' {
        return;
      }
      r := r + 1;
    }
    return -1;
  }

  lemma {:induction false} CommentSkips(st: State, a: string, b: string)
    requires st.mode.Comment? && '\n' !in a
    ensures EndFrom(st, a + b) == Bump(|a|, EndFrom(st, b))
  {
    if a == "" {
      assert a + b == b;
    } else {
      assert a[0] in a;
      CommentSkips(st, a[1..], b);
      DropOfAppend(a, b, 1);
    }
  }

  /** A comment that starts at j and goes to the newline at nl. */
  lemma CommentLine(st: State, text: string, j: nat, nl: nat)
    requires j < nl < |text| && text[nl] == '\n' && '\n' !in text[j..nl]
    requires st.mode.Plain? && OpensComment(st.mode.prev, text[j])
    ensures EndFrom(st, text[j..]) == Bump(nl + 1 - j, EndFrom(st.(mode := Plain(Some('\n'))), text[nl + 1..]))
  {
    var inComment := st.(mode := Comment);
    EndStep(st, text, j);
    SplitAt(text, j + 1, nl);
    assert '\n' !in text[j + 1..nl] by {
      assert text[j + 1..nl] == text[j..nl][1..];
    }
    hide EndFrom;
    CommentSkips(inComment, text[j + 1..nl], text[nl..]);
    EndStep(inComment, text, nl);
  }

  lemma CommentToEnd(st: State, text: string, j: nat)
    requires j < |text| && '\n' !in text[j..]
    requires st.mode.Plain? && OpensComment(st.mode.prev, text[j])
    ensures EndFrom(st, text[j..]) == None
  {
    var rest := text[j..][1..];
    assert rest + "" == rest;
    CommentSkips(st.(mode := Comment), rest, "");
  }

  lemma EndStep(st: State, text: string, j: nat)
    requires j < |text|
    ensures EndFrom(st, text[j..]) ==
            if Ends(st, text[j]) then Some(1) else Bump(1, EndFrom(Step(st, text[j]), text[j + 1..]))
  {
    DropTwice(text, j, 1);
  }

  /** The state of the automaton that the variables of the loop stand for. */
  function StateOf(text: string, j: nat, depth: int, quote: Option<char>): State
    requires j <= |text|
  {
    State(depth, if quote.Some? then Quoted(quote.value) else Plain(if j == 0 then None else Some(text[j - 1])))
  }

  /** _flow_end: an escaped character and a comment are jumped over. */
  method FlowEnd(text: string) returns (end: int)
    ensures end == AsIndex(EndFrom(START, text))
  {
    hide Step, Ends, OpensQuote, OpensComment, EndFrom;
    var depth, j, quote := 0, 0, None;
    assert text[0..] == text;
    while j < |text|
      invariant 0 <= j <= |text|
      invariant quote.Some? ==> quote.value == '"' || quote.value == '\''
      invariant EndFrom(START, text) == Bump(j, EndFrom(StateOf(text, j, depth, quote), text[j..]))
    {
      var c := text[j];
      ghost var st := StateOf(text, j, depth, quote);
      EndStep(st, text, j);
      StepCases(st, c);
      if quote.Some? {
        if c == '\\' && quote.value == '"' {
          j := j + 1;
          if j < |text| {
            EndStep(st.(mode := Escaped), text, j);
            StepCases(st.(mode := Escaped), text[j]);
          }
        } else if c == quote.value {
          quote := None;
        }
      } else if (c == '"' || c == '\'') && (j == 0 || Starter(text[j - 1])) {
        quote := Some(c);
      } else if c == '#' && (j == 0 || IsBlank(text[j - 1])) {
        var nl := FindNewline(text, j);
        if nl < 0 {
          CommentToEnd(st, text, j);
          return -1;
        }
        CommentLine(st, text, j, nl);
        j := nl;
      } else if c == '[' || c == '{' {
        depth := depth + 1;
      } else if c == ']' || c == '}' {
        depth := depth - 1;
        if depth == 0 {
          return j + 1;
        }
      }
      if j == |text| {
        AtEnd(st.(mode := Escaped));
        return -1;
      }
      j := j + 1;
    }
    AtEnd(StateOf(text, j, depth, quote));
    return -1;
  }

  lemma AtEnd(st: State)
    ensures EndFrom(st, "") == None
  {
  }

  lemma StepCases(st: State, c: char)
    ensures st.mode.Escaped? ==> Step(st, c) == st.(mode := Quoted('"')) && !Ends(st, c)
    ensures st.mode.Quoted? ==>
            && !Ends(st, c)
            && Step(st, c) == if c == '\\' && st.mode.quote == '"' then st.(mode := Escaped)
                              else if c == st.mode.quote then st.(mode := Plain(Some(c)))
                              else st
    ensures st.mode.Plain? ==>
            && (OpensQuote(st.mode.prev, c) <==>
                  (c == '"' || c == '\'') && (st.mode.prev.None? || Starter(st.mode.prev.value)))
            && (OpensComment(st.mode.prev, c) <==> c == '#' && (st.mode.prev.None? || IsBlank(st.mode.prev.value)))
            && (Ends(st, c) <==> st.depth == 1 && (c == ']' || c == '}'))
            && (OpensQuote(st.mode.prev, c) ==> Step(st, c) == st.(mode := Quoted(c)))
            && (!OpensQuote(st.mode.prev, c) && !OpensComment(st.mode.prev, c) ==>
                  Step(st, c) == if c == '[' || c == '{' then State(st.depth + 1, Plain(Some(c)))
                                 else if c == ']' || c == '}' then State(st.depth - 1, Plain(Some(c)))
                                 else st.(mode := Plain(Some(c))))
  {
  }

  // ---- composition ----

  /** w takes st to st' without ending the collection. */
  predicate Moves(st: State, w: string, st': State) { EndFrom(st, w) == None && Run(st, w) == st' }

  lemma {:induction false} EndAppend(st: State, a: string, b: string)
    ensures EndFrom(st, a + b) == if EndFrom(st, a).Some? then EndFrom(st, a) else Bump(|a|, EndFrom(Run(st, a), b))
    ensures Run(st, a + b) == Run(Run(st, a), b)
    decreases |a|
  {
    hide Step, Ends;
    if a == "" {
      assert a + b == b;
    } else {
      EndAppend(Step(st, a[0]), a[1..], b);
      DropOfAppend(a, b, 1);
      assert (a + b)[0] == a[0];
    }
  }

  lemma MovesAppend(st: State, a: string, mid: State, b: string, st': State)
    requires Moves(st, a, mid) && Moves(mid, b, st')
    ensures Moves(st, a + b, st')
  {
    EndAppend(st, a, b);
  }

  lemma MovesOne(st: State, c: char)
    requires !Ends(st, c)
    ensures Moves(st, [c], Step(st, c))
  {
    hide Ends, Step;
    assert [c][1..] == "";
    assert Run(Step(st, c), "") == Step(st, c);
  }

  lemma MovesNothing(st: State)
    ensures Moves(st, "", st)
  {
  }

  // ---- printed trees ----

  /** Where a value may start. */
  predicate Ready(st: State) { st.mode.Plain? && (st.mode.prev.None? || Starter(st.mode.prev.value)) }

  function After(st: State, c: char): State { State(st.depth, Plain(Some(c))) }

  predicate BlankBefore(st: State) { st.mode.Plain? && st.mode.prev.Some? && IsBlank(st.mode.prev.value) }

  lemma {:induction false} MovesGap(st: State, w: string, afterBlank: bool) returns (st': State)
    requires st.mode.Plain? && IsGap(w, afterBlank) && (afterBlank ==> BlankBefore(st))
    ensures Moves(st, w, st') && st'.depth == st.depth && st'.mode.Plain? && (Ready(st) ==> Ready(st'))
    ensures w == "" ==> st' == st
    decreases |w|
  {
    hide Moves;
    if w == "" {
      st' := st;
      MovesNothing(st);
    } else if IsBlank(w[0]) {
      assert !OpensQuote(st.mode.prev, w[0]) && !OpensComment(st.mode.prev, w[0]) && Starter(w[0]);
      MovesOne(st, w[0]);
      st' := MovesGap(After(st, w[0]), w[1..], true);
      MovesAppend(st, [w[0]], After(st, w[0]), w[1..], st');
      FirstAndRest(w);
    } else {
      var k := FirstNewline(w);
      MovesLine(st, w[..k + 1]);
      st' := MovesGap(After(st, '\n'), w[k + 1..], true);
      MovesAppend(st, w[..k + 1], After(st, '\n'), w[k + 1..], st');
      assert w[..k + 1] + w[k + 1..] == w;
    }
  }

  lemma {:induction false} MovesInComment(st: State, a: string)
    requires st.mode.Comment? && '\n' !in a
    ensures Moves(st, a, st)
  {
    if a == "" {
      MovesNothing(st);
    } else {
      assert a[0] in a;
      MovesOne(st, a[0]);
      MovesInComment(st, a[1..]);
      MovesAppend(st, [a[0]], st, a[1..], st);
      FirstAndRest(a);
    }
  }

  /** A comment with its newline. */
  lemma MovesLine(st: State, w: string)
    requires BlankBefore(st) && |w| >= 2 && w[0] == '#' && w[|w| - 1] == '\n' && '\n' !in w[..|w| - 1]
    ensures Moves(st, w, After(st, '\n'))
  {
    hide Moves;
    var inside, body := st.(mode := Comment), w[1..|w| - 1];
    MovesOne(st, '#');
    assert '\n' !in body by {
      assert body == w[..|w| - 1][1..];
    }
    MovesInComment(inside, body);
    MovesOne(inside, '\n');
    MovesAppend(inside, body, inside, ['\n'], After(st, '\n'));
    MovesAppend(st, ['#'], inside, body + ['\n'], After(st, '\n'));
    assert ['#'] + (body + ['\n']) == w;
  }

  lemma {:induction false} MovesPlain(st: State, s: string)
    requires st.mode.Plain? && s != "" && forall i :: 0 <= i < |s| ==> PlainChar(s[i])
    ensures Moves(st, s, After(st, s[|s| - 1]))
    decreases |s|
  {
    hide Moves;
    MovesOne(st, s[0]);
    assert Step(st, s[0]) == After(st, s[0]);
    FirstAndRest(s);
    if |s| == 1 {
      assert [s[0]] == s;
    } else {
      MovesPlain(After(st, s[0]), s[1..]);
      MovesAppend(st, [s[0]], After(st, s[0]), s[1..], After(st, s[|s| - 1]));
    }
  }

  lemma MovesEscape(st: State, c: char)
    requires st.mode == Quoted('"')
    ensures Moves(st, EscapeChar(c), st)
  {
    if c == '"' || c == '\\' || c == '\n' {
      var d := if c == '\n' then 'n' else c;
      var mid := st.(mode := Escaped);
      MovesOne(st, '\\');
      MovesOne(mid, d);
      MovesAppend(st, ['\\'], mid, [d], st);
      assert ['\\'] + [d] == ['\\', d];
    } else {
      MovesOne(st, c);
    }
  }

  lemma {:induction false} MovesEscapes(st: State, s: string)
    requires st.mode == Quoted('"')
    ensures Moves(st, Escape(s), st)
  {
    if s == "" {
      MovesNothing(st);
    } else {
      MovesEscape(st, s[0]);
      MovesEscapes(st, s[1..]);
      MovesAppend(st, EscapeChar(s[0]), st, Escape(s[1..]), st);
    }
  }

  lemma MovesScalar(st: State, s: string)
    requires Ready(st)
    ensures Moves(st, "\"" + (Escape(s) + "\""), After(st, '"'))
  {
    hide Moves, Escape;
    var quoted := st.(mode := Quoted('"'));
    MovesOne(st, '"');
    MovesEscapes(quoted, s);
    MovesOne(quoted, '"');
    MovesAppend(quoted, Escape(s), quoted, "\"", After(st, '"'));
    MovesAppend(st, "\"", quoted, Escape(s) + "\"", After(st, '"'));
  }

  function LastOf(l: Layout, t: Tree): char
    requires LegalLayout(l)
  {
    if !t.Scalar? then Close(t) else if t.text in l.plain then t.text[|t.text| - 1]
    else if t.text in l.single then '\'' else '"'
  }

  lemma {:induction false} MovesInSingle(st: State, s: string)
    requires st.mode == Quoted('\'') && '\'' !in s
    ensures Moves(st, s, st)
  {
    if s == "" {
      MovesNothing(st);
    } else {
      assert s[0] in s;
      MovesOne(st, s[0]);
      MovesInSingle(st, s[1..]);
      MovesAppend(st, [s[0]], st, s[1..], st);
      FirstAndRest(s);
    }
  }

  lemma MovesSingle(st: State, s: string)
    requires Ready(st) && SingleSafe(s)
    ensures Moves(st, "'" + (s + "'"), After(st, '\''))
  {
    hide Moves;
    var quoted := st.(mode := Quoted('\''));
    MovesOne(st, '\'');
    MovesInSingle(quoted, s);
    MovesOne(quoted, '\'');
    MovesAppend(quoted, s, quoted, "'", After(st, '\''));
    MovesAppend(st, "'", quoted, s + "'", After(st, '\''));
  }

  /** A doubled quote inside single quotes is not seen as one: after ['a'' the bracket of
      the text is taken for the end. */
  lemma DoubledQuoteMisread()
    ensures EndFrom(START, "['a'']']") == Some(6)
  {
    var s := "['a'']']";
    var body := "['a''";
    var st := State(1, Plain(Some('\'')));
    assert Moves(START, "['a''", st) by {
      var in1 := State(1, Plain(Some('[')));
      MovesOne(START, '[');
      MovesSingle(in1, "a");
      MovesOne(After(in1, '\''), '\'');
      hide Moves;
      MovesAppend(in1, "'" + ("a" + "'"), After(in1, '\''), "'", st);
      MovesAppend(START, "[", in1, ("'" + ("a" + "'")) + "'", st);
      assert "[" + (("'" + ("a" + "'")) + "'") == "['a''";
    }
    assert s == body + "]']";
    EndAppend(START, body, "]']");
    assert Ends(st, "]']"[0]);
  }

  /** Inside brackets a printed tree leaves the scan where it was. */
  lemma {:induction false} MovesPrint(l: Layout, t: Tree, st: State)
    requires LegalLayout(l) && Ready(st) && st.depth >= 1
    ensures Moves(st, Print(l, t), After(st, LastOf(l, t)))
    decreases t, if t.Scalar? then 0 else Count(t) + 2
  {
    hide Moves, Escape, Inside;
    if t.Scalar? && t.text in l.plain {
      MovesPlain(st, t.text);
    } else if t.Scalar? && t.text in l.single {
      MovesSingle(st, t.text);
    } else if t.Scalar? {
      MovesScalar(st, t.text);
    } else {
      var last := MovesOpened(l, t, st);
      assert Step(last, Close(t)) == After(st, Close(t));
      MovesOne(last, Close(t));
      MovesAppend(st, [Open(t)] + Inside(l, t, 0), last, [Close(t)], After(st, Close(t)));
      AppendAssociates([Open(t)], Inside(l, t, 0), [Close(t)]);
    }
  }

  /** A collection up to its closing bracket, at any depth. */
  lemma {:induction false} MovesOpened(l: Layout, t: Tree, st: State) returns (last: State)
    requires LegalLayout(l) && Ready(st) && st.depth >= 0 && !t.Scalar?
    ensures Moves(st, [Open(t)] + Inside(l, t, 0), last)
    ensures last.depth == st.depth + 1 && last.mode.Plain?
    decreases t, Count(t) + 1, 1
  {
    hide Moves, Inside;
    MovesOne(st, Open(t));
    var within := State(st.depth + 1, Plain(Some(Open(t))));
    last := MovesInside(l, t, 0, within);
    MovesAppend(st, [Open(t)], within, Inside(l, t, 0), last);
  }

  lemma {:induction false} MovesInside(l: Layout, t: Tree, i: nat, st: State) returns (last: State)
    requires LegalLayout(l) && !t.Scalar? && i <= Count(t) && st.depth >= 1
    requires if i == 0 then Ready(st) else st.mode.Plain?
    ensures Moves(st, Inside(l, t, i), last)
    ensures last.depth == st.depth && last.mode.Plain?
    decreases t, 1 + Count(t) - i, 0
  {
    hide Moves, Element;
    var a := MovesLead(l, t, i, st);
    if i == Count(t) {
      last := a;
      assert Lead(l, t, i) + "" == Lead(l, t, i);
    } else {
      var b := MovesElement(l, t, i, a);
      last := MovesInside(l, t, i + 1, b);
      MovesAppend(a, Element(l, t, i), b, Inside(l, t, i + 1), last);
      MovesAppend(st, Lead(l, t, i), a, Element(l, t, i) + Inside(l, t, i + 1), last);
    }
  }

  lemma MovesLead(l: Layout, t: Tree, i: nat, st: State) returns (st': State)
    requires LegalLayout(l) && !t.Scalar? && i <= Count(t)
    requires if i == 0 then Ready(st) else st.mode.Plain?
    ensures Moves(st, Lead(l, t, i), st')
    ensures st'.depth == st.depth && st'.mode.Plain? && (i < Count(t) ==> Ready(st'))
  {
    hide Moves;
    if 0 < i < Count(t) {
      MovesOne(st, ',');
      st' := MovesGap(After(st, ','), l.gap, false);
      MovesAppend(st, ",", After(st, ','), l.gap, st');
    } else {
      st' := MovesGap(st, l.edge, false);
    }
  }

  lemma {:induction false} MovesElement(l: Layout, t: Tree, i: nat, st: State) returns (st': State)
    requires LegalLayout(l) && !t.Scalar? && i < Count(t) && Ready(st) && st.depth >= 1
    ensures Moves(st, Element(l, t, i), st')
    ensures st'.depth == st.depth && st'.mode.Plain?
    decreases t, 0, 0
  {
    hide Moves, Print;
    if t.List? {
      MovesPrint(l, t.items[i], st);
      st' := After(st, LastOf(l, t.items[i]));
    } else {
      var e := t.entries[i];
      MovesPrint(l, e.key, st);
      var a := After(st, LastOf(l, e.key));
      MovesOne(a, ':');
      var b := After(a, ':');
      var c := MovesGap(b, l.gap, false);
      MovesPrint(l, e.value, c);
      st' := After(c, LastOf(l, e.value));
      MovesAppend(b, l.gap, c, Print(l, e.value), st');
      MovesAppend(a, ":", b, l.gap + Print(l, e.value), st');
      MovesAppend(st, Print(l, e.key), a, ":" + (l.gap + Print(l, e.value)), st');
    }
  }

  /** The end of a printed collection is found in any longer text, and nowhere before. */
  lemma EndOfPrint(l: Layout, t: Tree, rest: string)
    requires LegalLayout(l) && !t.Scalar?
    ensures EndFrom(START, Print(l, t) + rest) == Some(|Print(l, t)|)
  {
    hide EndFrom, Inside;
    var body := [Open(t)] + Inside(l, t, 0);
    var last := MovesOpened(l, t, START);
    EndAppend(START, body, [Close(t)]);
    assert EndFrom(last, [Close(t)]) == Some(1) by {
      EndStep(last, [Close(t)], 0);
      assert [Close(t)][0..] == [Close(t)];
    }
    AppendAssociates([Open(t)], Inside(l, t, 0), [Close(t)]);
    EndAppend(START, Print(l, t), rest);
  }

  lemma PrefixUnfinished(l: Layout, t: Tree, n: nat)
    requires LegalLayout(l) && !t.Scalar? && n < |Print(l, t)|
    ensures EndFrom(START, Print(l, t)[..n]) == None
  {
    hide Print, EndFrom;
    var w := Print(l, t);
    EndOfPrint(l, t, "");
    assert w + "" == w && w[..n] + w[n..] == w;
    EndAppend(START, w[..n], w[n..]);
  }
}
