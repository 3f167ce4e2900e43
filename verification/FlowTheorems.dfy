/** What is printed in flow style is read back: the end is found, over any number of
    lines, and the reader returns the tree. */
module FlowTheorems {
  import opened Common
  import opened FlowPrint
  import opened QuotedScalar
  import opened FlowReader
  import FE = FlowEnd

  /** w stands at position j of s. */
  predicate At(s: string, j: nat, w: string) { j + |w| <= |s| && s[j..j + |w|] == w }

  lemma AtSplit(s: string, j: nat, a: string, b: string)
    requires At(s, j, a + b)
    ensures At(s, j, a) && At(s, j + |a|, b)
  {
    assert (a + b)[..|a|] == a && (a + b)[|a|..] == b;
  }

  lemma AtChar(s: string, j: nat, c: char)
    requires At(s, j, [c])
    ensures CharAt(s, j, c)
  {
    assert s[j] == s[j..j + 1][0];
  }

  lemma AtFirst(s: string, j: nat, w: string)
    requires At(s, j, w) && w != ""
    ensures CharAt(s, j, w[0])
  {
    assert s[j] == s[j..j + |w|][0];
  }

  lemma WsOne(s: string, j: nat, c: char)
    requires CharAt(s, j, c) && IsBlank(c)
    ensures Ws(s, j) == Ws(s, j + 1)
  {
  }

  lemma WsComment(s: string, j: nat, c: string)
    requires At(s, j, c) && c != "" && c[0] == '#' && '\n' !in c && CharAt(s, j + |c|, '\n')
    requires j > 0 && IsBlank(s[j - 1])
    ensures Ws(s, j) == Ws(s, j + |c| + 1)
  {
    AtFirst(s, j, c);
    LineEndIs(s, j, c);
    assert Ws(s, j) == Ws(s, LineEnd(s, j));
    WsOne(s, j + |c|, '\n');
  }

  /** A gap that does not start with a blank starts with a comment. */
  lemma SplitGap(w: string, afterBlank: bool) returns (comment: string, rest: string)
    requires IsGap(w, afterBlank) && w != "" && !IsBlank(w[0])
    ensures w == comment + (['\n'] + rest) && IsGap(rest, true) && |w| == |comment| + 1 + |rest|
    ensures comment != "" && comment[0] == '#' && '\n' !in comment && afterBlank
  {
    var k := FirstNewline(w);
    comment, rest := w[..k], w[k + 1..];
    assert w == w[..k] + ([w[k]] + w[k + 1..]);
  }

  lemma GapRest(w: string, afterBlank: bool)
    requires IsGap(w, afterBlank) && w != "" && IsBlank(w[0])
    ensures IsGap(w[1..], true)
  {
  }

  lemma {:induction false} WsGap(s: string, j: nat, w: string, afterBlank: bool)
    requires At(s, j, w) && IsGap(w, afterBlank) && (afterBlank ==> j > 0 && IsBlank(s[j - 1]))
    ensures Ws(s, j) == Ws(s, j + |w|)
    decreases |w|
  {
    hide Ws, At, IsGap;
    if w != "" {
      AtFirst(s, j, w);
      if IsBlank(w[0]) {
        GapRest(w, afterBlank);
        FirstAndRest(w);
        AtSplit(s, j, [w[0]], w[1..]);
        WsOne(s, j, w[0]);
        WsGap(s, j + 1, w[1..], true);
      } else {
        var comment, rest := SplitGap(w, afterBlank);
        var k := j + |comment|;
        AtSplit(s, j, comment, ['\n'] + rest);
        AtSplit(s, k, ['\n'], rest);
        AtChar(s, k, '\n');
        WsComment(s, j, comment);
        WsGap(s, k + 1, rest, true);
      }
    }
  }

  lemma {:induction false} LineEndIs(s: string, j: nat, w: string)
    requires At(s, j, w) && '\n' !in w && CharAt(s, j + |w|, '\n')
    ensures LineEnd(s, j) == j + |w|
    decreases |w|
  {
    if w != "" {
      AtFirst(s, j, w);
      assert w[0] in w;
      assert [w[0]] + w[1..] == w;
      AtSplit(s, j, [w[0]], w[1..]);
      LineEndIs(s, j + 1, w[1..]);
    }
  }

  lemma WsStop(s: string, j: nat, c: char)
    requires CharAt(s, j, c) && !IsBlank(c) && c != '#'
    ensures Ws(s, j) == j
  {
  }

  /** What a value can start with. */
  predicate StartChar(c: char) { !IsBlank(c) && c != '#' && c != ']' && c != '}' }

  lemma PrintStarts(l: Layout, t: Tree)
    requires LegalLayout(l)
    ensures Print(l, t) != "" && StartChar(Print(l, t)[0])
    ensures !t.Scalar? ==> Print(l, t)[0] == Open(t)
    ensures t.Scalar? && t.text !in l.plain ==> Print(l, t)[0] == if t.text in l.single then '\'' else '"'
  {
    hide Inside, Escape;
    if t.Scalar? && t.text in l.plain {
      assert PlainSafe(t.text) && PlainChar(t.text[0]);
    }
  }

  lemma ElementStarts(l: Layout, t: Tree, i: nat)
    requires LegalLayout(l) && !t.Scalar? && i < Count(t)
    ensures var e := Element(l, t, i);
            e != "" && StartChar(e[0])
  {
    hide Print;
    if t.List? {
      PrintStarts(l, t.items[i]);
    } else {
      PrintStarts(l, t.entries[i].key);
    }
  }

  // ---- plain scalars ----

  lemma {:induction false} PlainRuns(s: string, j: nat, w: string)
    requires At(s, j, w) && (forall i :: 0 <= i < |w| ==> PlainChar(w[i]))
    requires j + |w| == |s| || EndsPlain(s, j + |w|)
    ensures PlainEnd(s, j) == j + |w|
    decreases |w|
  {
    if w != "" {
      AtFirst(s, j, w);
      assert [w[0]] + w[1..] == w;
      AtSplit(s, j, [w[0]], w[1..]);
      PlainRuns(s, j + 1, w[1..]);
    }
  }

  lemma PlainText(w: string)
    requires PlainSafe(w)
    ensures JoinPlain(SplitLines(w)) == w
  {
    assert '\n' !in w by {
      assert forall i :: 0 <= i < |w| ==> PlainChar(w[i]);
    }
    OneLine(w);
    assert [w][1..] == [] && JoinPlain([]) == "";
    assert StripSpace(w) == w;
  }

  lemma ReadPlain(s: string, j: nat, w: string, env: Env)
    requires At(s, j, w) && PlainSafe(w) && (j + |w| == |s| || EndsPlain(s, j + |w|))
    ensures ParseValue(s, j, env) == Ok(Read(Scalar(w), j + |w|))
  {
    hide JoinPlain, SplitLines, PlainEnd, EndsPlain, ParseQuoted, ParseAlias, ParseInto, Ws;
    AtFirst(s, j, w);
    assert PlainChar(w[0]);
    WsStop(s, j, w[0]);
    PlainRuns(s, j, w);
    PlainText(w);
    assert s[j..j + |w|] == w;
  }

  lemma ReadScalar(s: string, j: nat, text: string)
    requires At(s, j, "\"" + (Escape(text) + "\""))
    ensures CharAt(s, j, '"') && ParseQuoted(s, j) == Ok(Read(Scalar(text), j + |Escape(text)| + 2))
  {
    hide CloseFrom, Folded, SplitLines, Escape;
    var e := Escape(text);
    AtSplit(s, j, "\"", e + "\"");
    AtChar(s, j, '"');
    AtSplit(s, j + 1, e, "\"");
    AtChar(s, j + 1 + |e|, '"');
    var rest := s[j + 2 + |e|..];
    assert s[j + 1..] == e + ("\"" + rest) by {
      SplitQuoted(s, j + 1, e, '"');
    }
    ScalarReadsBack(text, rest);
  }

  lemma SplitQuoted(s: string, j: nat, e: string, c: char)
    requires At(s, j, e) && CharAt(s, j + |e|, c)
    ensures s[j..] == e + ([c] + s[j + 1 + |e|..])
  {
    assert s[j..] == s[j..j + |e|] + s[j + |e|..];
    FirstAndRest(s[j + |e|..]);
    DropTwice(s, j + |e|, 1);
  }

  // ---- what the reader makes of a tree ----

  /** The tree with each collection that stands as a key replaced by its text. */
  function Keyed(t: Tree, env: Env): (r: Tree)
    ensures r.Scalar? <==> t.Scalar?
    decreases t, 1
  {
    if t.Scalar? then t else Part(t, Count(t), env)
  }

  /** The first i elements of a collection, as the reader holds them. */
  function Part(t: Tree, i: nat, env: Env): (r: Tree)
    requires !t.Scalar? && i <= Count(t)
    ensures !r.Scalar? && r.Map? == t.Map? && Count(r) == i
    decreases t, 0
  {
    if t.List? then List(seq(i, k requires 0 <= k < i => Keyed(t.items[k], env)))
    else
      Map(seq(i, k requires 0 <= k < i =>
            Entry(Scalar(KeyText(env, Keyed(t.entries[k].key, env))), Keyed(t.entries[k].value, env))))
  }

  /** No map in the tree, at any depth, has a collection for a key. */
  predicate ScalarKeys(t: Tree)
  {
    match t
    case Scalar(_) => true
    case List(items) => forall i :: 0 <= i < |items| ==> ScalarKeys(items[i])
    case Map(entries) => forall i :: 0 <= i < |entries| ==> entries[i].key.Scalar? && ScalarKeys(entries[i].value)
  }

  lemma {:induction false} KeyedIff(t: Tree, env: Env)
    ensures Keyed(t, env) == t <==> ScalarKeys(t)
    decreases t, 1
  {
    if t.List? {
      var items := Keyed(t, env).items;
      assert Keyed(t, env) == t <==> items == t.items;
      assert items == t.items <==> forall i :: 0 <= i < |items| ==> items[i] == t.items[i];
      forall i | 0 <= i < |items| ensures items[i] == t.items[i] <==> ScalarKeys(t.items[i]) {
        ItemIff(t, i, env);
      }
    } else if t.Map? {
      var entries := Keyed(t, env).entries;
      assert Keyed(t, env) == t <==> entries == t.entries;
      assert entries == t.entries <==> forall i :: 0 <= i < |entries| ==> entries[i] == t.entries[i];
      forall i | 0 <= i < |entries|
        ensures entries[i] == t.entries[i] <==> t.entries[i].key.Scalar? && ScalarKeys(t.entries[i].value)
      {
        EntryIff(t, i, env);
      }
    }
  }

  lemma {:induction false} ItemIff(t: Tree, i: nat, env: Env)
    requires t.List? && i < |t.items|
    ensures Keyed(t, env).items[i] == t.items[i] <==> ScalarKeys(t.items[i])
    decreases t, 0
  {
    KeyedIff(t.items[i], env);
    KeyedIsPart(t, env);
    assert Part(t, |t.items|, env).items[i] == Keyed(t.items[i], env);
  }

  lemma {:induction false} EntryIff(t: Tree, i: nat, env: Env)
    requires t.Map? && i < |t.entries|
    ensures Keyed(t, env).entries[i] == t.entries[i] <==>
            t.entries[i].key.Scalar? && ScalarKeys(t.entries[i].value)
    decreases t, 0
  {
    var e := t.entries[i];
    KeyedIff(e.value, env);
    assert Keyed(t, env).entries[i] == Entry(Scalar(KeyText(env, Keyed(e.key, env))), Keyed(e.value, env));
    if e.key.Scalar? {
      assert Keyed(e.key, env) == e.key;
    }
  }

  lemma KeyedIsPart(t: Tree, env: Env)
    requires !t.Scalar?
    ensures Keyed(t, env) == Part(t, Count(t), env)
  {
  }

  lemma PartNext(t: Tree, i: nat, env: Env)
    requires !t.Scalar? && i < Count(t)
    ensures t.List? ==>
              Part(t, i + 1, env) == Add(Part(t, i, env), Keyed(t.items[i], env), Scalar(""), env)
    ensures t.Map? ==>
              var e := t.entries[i];
              Part(t, i + 1, env) == Add(Part(t, i, env), Keyed(e.key, env), Keyed(e.value, env), env)
  {
    hide Keyed, KeyText;
  }

  lemma SameWs(s: string, j: nat, k: nat, env: Env)
    requires j <= |s| && k <= |s| && Ws(s, j) == Ws(s, k)
    ensures ParseValue(s, j, env) == ParseValue(s, k, env)
  {
    hide Ws, ParseInto, ParseQuoted, ParsePlain, ParseAlias;
  }

  lemma SameWsInto(s: string, j: nat, k: nat, acc: Tree, env: Env)
    requires j <= |s| && k <= |s| && Ws(s, j) == Ws(s, k) && !acc.Scalar?
    ensures ParseInto(s, j, acc, env) == ParseInto(s, k, acc, env)
  {
    hide Ws, ParseElement;
  }

  /** A plain scalar has to be followed by something that ends it, or by nothing, and a
      single-quoted one by anything but another quote. */
  predicate Followed(l: Layout, t: Tree, s: string, k: nat)
  {
    && (t.Scalar? && t.text in l.plain ==> k == |s| || (k < |s| && EndsPlain(s, k)))
    && (t.Scalar? && t.text in l.single ==> !CharAt(s, k, '\''))
  }

  /** Wherever a printed tree stands, the reader stops right after it and returns it, but
      for collections that stand as keys, which it turns into text. */
  lemma {:induction false} ReadKeyed(l: Layout, t: Tree, s: string, j: nat, env: Env)
    requires LegalLayout(l) && At(s, j, Print(l, t)) && Followed(l, t, s, j + |Print(l, t)|)
    ensures ParseValue(s, j, env) == Ok(Read(Keyed(t, env), j + |Print(l, t)|))
    decreases t, if t.Scalar? then 0 else Count(t) + 3
  {
    hide Ws, ParseInto, Inside, Escape, ParseQuoted, ParsePlain, ParseAlias;
    PrintStarts(l, t);
    AtFirst(s, j, Print(l, t));
    WsStop(s, j, s[j]);
    if t.Scalar? && t.text in l.plain {
      ReadPlain(s, j, t.text, env);
    } else if t.Scalar? && t.text in l.single {
      SameDoubled(t.text);
      SingleQuotedReads(s, j, t.text, env);
    } else if t.Scalar? {
      ReadScalar(s, j, t.text);
    } else {
      AtSplit(s, j, [Open(t)], Inside(l, t, 0) + [Close(t)]);
      ReadInside(l, t, 0, s, j + 1, env);
      assert Part(t, 0, env) == if t.List? then List([]) else Map([]);
    }
  }

  lemma LegalGaps(l: Layout)
    requires LegalLayout(l)
    ensures IsGap(l.edge, false) && IsGap(l.gap, false)
  {
  }

  lemma PunctuationEnds(s: string, k: nat)
    requires k < |s| && Punctuation(s[k])
    ensures EndsPlain(s, k)
  {
  }

  /** Where plain scalars are used, an element is followed by punctuation. */
  predicate ElementFollowed(l: Layout, s: string, k: nat)
  {
    !CharAt(s, k, '\'') && (l.plain != {} ==> k < |s| && Punctuation(s[k]))
  }

  lemma {:induction false} ReadElement(l: Layout, t: Tree, i: nat, s: string, j: nat, env: Env)
    requires LegalLayout(l) && !t.Scalar? && i < Count(t) && At(s, j, Element(l, t, i))
    requires ElementFollowed(l, s, j + |Element(l, t, i)|)
    ensures ParseElement(s, j, Part(t, i, env), env) == Ok(Read(Part(t, i + 1, env), Ws(s, j + |Element(l, t, i)|)))
    decreases t, 1
  {
    hide Ws, ParseValue, Print, Part, Keyed, Add, At, IsGap, EndsPlain, LegalLayout;
    PartNext(t, i, env);
    LegalGaps(l);
    if l.plain != {} {
      PunctuationEnds(s, j + |Element(l, t, i)|);
    }
    if t.List? {
      ReadKeyed(l, t.items[i], s, j, env);
    } else {
      ReadPair(l, t, i, s, j, env);
    }
  }

  lemma {:induction false} ReadPair(l: Layout, t: Tree, i: nat, s: string, j: nat, env: Env)
    requires LegalLayout(l) && t.Map? && i < Count(t) && At(s, j, Element(l, t, i))
    requires Followed(l, t.entries[i].value, s, j + |Element(l, t, i)|)
    ensures var e := t.entries[i];
            var k := j + |Print(l, e.key)|;
            && ParseValue(s, j, env) == Ok(Read(Keyed(e.key, env), k))
            && k < |s| && CharAt(s, k, ':') && Ws(s, k) == k
            && ParseValue(s, k + 1, env) == Ok(Read(Keyed(e.value, env), j + |Element(l, t, i)|))
    decreases t, 0
  {
    hide Ws, ParseValue, Print, Keyed, At, IsGap, EndsPlain, LegalLayout;
    LegalGaps(l);
    var e := t.entries[i];
    var key, value := Print(l, e.key), Print(l, e.value);
    AtSplit(s, j, key, ":" + (l.gap + value));
    var k := j + |key|;
    AtSplit(s, k, ":", l.gap + value);
    AtChar(s, k, ':');
    AtSplit(s, k + 1, l.gap, value);
    ColonEnds(l, s, k);
    ReadKeyed(l, e.key, s, j, env);
    WsStop(s, k, ':');
    WsGap(s, k + 1, l.gap, false);
    SameWs(s, k + 1, k + 1 + |l.gap|, env);
    ReadKeyed(l, e.value, s, k + 1 + |l.gap|, env);
  }

  /** The colon after a plain key is followed by a blank, so it ends the key. */
  lemma ColonEnds(l: Layout, s: string, k: nat)
    requires LegalLayout(l) && CharAt(s, k, ':') && At(s, k + 1, l.gap)
    ensures l.plain != {} ==> EndsPlain(s, k)
  {
    if l.plain != {} {
      AtFirst(s, k + 1, l.gap);
      assert IsBlank(l.gap[0]);
    }
  }

  /** The head of the loop for element i: after the comma, if there is one. */
  function Head(t: Tree, i: nat, j: nat): nat
    requires !t.Scalar?
  {
    if 0 < i < Count(t) then j + 1 else j
  }

  lemma ReadLead(l: Layout, t: Tree, i: nat, s: string, j: nat)
    requires LegalLayout(l) && !t.Scalar? && i <= Count(t) && At(s, j, Lead(l, t, i))
    ensures Head(t, i, j) <= |s| && Ws(s, Head(t, i, j)) == Ws(s, j + |Lead(l, t, i)|)
    ensures 0 < i < Count(t) ==> CharAt(s, j, ',') && Ws(s, j) == j
    ensures !(0 < i < Count(t)) ==> Ws(s, j) == Ws(s, j + |Lead(l, t, i)|)
  {
    hide Ws, At, IsGap, LegalLayout;
    LegalGaps(l);
    if 0 < i < Count(t) {
      AtSplit(s, j, ",", l.gap);
      AtChar(s, j, ',');
      WsStop(s, j, ',');
      WsGap(s, j + 1, l.gap, false);
    } else {
      WsGap(s, j, l.edge, false);
    }
  }

  /** One turn of the loop, by what the element is. */
  lemma IntoTurn(s: string, j: nat, k: nat, acc: Tree, next: Read, env: Env)
    requires j <= |s| && k <= |s| && !acc.Scalar? && Ws(s, j) == k && !CharAt(s, k, Close(acc))
    requires ParseElement(s, k, acc, env) == Ok(next)
    ensures next.pos <= |s| && !next.tree.Scalar? && Close(next.tree) == Close(acc)
    ensures ParseInto(s, j, acc, env) ==
            if CharAt(s, next.pos, ',') then ParseInto(s, next.pos + 1, next.tree, env)
            else if CharAt(s, next.pos, Close(acc)) then ParseInto(s, next.pos, next.tree, env)
            else Err
  {
    hide Ws, ParseElement;
  }

  lemma IntoEnd(s: string, j: nat, k: nat, acc: Tree, env: Env)
    requires j <= |s| && !acc.Scalar? && Ws(s, j) == k && CharAt(s, k, Close(acc))
    ensures ParseInto(s, j, acc, env) == Ok(Read(acc, k + 1))
  {
    hide Ws, ParseElement;
  }

  /** The parts of what is still inside the brackets, where they stand. */
  lemma SplitInside(l: Layout, t: Tree, i: nat, s: string, j: nat)
    requires !t.Scalar? && i <= Count(t) && At(s, j, Inside(l, t, i) + [Close(t)])
    ensures At(s, j, Lead(l, t, i))
    ensures i == Count(t) ==> Inside(l, t, i) == Lead(l, t, i) && CharAt(s, j + |Lead(l, t, i)|, Close(t))
    ensures i < Count(t) ==>
              var k := j + |Lead(l, t, i)|;
              var e, more := Element(l, t, i), Inside(l, t, i + 1);
              && |Inside(l, t, i)| == |Lead(l, t, i)| + |e| + |more|
              && At(s, k, e) && At(s, k + |e|, more + [Close(t)])
  {
    hide Element, Lead;
    var lead := Lead(l, t, i);
    if i == Count(t) {
      assert Inside(l, t, i) == lead;
      AtSplit(s, j, lead, [Close(t)]);
      AtChar(s, j + |lead|, Close(t));
    } else {
      var e, more := Element(l, t, i), Inside(l, t, i + 1);
      assert Inside(l, t, i) == lead + (e + more);
      AppendAssociates(lead, e + more, [Close(t)]);
      AtSplit(s, j, lead, (e + more) + [Close(t)]);
      AppendAssociates(e, more, [Close(t)]);
      AtSplit(s, j + |lead|, e, more + [Close(t)]);
    }
  }

  lemma ElementEnds(l: Layout, t: Tree, i: nat, s: string, p: nat)
    requires LegalLayout(l) && !t.Scalar? && i < Count(t) && At(s, p, Inside(l, t, i + 1) + [Close(t)])
    ensures ElementFollowed(l, s, p)
  {
    hide Inside, Element, At;
    SplitInside(l, t, i + 1, s, p);
    if i + 1 < Count(t) {
      AtSplit(s, p, ",", l.gap);
      AtChar(s, p, ',');
    } else if l.edge != "" {
      AtFirst(s, p, l.edge);
      assert IsBlank(l.edge[0]);
    }
  }

  lemma {:induction false} ReadInside(l: Layout, t: Tree, i: nat, s: string, j: nat, env: Env)
    requires LegalLayout(l) && !t.Scalar? && i <= Count(t) && At(s, j, Inside(l, t, i) + [Close(t)])
    ensures Head(t, i, j) <= |s|
    ensures ParseInto(s, Head(t, i, j), Part(t, i, env), env) == Ok(Read(Keyed(t, env), j + |Inside(l, t, i)| + 1))
    decreases t, 2 + Count(t) - i
  {
    hide Ws, ParseElement, ParseInto, Inside, Element, Part, Keyed, Lead, At;
    SplitInside(l, t, i, s, j);
    ReadLead(l, t, i, s, j);
    var k := j + |Lead(l, t, i)|;
    if i == Count(t) {
      WsStop(s, k, Close(t));
      KeyedIsPart(t, env);
      IntoEnd(s, Head(t, i, j), k, Part(t, i, env), env);
    } else {
      var e := Element(l, t, i);
      ElementStarts(l, t, i);
      AtFirst(s, k, e);
      WsStop(s, k, e[0]);
      ElementEnds(l, t, i, s, k + |e|);
      ReadElement(l, t, i, s, k, env);
      IntoTurn(s, Head(t, i, j), k, Part(t, i, env), Read(Part(t, i + 1, env), Ws(s, k + |e|)), env);
      ReadInside(l, t, i + 1, s, k + |e|, env);
      InsideTurn(l, t, i + 1, s, k + |e|, env);
    }
  }

  /** What the loop does after an element: it passes the comma, or meets the bracket. */
  lemma InsideTurn(l: Layout, t: Tree, i: nat, s: string, j: nat, env: Env)
    requires LegalLayout(l) && !t.Scalar? && 0 < i <= Count(t) && At(s, j, Inside(l, t, i) + [Close(t)])
    ensures var k := Ws(s, j);
            if i < Count(t) then CharAt(s, k, ',') && k + 1 == Head(t, i, j)
            else
              && CharAt(s, k, Close(t))
              && ParseInto(s, k, Part(t, i, env), env) == ParseInto(s, Head(t, i, j), Part(t, i, env), env)
  {
    hide Ws, ParseInto, Inside, Element, Part, Keyed, Lead, At;
    SplitInside(l, t, i, s, j);
    ReadLead(l, t, i, s, j);
    if i == Count(t) {
      var k := j + |Lead(l, t, i)|;
      WsStop(s, k, Close(t));
      SameWsInto(s, k, j, Part(t, i, env), env);
    }
  }

  /** So it returns the tree itself, entry order and repeated keys kept, exactly when no
      collection stands as a key. */
  lemma ReadPrint(l: Layout, t: Tree, s: string, j: nat, env: Env)
    requires LegalLayout(l) && At(s, j, Print(l, t)) && Followed(l, t, s, j + |Print(l, t)|)
    ensures ParseValue(s, j, env) == Ok(Read(t, j + |Print(l, t)|)) <==> ScalarKeys(t)
    ensures ParseValue(s, j, env) == Ok(Read(Keyed(t, env), j + |Print(l, t)|))
  {
    hide ParseValue, Print, Keyed, ScalarKeys, At;
    ReadKeyed(l, t, s, j, env);
    KeyedIff(t, env);
  }

  // ---- aliases and single quotes ----

  lemma {:induction false} NameRuns(s: string, j: nat, name: string)
    requires At(s, j, name) && (forall i :: 0 <= i < |name| ==> NameChar(name[i]))
    requires j + |name| == |s| || !NameChar(s[j + |name|])
    ensures NameEnd(s, j) == j + |name|
    decreases |name|
  {
    if name != "" {
      AtFirst(s, j, name);
      FirstAndRest(name);
      AtSplit(s, j, [name[0]], name[1..]);
      NameRuns(s, j + 1, name[1..]);
    }
  }

  /** An alias is what its anchor holds; an unknown one is an error. */
  lemma AliasReads(s: string, j: nat, name: string, env: Env)
    requires At(s, j, "*" + name) && (forall i :: 0 <= i < |name| ==> NameChar(name[i]))
    requires j + 1 + |name| == |s| || !NameChar(s[j + 1 + |name|])
    ensures ParseValue(s, j, env) ==
            if name in env.anchors then Ok(Read(env.anchors[name], j + 1 + |name|)) else Err
  {
    hide Ws, NameChar, NameEnd, ParseInto, ParseQuoted, ParsePlain;
    AtSplit(s, j, "*", name);
    AtChar(s, j, '*');
    WsStop(s, j, '*');
    NameRuns(s, j + 1, name);
    assert s[j + 1..j + 1 + |name|] == name;
  }

  /** A text as it stands between single quotes: each of its own is doubled. */
  function Doubled(s: string): string
  {
    if s == "" then "" else (if s[0] == '\'' then "''" else [s[0]]) + Doubled(s[1..])
  }

  lemma {:induction false} SameDoubled(s: string)
    requires '\'' !in s
    ensures Doubled(s) == s
  {
    if s != "" {
      assert s[0] in s;
      SameDoubled(s[1..]);
      FirstAndRest(s);
    }
  }

  lemma {:induction false} DoubledCloses(text: string, rest: string)
    requires rest == "" || rest[0] != '\''
    ensures CloseFrom(Doubled(text) + ("'" + rest), '\'') == Some(|Doubled(text)|)
  {
    var tail := "'" + rest;
    if text == "" {
      assert Doubled(text) + tail == tail;
    } else {
      var first := if text[0] == '\'' then "''" else [text[0]];
      DoubledCloses(text[1..], rest);
      AppendAssociates(first, Doubled(text[1..]), tail);
      CloseDoubled(text[0], Doubled(text[1..]) + tail);
    }
  }

  lemma CloseDoubled(c: char, more: string)
    ensures var first := if c == '\'' then "''" else [c];
            CloseFrom(first + more, '\'') == Bump(|first|, CloseFrom(more, '\''))
  {
    var first := if c == '\'' then "''" else [c];
    DropLength(first, more);
    assert forall i :: 0 <= i < |first| ==> (first + more)[i] == first[i];
  }

  lemma {:induction false} UndoubleDoubled(text: string)
    ensures Undouble(Doubled(text)) == text
  {
    if text != "" {
      var first, rest := if text[0] == '\'' then "''" else [text[0]], Doubled(text[1..]);
      UndoubleDoubled(text[1..]);
      DropLength(first, rest);
      FirstAndRest(text);
      assert (first + rest)[0] == first[0];
      if text[0] == '\'' {
        assert (first + rest)[1] == '\'';
      }
    }
  }

  lemma {:induction false} DoubledOneLine(text: string)
    requires '\n' !in text
    ensures '\n' !in Doubled(text)
  {
    if text != "" {
      assert text[0] in text;
      DoubledOneLine(text[1..]);
    }
  }

  /** A single-quoted scalar on one line is read as its text. */
  lemma SingleQuotedReads(s: string, j: nat, text: string, env: Env)
    requires At(s, j, "'" + (Doubled(text) + "'")) && '\n' !in text
    requires j + |Doubled(text)| + 2 == |s| || s[j + |Doubled(text)| + 2] != '\''
    ensures ParseValue(s, j, env) == Ok(Read(Scalar(text), j + |Doubled(text)| + 2))
  {
    hide Ws, CloseFrom, Doubled, Undouble, SplitLines, ParseInto, ParseAlias, ParsePlain;
    var d := Doubled(text);
    AtSplit(s, j, "'", d + "'");
    AtChar(s, j, '\'');
    WsStop(s, j, '\'');
    AtSplit(s, j + 1, d, "'");
    AtChar(s, j + 1 + |d|, '\'');
    var rest := s[j + 2 + |d|..];
    SplitQuoted(s, j + 1, d, '\'');
    DoubledCloses(text, rest);
    DoubledOneLine(text);
    OneLine(d);
    UndoubleDoubled(text);
    assert s[j + 1..j + 1 + |d|] == d;
    assert [d][1..] == [];
    assert Folded([d], '\'') == Ok(text) by {
      NothingToFold(d);
    }
  }

  lemma NothingToFold(d: string)
    ensures FoldLines([], d, 0, '\'') == d
  {
  }

  // ---- a collection over several lines ----

  /** first and the lines of more, with a newline between each two. */
  function Joined(first: string, more: seq<string>): string
    decreases |more|
  {
    if more == [] then first else Joined(first + ("\n" + more[0]), more[1..])
  }

  datatype Gathered = Gathered(text: string, end: nat, next: nat)

  /** Lines from the i-th on are added until the collection ends. */
  function Gather(text: string, lines: seq<string>, i: nat): (r: Result<Gathered>)
    ensures r.Ok? ==> r.value.end <= |r.value.text|
    decreases |lines| - i
  {
    var end := FE.EndFrom(FE.START, text);
    if end.Some? then Ok(Gathered(text, end.value, i))
    else if i >= |lines| then Err
    else Gather(text + ("\n" + lines[i]), lines, i + 1)
  }

  /** Only a comment may follow on the line. */
  predicate TailAllowed(tail: string) { StripSpace(tail) == "" || StripSpace(tail)[0] == '#' }

  /** Nothing but white space before position i. */
  predicate SpaceUpTo(s: string, i: nat)
    requires i <= |s|
  {
    forall j :: 0 <= j < i ==> IsSpace(s[j])
  }

  lemma FirstIsOne(s: string, i: nat, k: nat)
    requires i < |s| && k < |s| && SpaceUpTo(s, i) && SpaceUpTo(s, k) && !IsSpace(s[i]) && !IsSpace(s[k])
    ensures i == k
  {
    hide IsSpace;
  }

  lemma {:induction false} StripMeans(s: string)
    ensures StripSpace(s) == "" <==> SpaceUpTo(s, |s|)
    ensures StripSpace(s) != "" ==>
              exists i :: 0 <= i < |s| && SpaceUpTo(s, i) && !IsSpace(s[i]) && StripSpace(s)[0] == s[i]
    decreases |s|
  {
    hide IsSpace;
    if s != "" && IsSpace(s[0]) {
      StripMeans(s[1..]);
      if StripSpace(s) != "" {
        var i :| 0 <= i < |s[1..]| && SpaceUpTo(s[1..], i) && !IsSpace(s[1..][i]) && StripSpace(s[1..])[0] == s[1..][i];
        assert SpaceUpTo(s, i + 1) && s[i + 1] == s[1..][i];
      } else {
        assert forall j :: 1 <= j < |s| ==> s[j] == s[1..][j - 1];
      }
    } else if s != "" && IsSpace(s[|s| - 1]) {
      var front := s[..|s| - 1];
      StripMeans(front);
      assert SpaceUpTo(s, 0) && SpaceUpTo(front, 0) && front[0] == s[0];
      if StripSpace(s) != "" {
        var i :| 0 <= i < |front| && SpaceUpTo(front, i) && !IsSpace(front[i]) && StripSpace(front)[0] == front[i];
        FirstIsOne(front, i, 0);
      }
    } else if s != "" {
      assert SpaceUpTo(s, 0) && !IsSpace(s[0]) && StripSpace(s)[0] == s[0];
    }
  }

  /** White space alone, or up to a comment. */
  lemma TailMeans(tail: string)
    ensures TailAllowed(tail) <==>
            SpaceUpTo(tail, |tail|) || exists i :: 0 <= i < |tail| && SpaceUpTo(tail, i) && tail[i] == '#'
  {
    hide StripSpace;
    StripMeans(tail);
    if StripSpace(tail) != "" {
      var i :| 0 <= i < |tail| && SpaceUpTo(tail, i) && !IsSpace(tail[i]) && StripSpace(tail)[0] == tail[i];
      forall k | 0 <= k < |tail| && SpaceUpTo(tail, k) && tail[k] == '#' ensures k == i {
        FirstIsOne(tail, i, k);
      }
    }
  }

  /** The collection that starts with text, and the line after it. */
  function FlowValue(text: string, lines: seq<string>, i: nat, env: Env): Result<(Tree, nat)>
  {
    var g :- Gather(text, lines, i);
    if !TailAllowed(g.text[g.end..]) then Err
    else
      var v :- ParseValue(g.text[..g.end], 0, env);
      Ok((v.tree, g.next))
  }

  /** _flow of the line reader. */
  method ReadFlow(s: string, lines: seq<string>, i: nat, env: Env) returns (r: Result<(Tree, nat)>)
    ensures r == FlowValue(s, lines, i, env)
  {
    hide FE.EndFrom, ParseValue, TailAllowed;
    var text, next := s, i;
    var end := FE.FlowEnd(text);
    while end < 0
      invariant end == FE.AsIndex(FE.EndFrom(FE.START, text))
      invariant Gather(text, lines, next) == Gather(s, lines, i)
      decreases |lines| - next, end < 0
    {
      if next >= |lines| {
        return Err;
      }
      text := text + ("\n" + lines[next]);
      next := next + 1;
      end := FE.FlowEnd(text);
    }
    if !TailAllowed(text[end..]) {
      return Err;
    }
    var flow := new Flow(text[..end], env);
    var v := flow.Value();
    r := if v.Err? then Err else Ok((v.value, next));
  }

  lemma {:induction false} JoinedStarts(first: string, more: seq<string>)
    ensures |first| <= |Joined(first, more)| && Joined(first, more)[..|first|] == first
    ensures more != [] ==> |first| < |Joined(first, more)| && Joined(first, more)[|first|] == '\n'
    decreases |more|
  {
    if more != [] {
      var next := first + ("\n" + more[0]);
      JoinedStarts(next, more[1..]);
      assert Joined(first, more)[..|next|] == next;
      assert next[|first|] == '\n' && next[..|first|] == first;
    }
  }

  lemma InFront(w: string, tail: string, k: nat, c: char)
    requires k < |w + tail| && (w + tail)[k] == c && c !in tail
    ensures k < |w|
  {
    assert forall i :: |w| <= i < |w + tail| ==> (w + tail)[i] in tail;
  }

  /** A printed collection that starts at first, goes over the lines of more and ends on
      the last of them is gathered whole, with no line too many. */
  lemma {:induction false} GatherPrint(
      l: Layout, t: Tree, first: string, lines: seq<string>, i: nat, n: nat, tail: string)
    requires LegalLayout(l) && !t.Scalar? && i + n <= |lines| && '\n' !in tail
    requires Joined(first, lines[i..i + n]) == Print(l, t) + tail
    ensures Gather(first, lines, i) == Ok(Gathered(Print(l, t) + tail, |Print(l, t)|, i + n))
    decreases n
  {
    hide Print, FE.EndFrom;
    var more, w := lines[i..i + n], Print(l, t);
    JoinedStarts(first, more);
    if n == 0 {
      FE.EndOfPrint(l, t, tail);
    } else {
      InFront(w, tail, |first|, '\n');
      assert first == w[..|first|];
      FE.PrefixUnfinished(l, t, |first|);
      assert more[1..] == lines[i + 1..i + 1 + (n - 1)];
      GatherPrint(l, t, first + ("\n" + lines[i]), lines, i + 1, n - 1, tail);
    }
  }

  /** The whole round trip: a printed collection over any number of lines is read back if
      and only if only a comment follows it and no collection in it stands as a key. */
  lemma FlowReadsBack(
      l: Layout, t: Tree, first: string, lines: seq<string>, i: nat, n: nat, tail: string, env: Env)
    requires LegalLayout(l) && !t.Scalar? && i + n <= |lines| && '\n' !in tail
    requires Joined(first, lines[i..i + n]) == Print(l, t) + tail
    ensures FlowValue(first, lines, i, env) == if TailAllowed(tail) then Ok((Keyed(t, env), i + n)) else Err
    ensures FlowValue(first, lines, i, env) == Ok((t, i + n)) <==> TailAllowed(tail) && ScalarKeys(t)
  {
    hide Print, Gather, ParseValue, TailAllowed, Keyed, ScalarKeys;
    var w := Print(l, t);
    GatherPrint(l, t, first, lines, i, n, tail);
    DropLength(w, tail);
    assert At(w, 0, w) by {
      assert w[0..|w|] == w;
    }
    ReadPrint(l, t, w, 0, env);
    KeyedIff(t, env);
  }

  const LIST_KEY := Map([Entry(List([Scalar("a")]), Scalar("b"))])

  /** The smallest failing input: a map whose key is the list ["a"] is read as one whose key
      is the text of that list. */
  lemma ListKeyBecomesText(l: Layout, env: Env)
    requires LegalLayout(l)
    ensures var r := FlowValue(Print(l, LIST_KEY), [], 0, env);
            && r == Ok((Map([Entry(Scalar(env.str(List([Scalar("a")]))), Scalar("b"))]), 0))
            && r != Ok((LIST_KEY, 0))
  {
    var text := Print(l, LIST_KEY);
    var key := List([Scalar("a")]);
    assert Keyed(key, env) == key;
    assert Keyed(LIST_KEY, env) == Map([Entry(Scalar(env.str(key)), Scalar("b"))]);
    hide Print, FlowValue, Keyed;
    assert TailAllowed("");
    assert text + "" == text;
    FlowReadsBack(l, LIST_KEY, text, [], 0, 0, "", env);
  }
}
