/** The reader of quoted scalars: _close_quote, _dq_unescape and _fold_quoted of
    app/ser2net_import.py. */
module QuotedScalar {
  import opened Common
  import opened FlowPrint

  // ---- the closing quote ----

  /** The distance from the head of seg to its closing quote. */
  function CloseFrom(seg: string, quote: char): (r: Option<nat>)
    ensures r.Some? ==> r.value < |seg|
    decreases |seg|
  {
    if seg == "" then None
    else if quote == '"' && seg[0] == '\\' then (if |seg| == 1 then None else Bump(2, CloseFrom(seg[2..], quote)))
    else if seg[0] != quote then Bump(1, CloseFrom(seg[1..], quote))
    else if quote == '\'' && |seg| > 1 && seg[1] == '\'' then Bump(2, CloseFrom(seg[2..], quote))
    else Some(0)
  }

  /** _close_quote */
  method CloseQuote(seg: string, quote: char) returns (r: int)
    ensures r == if CloseFrom(seg, quote).None? then -1 else CloseFrom(seg, quote).value
  {
    hide CloseFrom;
    var j := 0;
    assert seg[0..] == seg;
    while j < |seg|
      invariant 0 <= j <= |seg|
      invariant CloseFrom(seg, quote) == Bump(j, CloseFrom(seg[j..], quote))
    {
      var c := seg[j];
      CloseStep(seg, j, quote);
      if quote == '"' && c == '\\' {
        if j + 1 == |seg| {
          return -1;
        }
        j := j + 2;
        continue;
      }
      if c == quote {
        if quote == '\'' && j + 1 < |seg| && seg[j + 1] == '\'' {
          j := j + 2;
          continue;
        }
        return j;
      }
      j := j + 1;
    }
    NothingToClose(seg[j..], quote);
    return -1;
  }

  lemma NothingToClose(seg: string, quote: char)
    requires seg == ""
    ensures CloseFrom(seg, quote) == None
  {
  }

  lemma CloseStep(seg: string, j: nat, quote: char)
    requires j < |seg|
    ensures CloseFrom(seg[j..], quote) ==
            if quote == '"' && seg[j] == '\\' then
              (if j + 1 == |seg| then None else Bump(2, CloseFrom(seg[j + 2..], quote)))
            else if seg[j] != quote then Bump(1, CloseFrom(seg[j + 1..], quote))
            else if quote == '\'' && j + 1 < |seg| && seg[j + 1] == '\'' then Bump(2, CloseFrom(seg[j + 2..], quote))
            else Some(0)
  {
    DropTwice(seg, j, 1);
    if j + 2 <= |seg| {
      DropTwice(seg, j, 2);
    }
  }

  // ---- escapes ----

  function HexDigit(c: char): Option<nat>
  {
    if '0' <= c <= '9' then Some(c as nat - '0' as nat)
    else if 'a' <= c <= 'f' then Some(c as nat - 'a' as nat + 10)
    else if 'A' <= c <= 'F' then Some(c as nat - 'A' as nat + 10)
    else None
  }

  function HexValue(s: string): Option<nat>
  {
    if s == "" then Some(0)
    else
      var high, low := HexValue(s[..|s| - 1]), HexDigit(s[|s| - 1]);
      if high.None? || low.None? then None else Some(16 * high.value + low.value)
  }

  /** The number of hexadecimal digits after a letter of an escape. */
  function HexLength(c: char): nat { if c == 'x' then 2 else if c == 'u' then 4 else if c == 'U' then 8 else 0 }

  /** chr: an error outside Unicode. A surrogate is an error here too. */
  function Chr(n: nat): Result<char>
  {
    if n < 0xD800 || 0xE000 <= n < 0x110000 then Ok(n as char) else Err
  }

  /** _DQ_ESCAPES */
  function Named(c: char): Option<char>
  {
    match c
    case '0' => Some('\0')
    case 'a' => Some('\U{7}')
    case 'b' => Some('\U{8}')
    case 't' => Some('\t')
    case '\t' => Some('\t')
    case 'n' => Some('\n')
    case 'v' => Some('\U{B}')
    case 'f' => Some('\U{C}')
    case 'r' => Some('\r')
    case 'e' => Some('\U{1B}')
    case ' ' => Some(' ')
    case '"' => Some('"')
    case '/' => Some('/')
    case '\\' => Some('\\')
    case 'N' => Some('\U{85}')
    case '_' => Some('\U{A0}')
    case 'L' => Some('\U{2028}')
    case 'P' => Some('\U{2029}')
    case _ => None
  }

  function Prefixed(p: string, r: Result<string>): Result<string> { if r.Err? then Err else Ok(p + r.value) }

  /** What the escape at the head of s, a backslash and more, stands for, and its length. */
  function OneEscape(s: string): (r: Result<(string, nat)>)
    requires |s| >= 2
    ensures r.Ok? ==> 2 <= r.value.1 <= |s|
  {
    var c := s[1];
    var n := HexLength(c);
    if n > 0 && |s| >= 2 + n && HexValue(s[2..2 + n]).Some? then
      var code :- Chr(HexValue(s[2..2 + n]).value);
      Ok(([code], 2 + n))
    else if Named(c).Some? then Ok(([Named(c).value], 2))
    else Ok((['\\', c], 2))
  }

  /** _dq_unescape: escapes that YAML does not know are kept. */
  function Unescape(s: string): Result<string>
    decreases |s|
  {
    if s == "" then Ok("")
    else if s[0] != '\\' || |s| == 1 then Prefixed([s[0]], Unescape(s[1..]))
    else
      var e :- OneEscape(s);
      Prefixed(e.0, Unescape(s[e.1..]))
  }

  // ---- folding ----

  function Strip(s: string, left: bool, right: bool): string
    decreases |s|
  {
    if left && s != "" && IsIndent(s[0]) then Strip(s[1..], left, right)
    else if right && s != "" && IsIndent(s[|s| - 1]) then Strip(s[..|s| - 1], left, right)
    else s
  }

  predicate IsIndent(c: char) { c == ' ' || c == '\t' }

  function TrailingBackslashes(s: string): nat
  {
    if s == "" || s[|s| - 1] != '\\' then 0 else 1 + TrailingBackslashes(s[..|s| - 1])
  }

  function Newlines(n: nat): string { if n == 0 then "" else "\n" + Newlines(n - 1) }

  /** A text and the line that continues it, after a number of empty lines. */
  function FoldOne(text: string, blank: nat, seg: string, quote: char): string
  {
    var kept := Strip(text, false, true);
    if quote == '"' && TrailingBackslashes(kept) % 2 == 1 then kept[..|kept| - 1] + seg
    else kept + ((if blank > 0 then Newlines(blank) else " ") + seg)
  }

  /** The further lines of a scalar, folded onto the text so far. */
  function FoldLines(rest: seq<string>, text: string, blank: nat, quote: char): string
    decreases |rest|
  {
    if rest == [] then text
    else
      var last := |rest| == 1;
      var seg := Strip(rest[0], true, !last);
      if seg == "" && !last then FoldLines(rest[1..], text, blank + 1, quote)
      else FoldLines(rest[1..], FoldOne(text, blank, seg, quote), 0, quote)
  }

  /** A doubled single quote stands for one. */
  function Undouble(s: string): string
    decreases |s|
  {
    if s == "" then ""
    else if |s| >= 2 && s[0] == '\'' && s[1] == '\'' then "'" + Undouble(s[2..])
    else [s[0]] + Undouble(s[1..])
  }

  function Folded(parts: seq<string>, quote: char): Result<string>
    requires parts != []
  {
    var text := FoldLines(parts[1..], parts[0], 0, quote);
    if quote == '"' then Unescape(text) else Ok(Undouble(text))
  }

  /** _fold_quoted */
  method FoldQuoted(parts: seq<string>, quote: char) returns (r: Result<string>)
    requires parts != []
    ensures r == Folded(parts, quote)
  {
    var text, blank := parts[0], 0;
    for n := 1 to |parts|
      invariant FoldLines(parts[n..], text, blank, quote) == FoldLines(parts[1..], parts[0], 0, quote)
    {
      DropTwice(parts, n, 1);
      var last := n == |parts| - 1;
      var seg := Strip(parts[n], true, !last);
      if seg == "" && !last {
        blank := blank + 1;
        continue;
      }
      text := FoldOne(text, blank, seg, quote);
      blank := 0;
    }
    r := if quote == '"' then Unescape(text) else Ok(Undouble(text));
  }

  /** str.split of a newline. */
  function SplitLines(s: string): (r: seq<string>)
    ensures r != []
  {
    if s == "" then [""]
    else
      var rest := SplitLines(s[1..]);
      if s[0] == '\n' then [""] + rest else [[s[0]] + rest[0]] + rest[1..]
  }

  // ---- hexadecimal escapes ----

  function HexChar(d: nat): char
    requires d < 16
  {
    if d < 10 then d as char + '0' else (d - 10) as char + 'a'
  }

  /** The last `width` hexadecimal digits of n. */
  function HexDigits(n: nat, width: nat): (r: string)
    ensures |r| == width
    decreases width
  {
    if width == 0 then "" else HexDigits(n / 16, width - 1) + [HexChar(n % 16)]
  }

  function Pow16(n: nat): nat { if n == 0 then 1 else 16 * Pow16(n - 1) }

  lemma HexCharReads(d: nat)
    requires d < 16
    ensures HexDigit(HexChar(d)) == Some(d)
  {
  }

  lemma {:induction false} HexDigitsRead(n: nat, width: nat)
    requires n < Pow16(width)
    ensures HexValue(HexDigits(n, width)) == Some(n)
    decreases width
  {
    hide HexChar, HexDigit;
    if width > 0 {
      var s := HexDigits(n, width);
      assert s[..|s| - 1] == HexDigits(n / 16, width - 1) && s[|s| - 1] == HexChar(n % 16);
      HexDigitsRead(n / 16, width - 1);
      HexCharReads(n % 16);
    }
  }

  /** Any character that fits the width of \x, \u or \U can be written so and is read back. */
  lemma HexEscapeReadsBack(c: char, letter: char, rest: string)
    requires HexLength(letter) > 0 && c as nat < Pow16(HexLength(letter))
    ensures Unescape(['\\', letter] + (HexDigits(c as nat, HexLength(letter)) + rest)) == Prefixed([c], Unescape(rest))
  {
    hide Pow16, HexValue, HexDigits, Prefixed;
    var n := HexLength(letter);
    var digits := HexDigits(c as nat, n);
    HexDigitsRead(c as nat, n);
    var s := ['\\', letter] + (digits + rest);
    assert s[0] == '\\' && s[1] == letter;
    assert s[2..2 + n] == digits && s[2 + n..] == rest;
    assert Chr(c as nat) == Ok(c);
    assert OneEscape(s) == Ok(([c], 2 + n));
  }

  /** The escapes of section 5.7 of YAML 1.2 that are one letter. */
  const LETTERS: map<char, char> := map[
    '0' := '\0', 'a' := '\U{7}', 'b' := '\U{8}', 't' := '\t', '\t' := '\t', 'n' := '\n', 'v' := '\U{B}',
    'f' := '\U{C}', 'r' := '\r', 'e' := '\U{1B}', ' ' := ' ', '"' := '"', '/' := '/', '\\' := '\\',
    'N' := '\U{85}', '_' := '\U{A0}', 'L' := '\U{2028}', 'P' := '\U{2029}'
  ]

  lemma NamedIsLetter(c: char)
    ensures Named(c) == if c in LETTERS then Some(LETTERS[c]) else None
  {
  }

  /** A backslash and a letter is what YAML says, and is kept where YAML says nothing. */
  lemma LetterEscapeReads(c: char, rest: string)
    requires HexLength(c) == 0
    ensures Unescape(['\\', c] + rest) == Prefixed(if c in LETTERS then [LETTERS[c]] else ['\\', c], Unescape(rest))
  {
    hide Prefixed, Named, HexValue;
    NamedIsLetter(c);
    var s := ['\\', c] + rest;
    assert s[0] == '\\' && s[1] == c;
    DropLength(['\\', c], rest);
  }

  // ---- folding, piece by piece ----

  /** A line break in a wrapped scalar: a backslash before it or not, empty lines, and the
      next piece of text behind its indentation. */
  datatype Break = Break(joined: bool, empties: seq<string>, indent: string, text: string)

  predicate AllIndent(s: string) { forall c :: c in s ==> IsIndent(c) }

  predicate EvenBackslashes(s: string) { TrailingBackslashes(s) % 2 == 0 }

  /** Text that folding leaves alone: no blanks at its edges, no single backslash at its
      end. */
  predicate Solid(s: string)
  {
    s != "" && !IsIndent(s[0]) && !IsIndent(s[|s| - 1]) && EvenBackslashes(s)
  }

  predicate GoodBreak(b: Break)
  {
    (forall e :: e in b.empties ==> AllIndent(e)) && AllIndent(b.indent) && Solid(b.text)
  }

  predicate GoodBreaks(bs: seq<Break>) { forall b :: b in bs ==> GoodBreak(b) }

  /** The backslash that the first break wants at the end of the line before it. */
  function Joint(bs: seq<Break>): string { if bs != [] && bs[0].joined then "\\" else "" }

  function LinesOf(bs: seq<Break>): seq<string>
  {
    if bs == [] then []
    else bs[0].empties + ([bs[0].indent + (bs[0].text + Joint(bs[1..]))] + LinesOf(bs[1..]))
  }

  /** What a break stands for: nothing when joined, a space, or n newlines for n empty
      lines. */
  function Gap(b: Break): string { if b.joined then "" else GapOf(|b.empties|) }

  function GapOf(blank: nat): string { if blank > 0 then Newlines(blank) else " " }

  function Meaning(text: string, bs: seq<Break>): string
    decreases |bs|
  {
    if bs == [] then text else Meaning(text + (Gap(bs[0]) + bs[0].text), bs[1..])
  }

  lemma {:induction false} StripIndent(indent: string, s: string, right: bool)
    requires AllIndent(indent) && (s == "" || (!IsIndent(s[0]) && !IsIndent(s[|s| - 1])))
    ensures Strip(indent + s, true, right) == s
    decreases |indent|
  {
    if indent == "" {
      assert indent + s == s;
    } else {
      assert indent[0] in indent;
      StripIndent(indent[1..], s, right);
      DropOfAppend(indent, s, 1);
      assert (indent + s)[0] == indent[0];
    }
  }

  lemma {:induction false} TrailingAppend(a: string, b: string)
    ensures TrailingBackslashes(a + b) ==
            TrailingBackslashes(b) + if TrailingBackslashes(b) == |b| then TrailingBackslashes(a) else 0
    decreases |b|
  {
    if b == "" {
      assert a + b == a;
    } else {
      TrailingAppend(a, b[..|b| - 1]);
      assert (a + b)[..|a + b| - 1] == a + b[..|b| - 1];
    }
  }

  lemma EvenAppend(a: string, b: string)
    requires EvenBackslashes(a) && EvenBackslashes(b)
    ensures EvenBackslashes(a + b)
  {
    TrailingAppend(a, b);
  }

  lemma {:induction false} NewlinesEnd(n: nat)
    ensures |Newlines(n)| == n && TrailingBackslashes(Newlines(n)) == 0
  {
    if n > 0 {
      NewlinesEnd(n - 1);
      TrailingAppend("\n", Newlines(n - 1));
    }
  }

  lemma GapEven(b: Break)
    ensures EvenBackslashes(Gap(b))
  {
    NewlinesEnd(|b.empties|);
  }

  lemma SolidAppend(text: string, b: Break)
    requires Solid(text) && Solid(b.text)
    ensures Solid(text + (Gap(b) + b.text))
  {
    hide TrailingBackslashes, Gap;
    var r := text + (Gap(b) + b.text);
    GapEven(b);
    EvenAppend(Gap(b), b.text);
    EvenAppend(text, Gap(b) + b.text);
    assert r[0] == text[0] && r[|r| - 1] == b.text[|b.text| - 1];
  }

  /** The fold at one break. */
  lemma FoldBreak(text: string, b: Break, quote: char)
    requires Solid(text) && (b.joined ==> quote == '"')
    ensures FoldOne(text + (if b.joined then "\\" else ""), |b.empties|, b.text, quote) == text + (Gap(b) + b.text)
  {
    hide Strip, TrailingBackslashes, Newlines;
    if b.joined {
      JointKept(text);
      assert "" + b.text == b.text;
    } else {
      assert text + "" == text;
      StripNothing(text);
    }
  }

  lemma StripNothing(s: string)
    requires s != "" && !IsIndent(s[|s| - 1])
    ensures Strip(s, false, true) == s
  {
  }

  /** A joint makes the run of backslashes odd. */
  lemma JointKept(text: string)
    requires Solid(text)
    ensures var line := text + "\\";
            Strip(line, false, true) == line && TrailingBackslashes(line) % 2 == 1 && line[..|line| - 1] == text
  {
    hide Strip;
    var line := text + "\\";
    StripNothing(line);
    assert line[..|line| - 1] == text;
  }

  lemma {:induction false} FoldEmpties(es: seq<string>, tail: seq<string>, text: string, blank: nat, quote: char)
    requires tail != [] && forall e :: e in es ==> AllIndent(e)
    ensures FoldLines(es + tail, text, blank, quote) == FoldLines(tail, text, blank + |es|, quote)
    decreases |es|
  {
    hide FoldOne, Strip, AllIndent;
    if es == [] {
      assert es + tail == tail;
    } else {
      assert es[0] in es;
      StripIndent(es[0], "", true);
      assert es[0] + "" == es[0];
      FoldEmpties(es[1..], tail, text, blank + 1, quote);
      DropOfAppend(es, tail, 1);
      assert (es + tail)[0] == es[0];
    }
  }

  lemma LineStripped(b: Break, joint: string, right: bool)
    requires AllIndent(b.indent) && Solid(b.text) && (joint == "" || joint == "\\")
    ensures Strip(b.indent + (b.text + joint), true, right) == b.text + joint != ""
  {
    hide Strip, AllIndent, EvenBackslashes;
    var piece := b.text + joint;
    assert piece[0] == b.text[0];
    assert piece[|piece| - 1] == if joint == "" then b.text[|b.text| - 1] else '\\';
    StripIndent(b.indent, piece, right);
  }

  /** A scalar wrapped over lines, with any indentation, any empty lines and any joined
      breaks, folds to its pieces with what the breaks stand for between them. */
  lemma {:induction false} FoldsBack(text: string, bs: seq<Break>, quote: char)
    requires Solid(text) && GoodBreaks(bs)
    requires forall b :: b in bs && b.joined ==> quote == '"'
    ensures FoldLines(LinesOf(bs), text + Joint(bs), 0, quote) == Meaning(text, bs)
    decreases |bs|
  {
    hide FoldOne, Strip, AllIndent, Solid, Gap;
    if bs == [] {
      assert text + "" == text;
    } else {
      var b, rest := bs[0], bs[1..];
      assert b in bs && GoodBreak(b);
      var line, more := b.indent + (b.text + Joint(rest)), LinesOf(rest);
      var start := text + Joint(bs);
      FoldEmpties(b.empties, [line] + more, start, 0, quote);
      ConsRest(line, more);
      LineStripped(b, Joint(rest), more != []);
      FoldNext(start, b, Joint(rest), |b.empties|, quote);
      FoldBreak(text, b, quote);
      SolidAppend(text, b);
      FoldsBack(text + (Gap(b) + b.text), rest, quote);
    }
  }

  /** A joint at the end of the next piece stays at the end. */
  lemma FoldNext(text: string, b: Break, joint: string, blank: nat, quote: char)
    ensures FoldOne(text, blank, b.text + joint, quote) == FoldOne(text, blank, b.text, quote) + joint
  {
    hide Strip, TrailingBackslashes;
    var kept := Strip(text, false, true);
    if quote == '"' && TrailingBackslashes(kept) % 2 == 1 {
      assert kept != "" by {
        NoTrail();
      }
      AppendAssociates(kept[..|kept| - 1], b.text, joint);
    } else {
      var gap := if blank > 0 then Newlines(blank) else " ";
      AppendAssociates(gap, b.text, joint);
      AppendAssociates(kept, gap + b.text, joint);
    }
  }

  lemma NoTrail()
    ensures TrailingBackslashes("") == 0
  {
  }

  // ---- escaped scalars read back ----

  lemma CloseAfterEscape(c: char, more: string)
    ensures CloseFrom(EscapeChar(c) + more, '"') == Bump(|EscapeChar(c)|, CloseFrom(more, '"'))
  {
    var e := EscapeChar(c);
    DropLength(e, more);
    assert (e + more)[0] == e[0];
  }

  lemma {:induction false} EscapeCloses(s: string, rest: string)
    ensures CloseFrom(Escape(s) + ("\"" + rest), '"') == Some(|Escape(s)|)
  {
    hide CloseFrom, EscapeChar;
    var tail := "\"" + rest;
    if s == "" {
      assert Escape(s) + tail == tail;
      ClosesAtOnce(rest);
    } else {
      EscapeCloses(s[1..], rest);
      AppendAssociates(EscapeChar(s[0]), Escape(s[1..]), tail);
      CloseAfterEscape(s[0], Escape(s[1..]) + tail);
    }
  }

  lemma ClosesAtOnce(rest: string)
    ensures CloseFrom("\"" + rest, '"') == Some(0)
  {
  }

  lemma UnescapeEscape(s: string)
    ensures Unescape(Escape(s)) == Ok(s)
  {
    hide Unescape, Escape;
    UnescapeFirst(s, "");
    UnescapeNothing();
    assert Escape(s) + "" == Escape(s) && s + "" == s;
  }

  lemma {:induction false} EscapeOneLine(s: string)
    ensures '\n' !in Escape(s)
  {
    if s != "" {
      EscapeOneLine(s[1..]);
      assert '\n' !in EscapeChar(s[0]);
    }
  }

  lemma {:induction false} OneLine(s: string)
    requires '\n' !in s
    ensures SplitLines(s) == [s]
  {
    if s != "" {
      assert s[0] in s;
      OneLine(s[1..]);
      FirstAndRest(s);
    }
  }

  /** An escaped scalar is closed where it ends and read as the string it was made from. */
  lemma ScalarReadsBack(s: string, rest: string)
    ensures CloseFrom(Escape(s) + ("\"" + rest), '"') == Some(|Escape(s)|)
    ensures Folded(SplitLines(Escape(s)), '"') == Ok(s)
  {
    EscapeCloses(s, rest);
    EscapeOneLine(s);
    OneLine(Escape(s));
    UnescapeEscape(s);
  }

  // ---- wrapped and escaped scalars read back ----

  /** A piece that can stand on a line of its own: something, with no blank at its edges. */
  predicate Piece(s: string) { s != "" && !IsIndent(s[0]) && !IsIndent(s[|s| - 1]) }

  predicate PieceBreak(b: Break)
  {
    (forall e :: e in b.empties ==> AllIndent(e)) && AllIndent(b.indent) && Piece(b.text)
  }

  function Escaped(bs: seq<Break>): (r: seq<Break>)
    ensures |r| == |bs|
    ensures forall i :: 0 <= i < |bs| ==> r[i] == bs[i].(text := Escape(bs[i].text))
  {
    seq(|bs|, i requires 0 <= i < |bs| => bs[i].(text := Escape(bs[i].text)))
  }

  lemma {:induction false} EscapeEven(s: string)
    ensures EvenBackslashes(Escape(s))
  {
    if s != "" {
      EscapeEven(s[1..]);
      EscapeCharEven(s[0]);
      EvenAppend(EscapeChar(s[0]), Escape(s[1..]));
    }
  }

  lemma EscapeCharEven(c: char)
    ensures EvenBackslashes(EscapeChar(c))
  {
    var e := EscapeChar(c);
    if c == '\\' {
      assert e[..1] == "\\" && TrailingBackslashes("\\") == 1;
    }
  }

  lemma {:induction false} EscapeLast(s: string)
    requires s != ""
    ensures Escape(s) != "" && Escape(s)[0] == EscapeChar(s[0])[0]
    ensures var e := EscapeChar(s[|s| - 1]);
            Escape(s)[|Escape(s)| - 1] == e[|e| - 1]
  {
    hide EscapeChar;
    EscapeCharNonempty(s[0]);
    if |s| == 1 {
      assert Escape(s[1..]) == "";
      assert EscapeChar(s[0]) + "" == EscapeChar(s[0]);
    } else {
      EscapeLast(s[1..]);
    }
  }

  lemma EscapeCharNonempty(c: char)
    ensures EscapeChar(c) != ""
  {
  }

  lemma PieceSolid(s: string)
    requires Piece(s)
    ensures Solid(Escape(s))
  {
    hide Escape, EvenBackslashes;
    EscapeLast(s);
    EscapeEven(s);
  }

  lemma {:induction false} UnescapeFirst(s: string, t: string)
    ensures Unescape(Escape(s) + t) == Prefixed(s, Unescape(t))
  {
    hide Unescape, EscapeChar;
    if s == "" {
      assert Escape(s) + t == t;
      PrefixedNothing(Unescape(t));
    } else {
      UnescapeFirst(s[1..], t);
      AppendAssociates(EscapeChar(s[0]), Escape(s[1..]), t);
      UnescapeOne(s[0], Escape(s[1..]) + t);
      PrefixedTwice(s, Unescape(t));
    }
  }

  lemma PrefixedNothing(r: Result<string>)
    ensures Prefixed("", r) == r
  {
    if r.Ok? {
      assert "" + r.value == r.value;
    }
  }

  lemma PrefixedTwice(s: string, r: Result<string>)
    requires s != ""
    ensures Prefixed([s[0]], Prefixed(s[1..], r)) == Prefixed(s, r)
  {
    if r.Ok? {
      AppendAssociates([s[0]], s[1..], r.value);
      FirstAndRest(s);
    }
  }

  lemma UnescapeOne(c: char, t: string)
    ensures Unescape(EscapeChar(c) + t) == Prefixed([c], Unescape(t))
  {
    var e := EscapeChar(c);
    DropLength(e, t);
    if |e| == 2 {
      assert (e + t)[0] == '\\' && (e + t)[1] == e[1];
      assert OneEscape(e + t) == Ok(([c], 2));
    } else {
      assert (e + t)[0] == c;
    }
  }

  lemma {:induction false} UnescapeGap(n: nat, t: string)
    ensures Unescape(Newlines(n) + t) == Prefixed(Newlines(n), Unescape(t))
  {
    hide Unescape;
    if n == 0 {
      assert Newlines(0) + t == t;
      PrefixedNothing(Unescape(t));
    } else {
      UnescapeGap(n - 1, t);
      AppendAssociates("\n", Newlines(n - 1), t);
      UnescapeRaw('\n', Newlines(n - 1) + t);
      PrefixedTwice(Newlines(n), Unescape(t));
      ConsRest('\n', Newlines(n - 1));
    }
  }

  lemma UnescapeRaw(c: char, t: string)
    requires c != '\\'
    ensures Unescape([c] + t) == Prefixed([c], Unescape(t))
  {
    ConsRest(c, t);
  }

  /** A text that unescapes to some string, followed by a break and an escaped piece. */
  lemma UnescapeBreak(b: Break, t: string)
    ensures Unescape(Gap(b) + (Escape(b.text) + t)) == Prefixed(Gap(b) + b.text, Unescape(t))
  {
    hide Unescape, Escape;
    var more := Escape(b.text) + t;
    UnescapeFirst(b.text, t);
    if b.joined {
      assert "" + more == more && "" + b.text == b.text;
    } else if b.empties == [] {
      UnescapeRaw(' ', more);
      PrefixedTwice(" " + b.text, Unescape(t));
      ConsRest(' ', b.text);
    } else {
      UnescapeGap(|b.empties|, more);
      if Unescape(t).Ok? {
        AppendAssociates(Newlines(|b.empties|), b.text, Unescape(t).value);
      }
    }
  }

  /** What follows the first piece. */
  function Pieces(bs: seq<Break>): string
  {
    if bs == [] then "" else (Gap(bs[0]) + bs[0].text) + Pieces(bs[1..])
  }

  lemma {:induction false} MeaningPieces(text: string, bs: seq<Break>)
    ensures Meaning(text, bs) == text + Pieces(bs)
    decreases |bs|
  {
    hide Gap;
    if bs == [] {
      assert text + "" == text;
    } else {
      var next := Gap(bs[0]) + bs[0].text;
      MeaningPieces(text + next, bs[1..]);
      AppendAssociates(text, next, Pieces(bs[1..]));
    }
  }

  lemma {:induction false} UnescapePieces(bs: seq<Break>)
    ensures Unescape(Pieces(Escaped(bs))) == Ok(Pieces(bs))
    decreases |bs|
  {
    hide Unescape, Escape, Gap;
    if bs == [] {
      UnescapeNothing();
    } else {
      var b, more := bs[0], Pieces(Escaped(bs[1..]));
      UnescapePieces(bs[1..]);
      assert Escaped(bs)[1..] == Escaped(bs[1..]);
      SameGap(b);
      AppendAssociates(Gap(b), Escape(b.text), more);
      UnescapeBreak(b, more);
    }
  }

  lemma UnescapeNothing()
    ensures Unescape("") == Ok("")
  {
  }

  lemma SameGap(b: Break)
    ensures Gap(b.(text := Escape(b.text))) == Gap(b)
  {
  }

  lemma EscapedGood(bs: seq<Break>)
    requires forall b :: b in bs ==> PieceBreak(b)
    ensures GoodBreaks(Escaped(bs)) && Joint(Escaped(bs)) == Joint(bs)
  {
    hide Escape, Solid, Piece, AllIndent;
    forall b | b in Escaped(bs) ensures GoodBreak(b) {
      var i :| 0 <= i < |bs| && Escaped(bs)[i] == b;
      assert bs[i] in bs;
      PieceSolid(bs[i].text);
    }
  }

  /** A double-quoted scalar written over several lines, its pieces escaped, with any
      indentation, empty lines and joined breaks, is read as the pieces with what the
      breaks stand for between them. */
  lemma WrappedReadsBack(first: string, bs: seq<Break>)
    requires Piece(first) && forall b :: b in bs ==> PieceBreak(b)
    ensures Folded([Escape(first) + Joint(bs)] + LinesOf(Escaped(bs)), '"') == Ok(Meaning(first, bs))
  {
    hide Unescape, Escape, LinesOf, Meaning, Solid, Piece, PieceBreak, GoodBreaks, Joint, FoldLines;
    PieceSolid(first);
    EscapedGood(bs);
    FoldsBack(Escape(first), Escaped(bs), '"');
    ConsRest(Escape(first) + Joint(bs), LinesOf(Escaped(bs)));
    MeaningPieces(Escape(first), Escaped(bs));
    MeaningPieces(first, bs);
    UnescapeFirst(first, Pieces(Escaped(bs)));
    UnescapePieces(bs);
  }
}

/** The recursive-descent reader _Flow of app/ser2net_import.py. */
module FlowReader {
  import opened Common
  import opened FlowPrint
  import opened QuotedScalar

  // ---- the grammar, over a fixed text s and a position ----

  predicate CommentAt(s: string, j: nat) { j < |s| && s[j] == '#' && (j == 0 || IsBlank(s[j - 1])) }

  /** The newline that ends the comment, or the end of the text. */
  function LineEnd(s: string, j: nat): (r: nat)
    requires j <= |s|
    ensures j <= r <= |s| && '\n' !in s[j..r] && (r < |s| ==> s[r] == '\n')
    decreases |s| - j
  {
    if j == |s| || s[j] == '\n' then j else LineEnd(s, j + 1)
  }

  /** The first position from j that is neither blank nor in a comment. */
  function Ws(s: string, j: nat): (r: nat)
    requires j <= |s|
    ensures j <= r <= |s|
    decreases |s| - j
  {
    if j < |s| && IsBlank(s[j]) then Ws(s, j + 1)
    else if CommentAt(s, j) then Ws(s, LineEnd(s, j))
    else j
  }

  /** A colon ends a plain scalar only before a blank, punctuation or the end. */
  predicate EndsPlain(s: string, j: nat)
    requires j < |s|
  {
    || Punctuation(s[j])
    || (s[j] == ':' && (j + 1 == |s| || IsBlank(s[j + 1]) || s[j + 1] == ',' || s[j + 1] == ']' || s[j + 1] == '}'))
    || (s[j] == '#' && j > 0 && IsBlank(s[j - 1]))
  }

  function PlainEnd(s: string, j: nat): (r: nat)
    requires j <= |s|
    ensures j <= r <= |s|
    decreases |s| - j
  {
    if j == |s| || EndsPlain(s, j) then j else PlainEnd(s, j + 1)
  }

  function StripSpace(s: string): string
  {
    if s != "" && IsSpace(s[0]) then StripSpace(s[1..])
    else if s != "" && IsSpace(s[|s| - 1]) then StripSpace(s[..|s| - 1])
    else s
  }

  /** The lines of a plain scalar that are not empty, joined by spaces. */
  function JoinPlain(lines: seq<string>): string
  {
    if lines == [] then ""
    else
      var first, rest := StripSpace(lines[0]), JoinPlain(lines[1..]);
      if first == "" then rest else if rest == "" then first else first + (" " + rest)
  }

  predicate NameChar(c: char) { !IsSpace(c) && !Punctuation(c) }

  function NameEnd(s: string, j: nat): (r: nat)
    requires j <= |s|
    ensures j <= r <= |s|
    decreases |s| - j
  {
    if j == |s| || !NameChar(s[j]) then j else NameEnd(s, j + 1)
  }

  /** What the reader is given: the anchors, and Python's str of a list or a map, which is
      arbitrary here. */
  datatype Env = Env(anchors: map<string, Tree>, str: Tree -> string)

  /** str(item): the text under which an item becomes a key. */
  function KeyText(env: Env, item: Tree): string { if item.Scalar? then item.text else env.str(item) }

  /** A value and the position after it. */
  datatype Read = Read(tree: Tree, pos: nat)

  /** A quoted scalar whose quote is at j. */
  function ParseQuoted(s: string, j: nat): (r: Result<Read>)
    requires j < |s|
    ensures r.Ok? ==> j < r.value.pos <= |s|
  {
    var end := CloseFrom(s[j + 1..], s[j]);
    if end.None? then Err
    else
      var text :- Folded(SplitLines(s[j + 1..j + 1 + end.value]), s[j]);
      Ok(Read(Scalar(text), j + end.value + 2))
  }

  function ParseAlias(s: string, j: nat, env: Env): (r: Result<Read>)
    requires j < |s|
    ensures r.Ok? ==> j < r.value.pos <= |s|
  {
    var end := NameEnd(s, j + 1);
    if s[j + 1..end] in env.anchors then Ok(Read(env.anchors[s[j + 1..end]], end)) else Err
  }

  function ParsePlain(s: string, j: nat): (r: Read)
    requires j <= |s|
    ensures j <= r.pos <= |s|
  {
    Read(Scalar(JoinPlain(SplitLines(s[j..PlainEnd(s, j)]))), PlainEnd(s, j))
  }

  /** A list takes the item as it is, a map its text as the key. */
  function Add(acc: Tree, item: Tree, value: Tree, env: Env): (r: Tree)
    requires !acc.Scalar?
    ensures !r.Scalar? && Close(r) == Close(acc)
  {
    if acc.List? then List(acc.items + [item]) else Map(acc.entries + [Entry(Scalar(KeyText(env, item)), value)])
  }

  predicate CharAt(s: string, j: nat, c: char) { j < |s| && s[j] == c }

  function ParseValue(s: string, j: nat, env: Env): (r: Result<Read>)
    requires j <= |s|
    ensures r.Ok? ==> j <= r.value.pos <= |s|
    decreases |s| - j, 0
  {
    var k := Ws(s, j);
    if CharAt(s, k, '[') then ParseInto(s, k + 1, List([]), env)
    else if CharAt(s, k, '{') then ParseInto(s, k + 1, Map([]), env)
    else if CharAt(s, k, '"') || CharAt(s, k, '\'') then ParseQuoted(s, k)
    else if CharAt(s, k, '*') then ParseAlias(s, k, env)
    else Ok(ParsePlain(s, k))
  }

  /** An element of the collection acc, followed by blanks: the item, and in a map the
      value after a colon. */
  function ParseElement(s: string, j: nat, acc: Tree, env: Env): (r: Result<Read>)
    requires j <= |s| && !acc.Scalar?
    ensures r.Ok? ==> j <= r.value.pos <= |s| && !r.value.tree.Scalar? && Close(r.value.tree) == Close(acc)
    decreases |s| - j, 1
  {
    var item :- ParseValue(s, j, env);
    var k := Ws(s, item.pos);
    if acc.Map? && CharAt(s, k, ':') then
      var value :- ParseValue(s, k + 1, env);
      Ok(Read(Add(acc, item.tree, value.tree, env), Ws(s, value.pos)))
    else Ok(Read(Add(acc, item.tree, Scalar(""), env), k))
  }

  /** The rest of a collection whose elements so far are in acc. */
  function ParseInto(s: string, j: nat, acc: Tree, env: Env): (r: Result<Read>)
    requires j <= |s| && !acc.Scalar?
    ensures r.Ok? ==> j <= r.value.pos <= |s|
    decreases |s| - j, 2
  {
    var k := Ws(s, j);
    if CharAt(s, k, Close(acc)) then Ok(Read(acc, k + 1))
    else
      var next :- ParseElement(s, k, acc, env);
      if CharAt(s, next.pos, ',') then ParseInto(s, next.pos + 1, next.tree, env)
      else if CharAt(s, next.pos, Close(acc)) then ParseInto(s, next.pos, next.tree, env)
      else Err
  }

  // ---- the reader itself ----

  class Flow {
    const s: string
    const env: Env
    var j: nat

    ghost predicate Valid()
      reads this
    {
      j <= |s|
    }

    constructor (text: string, env: Env)
      ensures Valid() && s == text && this.env == env && j == 0
    {
      s, this.env, j := text, env, 0;
    }

    method SkipWs()
      requires Valid()
      modifies this
      ensures Valid() && j == Ws(s, old(j))
    {
      while j < |s|
        invariant j <= |s| && Ws(s, j) == Ws(s, old(j))
        decreases |s| - j
      {
        if IsBlank(s[j]) {
          j := j + 1;
        } else if CommentAt(s, j) {
          j := LineEnd(s, j);
        } else {
          return;
        }
      }
    }

    /** value: on success the cursor stands after the value. */
    method Value() returns (r: Result<Tree>)
      requires Valid()
      modifies this
      ensures Valid() && Matches(r, j, ParseValue(s, old(j), env))
      decreases |s| - j, 0
    {
      hide Ws, ParseQuoted, ParseAlias, ParsePlain, ParseInto, ParseElement, PlainEnd, Matches;
      SkipWs();
      if CharAt(s, j, '[') {
        j := j + 1;
        r := Collection(List([]));
      } else if CharAt(s, j, '{') {
        j := j + 1;
        r := Collection(Map([]));
      } else if CharAt(s, j, '"') || CharAt(s, j, '\'') {
        r := QuotedValue();
      } else if CharAt(s, j, '*') {
        r := AliasValue();
      } else {
        r := PlainValue();
      }
    }

    method QuotedValue() returns (r: Result<Tree>)
      requires Valid() && j < |s|
      modifies this
      ensures Valid() && Matches(r, j, ParseQuoted(s, old(j)))
    {
      hide CloseFrom, Folded, SplitLines;
      var end := CloseQuote(s[j + 1..], s[j]);
      if end < 0 {
        return Err;
      }
      var text := FoldQuoted(SplitLines(s[j + 1..j + 1 + end]), s[j]);
      j := j + end + 2;
      r := if text.Err? then Err else Ok(Scalar(text.value));
    }

    method AliasValue() returns (r: Result<Tree>)
      requires Valid() && j < |s|
      modifies this
      ensures Valid() && Matches(r, j, ParseAlias(s, old(j), env))
    {
      hide NameEnd;
      var name := s[j + 1..NameEnd(s, j + 1)];
      if name !in env.anchors {
        return Err;
      }
      j := j + 1 + |name|;
      r := Ok(env.anchors[name]);
    }

    method PlainValue() returns (r: Result<Tree>)
      requires Valid()
      modifies this
      ensures Valid() && Matches(r, j, Ok(ParsePlain(s, old(j))))
    {
      hide EndsPlain, JoinPlain, SplitLines;
      var start := j;
      while j < |s| && !EndsPlain(s, j)
        invariant start <= j <= |s| && PlainEnd(s, j) == PlainEnd(s, start)
        decreases |s| - j
      {
        j := j + 1;
      }
      r := Ok(Scalar(JoinPlain(SplitLines(s[start..j]))));
    }

    /** One turn of the loop of _collection: an element is added to acc. */
    method Element(acc: Tree) returns (r: Result<Tree>)
      requires Valid() && !acc.Scalar?
      modifies this
      ensures Valid() && Matches(r, j, ParseElement(s, old(j), acc, env))
      decreases |s| - j, 1
    {
      hide Ws, ParseValue;
      var item := Value();
      if item.Err? {
        return Err;
      }
      SkipWs();
      var value := Scalar("");
      if acc.Map? && CharAt(s, j, ':') {
        j := j + 1;
        var v := Value();
        if v.Err? {
          return Err;
        }
        value := v.value;
        SkipWs();
      }
      r := Ok(Add(acc, item.value, value, env));
    }

    /** _collection, from after the opening bracket. */
    method Collection(empty: Tree) returns (r: Result<Tree>)
      requires Valid() && !empty.Scalar?
      modifies this
      ensures Valid() && Matches(r, j, ParseInto(s, old(j), empty, env))
      decreases |s| - j, 2
    {
      hide Ws, ParseElement;
      var acc := empty;
      while true
        invariant Valid() && old(j) <= j && !acc.Scalar? && Close(acc) == Close(empty)
        invariant ParseInto(s, j, acc, env) == ParseInto(s, old(j), empty, env)
        decreases |s| - j
      {
        SkipWs();
        if CharAt(s, j, Close(acc)) {
          j := j + 1;
          return Ok(acc);
        }
        var next := Element(acc);
        if next.Err? {
          return Err;
        }
        acc := next.value;
        if CharAt(s, j, ',') {
          j := j + 1;
        } else if !CharAt(s, j, Close(acc)) {
          return Err;
        }
      }
    }
  }

  /** A result of the reader and its cursor against what the grammar gives. */
  predicate Matches(r: Result<Tree>, j: nat, spec: Result<Read>)
  {
    if spec.Err? then r.Err? else r == Ok(spec.value.tree) && j == spec.value.pos
  }
}
