/** The Windows service command line of app/winservice.py: each argument is quoted the way
    CommandLineToArgvW reads it. */
module Quote {
  import opened Common

  /** An argument that goes on the line as it is. */
  predicate Plain(arg: string)
  {
    arg != "" && forall c :: c in arg ==> !IsSpace(c) && c != '"'
  }

  function Slashes(n: nat): (r: string)
    ensures |r| == n
  {
    if n == 0 then "" else "\\" + Slashes(n - 1)
  }

  /** The rest of a quoted argument behind a run of backslashes not yet written. */
  function Body(arg: string, slashes: nat): string
    decreases |arg|
  {
    if arg == "" then Slashes(2 * slashes) + "\""
    else if arg[0] == '\\' then Body(arg[1..], slashes + 1)
    else if arg[0] == '"' then Slashes(2 * slashes + 1) + ("\"" + Body(arg[1..], 0))
    else Slashes(slashes) + ([arg[0]] + Body(arg[1..], 0))
  }

  function QuoteArg(arg: string): string { if Plain(arg) then arg else "\"" + Body(arg, 0) }

  /** _quote: the loop with its backslash counter and its list of pieces. */
  method MakeQuoted(arg: string) returns (r: string)
    ensures r == QuoteArg(arg)
  {
    if Plain(arg) {
      return arg;
    }
    var out, slashes := "\"", 0;
    assert arg[0..] == arg;
    for i := 0 to |arg|
      invariant QuoteArg(arg) == out + Body(arg[i..], slashes)
    {
      var ch := arg[i];
      DropTwice(arg, i, 1);
      if ch == '\\' {
        slashes := slashes + 1;
        continue;
      }
      if ch == '"' {
        AppendAssociates(out, Slashes(2 * slashes + 1), "\"" + Body(arg[i + 1..], 0));
        AppendAssociates(out + Slashes(2 * slashes + 1), "\"", Body(arg[i + 1..], 0));
        out := (out + Slashes(2 * slashes + 1)) + "\"";
      } else {
        AppendAssociates(out, Slashes(slashes), [ch] + Body(arg[i + 1..], 0));
        AppendAssociates(out + Slashes(slashes), [ch], Body(arg[i + 1..], 0));
        out := (out + Slashes(slashes)) + [ch];
      }
      slashes := 0;
    }
    r := out + (Slashes(2 * slashes) + "\"");
  }

  function Join(args: seq<string>): string
  {
    if args == [] then ""
    else if |args| == 1 then QuoteArg(args[0])
    else QuoteArg(args[0]) + (" " + Join(args[1..]))
  }

  // ---- how Windows takes the line apart ----

  predicate Blank(c: char) { c == ' ' || c == '\t' }

  /** The documented rules for the arguments after the program name. A run of backslashes
      counts as pairs only in front of a quote; an odd one makes the quote literal. Inside
      quotes a doubled quote is a literal one; whether the quotes then stay open differs
      between versions, and is a parameter. State: the pending backslashes, the argument so
      far, whether inside quotes, and whether an argument has begun. */
  function Split(stay: bool, s: string, slashes: nat, cur: string, quoted: bool, begun: bool): (r: seq<string>)
    decreases |s|
  {
    if s == "" then
      if begun then [cur + Slashes(slashes)] else []
    else if s[0] == '\\' then Split(stay, s[1..], slashes + 1, cur, quoted, true)
    else if s[0] == '"' then
      var half := cur + Slashes(slashes / 2);
      if slashes % 2 == 1 then Split(stay, s[1..], 0, half + "\"", quoted, true)
      else if quoted && |s| > 1 && s[1] == '"' then Split(stay, s[2..], 0, half + "\"", stay, true)
      else Split(stay, s[1..], 0, half, !quoted, true)
    else if Blank(s[0]) && !quoted then
      (if begun then [cur + Slashes(slashes)] else []) + Split(stay, s[1..], 0, "", false, false)
    else Split(stay, s[1..], 0, cur + Slashes(slashes) + [s[0]], quoted, true)
  }

  function SplitArgs(stay: bool, s: string): seq<string> { Split(stay, s, 0, "", false, false) }

  /** The program name: up to the closing quote, or up to the first blank. */
  function NameLength(s: string, quoted: bool): nat
    ensures NameLength(s, quoted) <= |s|
  {
    if s == "" || (quoted && s[0] == '"') || (!quoted && Blank(s[0])) then 0 else 1 + NameLength(s[1..], quoted)
  }

  function ProgramName(s: string): string
  {
    if s != "" && s[0] == '"' then s[1..][..NameLength(s[1..], true)] else s[..NameLength(s, false)]
  }

  // ---- splitting undoes joining ----

  lemma SlashesSnoc(n: nat)
    ensures Slashes(n) + "\\" == Slashes(n + 1)
  {
    if n > 0 {
      SlashesSnoc(n - 1);
      AppendAssociates("\\", Slashes(n - 1), "\\");
    }
  }

  lemma {:induction false} ReadSlashes(stay: bool, n: nat, u: string, k: nat, cur: string, quoted: bool)
    ensures Split(stay, Slashes(n) + u, k, cur, quoted, true) == Split(stay, u, k + n, cur, quoted, true)
  {
    if n == 0 {
      assert Slashes(0) + u == u;
    } else {
      AppendAssociates("\\", Slashes(n - 1), u);
      ConsRest('\\', Slashes(n - 1) + u);
      ReadSlashes(stay, n - 1, u, k + 1, cur, quoted);
    }
  }

  /** What may stand behind an argument: nothing, or a space. */
  predicate Ends(t: string) { t == "" || t[0] == ' ' }

  function After(stay: bool, t: string): seq<string>
    requires Ends(t)
  {
    if t == "" then [] else SplitArgs(stay, t[1..])
  }

  lemma {:induction false} ReadPlain(stay: bool, a: string, t: string, k: nat, cur: string, begun: bool)
    requires Ends(t) && (forall c :: c in a ==> !IsSpace(c) && c != '"')
    requires begun || (a != "" && k == 0 && cur == "")
    ensures Split(stay, a + t, k, cur, false, begun) == [(cur + Slashes(k)) + a] + After(stay, t)
    decreases |a|
  {
    if a == "" {
      assert a + t == t && (cur + Slashes(k)) + a == cur + Slashes(k);
    } else {
      assert a[0] in a;
      DropOfAppend(a, t, 1);
      if a[0] == '\\' {
        ReadPlain(stay, a[1..], t, k + 1, cur, true);
        SlashesSnoc(k);
        Regroup(cur, Slashes(k), a);
      } else {
        var cur' := cur + Slashes(k) + [a[0]];
        ReadPlain(stay, a[1..], t, 0, cur', true);
        assert (cur' + Slashes(0)) + a[1..] == (cur + Slashes(k)) + a;
      }
    }
  }

  lemma Regroup(cur: string, s: string, a: string)
    requires a != ""
    ensures (cur + (s + [a[0]])) + a[1..] == (cur + s) + a
  {
  }

  /** Reading the quoted form from inside the quotes gives the argument. */
  lemma {:induction false} ReadBody(stay: bool, a: string, m: nat, t: string, cur: string)
    requires Ends(t)
    ensures Split(stay, Body(a, m) + t, 0, cur, true, true) == [(cur + Slashes(m)) + a] + After(stay, t)
    decreases |a|
  {
    hide Split, Slashes;
    if a == "" {
      AppendAssociates(Slashes(2 * m), "\"", t);
      ReadSlashes(stay, 2 * m, "\"" + t, 0, cur, true);
      ReadClosing(stay, 2 * m, t, cur);
      assert (cur + Slashes(m)) + a == cur + Slashes(m);
    } else if a[0] == '\\' {
      ReadBody(stay, a[1..], m + 1, t, cur);
      SlashesSnoc(m);
      Regroup(cur, Slashes(m), a);
    } else if a[0] == '"' {
      var u := Body(a[1..], 0) + t;
      AppendAssociates(Slashes(2 * m + 1), "\"" + Body(a[1..], 0), t);
      AppendAssociates("\"", Body(a[1..], 0), t);
      ReadSlashes(stay, 2 * m + 1, "\"" + u, 0, cur, true);
      ReadLiteralQuote(stay, m, u, cur);
      ReadBody(stay, a[1..], 0, t, (cur + Slashes(m)) + "\"");
      OneMore(cur + Slashes(m), a);
    } else {
      var u := Body(a[1..], 0) + t;
      AppendAssociates(Slashes(m), [a[0]] + Body(a[1..], 0), t);
      AppendAssociates([a[0]], Body(a[1..], 0), t);
      ReadSlashes(stay, m, [a[0]] + u, 0, cur, true);
      ReadOther(stay, m, a[0], u, cur);
      ReadBody(stay, a[1..], 0, t, (cur + Slashes(m)) + [a[0]]);
      OneMore(cur + Slashes(m), a);
    }
  }

  lemma OneMore(x: string, a: string)
    requires a != ""
    ensures ((x + [a[0]]) + Slashes(0)) + a[1..] == x + a
  {
  }

  lemma HalfOf(m: nat)
    ensures 2 * m / 2 == m && 2 * m % 2 == 0 && (2 * m + 1) / 2 == m && (2 * m + 1) % 2 == 1
  {
  }

  lemma ReadLiteralQuote(stay: bool, m: nat, u: string, cur: string)
    ensures Split(stay, "\"" + u, 2 * m + 1, cur, true, true) ==
            Split(stay, u, 0, (cur + Slashes(m)) + "\"", true, true)
  {
    HalfOf(m);
    ConsRest('"', u);
  }

  lemma ReadOther(stay: bool, m: nat, c: char, u: string, cur: string)
    requires c != '\\' && c != '"'
    ensures Split(stay, [c] + u, m, cur, true, true) == Split(stay, u, 0, (cur + Slashes(m)) + [c], true, true)
  {
    ConsRest(c, u);
  }

  lemma ReadClosing(stay: bool, n: nat, t: string, cur: string)
    requires Ends(t) && n % 2 == 0
    ensures Split(stay, "\"" + t, n, cur, true, true) == [cur + Slashes(n / 2)] + After(stay, t)
  {
    ConsRest('"', t);
    var half := cur + Slashes(n / 2);
    assert Split(stay, "\"" + t, n, cur, true, true) == Split(stay, t, 0, half, false, true);
    assert half + Slashes(0) == half;
  }

  lemma ReadQuoted(stay: bool, a: string, t: string)
    requires Ends(t)
    ensures SplitArgs(stay, QuoteArg(a) + t) == [a] + After(stay, t)
  {
    if Plain(a) {
      ReadPlain(stay, a, t, 0, "", false);
      assert ("" + Slashes(0)) + a == a;
    } else {
      AppendAssociates("\"", Body(a, 0), t);
      ConsRest('"', Body(a, 0) + t);
      assert "" + Slashes(0 / 2) == "";
      assert SplitArgs(stay, "\"" + (Body(a, 0) + t)) == Split(stay, Body(a, 0) + t, 0, "", true, true);
      ReadBody(stay, a, 0, t, "");
      assert ("" + Slashes(0)) + a == a;
    }
  }

  /** Splitting the joined line gives back exactly the arguments: empty ones, blanks,
      quotes, and backslashes anywhere included. */
  lemma {:induction false} SplitJoin(stay: bool, args: seq<string>)
    ensures SplitArgs(stay, Join(args)) == args
    decreases |args|
  {
    hide Split, QuoteArg;
    if args == [] {
      SplitNothing(stay);
    } else if |args| == 1 {
      ReadQuoted(stay, args[0], "");
      assert QuoteArg(args[0]) + "" == QuoteArg(args[0]);
    } else {
      var t := " " + Join(args[1..]);
      ConsRest(' ', Join(args[1..]));
      ReadQuoted(stay, args[0], t);
      SplitJoin(stay, args[1..]);
      FirstAndRest(args);
    }
  }

  lemma SplitNothing(stay: bool)
    ensures SplitArgs(stay, "") == []
  {
  }

  // ---- the program name ----

  /** A program name the line can carry: no quote in it, and no backslash at its end
      unless it stays unquoted. */
  predicate GoodProgram(exe: string)
  {
    '"' !in exe && (Plain(exe) || exe == "" || exe[|exe| - 1] != '\\')
  }

  lemma {:induction false} NameOfPlain(a: string, t: string)
    requires Ends(t) && (forall c :: c in a ==> !IsSpace(c) && c != '"')
    ensures NameLength(a + t, false) == |a|
    decreases |a|
  {
    if a == "" {
      assert a + t == t;
    } else {
      assert a[0] in a;
      DropOfAppend(a, t, 1);
      assert forall c :: c in a[1..] ==> c in a;
      NameOfPlain(a[1..], t);
    }
  }

  lemma {:induction false} NameToQuote(x: string, t: string)
    requires '"' !in x
    ensures NameLength(x + ("\"" + t), true) == |x|
    decreases |x|
  {
    if x == "" {
      assert x + ("\"" + t) == "\"" + t;
    } else {
      DropOfAppend(x, "\"" + t, 1);
      NameToQuote(x[1..], t);
    }
  }

  lemma {:induction false} NoQuoteInSlashes(n: nat)
    ensures '"' !in Slashes(n)
  {
    if n > 0 {
      NoQuoteInSlashes(n - 1);
    }
  }

  /** The length of a run of backslashes at the end, an open run of m before it counted. */
  function TailRun(a: string, m: nat): nat
    decreases |a|
  {
    if a == "" then m else TailRun(a[1..], if a[0] == '\\' then m + 1 else 0)
  }

  /** Without quotes in it, the quoted form is the argument with its last run doubled. */
  lemma {:induction false} BodyWithoutQuotes(a: string, m: nat)
    requires '"' !in a
    ensures Body(a, m) == ((Slashes(m) + a) + Slashes(TailRun(a, m))) + "\""
    decreases |a|
  {
    hide Slashes;
    if a == "" {
      DoubleSlashes(m);
      assert Slashes(m) + a == Slashes(m);
    } else {
      BodyWithoutQuotes(a[1..], if a[0] == '\\' then m + 1 else 0);
      var run := Slashes(TailRun(a[1..], if a[0] == '\\' then m + 1 else 0)) + "\"";
      if a[0] == '\\' {
        SlashesSnoc(m);
        assert (Slashes(m) + "\\") + a[1..] == Slashes(m) + a;
      } else {
        NoSlashes();
        PutFirst(Slashes(m), a, Slashes(TailRun(a[1..], 0)));
      }
    }
  }

  lemma NoSlashes()
    ensures Slashes(0) == ""
  {
  }

  lemma PutFirst(x: string, a: string, r: string)
    requires a != ""
    ensures x + ([a[0]] + ((("" + a[1..]) + r) + "\"")) == ((x + a) + r) + "\""
  {
  }

  lemma {:induction false} DoubleSlashes(m: nat)
    ensures Slashes(2 * m) == Slashes(m) + Slashes(m)
  {
    if m > 0 {
      DoubleSlashes(m - 1);
      SlashesSnoc(m - 1);
      assert Slashes(2 * m) == "\\" + ("\\" + Slashes(2 * m - 2));
      SlashesCommute(m - 1);
      var half := Slashes(m - 1);
      assert "\\" + ("\\" + (half + half)) == "\\" + ((half + "\\") + half);
    }
  }

  lemma SlashesCommute(n: nat)
    ensures "\\" + (Slashes(n) + Slashes(n)) == (Slashes(n) + "\\") + Slashes(n)
  {
    SlashesSnoc(n);
    AppendAssociates("\\", Slashes(n), Slashes(n));
  }

  lemma {:induction false} TailRunZero(a: string, m: nat)
    ensures TailRun(a, m) == 0 <==> (if a == "" then m == 0 else a[|a| - 1] != '\\')
    decreases |a|
  {
    if a != "" {
      TailRunZero(a[1..], if a[0] == '\\' then m + 1 else 0);
    }
  }

  lemma {:induction false} NameHasNoQuote(s: string)
    ensures '"' !in s[..NameLength(s, true)]
    decreases |s|
  {
    if s != "" && s[0] != '"' {
      NameHasNoQuote(s[1..]);
      assert s[..NameLength(s, true)] == [s[0]] + s[1..][..NameLength(s[1..], true)];
    }
  }

  /** The program name comes through exactly when it is a good one. */
  lemma ProgramNameExact(exe: string, t: string)
    requires Ends(t)
    ensures ProgramName(QuoteArg(exe) + t) == exe <==> GoodProgram(exe)
  {
    if Plain(exe) {
      NameOfPlain(exe, t);
      DropLength(exe, t);
    } else {
      AppendAssociates("\"", Body(exe, 0), t);
      var rest := Body(exe, 0) + t;
      ConsRest('"', rest);
      if '"' in exe {
        NameHasNoQuote(rest);
      } else {
        BodyWithoutQuotes(exe, 0);
        NoSlashes();
        var run := Slashes(TailRun(exe, 0));
        var name := exe + run;
        assert ("" + exe) + run == name;
        AppendAssociates(name, "\"", t);
        NoQuoteInSlashes(TailRun(exe, 0));
        NameToQuote(name, t);
        DropLength(name, "\"" + t);
        TailRunZero(exe, 0);
        assert name == exe <==> |run| == 0;
      }
    }
  }

  /** The parts of the service command. */
  function Parts(exe: string, script: Option<string>, name: string, dataDir: string, config: Option<string>)
    : seq<string>
  {
    [exe] + (if script.Some? then [script.value] else [])
    + ["--service", "--service-name", name, "--data-dir", dataDir]
    + (if config.Some? then ["--config", config.value] else [])
  }

  /** service_command: Windows starts the program it names, with the arguments it was
      given. */
  lemma ServiceCommandReadsBack(stay: bool, exe: string, script: Option<string>, name: string, dataDir: string,
                                config: Option<string>)
    requires GoodProgram(exe)
    ensures var parts := Parts(exe, script, name, dataDir, config);
            var line := Join(parts);
            && ProgramName(line) == exe
            && line == QuoteArg(exe) + (" " + Join(parts[1..]))
            && SplitArgs(stay, Join(parts[1..])) == parts[1..]
  {
    hide Split, QuoteArg, ProgramName, Join;
    var parts := Parts(exe, script, name, dataDir, config);
    JoinMany(parts);
    ProgramNameExact(exe, " " + Join(parts[1..]));
    SplitJoin(stay, parts[1..]);
  }

  lemma JoinMany(args: seq<string>)
    requires |args| > 1
    ensures Join(args) == QuoteArg(args[0]) + (" " + Join(args[1..]))
  {
  }
}
