/** Types shared by every component: bytes, and the result of an operation that can
    raise ValueError. The text of an error is not modelled, only that there is one. */
module Common {

  type Byte = b: int | 0 <= b < 256

  type Bytes = seq<Byte>

  datatype Option<+T> = None | Some(value: T)

  datatype Result<+T> = Ok(value: T) | Err
  {
    predicate IsFailure() { Err? }

    function PropagateFailure<U>(): Result<U>
      requires Err?
    {
      Err
    }

    function Extract(): T
      requires Ok?
    {
      value
    }
  }

  /** White space as Python sees it, in str.strip and in the \s of a pattern. */
  predicate IsSpace(c: char)
  {
    || '\t' <= c <= '\r' || '\U{1C}' <= c <= ' ' || c == '\U{85}' || c == '\U{A0}' || c == '\U{1680}'
    || '\U{2000}' <= c <= '\U{200A}' || c == '\U{2028}' || c == '\U{2029}' || c == '\U{202F}'
    || c == '\U{205F}' || c == '\U{3000}'
  }

  /** The bytes of a 16-bit number. */
  function Hi(n: int): Byte { n / 256 % 256 }

  function Lo(n: int): Byte { n % 256 }

  /** A distance found n items further on. */
  function Bump(n: nat, r: Option<nat>): Option<nat> { if r.None? then None else Some(n + r.value) }

  // Facts about sequences, kept in small lemmas of their own.

  lemma AppendAssociates<T>(a: seq<T>, b: seq<T>, c: seq<T>)
    ensures (a + b) + c == a + (b + c)
  {
  }

  lemma DropOfAppend<T>(a: seq<T>, b: seq<T>, n: nat)
    requires n <= |a|
    ensures (a + b)[n..] == a[n..] + b
  {
  }

  lemma DropLength<T>(a: seq<T>, b: seq<T>)
    ensures (a + b)[|a|..] == b && (a + b)[..|a|] == a
  {
  }

  lemma DropTwice<T>(s: seq<T>, m: nat, n: nat)
    requires m + n <= |s|
    ensures s[m..][n..] == s[m + n..]
  {
  }

  lemma SplitAt<T>(s: seq<T>, m: nat, n: nat)
    requires m <= n <= |s|
    ensures s[m..] == s[m..n] + s[n..]
  {
  }

  lemma ConsRest<T>(x: T, t: seq<T>)
    ensures ([x] + t)[0] == x && ([x] + t)[1..] == t
  {
  }

  lemma FirstAndRest<T>(s: seq<T>)
    requires s != []
    ensures [s[0]] + s[1..] == s
  {
  }

  /** The concatenation of a sequence of chunks. */
  function Concat<T>(chunks: seq<seq<T>>): (r: seq<T>)
  {
    if chunks == [] then [] else chunks[0] + Concat(chunks[1..])
  }

  lemma {:induction false} ConcatAppend<T>(a: seq<seq<T>>, b: seq<seq<T>>)
    ensures Concat(a + b) == Concat(a) + Concat(b)
  {
    if a == [] {
      assert a + b == b;
    } else {
      ConcatAppend(a[1..], b);
      DropOfAppend(a, b, 1);
      AppendAssociates(a[0], Concat(a[1..]), Concat(b));
    }
  }

  lemma ConcatFirst<T>(s: seq<T>, chunks: seq<seq<T>>)
    requires chunks != []
    ensures s + Concat(chunks) == (s + chunks[0]) + Concat(chunks[1..])
  {
  }

  lemma ConcatSnoc<T>(a: seq<seq<T>>, x: seq<T>)
    ensures Concat(a + [x]) == Concat(a) + x
  {
    ConcatAppend(a, [x]);
    assert Concat([x]) == x + Concat([]) == x;
  }
}
