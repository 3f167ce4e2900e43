/** The rolling closeon matcher of the bridge (app/engine/bridge.py): a pattern is looked
    for across the chunks read from the device, with only |pattern| - 1 bytes carried over. */
module Closeon {
  import opened Common

  predicate OccursAt(p: Bytes, s: Bytes, i: int) { 0 <= i <= |s| - |p| && s[i..i + |p|] == p }

  predicate Occurs(p: Bytes, s: Bytes)
  {
    exists i :: 0 <= i <= |s| - |p| && OccursAt(p, s, i)
  }

  /** The last n items, or all of them. */
  function Last(s: Bytes, n: nat): (r: Bytes)
    ensures |r| <= n && |r| <= |s|
  {
    if |s| <= n then s else s[|s| - n..]
  }

  /** _check_closeon: whether it fires, and the bytes carried over. */
  function Check(p: Bytes, tail: Bytes, data: Bytes): (bool, Bytes)
    requires p != []
  {
    var window := tail + data;
    if Occurs(p, window) then (true, [])
    else if |p| > 1 then (false, Last(window, |p| - 1))
    else (false, tail)
  }

  class Matcher {
    const pattern: Bytes
    var tail: Bytes

    constructor (pattern: Bytes)
      ensures this.pattern == pattern && tail == []
    {
      this.pattern := pattern;
      tail := [];
    }

    /** The clients are closed by the caller when it fires. */
    method CheckChunk(data: Bytes) returns (fired: bool)
      requires pattern != []
      modifies this
      ensures (fired, tail) == Check(pattern, old(tail), data)
      ensures forall since :: Carried(pattern, old(tail), since) ==>
                (fired <==> Occurs(pattern, since + data)) && Carried(pattern, tail, if fired then [] else since + data)
    {
      forall since | Carried(pattern, tail, since)
        ensures Occurs(pattern, tail + data) <==> Occurs(pattern, since + data)
        ensures Carried(pattern, Check(pattern, tail, data).1,
                        if Occurs(pattern, tail + data) then [] else since + data)
      {
        SameOccurrences(pattern, tail, since, data);
        if !Occurs(pattern, tail + data) {
          CarriedOn(pattern, tail, since, data);
        }
      }
      var window := tail + data;
      fired := Occurs(pattern, window);
      if fired {
        tail := [];
      } else if |pattern| > 1 {
        tail := Last(window, |pattern| - 1);
      }
    }
  }

  /** The chunks on which the matcher fires. */
  function Fires(p: Bytes, tail: Bytes, chunks: seq<Bytes>): (r: seq<bool>)
    requires p != []
    ensures |r| == |chunks|
    decreases |chunks|
  {
    if chunks == [] then []
    else
      var (fired, tail') := Check(p, tail, chunks[0]);
      [fired] + Fires(p, tail', chunks[1..])
  }

  /** The same, decided on everything received since the last firing. */
  function Matches(p: Bytes, since: Bytes, chunks: seq<Bytes>): (r: seq<bool>)
    ensures |r| == |chunks|
    decreases |chunks|
  {
    if chunks == [] then []
    else
      var all := since + chunks[0];
      [Occurs(p, all)] + Matches(p, if Occurs(p, all) then [] else all, chunks[1..])
  }

  /** The carry-over is all that an occurrence not yet seen can reach back into. */
  predicate Carried(p: Bytes, tail: Bytes, since: Bytes)
    requires p != []
  {
    !Occurs(p, since) && tail == Last(since, |p| - 1)
  }

  lemma SliceShift(a: Bytes, b: Bytes, k: nat, i: nat, n: nat)
    requires k <= |a| && k <= i && i + n <= |a| + |b|
    ensures (a + b)[i..i + n] == (a[k..] + b)[i - k..i - k + n]
  {
  }

  lemma SameOccurrences(p: Bytes, tail: Bytes, since: Bytes, data: Bytes)
    requires p != [] && Carried(p, tail, since)
    ensures Occurs(p, tail + data) <==> Occurs(p, since + data)
  {
    var k := |since| - |tail|;
    assert tail == since[k..];
    if Occurs(p, tail + data) {
      var i :| 0 <= i <= |tail + data| - |p| && OccursAt(p, tail + data, i);
      SliceShift(since, data, k, i + k, |p|);
      assert OccursAt(p, since + data, i + k);
    }
    if Occurs(p, since + data) {
      var i :| 0 <= i <= |since + data| - |p| && OccursAt(p, since + data, i);
      if i + |p| <= |since| {
        assert (since + data)[i..i + |p|] == since[i..i + |p|];
        assert OccursAt(p, since, i);
      } else {
        SliceShift(since, data, k, i, |p|);
        assert OccursAt(p, tail + data, i - k);
      }
    }
  }

  lemma CarriedOn(p: Bytes, tail: Bytes, since: Bytes, data: Bytes)
    requires p != [] && Carried(p, tail, since) && !Occurs(p, tail + data)
    ensures Carried(p, Check(p, tail, data).1, since + data)
  {
    hide Occurs, Last;
    SameOccurrences(p, tail, since, data);
    if |p| > 1 {
      LastOfMore(since, data, |p| - 1);
    } else {
      LastNone(since);
      LastNone(since + data);
    }
  }

  /** The last n items of a sequence that grows need only the last n of it before. */
  lemma LastOfMore(s: Bytes, data: Bytes, n: nat)
    ensures Last(Last(s, n) + data, n) == Last(s + data, n)
  {
    if |s| > n {
      assert Last(s, n) == s[|s| - n..];
      hide Last;
      DropOfAppend(s, data, |s| - n);
      LastOfRest(s + data, |s| - n, n);
    }
  }

  lemma LastOfRest(s: Bytes, k: nat, n: nat)
    requires k + n <= |s|
    ensures Last(s[k..], n) == Last(s, n)
  {
    DropTwice(s, k, |s| - k - n);
  }

  lemma LastNone(s: Bytes)
    ensures Last(s, 0) == []
  {
  }

  /** It fires on a chunk exactly when the pattern occurs in the concatenation of all
      chunks since the last firing. */
  lemma {:induction false} FiresExactly(p: Bytes, tail: Bytes, since: Bytes, chunks: seq<Bytes>)
    requires p != [] && Carried(p, tail, since)
    ensures Fires(p, tail, chunks) == Matches(p, since, chunks)
    decreases |chunks|
  {
    if chunks != [] {
      SameOccurrences(p, tail, since, chunks[0]);
      if Occurs(p, tail + chunks[0]) {
        assert Carried(p, [], []);
        FiresExactly(p, [], [], chunks[1..]);
      } else {
        CarriedOn(p, tail, since, chunks[0]);
        FiresExactly(p, Check(p, tail, chunks[0]).1, since + chunks[0], chunks[1..]);
      }
    }
  }

  lemma {:induction false} MatchesFirst(p: Bytes, since: Bytes, chunks: seq<Bytes>, j: nat)
    requires j < |chunks| && forall i :: 0 <= i < j ==> !Matches(p, since, chunks)[i]
    ensures Matches(p, since, chunks)[j] <==> Occurs(p, since + Concat(chunks[..j + 1]))
    decreases j
  {
    if j == 0 {
      assert chunks[..1] == [chunks[0]];
      assert Concat([chunks[0]]) == chunks[0] + Concat([]) == chunks[0];
    } else {
      var all := since + chunks[0];
      var rest := Matches(p, all, chunks[1..]);
      assert !Matches(p, since, chunks)[0];
      forall i | 0 <= i < j - 1 ensures !rest[i] {
        assert rest[i] == Matches(p, since, chunks)[i + 1];
      }
      MatchesFirst(p, all, chunks[1..], j - 1);
      assert chunks[..j + 1][1..] == chunks[1..][..j];
      ConcatFirst(since, chunks[..j + 1]);
    }
  }

  /** So from a fresh start the first firing is in the chunk that completes the first
      occurrence, however the stream is cut into chunks. */
  lemma FirstFiring(p: Bytes, chunks: seq<Bytes>, j: nat)
    requires p != [] && j < |chunks|
    requires forall i :: 0 <= i < j ==> !Fires(p, [], chunks)[i]
    ensures Fires(p, [], chunks)[j] <==> Occurs(p, Concat(chunks[..j + 1]))
    ensures j > 0 ==> !Occurs(p, Concat(chunks[..j]))
  {
    FiresExactly(p, [], [], chunks);
    MatchesFirst(p, [], chunks, j);
    assert [] + Concat(chunks[..j + 1]) == Concat(chunks[..j + 1]);
    if j > 0 {
      MatchesFirst(p, [], chunks, j - 1);
      assert [] + Concat(chunks[..j]) == Concat(chunks[..j]);
      assert !Fires(p, [], chunks)[j - 1];
    }
  }
}
