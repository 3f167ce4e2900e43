/** The traffic tracer of app/engine/bridge.py: the event loop queues chunks under a lock
    and a byte limit, a writer thread takes them in batches. A step is one locked section
    or one queue operation; the two threads interleave in any way. */
module Tracer {
  import opened Common

  const QUEUE_MAX_BYTES: nat := 8388608
  const BATCH: nat := 256

  datatype Item = Chunk(data: Bytes) | Stop

  /** A line of the trace: a chunk, or the number of bytes that were not traced. */
  datatype Entry = Data(data: Bytes) | Missing(count: nat)

  datatype Writer = Collecting | Processing | Finished

  /** The tracer's fields; what each thread holds outside the queue; and as history the
      bytes offered, the chunks accepted and the lines formatted. */
  datatype State = State(queued: int, dropped: nat, q: seq<Item>, arriving: Option<Bytes>, inflight: seq<Item>,
                         batch: seq<Item>, writer: Writer, stopping: bool,
                         offered: nat, accepted: seq<Bytes>, lines: seq<Entry>)

  const START := State(0, 0, [], None, [], [], Collecting, false, 0, [], [])

  datatype Event =
    | Write(data: Bytes)   // write(): the test before the lock
    | Enter                // write(): the locked section
    | Put                  // write(): the chunk goes into the queue
    | Shut                 // aclose(): the stop mark goes into the queue
    | Take                 // _run: one get or get_nowait
    | Enough               // _run: get_nowait found the queue empty, or the batch is full
    | Process              // _run: the locked section for one item, then its lines

  /** The event loop is not inside write(). */
  predicate Quiet(s: State) { s.arriving.None? && s.inflight == [] }

  predicate Enabled(s: State, e: Event)
  {
    match e
    case Write(d) => Quiet(s)
    case Enter => s.arriving.Some?
    case Put => s.inflight != []
    case Shut => Quiet(s)
    case Take => s.writer == Collecting && s.q != [] && |s.batch| < BATCH
    case Enough => s.writer == Collecting && s.batch != []
    case Process => s.writer == Processing
  }

  /** Nothing is traced once the file is closed; but the writer may close it right after
      this test, and the chunk then waits forever. */
  function Arrive(s: State, data: Bytes): State
  {
    if s.writer == Finished || data == [] then s else s.(arriving := Some(data), offered := s.offered + |data|)
  }

  /** The locked section of write(). */
  function Offer(s: State, data: Bytes): State
  {
    if s.queued + |data| > QUEUE_MAX_BYTES then
      s.(arriving := None, dropped := s.dropped + |data|)
    else
      s.(arriving := None, queued := s.queued + |data|, inflight := [Chunk(data)], accepted := s.accepted + [data])
  }

  /** One item of the batch: the counters change together, then the lines are formatted. */
  function ProcessItem(s: State): State
  {
    if s.batch == [] then s.(writer := if s.stopping then Finished else Collecting)
    else
      var rest := s.(batch := s.batch[1..]);
      match s.batch[0]
      case Stop => rest.(stopping := true)
      case Chunk(d) =>
        rest.(queued := s.queued - |d|, dropped := 0,
              lines := s.lines + ((if s.dropped > 0 then [Missing(s.dropped)] else []) + [Data(d)]))
  }

  function Step(s: State, e: Event): State
  {
    if !Enabled(s, e) then s
    else
      match e
      case Write(d) => Arrive(s, d)
      case Enter => Offer(s, s.arriving.value)
      case Put => s.(q := s.q + s.inflight, inflight := [])
      case Shut => s.(q := s.q + [Stop])
      case Take => s.(q := s.q[1..], batch := s.batch + [s.q[0]])
      case Enough => s.(writer := Processing)
      case Process => ProcessItem(s)
  }

  function Run(s: State, es: seq<Event>): State
    decreases |es|
  {
    if es == [] then s else Run(Step(s, es[0]), es[1..])
  }

  // ---- conservation ----

  function Chunks(items: seq<Item>): seq<Bytes>
  {
    if items == [] then [] else (if items[0].Chunk? then [items[0].data] else []) + Chunks(items[1..])
  }

  function Total(chunks: seq<Bytes>): nat
  {
    if chunks == [] then 0 else |chunks[0]| + Total(chunks[1..])
  }

  /** The chunks on paper, and the bytes reported as missing. */
  function Traced(lines: seq<Entry>): seq<Bytes>
  {
    if lines == [] then [] else (if lines[0].Data? then [lines[0].data] else []) + Traced(lines[1..])
  }

  function Reported(lines: seq<Entry>): nat
  {
    if lines == [] then 0 else (if lines[0].Missing? then lines[0].count else 0) + Reported(lines[1..])
  }

  /** The chunks on their way to the file, oldest first. */
  function Waiting(s: State): seq<Bytes> { Chunks(s.batch) + (Chunks(s.q) + Chunks(s.inflight)) }

  /** The bytes between the test of write() and its locked section. */
  function Arriving(s: State): nat { if s.arriving.Some? then |s.arriving.value| else 0 }

  predicate Conserved(s: State)
  {
    && s.accepted == Traced(s.lines) + Waiting(s) && (s.arriving.Some? ==> s.inflight == [])
    && s.queued == Total(Waiting(s)) && s.queued <= QUEUE_MAX_BYTES
    && s.offered == Total(Traced(s.lines)) + Reported(s.lines) + s.dropped + s.queued + Arriving(s)
  }

  lemma {:induction false} ChunksAppend(a: seq<Item>, b: seq<Item>)
    ensures Chunks(a + b) == Chunks(a) + Chunks(b)
  {
    if a == [] {
      assert a + b == b;
    } else {
      ChunksAppend(a[1..], b);
      DropOfAppend(a, b, 1);
      AppendAssociates(if a[0].Chunk? then [a[0].data] else [], Chunks(a[1..]), Chunks(b));
    }
  }

  lemma ChunksOne(i: Item)
    ensures Chunks([i]) == if i.Chunk? then [i.data] else []
  {
    assert Chunks([i][1..]) == [];
  }

  lemma {:induction false} TotalAppend(a: seq<Bytes>, b: seq<Bytes>)
    ensures Total(a + b) == Total(a) + Total(b)
  {
    if a == [] {
      assert a + b == b;
    } else {
      TotalAppend(a[1..], b);
      DropOfAppend(a, b, 1);
    }
  }

  lemma TotalOne(d: Bytes)
    ensures Total([d]) == |d|
  {
    assert Total([d][1..]) == 0;
  }

  lemma {:induction false} LinesAppend(a: seq<Entry>, b: seq<Entry>)
    ensures Traced(a + b) == Traced(a) + Traced(b) && Reported(a + b) == Reported(a) + Reported(b)
  {
    if a == [] {
      assert a + b == b;
    } else {
      LinesAppend(a[1..], b);
      DropOfAppend(a, b, 1);
      AppendAssociates(if a[0].Data? then [a[0].data] else [], Traced(a[1..]), Traced(b));
    }
  }

  lemma LinesOfItem(dropped: nat, d: Bytes)
    ensures var l := (if dropped > 0 then [Missing(dropped)] else []) + [Data(d)];
            Traced(l) == [d] && Reported(l) == dropped
  {
    var tail := [Data(d)];
    assert Traced(tail[1..]) == [] && Reported(tail[1..]) == 0;
    assert Traced(tail) == [d] && Reported(tail) == 0;
    if dropped > 0 {
      ConsRest(Missing(dropped), tail);
    } else {
      assert [] + tail == tail;
    }
  }

  lemma OfferKeeps(s: State, data: Bytes)
    requires Conserved(s) && s.arriving == Some(data)
    ensures Conserved(Offer(s, data))
  {
    hide Traced, Reported, Total, Waiting;
    OfferWaits(s, data);
    if s.queued + |data| <= QUEUE_MAX_BYTES {
      TotalAppend(Waiting(s), [data]);
      TotalOne(data);
      AppendAssociates(Traced(s.lines), Waiting(s), [data]);
    } else {
      assert Waiting(s) + [] == Waiting(s);
    }
  }

  lemma OfferWaits(s: State, data: Bytes)
    requires s.inflight == []
    ensures Waiting(Offer(s, data)) == Waiting(s) + if s.queued + |data| <= QUEUE_MAX_BYTES then [data] else []
  {
    ChunksOne(Chunk(data));
    assert Waiting(s) + [] == Waiting(s);
  }

  lemma ArriveKeeps(s: State, data: Bytes)
    requires Conserved(s) && Quiet(s)
    ensures Conserved(Arrive(s, data))
  {
    hide Traced, Reported, Total, Chunks;
  }

  lemma EnterKeeps(s: State)
    requires Conserved(s) && s.arriving.Some?
    ensures Conserved(Offer(s, s.arriving.value))
  {
    hide Traced, Reported, Total, Chunks, Offer;
    OfferKeeps(s, s.arriving.value);
  }

  lemma MoveKeeps(s: State, e: Event)
    requires Conserved(s) && Enabled(s, e) && (e.Put? || e.Shut? || e.Take? || e.Enough?)
    ensures Conserved(Step(s, e)) && Waiting(Step(s, e)) == Waiting(s)
  {
    hide Traced, Reported, Total;
    match e
    case Put =>
      ChunksAppend(s.q, s.inflight);
      assert Chunks(s.q + s.inflight) + Chunks([]) == Chunks(s.q) + Chunks(s.inflight);
    case Shut =>
      ChunksAppend(s.q, [Stop]);
      ChunksOne(Stop);
      assert Chunks(s.q) + [] == Chunks(s.q);
    case Take =>
      FirstAndRest(s.q);
      ChunksAppend([s.q[0]], s.q[1..]);
      ChunksAppend(s.batch, [s.q[0]]);
      RegroupFour(Chunks(s.batch), Chunks([s.q[0]]), Chunks(s.q[1..]), Chunks(s.inflight));
    case Enough =>
  }

  lemma RegroupFour(a: seq<Bytes>, b: seq<Bytes>, c: seq<Bytes>, d: seq<Bytes>)
    ensures (a + b) + (c + d) == a + ((b + c) + d)
  {
  }

  lemma ProcessKeeps(s: State)
    requires Conserved(s) && s.writer == Processing
    ensures Conserved(ProcessItem(s))
  {
    hide Traced, Reported, Total, Chunks;
    if s.batch != [] {
      var first, rest := s.batch[0], s.batch[1..];
      var later := Chunks(s.q) + Chunks(s.inflight);
      FirstAndRest(s.batch);
      ChunksAppend([first], rest);
      ChunksOne(first);
      AppendAssociates(Chunks([first]), Chunks(rest), later);
      match first {
        case Stop =>
          assert [] + (Chunks(rest) + later) == Chunks(rest) + later;
        case Chunk(d) =>
          var l := (if s.dropped > 0 then [Missing(s.dropped)] else []) + [Data(d)];
          LinesOfItem(s.dropped, d);
          LinesAppend(s.lines, l);
          TotalAppend([d], Chunks(rest) + later);
          TotalAppend(Traced(s.lines), [d]);
          TotalOne(d);
          AppendAssociates(Traced(s.lines), [d], Chunks(rest) + later);
      }
    }
  }

  /** In every interleaving of the two threads the bytes are conserved: those offered are
      on paper, reported as missing, counted as dropped, or waiting; no more than the limit
      wait; and the chunks on paper and waiting are, in order, those accepted. */
  lemma {:induction false} AlwaysConserved(s: State, es: seq<Event>)
    requires Conserved(s)
    ensures Conserved(Run(s, es))
    decreases |es|
  {
    hide Conserved, ProcessItem, Offer, Arrive;
    if es != [] {
      if Enabled(s, es[0]) {
        match es[0] {
          case Write(d) => ArriveKeeps(s, d);
          case Enter => EnterKeeps(s);
          case Process => ProcessKeeps(s);
          case Put => MoveKeeps(s, es[0]);
          case Shut => MoveKeeps(s, es[0]);
          case Take => MoveKeeps(s, es[0]);
          case Enough => MoveKeeps(s, es[0]);
        }
      }
      AlwaysConserved(Step(s, es[0]), es[1..]);
    }
  }

  lemma StartConserved()
    ensures Conserved(START)
  {
  }

  // ---- what becomes of a chunk ----

  /** While the file is open every non-empty chunk is counted, and then queued if there is
      room for it and added to the dropped bytes if there is not. */
  lemma WriteExact(s: State, data: Bytes)
    requires Quiet(s) && s.writer != Finished && data != []
    ensures var r := Step(Step(s, Write(data)), Enter);
            && r.offered == s.offered + |data| && r.arriving.None?
            && if s.queued + |data| <= 8 * 1024 * 1024
               then r.inflight == [Chunk(data)] && r.accepted == s.accepted + [data]
                    && r.queued == s.queued + |data| && r.dropped == s.dropped
               else r.inflight == [] && r.accepted == s.accepted
                    && r.queued == s.queued && r.dropped == s.dropped + |data|
  {
  }

  /** A chunk of the batch becomes a line, after one that reports what was dropped before. */
  lemma ProcessExact(s: State, d: Bytes)
    requires s.writer == Processing && s.batch != [] && s.batch[0] == Chunk(d)
    ensures var r := Step(s, Process);
            && r.lines == s.lines + ((if s.dropped > 0 then [Missing(s.dropped)] else []) + [Data(d)])
            && r.batch == s.batch[1..] && r.dropped == 0 && r.queued == s.queued - |d|
  {
  }

  /** The stop mark ends the writer with the batch it is in. */
  lemma StopExact(s: State)
    requires s.writer == Processing && s.batch == [Stop]
    ensures var r := Step(Step(s, Process), Process);
            r.writer == Finished && r.lines == s.lines
  {
    assert s.batch[1..] == [];
  }

  // ---- the writer can always catch up ----

  predicate AllChunks(items: seq<Item>) { forall i :: 0 <= i < |items| ==> items[i].Chunk? }

  /** No stop mark is under way. */
  predicate Going(s: State)
  {
    AllChunks(s.q) && AllChunks(s.batch) && AllChunks(s.inflight) && !s.stopping && s.writer != Finished
  }

  lemma {:induction false} RunAppend(s: State, a: seq<Event>, b: seq<Event>)
    ensures Run(s, a + b) == Run(Run(s, a), b)
    decreases |a|
  {
    hide Step;
    if a == [] {
      assert a + b == b;
    } else {
      RunAppend(Step(s, a[0]), a[1..], b);
      DropOfAppend(a, b, 1);
    }
  }

  lemma RunOne(s: State, e: Event)
    ensures Run(s, [e]) == Step(s, e)
  {
    hide Step;
    assert [e][1..] == [];
  }

  lemma RunFirst(s: State, e: Event, es: seq<Event>)
    ensures Run(s, [e] + es) == Run(Step(s, e), es)
  {
    hide Step;
    ConsRest(e, es);
  }

  /** The rest of a batch is processed. */
  lemma {:induction false} BatchDone(s: State) returns (es: seq<Event>)
    requires Going(s) && s.writer == Processing && Quiet(s)
    ensures var r := Run(s, es);
            && Going(r) && Quiet(r) && r.writer == Collecting && r.batch == [] && r.q == s.q
            && r.accepted == s.accepted
    decreases |s.batch|
  {
    hide Run;
    if s.batch == [] {
      es := [Process];
      RunOne(s, Process);
    } else {
      var more := BatchDone(Step(s, Process));
      es := [Process] + more;
      RunFirst(s, Process, more);
    }
  }

  lemma {:induction false} QueueDone(s: State) returns (es: seq<Event>)
    requires Going(s) && Quiet(s) && s.writer == Collecting && s.batch == []
    ensures var r := Run(s, es);
            Going(r) && Quiet(r) && r.batch == [] && r.q == [] && r.accepted == s.accepted
    decreases |s.q|
  {
    hide Run;
    if s.q == [] {
      es := [];
      RunNothing(s);
    } else {
      var s1 := Step(s, Take);
      var s2 := Step(s1, Enough);
      var batch := BatchDone(s2);
      var more := QueueDone(Run(s2, batch));
      es := [Take] + ([Enough] + (batch + more));
      RunFirst(s, Take, [Enough] + (batch + more));
      RunFirst(s1, Enough, batch + more);
      RunAppend(s2, batch, more);
    }
  }

  lemma RunNothing(s: State)
    ensures Run(s, []) == s
  {
  }

  /** From any state without a stop mark there is a way on after which everything accepted
      is on paper, in order. */
  lemma CatchesUp(s: State) returns (es: seq<Event>)
    requires Conserved(s) && Going(s) && Quiet(s) && (s.writer == Collecting ==> s.batch == [])
    ensures Traced(Run(s, es).lines) == s.accepted
  {
    hide Run, Traced, Conserved;
    var first: seq<Event> := [];
    if s.writer == Processing {
      first := BatchDone(s);
    } else {
      RunNothing(s);
    }
    var rest := QueueDone(Run(s, first));
    es := first + rest;
    RunAppend(s, first, rest);
    AlwaysConserved(s, es);
    AllOnPaper(Run(s, es));
  }

  lemma AllOnPaper(s: State)
    requires Conserved(s) && s.batch == [] && s.q == [] && s.inflight == []
    ensures Traced(s.lines) == s.accepted
  {
  }
}

/** The trace files: the current one and its rotated predecessors, without I/O errors. */
module TraceFiles {
  import opened Common

  /** Lines are never split, so a file is a list of lines. File 0 is the current one and
      file i is <file>.i. */
  type Files = map<nat, seq<Bytes>>

  function Size(lines: seq<Bytes>): nat { |Concat(lines)| }

  /** The renames of _rotate, from the oldest file down. */
  function Shift(fs: Files, i: nat): Files
    decreases i
  {
    if i == 0 then fs
    else if i - 1 in fs then Shift((fs - {i - 1})[i := fs[i - 1]], i - 1)
    else Shift(fs, i - 1)
  }

  function Rotate(fs: Files, keep: nat): Files
  {
    if keep == 0 then fs[0 := []]
    else
      var shifted := Shift(fs, keep);
      if 0 in shifted then shifted else shifted[0 := []]
  }

  function AppendLine(fs: Files, line: Bytes, keep: nat, maxBytes: nat): (r: Files)
    requires 0 in fs
    ensures 0 in r
  {
    var fs1 := fs[0 := fs[0] + [line]];
    if Size(fs1[0]) >= maxBytes then Rotate(fs1, keep) else fs1
  }

  /** A trace written line by line. */
  function AppendAll(fs: Files, lines: seq<Bytes>, keep: nat, maxBytes: nat): (r: Files)
    requires 0 in fs
    ensures 0 in r
    decreases |lines|
  {
    if lines == [] then fs else AppendAll(AppendLine(fs, lines[0], keep, maxBytes), lines[1..], keep, maxBytes)
  }

  class TraceFile {
    const keep: nat
    const maxBytes: nat
    var files: Files

    constructor (keep: nat, maxBytes: nat, files: Files)
      ensures this.keep == keep && this.maxBytes == maxBytes
      ensures this.files == if 0 in files then files else files[0 := []]
    {
      this.keep, this.maxBytes := keep, maxBytes;
      this.files := if 0 in files then files else files[0 := []];
    }

    /** _write */
    method WriteLines(lines: seq<Bytes>)
      requires 0 in files
      modifies this
      ensures files == old(files)[0 := old(files)[0] + lines]
    {
      files := files[0 := files[0] + lines];
    }

    /** _rotate: the loop of renames, then a new current file. */
    method RotateFiles()
      modifies this
      ensures files == Rotate(old(files), keep)
      ensures 0 in files && files[0] == [] && Retained(files, keep) == Survives(old(files), keep)
      ensures IsSuffix(Retained(files, keep), Retained(old(files), keep))
    {
      hide Retained, Survives, IsSuffix;
      RotateEmpties(files, keep);
      RotateRetains(files, keep);
      if keep == 0 {
        files := files[0 := []];
        return;
      }
      var i := keep;
      while i > 0
        invariant 0 <= i <= keep && Shift(files, i) == Shift(old(files), keep)
      {
        if i - 1 in files {
          files := (files - {i - 1})[i := files[i - 1]];
        }
        i := i - 1;
      }
      if 0 !in files {
        files := files[0 := []];
      }
    }

    /** _append: a batch of lines, written in runs, with a rotation as soon as the file
        reaches its size. */
    method Append(lines: seq<Bytes>)
      requires 0 in files
      modifies this
      ensures 0 in files && files == AppendAll(old(files), lines, keep, maxBytes)
      ensures maxBytes > 0 ==> IsSuffix(Retained(files, keep), Retained(old(files), keep) + lines)
      ensures maxBytes > 0 ==> IsSuffix(lines, Retained(files, keep)) || Full(files, keep, maxBytes)
    {
      hide Retained, IsSuffix, Full;
      if maxBytes > 0 {
        RetainedIsSuffix(files, lines, keep, maxBytes);
      }
      var pending: seq<Bytes> := [];
      var size := Size(files[0]);
      ghost var spec := AppendAll(files, lines, keep, maxBytes);
      assert lines[0..] == lines && files[0] + [] == files[0] && files[0 := files[0]] == files;
      for i := 0 to |lines|
        invariant 0 in files && size == Size(files[0] + pending)
        invariant spec == AppendAll(files[0 := files[0] + pending], lines[i..], keep, maxBytes)
      {
        var line := lines[i];
        DropTwice(lines, i, 1);
        AppendAssociates(files[0], pending, [line]);
        ConcatSnoc(files[0] + pending, line);
        ghost var virtual := files[0 := files[0] + pending];
        assert virtual[0 := virtual[0] + [line]] == files[0 := files[0] + (pending + [line])];
        pending := pending + [line];
        size := size + |line|;
        if size >= maxBytes {
          WriteLines(pending);
          pending := [];
          RotateFiles();
          RotateEmpties(virtual[0 := virtual[0] + [line]], keep);
          size := 0;
          assert files[0] + [] == files[0] && files[0 := files[0]] == files;
        }
      }
      if pending != [] {
        WriteLines(pending);
      } else {
        assert files[0] + [] == files[0] && files[0 := files[0]] == files;
      }
    }
  }

  // ---- what is retained ----

  function FileAt(fs: Files, i: nat): seq<Bytes> { if i in fs then fs[i] else [] }

  /** Files i down to 0, oldest first. */
  function Retained(fs: Files, i: nat): seq<Bytes>
  {
    FileAt(fs, i) + if i == 0 then [] else Retained(fs, i - 1)
  }

  predicate IsSuffix(a: seq<Bytes>, b: seq<Bytes>) { |a| <= |b| && a == b[|b| - |a|..] }

  lemma SuffixOf(x: seq<Bytes>, a: seq<Bytes>)
    ensures IsSuffix(a, x + a)
  {
  }

  lemma SuffixTrans(a: seq<Bytes>, b: seq<Bytes>, c: seq<Bytes>)
    requires IsSuffix(a, b) && IsSuffix(b, c)
    ensures IsSuffix(a, c)
  {
  }

  lemma SuffixAppend(a: seq<Bytes>, b: seq<Bytes>, x: seq<Bytes>)
    requires IsSuffix(a, b)
    ensures IsSuffix(a + x, b + x)
  {
  }

  /** Only files up to i matter, and the renames below i leave file i alone. */
  lemma {:induction false} RetainedSame(fs: Files, fs': Files, i: nat)
    requires forall j :: 0 <= j <= i ==> FileAt(fs, j) == FileAt(fs', j)
    ensures Retained(fs, i) == Retained(fs', i)
  {
    if i > 0 {
      RetainedSame(fs, fs', i - 1);
    }
  }

  lemma {:induction false} ShiftBelow(fs: Files, i: nat, k: nat)
    requires k > i
    ensures k in Shift(fs, i) <==> k in fs
    ensures k in fs ==> Shift(fs, i)[k] == fs[k]
    decreases i
  {
    if i > 0 {
      if i - 1 in fs {
        ShiftBelow((fs - {i - 1})[i := fs[i - 1]], i - 1, k);
      } else {
        ShiftBelow(fs, i - 1, k);
      }
    }
  }

  /** With room at the top nothing is lost. */
  lemma {:induction false} ShiftWithRoom(fs: Files, i: nat)
    requires i !in fs
    ensures Retained(Shift(fs, i), i) == Retained(fs, i)
    decreases i
  {
    if i > 0 {
      if i - 1 in fs {
        var fs1 := (fs - {i - 1})[i := fs[i - 1]];
        ShiftWithRoom(fs1, i - 1);
        ShiftBelow(fs1, i - 1, i);
        MovedUp(fs, fs1, i);
      } else {
        ShiftWithRoom(fs, i - 1);
        ShiftBelow(fs, i - 1, i);
      }
    }
  }

  /** Moving file i - 1 up to i replaces file i. */
  lemma MovedUp(fs: Files, fs1: Files, i: nat)
    requires i > 0 && i - 1 in fs && fs1 == (fs - {i - 1})[i := fs[i - 1]]
    ensures FileAt(fs1, i) + Retained(fs1, i - 1) == Retained(fs, i - 1)
  {
    if i > 1 {
      RetainedSame(fs1, fs, i - 2);
      assert [] + Retained(fs1, i - 2) == Retained(fs1, i - 2);
    }
  }

  /** What a rotation leaves: everything but the oldest file, which is replaced, or all of
      it when there is no file to replace it with. */
  function Survives(fs: Files, keep: nat): seq<Bytes>
  {
    if keep == 0 then [] else if keep - 1 in fs then Retained(fs, keep - 1) else Retained(fs, keep)
  }

  lemma ShiftRetains(fs: Files, i: nat)
    requires i > 0
    ensures Retained(Shift(fs, i), i) == Survives(fs, i)
  {
    if i - 1 in fs {
      var fs1 := (fs - {i - 1})[i := fs[i - 1]];
      ShiftWithRoom(fs1, i - 1);
      ShiftBelow(fs1, i - 1, i);
      MovedUp(fs, fs1, i);
    } else {
      ShiftWithRoom(fs, i - 1);
      ShiftBelow(fs, i - 1, i);
    }
  }

  lemma SurvivesSuffix(fs: Files, keep: nat)
    ensures IsSuffix(Survives(fs, keep), Retained(fs, keep))
  {
    if keep > 0 {
      SuffixOf(FileAt(fs, keep), Retained(fs, keep - 1));
    }
  }

  /** After the renames there is no current file. */
  lemma {:induction false} ShiftMovesCurrent(fs: Files, i: nat)
    requires i > 0
    ensures 0 !in Shift(fs, i)
    decreases i
  {
    if i == 1 {
      assert Shift(fs, 1) == if 0 in fs then (fs - {0})[1 := fs[0]] else fs;
    } else if i - 1 in fs {
      ShiftMovesCurrent((fs - {i - 1})[i := fs[i - 1]], i - 1);
    } else {
      ShiftMovesCurrent(fs, i - 1);
    }
  }

  lemma RotateEmpties(fs: Files, keep: nat)
    ensures 0 in Rotate(fs, keep) && Rotate(fs, keep)[0] == []
  {
    if keep > 0 {
      ShiftMovesCurrent(fs, keep);
    }
  }

  lemma RotateRetains(fs: Files, keep: nat)
    ensures Retained(Rotate(fs, keep), keep) == Survives(fs, keep)
    ensures IsSuffix(Retained(Rotate(fs, keep), keep), Retained(fs, keep))
  {
    SurvivesSuffix(fs, keep);
    if keep > 0 {
      var shifted := Shift(fs, keep);
      ShiftRetains(fs, keep);
      RetainedSame(shifted, Rotate(fs, keep), keep);
    } else {
      assert Retained(Rotate(fs, 0), 0) == [];
    }
  }

  /** Each file that exists moves up by one. */
  lemma {:induction false} ShiftMoves(fs: Files, i: nat, j: nat)
    requires 1 <= j <= i && j - 1 in fs
    ensures j in Shift(fs, i) && Shift(fs, i)[j] == fs[j - 1]
    decreases i
  {
    if j == i {
      ShiftBelow((fs - {i - 1})[i := fs[i - 1]], i - 1, i);
    } else if i - 1 in fs {
      ShiftMoves((fs - {i - 1})[i := fs[i - 1]], i - 1, j);
    } else {
      ShiftMoves(fs, i - 1, j);
    }
  }

  /** Files 1 to m are there and have reached their size. */
  predicate Full(fs: Files, m: nat, maxBytes: nat)
  {
    forall i :: 1 <= i <= m ==> i in fs && Size(fs[i]) >= maxBytes
  }

  /** Of the lines traced since some moment none is lost, or all older files are full. */
  predicate Holds(fs: Files, lines: seq<Bytes>, m: nat, keep: nat, maxBytes: nat)
  {
    m <= keep && Full(fs, m, maxBytes) && (m < keep ==> IsSuffix(lines, Retained(fs, m)))
  }

  lemma {:induction false} MovedRetained(fs: Files, fs': Files, m: nat)
    requires 0 in fs' && fs'[0] == []
    requires forall j :: 1 <= j <= m + 1 ==> FileAt(fs', j) == FileAt(fs, j - 1)
    ensures Retained(fs', m + 1) == Retained(fs, m)
  {
    if m > 0 {
      MovedRetained(fs, fs', m - 1);
    } else {
      assert Retained(fs', 0) == [];
    }
  }

  lemma RotateHolds(fs: Files, lines: seq<Bytes>, m: nat, keep: nat, maxBytes: nat) returns (m': nat)
    requires 0 in fs && Size(fs[0]) >= maxBytes && Holds(fs, lines, m, keep, maxBytes)
    ensures Holds(Rotate(fs, keep), lines, m', keep, maxBytes)
  {
    hide Size, Shift;
    var r := Rotate(fs, keep);
    m' := if m < keep then m + 1 else m;
    RotateEmpties(fs, keep);
    forall j | 1 <= j <= m' ensures j in r && r[j] == fs[j - 1] {
      ShiftMoves(fs, keep, j);
    }
    if m < keep {
      MovedRetained(fs, r, m);
    }
  }

  lemma AppendLineHolds(fs: Files, lines: seq<Bytes>, line: Bytes, m: nat, keep: nat, maxBytes: nat) returns (m': nat)
    requires 0 in fs && Holds(fs, lines, m, keep, maxBytes)
    ensures Holds(AppendLine(fs, line, keep, maxBytes), lines + [line], m', keep, maxBytes)
  {
    hide Size, Retained, IsSuffix, Rotate;
    var fs1 := fs[0 := fs[0] + [line]];
    RetainedWrite(fs, line, m);
    if m < keep {
      SuffixAppend(lines, Retained(fs, m), [line]);
    }
    assert Holds(fs1, lines + [line], m, keep, maxBytes);
    if Size(fs1[0]) >= maxBytes {
      m' := RotateHolds(fs1, lines + [line], m, keep, maxBytes);
    } else {
      m' := m;
    }
  }

  lemma {:induction false} AppendAllHolds(
      fs: Files, lines: seq<Bytes>, more: seq<Bytes>, m: nat, keep: nat, maxBytes: nat) returns (m': nat)
    requires 0 in fs && Holds(fs, lines, m, keep, maxBytes)
    ensures Holds(AppendAll(fs, more, keep, maxBytes), lines + more, m', keep, maxBytes)
    decreases |more|
  {
    hide Holds, AppendLine;
    if more == [] {
      assert lines + more == lines;
      m' := m;
    } else {
      m' := AppendLineHolds(fs, lines, more[0], m, keep, maxBytes);
      m' := AppendAllHolds(AppendLine(fs, more[0], keep, maxBytes), lines + [more[0]], more[1..], m', keep, maxBytes);
      FirstAndRest(more);
      AppendAssociates(lines, [more[0]], more[1..]);
    }
  }

  lemma {:induction false} RetainedMore(fs: Files, m: nat, keep: nat)
    requires m <= keep
    ensures IsSuffix(Retained(fs, m), Retained(fs, keep))
  {
    if m < keep {
      RetainedMore(fs, m, keep - 1);
      SuffixOf(FileAt(fs, keep), Retained(fs, keep - 1));
      SuffixTrans(Retained(fs, m), Retained(fs, keep - 1), Retained(fs, keep));
    }
  }

  /** What is never lost: all lines of a trace are there, until the older files are all
      there and full. */
  lemma NewestRetained(fs: Files, lines: seq<Bytes>, keep: nat, maxBytes: nat)
    requires 0 in fs
    ensures var r := AppendAll(fs, lines, keep, maxBytes);
            IsSuffix(lines, Retained(r, keep)) || Full(r, keep, maxBytes)
  {
    hide Retained, Full, AppendAll;
    assert Full(fs, 0, maxBytes) by {
      NoneFull(fs, maxBytes);
    }
    SuffixOf(Retained(fs, 0), []);
    assert Retained(fs, 0) + [] == Retained(fs, 0);
    var m := AppendAllHolds(fs, [], lines, 0, keep, maxBytes);
    assert [] + lines == lines;
    var r := AppendAll(fs, lines, keep, maxBytes);
    if m < keep {
      RetainedMore(r, m, keep);
      SuffixTrans(lines, Retained(r, m), Retained(r, keep));
    }
  }

  lemma NoneFull(fs: Files, maxBytes: nat)
    ensures Full(fs, 0, maxBytes)
  {
  }

  lemma {:induction false} RetainedWrite(fs: Files, line: Bytes, i: nat)
    requires 0 in fs
    ensures Retained(fs[0 := fs[0] + [line]], i) == Retained(fs, i) + [line]
  {
    if i > 0 {
      RetainedWrite(fs, line, i - 1);
      AppendAssociates(FileAt(fs, i), Retained(fs, i - 1), [line]);
    }
  }

  lemma AppendLineRetains(fs: Files, line: Bytes, keep: nat, maxBytes: nat)
    requires 0 in fs && maxBytes > 0
    ensures var r := AppendLine(fs, line, keep, maxBytes);
            IsSuffix(Retained(r, keep), Retained(fs, keep) + [line]) && Size(r[0]) < maxBytes
  {
    var fs1 := fs[0 := fs[0] + [line]];
    RetainedWrite(fs, line, keep);
    RotateRetains(fs1, keep);
    RotateEmpties(fs1, keep);
  }

  /** The retained files, oldest to newest, are a suffix of everything ever traced: none
      is missing in between. The current file stays below its limit. */
  lemma {:induction false} RetainedIsSuffix(fs: Files, lines: seq<Bytes>, keep: nat, maxBytes: nat)
    requires 0 in fs && maxBytes > 0
    ensures var r := AppendAll(fs, lines, keep, maxBytes);
            && IsSuffix(Retained(r, keep), Retained(fs, keep) + lines)
            && (lines != [] ==> Size(r[0]) < maxBytes)
            && (IsSuffix(lines, Retained(r, keep)) || Full(r, keep, maxBytes))
    decreases |lines|
  {
    hide AppendLine, Retained, Size, Full;
    NewestRetained(fs, lines, keep, maxBytes);
    if lines == [] {
      assert Retained(fs, keep) + [] == Retained(fs, keep);
    } else {
      var fs1 := AppendLine(fs, lines[0], keep, maxBytes);
      AppendLineRetains(fs, lines[0], keep, maxBytes);
      RetainedIsSuffix(fs1, lines[1..], keep, maxBytes);
      SuffixAppend(Retained(fs1, keep), Retained(fs, keep) + [lines[0]], lines[1..]);
      AppendAssociates(Retained(fs, keep), [lines[0]], lines[1..]);
      FirstAndRest(lines);
      SuffixTrans(Retained(AppendAll(fs, lines, keep, maxBytes), keep), Retained(fs1, keep) + lines[1..],
                  Retained(fs, keep) + lines);
    }
  }

  /** Whatever the batching: two batches are one. */
  lemma {:induction false} BatchingIrrelevant(fs: Files, a: seq<Bytes>, b: seq<Bytes>, keep: nat, maxBytes: nat)
    requires 0 in fs
    ensures AppendAll(fs, a + b, keep, maxBytes) == AppendAll(AppendAll(fs, a, keep, maxBytes), b, keep, maxBytes)
    decreases |a|
  {
    hide AppendLine;
    if a == [] {
      assert a + b == b;
    } else {
      BatchingIrrelevant(AppendLine(fs, a[0], keep, maxBytes), a[1..], b, keep, maxBytes);
      DropOfAppend(a, b, 1);
    }
  }
}
