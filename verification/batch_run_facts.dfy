/** What a batch run promises: which steps happen, in which order, and what
    reaches the child, as the control flow of `Msg::Run` in src/main.rs
    guarantees it. The facts are stated on `Pipeline`, the run of any
    command over any records, and the examples on `Execute`. */
module BatchRunFacts {
  import opened InputRecords
  import opened Interpreter
  import opened BatchRun

  /** True when no step of `trace` is `a`. */
  predicate Absent(a: Action, trace: seq<Action>) {
    forall i :: 0 <= i < |trace| ==> trace[i] != a
  }

  /** A step is absent from a concatenation exactly when it is absent from
      both parts. */
  lemma AbsentAppend(a: Action, x: seq<Action>, y: seq<Action>)
    ensures Absent(a, x + y) <==> Absent(a, x) && Absent(a, y)
  {
    if Absent(a, x) && Absent(a, y) {
      forall i | 0 <= i < |x + y| ensures (x + y)[i] != a {
        if i >= |x| {
          assert (x + y)[i] == y[i - |x|];
        }
      }
    }
    if Absent(a, x + y) {
      forall i | 0 <= i < |x| ensures x[i] != a {
        assert (x + y)[i] == x[i];
      }
      forall i | 0 <= i < |y| ensures y[i] != a {
        assert (x + y)[|x| + i] == y[i];
      }
    }
  }

  /** A trace of writes holds no control step. */
  lemma WritesHoldNoControl(t: seq<Action>)
    requires forall i :: 0 <= i < |t| ==> IsWrite(t[i])
    ensures Absent(Flush, t) && Absent(Wait, t) && Absent(DropWriter, t)
  {
  }

  /** An oracle that fails nothing lets every plan run to its end. */
  lemma {:induction false} NothingBroken(os: Os, plan: seq<Action>)
    requires forall a :: os(a) == Done
    ensures FirstBroken(os, plan) == |plan|
  {
    if plan != [] {
      NothingBroken(os, plan[1..]);
    }
  }

  /** The steps after the streaming loop: the writer is dropped at once if
      a write failed, after a failed flush, or after a good flush and
      before the wait. */
  function Closing(s: Streamed, os: Os): seq<Action> {
    if s.end.Aborted? then [DropWriter]
    else if os(Flush).Broken? then [Flush, DropWriter]
    else [Flush, DropWriter, Wait]
  }

  /** Once the pipe and the child exist, a run is the two set-up steps, the
      streaming loop, and the closing steps; it sends what the loop sent. */
  lemma PipelineShape(cmd: Command, rs: seq<InputData>, os: Os, enc: Encoder)
    requires os(CreatePipe) == Done && os(Spawn(cmd)) == Done
    ensures var s := StreamRecords(rs, os, enc);
            && Pipeline(cmd, rs, os, enc).trace == [CreatePipe, Spawn(cmd)] + s.trace + Closing(s, os)
            && Pipeline(cmd, rs, os, enc).sent == s.sent
  {
  }

  /** The streaming loop writes a prefix of the frame steps, every step it
      performs is a write, the records it wrote are a prefix of `rs`, and it
      finishes exactly when no write failed, having then sent the whole
      stream. An aborted loop's last step is the write that failed, and
      every step before it succeeded. */
  lemma StreamShape(rs: seq<InputData>, os: Os, enc: Encoder)
    ensures var s := StreamRecords(rs, os, enc);
            && (forall i :: 0 <= i < |s.trace| ==> IsWrite(s.trace[i]))
            && IsPrefix(Written(s.trace), rs)
            && IsPrefix(s.sent, Stream(enc, rs))
            && (s.end.Finished? <==> FirstBroken(os, FrameActions(rs)) == |FrameActions(rs)|)
            && (s.end.Finished? ==> s.trace == FrameActions(rs) && s.sent == Stream(enc, rs))
            && (s.end.Aborted? ==> s.trace != [] && s.trace[|s.trace| - 1] == s.end.at)
            && (s.end.Aborted? ==> forall i :: 0 <= i < |s.trace| - 1 ==> os(s.trace[i]) == Done)
  {
    StreamPrefixes(rs, os, enc);
    if FirstBroken(os, FrameActions(rs)) < |FrameActions(rs)| {
      StreamAbortedShape(rs, os, enc);
    } else {
      StreamFinishedShape(rs, os, enc);
    }
  }

  /** The streaming loop only writes, and what it sends is a prefix of the
      stream. */
  lemma StreamPrefixes(rs: seq<InputData>, os: Os, enc: Encoder)
    ensures var s := StreamRecords(rs, os, enc);
            && (forall i :: 0 <= i < |s.trace| ==> IsWrite(s.trace[i]))
            && IsPrefix(s.sent, Stream(enc, rs))
  {
    var fa := FrameActions(rs);
    StreamIsCut(rs, os, enc);
    FramesAreWrites(rs);
    BytesOfFrames(enc, rs);
    CutSentIsPrefix(enc, os, fa, FirstBroken(os, fa));
  }

  /** A streaming loop that meets a failed write ends on it, after writes
      that all went through, having written a prefix of the records. */
  lemma StreamAbortedShape(rs: seq<InputData>, os: Os, enc: Encoder)
    requires FirstBroken(os, FrameActions(rs)) < |FrameActions(rs)|
    ensures var s := StreamRecords(rs, os, enc);
            && s.end.Aborted?
            && IsPrefix(Written(s.trace), rs)
            && s.trace != [] && s.trace[|s.trace| - 1] == s.end.at
            && forall i :: 0 <= i < |s.trace| - 1 ==> os(s.trace[i]) == Done
  {
    var fa := FrameActions(rs);
    var j := FirstBroken(os, fa);
    StreamIsCut(rs, os, enc);
    WrittenOfFramePrefix(rs, j + 1);
    assert forall i :: 0 <= i < j + 1 ==> fa[..j + 1][i] == fa[i];
  }

  /** A streaming loop that meets no failed write performs every frame step
      and sends the whole stream. */
  lemma StreamFinishedShape(rs: seq<InputData>, os: Os, enc: Encoder)
    requires FirstBroken(os, FrameActions(rs)) == |FrameActions(rs)|
    ensures var s := StreamRecords(rs, os, enc);
            && s.end.Finished?
            && IsPrefix(Written(s.trace), rs)
            && s.trace == FrameActions(rs) && s.sent == Stream(enc, rs)
  {
    var fa := FrameActions(rs);
    StreamIsCut(rs, os, enc);
    BytesOfFrames(enc, rs);
    CutAll(fa, os, enc);
    WrittenOfFrames(rs);
    assert IsPrefix(rs, rs) by { assert rs[..|rs|] == rs; }
  }

  /** The bytes that reach the child are always a prefix of the full
      newline-framed stream of the records: records go out whole and in
      order, and a failure only cuts the stream short. */
  lemma SentIsPrefixOfStream(cmd: Command, rs: seq<InputData>, os: Os, enc: Encoder)
    ensures IsPrefix(Pipeline(cmd, rs, os, enc).sent, Stream(enc, rs))
  {
    StreamShape(rs, os, enc);
    assert IsPrefix([], Stream(enc, rs));
  }

  /** The records a run writes are always a prefix of its records, in
      order: none is skipped, repeated or reordered. */
  lemma WrittenIsPrefixOfRecords(cmd: Command, rs: seq<InputData>, os: Os, enc: Encoder)
    ensures IsPrefix(Written(Pipeline(cmd, rs, os, enc).trace), rs)
  {
    ControlSendsNothing(cmd, enc);
    assert IsPrefix([], rs);
    if os(CreatePipe) == Done && os(Spawn(cmd)) == Done {
      var s := StreamRecords(rs, os, enc);
      StreamShape(rs, os, enc);
      PipelineShape(cmd, rs, os, enc);
      var pre, post := [CreatePipe, Spawn(cmd)], Closing(s, os);
      WrittenAppend(pre + s.trace, post);
      WrittenAppend(pre, s.trace);
      assert Written(post) == [];
      assert Written(pre + s.trace + post) == [] + Written(s.trace) + [];
      assert [] + Written(s.trace) + [] == Written(s.trace);
    }
  }

  /** When the OS fails nothing, the run pipes, spawns, writes every record
      and its newline in order, flushes, drops the writer, waits, and
      completes; the child receives the whole stream, every record once. */
  lemma CleanRun(cmd: Command, rs: seq<InputData>, os: Os, enc: Encoder)
    requires forall a :: os(a) == Done
    ensures var r := Pipeline(cmd, rs, os, enc);
            && r.outcome == Completed
            && r.trace == [CreatePipe, Spawn(cmd)] + FrameActions(rs) + [Flush, DropWriter, Wait]
            && r.sent == Stream(enc, rs)
            && Written(r.trace) == rs
  {
    var fa := FrameActions(rs);
    NothingBroken(os, fa);
    StreamShape(rs, os, enc);
    PipelineShape(cmd, rs, os, enc);
    WrittenAppend([CreatePipe, Spawn(cmd)] + fa, [Flush, DropWriter, Wait]);
    HeadAddsNothing(cmd, fa, enc);
    ControlSendsNothing(cmd, enc);
    WrittenOfFrames(rs);
    assert rs + [] == rs;
  }

  /** A failed pipe creation ends the run before anything is spawned or
      written. */
  lemma PipeFailureStopsEarly(cmd: Command, rs: seq<InputData>, os: Os, enc: Encoder)
    requires os(CreatePipe).Broken?
    ensures var r := Pipeline(cmd, rs, os, enc);
            && r.outcome == Failed(CreatePipe)
            && r.trace == [CreatePipe]
            && Absent(Spawn(cmd), r.trace) && Absent(Wait, r.trace)
            && Written(r.trace) == []
            && r.sent == []
  {
    ControlSendsNothing(cmd, enc);
  }

  /** A failed spawn ends the run: the pipe creation and the spawn are
      followed only by dropping the writer, so no record is written,
      nothing reaches the pipe, nothing is flushed and nobody is waited
      for. */
  lemma SpawnFailureStopsEarly(cmd: Command, rs: seq<InputData>, os: Os, enc: Encoder)
    requires os(CreatePipe) == Done && os(Spawn(cmd)).Broken?
    ensures var r := Pipeline(cmd, rs, os, enc);
            && r.outcome == Failed(Spawn(cmd))
            && r.trace == [CreatePipe, Spawn(cmd), DropWriter]
            && Written(r.trace) == []
            && r.sent == []
            && Absent(Wait, r.trace) && Absent(Flush, r.trace)
            && r.trace[|r.trace| - 1] == DropWriter
  {
    ControlSendsNothing(cmd, enc);
  }

  /** A failed write ends the run at once: the failed write is the last
      step before the writer is dropped, nothing is flushed or waited for,
      and every step before the failed one succeeded. */
  lemma WriteFailureAborts(cmd: Command, rs: seq<InputData>, os: Os, enc: Encoder)
    requires var r := Pipeline(cmd, rs, os, enc);
             r.outcome.Failed? && IsWrite(r.outcome.at)
    ensures var r := Pipeline(cmd, rs, os, enc);
            && |r.trace| >= 4
            && r.trace[|r.trace| - 2] == r.outcome.at
            && r.trace[|r.trace| - 1] == DropWriter
            && Absent(Flush, r.trace) && Absent(Wait, r.trace)
            && (forall i :: 0 <= i < |r.trace| - 2 ==> os(r.trace[i]) == Done)
  {
    var r, s := Pipeline(cmd, rs, os, enc), StreamRecords(rs, os, enc);
    assert os(CreatePipe) == Done && os(Spawn(cmd)) == Done;
    assert s.end == Aborted(r.outcome.at);
    StreamShape(rs, os, enc);
    PipelineShape(cmd, rs, os, enc);
    assert r.trace == [CreatePipe, Spawn(cmd)] + s.trace + [DropWriter];
    AbortedTrace(cmd, s.trace, os);
  }

  /** The trace of a run whose loop aborted, given the loop's trace. */
  lemma AbortedTrace(cmd: Command, st: seq<Action>, os: Os)
    requires os(CreatePipe) == Done && os(Spawn(cmd)) == Done
    requires st != [] && forall i :: 0 <= i < |st| ==> IsWrite(st[i])
    requires forall i :: 0 <= i < |st| - 1 ==> os(st[i]) == Done
    ensures var t := [CreatePipe, Spawn(cmd)] + st + [DropWriter];
            && |t| >= 4
            && t[|t| - 2] == st[|st| - 1]
            && t[|t| - 1] == DropWriter
            && Absent(Flush, t) && Absent(Wait, t)
            && (forall i :: 0 <= i < |t| - 2 ==> os(t[i]) == Done)
  {
    var pre := [CreatePipe, Spawn(cmd)];
    var t := pre + st + [DropWriter];
    forall i | 0 <= i < |t| - 2 ensures os(t[i]) == Done {
      if i >= 2 {
        assert t[i] == st[i - 2];
      }
    }
    WritesHoldNoControl(st);
    AbsentAppend(Flush, pre + st, [DropWriter]);
    AbsentAppend(Flush, pre, st);
    AbsentAppend(Wait, pre + st, [DropWriter]);
    AbsentAppend(Wait, pre, st);
  }

  /** The child is waited for only after every record and its newline was
      written, the writer flushed and then dropped, so that it sees end of
      input; by then it has received the whole stream, and every step the
      OS answered before the wait, the flush among them, succeeded. */
  lemma WaitOnlyAfterEverything(cmd: Command, rs: seq<InputData>, os: Os, enc: Encoder)
    requires !Absent(Wait, Pipeline(cmd, rs, os, enc).trace)
    ensures var r := Pipeline(cmd, rs, os, enc);
            && r.trace == [CreatePipe, Spawn(cmd)] + FrameActions(rs) + [Flush, DropWriter, Wait]
            && r.sent == Stream(enc, rs)
            && (r.outcome.Failed? ==> r.outcome.at == Wait)
            && os(Flush) == Done
            && (forall i :: 0 <= i < |r.trace| - 1 && r.trace[i] != DropWriter ==> os(r.trace[i]) == Done)
  {
    if os(CreatePipe) == Done && os(Spawn(cmd)) == Done {
      var s := StreamRecords(rs, os, enc);
      StreamShape(rs, os, enc);
      PipelineShape(cmd, rs, os, enc);
      var pre, post := [CreatePipe, Spawn(cmd)], Closing(s, os);
      WritesHoldNoControl(s.trace);
      AbsentAppend(Wait, pre + s.trace, post);
      AbsentAppend(Wait, pre, s.trace);
      if s.end.Finished? && os(Flush) == Done {
        EarlierStepsDone(cmd, rs, os);
      }
    }
  }

  /** When no write and not the flush fail, every step of the full trace
      before the wait, other than dropping the writer, succeeded. */
  lemma EarlierStepsDone(cmd: Command, rs: seq<InputData>, os: Os)
    requires os(CreatePipe) == Done && os(Spawn(cmd)) == Done && os(Flush) == Done
    requires FirstBroken(os, FrameActions(rs)) == |FrameActions(rs)|
    ensures var t := [CreatePipe, Spawn(cmd)] + FrameActions(rs) + [Flush, DropWriter, Wait];
            forall i :: 0 <= i < |t| - 1 && t[i] != DropWriter ==> os(t[i]) == Done
  {
    var fa := FrameActions(rs);
    var t := [CreatePipe, Spawn(cmd)] + fa + [Flush, DropWriter, Wait];
    forall i | 0 <= i < |t| - 1 && t[i] != DropWriter ensures os(t[i]) == Done {
      if 2 <= i < 2 + |fa| {
        assert t[i] == fa[i - 2];
      }
    }
  }

  /** The writer is dropped in every run that created the pipe, exactly
      once, as the last step or right before the wait. */
  lemma WriterDroppedOnce(cmd: Command, rs: seq<InputData>, os: Os, enc: Encoder)
    requires os(CreatePipe) == Done
    ensures var t := Pipeline(cmd, rs, os, enc).trace;
            && |t| >= 3
            && (t[|t| - 1] == DropWriter || (t[|t| - 2] == DropWriter && t[|t| - 1] == Wait))
            && (forall i :: 0 <= i < |t| && t[i] == DropWriter ==> i == |t| - 1 || i == |t| - 2)
            && (forall i, j :: 0 <= i < j < |t| && t[i] == DropWriter ==> t[j] != DropWriter)
  {
    if os(Spawn(cmd)).Broken? {
      DropsInClosing(cmd, [], [DropWriter]);
      assert [CreatePipe, Spawn(cmd)] + [] + [DropWriter] == [CreatePipe, Spawn(cmd), DropWriter];
    } else {
      var s := StreamRecords(rs, os, enc);
      StreamShape(rs, os, enc);
      PipelineShape(cmd, rs, os, enc);
      DropsInClosing(cmd, s.trace, Closing(s, os));
    }
  }

  /** In the set-up steps, then writes, then one of the three closings,
      the writer is dropped once: last, or right before the wait. */
  lemma DropsInClosing(cmd: Command, st: seq<Action>, post: seq<Action>)
    requires forall i :: 0 <= i < |st| ==> IsWrite(st[i])
    requires post == [DropWriter] || post == [Flush, DropWriter] || post == [Flush, DropWriter, Wait]
    ensures var t := [CreatePipe, Spawn(cmd)] + st + post;
            && |t| >= 3
            && (t[|t| - 1] == DropWriter || (t[|t| - 2] == DropWriter && t[|t| - 1] == Wait))
            && (forall i :: 0 <= i < |t| && t[i] == DropWriter ==> i == |t| - 1 || i == |t| - 2)
            && (forall i, j :: 0 <= i < j < |t| && t[i] == DropWriter ==> t[j] != DropWriter)
  {
    var pre := [CreatePipe, Spawn(cmd)];
    var t := pre + st + post;
    WritesHoldNoControl(st);
    AbsentAppend(DropWriter, pre, st);
    forall i | 0 <= i < |t| && t[i] == DropWriter ensures i == |t| - 1 || i == |t| - 2 {
      if i >= |pre + st| {
        assert t[i] == post[i - |pre + st|];
      }
    }
    if post == [DropWriter] {
      assert t[|t| - 2] == (pre + st)[|pre + st| - 1];
    }
  }

  /** With `/usr/bin/python` missing, the run fails at the spawn of the
      Python command, before any record is written or any byte sent. */
  lemma PythonSpawnFailure(script: string, args: seq<string>, os: Os, enc: Encoder)
    requires os(CreatePipe) == Done && os(Spawn(Command("/usr/bin/python", ["-c", script]))).Broken?
    ensures var r := Execute(Python, script, args, os, enc);
            && r.outcome == Failed(Spawn(Command("/usr/bin/python", ["-c", script])))
            && Written(r.trace) == [] && r.sent == []
  {
    SpawnFailureStopsEarly(Resolve(Python, script), Records(args), os, enc);
  }

  /** Example: `sh` with the script `cat` over
      "a" and "bb", with nothing failing, spawns `/usr/bin/sh -c cat
      batch-script-sh`, sends the record for "a", a newline, the record
      for "bb" and a newline, and completes. */
  lemma ExampleRun(os: Os, enc: Encoder)
    requires forall a :: os(a) == Done
    ensures var r := Execute(Sh, "cat", ["a", "bb"], os, enc);
            && r.outcome == Completed
            && r.trace[1] == Spawn(Command("/usr/bin/sh", ["-c", "cat", "batch-script-sh"]))
            && r.sent == enc(InputData("a", 0, 1, "a")) + [Newline] + enc(InputData("bb", 1, 2, "bb")) + [Newline]
  {
    var cmd := Command("/usr/bin/sh", ["-c", "cat", "batch-script-sh"]);
    var x, y := InputData("a", 0, 1, "a"), InputData("bb", 1, 2, "bb");
    assert Resolve(Sh, "cat") == cmd;
    ExampleRecords();
    StreamOfTwo(enc, x, y);
    CleanRun(cmd, [x, y], os, enc);
    assert Execute(Sh, "cat", ["a", "bb"], os, enc) == Pipeline(cmd, [x, y], os, enc);
  }

  /** Two records stream as the first's JSON, a newline, the second's JSON
      and a newline. */
  lemma StreamOfTwo(enc: Encoder, x: InputData, y: InputData)
    ensures Stream(enc, [x, y]) == enc(x) + [Newline] + enc(y) + [Newline]
  {
    assert [x, y][1..] == [y] && [y][1..] == [];
    assert Stream(enc, [y]) == enc(y) + [Newline] + [];
  }
}
