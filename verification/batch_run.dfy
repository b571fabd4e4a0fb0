/** The batch run behind `Msg::Run` in src/main.rs: create a pipe, spawn
    the interpreter with the pipe's read end as its standard input, write
    one JSON record and one newline per argument, flush, drop the writer and
    wait for the child. Every fallible step either succeeds or ends the run;
    nothing is retried.

    The operating system is an oracle `os` that answers each step with
    `Done` or `Broken`. Because each step is a distinct `Action` (the spawn
    names its command, a record write names its record, a newline write its
    position), the oracle can fail any particular step. JSON encoding is
    the parameter `enc`. */
module BatchRun {
  import opened Utf8
  import opened InputRecords
  import opened Interpreter

  /** The OS's answer to one step. For a write, `sent` is how many bytes of
      the buffer reached the pipe before the error (`write_all` and the JSON
      writer may fail part-way); other steps ignore it. */
  datatype Io = Done | Broken(sent: nat)

  /** One step of a run, in the order the source performs them. */
  datatype Action =
    | CreatePipe
    | Spawn(cmd: Command)
    | WriteRecord(rec: InputData)
    | WriteNewline(idx: nat)
    | Flush
    | DropWriter
    | Wait

  /** How a run ends: the child was waited for, or the named step failed. */
  datatype Outcome = Completed | Failed(at: Action)

  /** What a run did: the steps performed, the bytes that reached the pipe,
      and the outcome. */
  datatype Report = Report(trace: seq<Action>, sent: seq<byte>, outcome: Outcome)

  type Os = Action -> Io

  /** `serde_json::to_writer` as a function of the record. */
  type Encoder = InputData -> seq<byte>

  const Newline: byte := 0x0A

  predicate IsPrefix<T(==)>(p: seq<T>, s: seq<T>) {
    |p| <= |s| && s[..|p|] == p
  }

  /** The first `n` bytes of `bs`, or all of them. */
  function Take(bs: seq<byte>, n: nat): (p: seq<byte>)
    ensures IsPrefix(p, bs)
    ensures |p| == if n < |bs| then n else |bs|
  {
    if n < |bs| then bs[..n] else bs
  }

  /** The full newline-framed stream for `rs`: each record's JSON followed
      by one newline. */
  function Stream(enc: Encoder, rs: seq<InputData>): seq<byte> {
    if rs == [] then [] else enc(rs[0]) + [Newline] + Stream(enc, rs[1..])
  }

  /** The bytes a step writes when it succeeds. */
  function Payload(enc: Encoder, a: Action): seq<byte> {
    match a
    case WriteRecord(rec) => enc(rec)
    case WriteNewline(_) => [Newline]
    case _ => []
  }

  /** The bytes a sequence of successful steps writes, in order. */
  function Bytes(enc: Encoder, acts: seq<Action>): seq<byte> {
    if acts == [] then [] else Payload(enc, acts[0]) + Bytes(enc, acts[1..])
  }

  /** The record and newline writes for `rs`, in order. */
  function FrameActions(rs: seq<InputData>): seq<Action> {
    if rs == [] then [] else [WriteRecord(rs[0]), WriteNewline(rs[0].idx)] + FrameActions(rs[1..])
  }

  /** The records a trace wrote, in order. */
  function Written(trace: seq<Action>): seq<InputData> {
    if trace == [] then []
    else if trace[0].WriteRecord? then [trace[0].rec] + Written(trace[1..])
    else Written(trace[1..])
  }


  /** True when `a` puts bytes on the pipe. */
  predicate IsWrite(a: Action) {
    a.WriteRecord? || a.WriteNewline?
  }

  /** How many bytes a failed write got through; zero for a success. */
  function Partial(io: Io): nat {
    match io
    case Done => 0
    case Broken(n) => n
  }

  // ---------------------------------------------------------------------
  // Cutting a plan at its first failure

  /** The position of the first step of `plan` the OS fails, or `|plan|`
      when it fails none. */
  function FirstBroken(os: Os, plan: seq<Action>): (k: nat)
    ensures k <= |plan|
    ensures forall i :: 0 <= i < k ==> os(plan[i]) == Done
    ensures k < |plan| ==> os(plan[k]).Broken?
  {
    if plan == [] then 0
    else if os(plan[0]).Broken? then 0
    else 1 + FirstBroken(os, plan[1..])
  }

  /** The steps of `plan` performed when step `k` is the first to fail:
      everything up to and including it. */
  function Cut(plan: seq<Action>, k: nat): seq<Action>
    requires k <= |plan|
  {
    if k < |plan| then plan[..k + 1] else plan
  }

  /** The bytes on the pipe when step `k` of `plan` is the first to fail:
      everything the steps before it wrote, then whatever part of the failed
      step got through. */
  function CutSent(enc: Encoder, os: Os, plan: seq<Action>, k: nat): seq<byte>
    requires k <= |plan|
  {
    Bytes(enc, plan[..k]) + FailedPart(enc, os, plan, k)
  }

  /** The part of the failing step's payload that got through, if a step
      failed. */
  function FailedPart(enc: Encoder, os: Os, plan: seq<Action>, k: nat): seq<byte>
    requires k <= |plan|
  {
    if k < |plan| then Take(Payload(enc, plan[k]), Partial(os(plan[k]))) else []
  }

  // ---------------------------------------------------------------------
  // The run, following the control flow of the source

  /** Why the streaming loop stopped: it ran out of records, or a write
      failed. */
  datatype StreamEnd = Finished | Aborted(at: Action)

  datatype Streamed = Streamed(trace: seq<Action>, sent: seq<byte>, end: StreamEnd)

  /** The streaming loop: for each record, write its JSON, then a newline;
      the first failed write ends the loop. */
  function StreamRecords(rs: seq<InputData>, os: Os, enc: Encoder): (s: Streamed)
    ensures s.end.Aborted? ==> IsWrite(s.end.at) && os(s.end.at).Broken?
  {
    if rs == [] then Streamed([], [], Finished)
    else
      var rec := rs[0];
      match os(WriteRecord(rec))
      case Broken(n) =>
        Streamed([WriteRecord(rec)], Take(enc(rec), n), Aborted(WriteRecord(rec)))
      case Done =>
        match os(WriteNewline(rec.idx))
        case Broken(n) =>
          Streamed([WriteRecord(rec), WriteNewline(rec.idx)], enc(rec) + Take([Newline], n),
                   Aborted(WriteNewline(rec.idx)))
        case Done =>
          var s := StreamRecords(rs[1..], os, enc);
          Streamed([WriteRecord(rec), WriteNewline(rec.idx)] + s.trace, enc(rec) + [Newline] + s.sent, s.end)
  }

  /** The I/O part of a run of `cmd` over the records `rs`: pipe, spawn,
      stream, flush, drop the writer, wait. Every early return drops the
      writer once the pipe exists, as leaving the async block does. */
  function Pipeline(cmd: Command, rs: seq<InputData>, os: Os, enc: Encoder): (r: Report)
    ensures r.trace != [] && r.trace[0] == CreatePipe
    ensures r.outcome.Failed? ==> os(r.outcome.at).Broken?
  {
    if os(CreatePipe).Broken? then Report([CreatePipe], [], Failed(CreatePipe))
    else if os(Spawn(cmd)).Broken? then Report([CreatePipe, Spawn(cmd), DropWriter], [], Failed(Spawn(cmd)))
    else
      var s := StreamRecords(rs, os, enc);
      var head := [CreatePipe, Spawn(cmd)] + s.trace;
      match s.end
      case Aborted(a) => Report(head + [DropWriter], s.sent, Failed(a))
      case Finished =>
        if os(Flush).Broken? then Report(head + [Flush, DropWriter], s.sent, Failed(Flush))
        else Report(head + [Flush, DropWriter, Wait], s.sent, if os(Wait).Broken? then Failed(Wait) else Completed)
  }

  /** One batch run of `script` under `lang` over `args`: resolve the
      command, build one record per argument, and run the pipeline. */
  function Execute(lang: Language, script: string, args: seq<string>, os: Os, enc: Encoder): (r: Report)
    ensures r.trace != [] && r.trace[0] == CreatePipe
    ensures r.outcome.Failed? ==> os(r.outcome.at).Broken?
  {
    Pipeline(Resolve(lang, script), Records(args), os, enc)
  }

  // ---------------------------------------------------------------------
  // The reference: a fixed plan cut at its first failure

  /** The fallible steps of a run, in order, if none fails. */
  function Plan(cmd: Command, rs: seq<InputData>): seq<Action> {
    [CreatePipe, Spawn(cmd)] + FrameActions(rs) + [Flush, Wait]
  }

  /** The trace of a run whose first failure is step `k` of `plan`: the
      plan cut there, with the writer dropped after the last step that
      touches it once the pipe exists. */
  function RefTrace(plan: seq<Action>, k: nat): seq<Action>
    requires 2 <= |plan| && k <= |plan|
  {
    if k == 0 then Cut(plan, 0)
    else if k < |plan| - 1 then Cut(plan, k) + [DropWriter]
    else Cut(plan, |plan| - 2) + [DropWriter, plan[|plan| - 1]]
  }

  /** The reference report for `cmd` over `rs`. */
  function Reference(cmd: Command, rs: seq<InputData>, os: Os, enc: Encoder): Report {
    var plan := Plan(cmd, rs);
    var k := FirstBroken(os, plan);
    Report(RefTrace(plan, k), CutSent(enc, os, plan, k), if k < |plan| then Failed(plan[k]) else Completed)
  }

  // ---------------------------------------------------------------------
  // Lemmas about the helpers

  lemma {:induction false} BytesAppend(enc: Encoder, a: seq<Action>, b: seq<Action>)
    ensures Bytes(enc, a + b) == Bytes(enc, a) + Bytes(enc, b)
  {
    if a == [] {
      assert a + b == b;
    } else {
      assert (a + b)[0] == a[0];
      assert (a + b)[1..] == a[1..] + b;
      BytesAppend(enc, a[1..], b);
    }
  }

  lemma {:induction false} WrittenAppend(a: seq<Action>, b: seq<Action>)
    ensures Written(a + b) == Written(a) + Written(b)
  {
    if a == [] {
      assert a + b == b;
    } else {
      assert (a + b)[0] == a[0];
      assert (a + b)[1..] == a[1..] + b;
      WrittenAppend(a[1..], b);
    }
  }

  /** Steps that are not writes put nothing on the pipe and write no
      record. */
  lemma {:induction false} NoWritesSendNothing(enc: Encoder, acts: seq<Action>)
    requires forall i :: 0 <= i < |acts| ==> !IsWrite(acts[i])
    ensures Bytes(enc, acts) == [] && Written(acts) == []
  {
    if acts != [] {
      NoWritesSendNothing(enc, acts[1..]);
    }
  }

  /** The control steps around the stream put nothing on the pipe. */
  lemma ControlSendsNothing(cmd: Command, enc: Encoder)
    ensures Bytes(enc, [CreatePipe]) == [] && Written([CreatePipe]) == []
    ensures Bytes(enc, [CreatePipe, Spawn(cmd)]) == [] && Written([CreatePipe, Spawn(cmd)]) == []
    ensures Bytes(enc, [Flush, Wait]) == [] && Written([Flush, Wait]) == []
    ensures Written([Flush, DropWriter, Wait]) == [] && Written([DropWriter]) == []
    ensures Written([Flush, DropWriter]) == []
    ensures Written([CreatePipe, Spawn(cmd), DropWriter]) == []
  {
    NoWritesSendNothing(enc, [CreatePipe]);
    NoWritesSendNothing(enc, [CreatePipe, Spawn(cmd)]);
    NoWritesSendNothing(enc, [Flush, Wait]);
    NoWritesSendNothing(enc, [Flush, DropWriter, Wait]);
    NoWritesSendNothing(enc, [DropWriter]);
    NoWritesSendNothing(enc, [Flush, DropWriter]);
    NoWritesSendNothing(enc, [CreatePipe, Spawn(cmd), DropWriter]);
  }

  /** Pipe creation and spawn before the frame steps add no bytes and no
      records to them. */
  lemma HeadAddsNothing(cmd: Command, fa: seq<Action>, enc: Encoder)
    ensures Bytes(enc, [CreatePipe, Spawn(cmd)] + fa) == Bytes(enc, fa)
    ensures Written([CreatePipe, Spawn(cmd)] + fa) == Written(fa)
  {
    ControlSendsNothing(cmd, enc);
    BytesAppend(enc, [CreatePipe, Spawn(cmd)], fa);
    WrittenAppend([CreatePipe, Spawn(cmd)], fa);
    assert [] + Bytes(enc, fa) == Bytes(enc, fa);
    assert [] + Written(fa) == Written(fa);
  }

  lemma {:induction false} FirstBrokenAppend(os: Os, a: seq<Action>, b: seq<Action>)
    ensures FirstBroken(os, a + b) ==
            if FirstBroken(os, a) < |a| then FirstBroken(os, a) else |a| + FirstBroken(os, b)
  {
    if a == [] {
      assert a + b == b;
    } else {
      assert (a + b)[0] == a[0];
      assert (a + b)[1..] == a[1..] + b;
      FirstBrokenAppend(os, a[1..], b);
    }
  }

  /** The first failure among two steps. */
  lemma FirstBrokenPair(os: Os, a: Action, b: Action)
    ensures FirstBroken(os, [a, b]) == if os(a).Broken? then 0 else if os(b).Broken? then 1 else 2
  {
    assert [a, b][1..] == [b];
    assert [b][1..] == [];
  }

  /** The frame steps for `rs` are a record write and a newline write per
      record, so they hold no control step. */
  lemma {:induction false} FramesAreWrites(rs: seq<InputData>)
    ensures |FrameActions(rs)| == 2 * |rs|
    ensures forall i :: 0 <= i < |FrameActions(rs)| ==> IsWrite(FrameActions(rs)[i])
  {
    if rs != [] {
      FramesAreWrites(rs[1..]);
      var fa := FrameActions(rs);
      forall i | 0 <= i < |fa| ensures IsWrite(fa[i]) {
        if i >= 2 {
          assert fa[i] == FrameActions(rs[1..])[i - 2];
        }
      }
    }
  }

  /** The writes of the frame steps are exactly the newline-framed stream. */
  lemma {:induction false} BytesOfFrames(enc: Encoder, rs: seq<InputData>)
    ensures Bytes(enc, FrameActions(rs)) == Stream(enc, rs)
  {
    if rs != [] {
      var fa := FrameActions(rs);
      assert fa[1..] == [WriteNewline(rs[0].idx)] + FrameActions(rs[1..]);
      assert fa[1..][1..] == FrameActions(rs[1..]);
      BytesOfFrames(enc, rs[1..]);
    }
  }

  /** The records written by the frame steps are the records themselves. */
  lemma {:induction false} WrittenOfFrames(rs: seq<InputData>)
    ensures Written(FrameActions(rs)) == rs
  {
    if rs != [] {
      var fa := FrameActions(rs);
      assert fa[1..] == [WriteNewline(rs[0].idx)] + FrameActions(rs[1..]);
      assert fa[1..][1..] == FrameActions(rs[1..]);
      WrittenOfFrames(rs[1..]);
      assert rs == [rs[0]] + rs[1..];
    }
  }

  /** The records written by a prefix of the frame steps are a prefix of
      the records. */
  lemma WrittenOfFramePrefix(rs: seq<InputData>, n: nat)
    requires n <= |FrameActions(rs)|
    ensures IsPrefix(Written(FrameActions(rs)[..n]), rs)
  {
    var fa := FrameActions(rs);
    assert fa == fa[..n] + fa[n..];
    WrittenAppend(fa[..n], fa[n..]);
    WrittenOfFrames(rs);
  }

  /** Extending both sides of a prefix pair keeps it a prefix pair. */
  lemma PrefixExtend<T>(a: seq<T>, p: seq<T>, q: seq<T>, r: seq<T>)
    requires IsPrefix(p, q)
    ensures IsPrefix(a + p, a + q + r)
  {
    assert (a + q + r)[..|a + p|] == a + q[..|p|];
  }

  /** What a plan cut anywhere has sent is a prefix of what the whole plan
      sends. */
  lemma CutSentIsPrefix(enc: Encoder, os: Os, plan: seq<Action>, k: nat)
    requires k <= |plan|
    ensures IsPrefix(CutSent(enc, os, plan, k), Bytes(enc, plan))
  {
    var done := Bytes(enc, plan[..k]);
    if k < |plan| {
      var p := Payload(enc, plan[k]);
      var tail := Bytes(enc, plan[k + 1..]);
      BytesAround(enc, plan, k);
      ConcatAssoc(done, p, tail);
      PrefixExtend(done, FailedPart(enc, os, plan, k), p, tail);
    } else {
      assert plan[..k] == plan;
      assert done + [] == done;
    }
  }

  /** The bytes of a plan are those of the steps before step `k`, then step
      `k`'s payload, then those of the steps after it. */
  lemma BytesAround(enc: Encoder, plan: seq<Action>, k: nat)
    requires k < |plan|
    ensures Bytes(enc, plan) == Bytes(enc, plan[..k]) + (Payload(enc, plan[k]) + Bytes(enc, plan[k + 1..]))
  {
    assert plan == plan[..k] + plan[k..];
    BytesAppend(enc, plan[..k], plan[k..]);
    assert plan[k..][0] == plan[k] && plan[k..][1..] == plan[k + 1..];
  }

  /** The whole plan writes exactly the newline-framed stream of its
      records, and writes exactly its records. */
  lemma PlanWrites(enc: Encoder, cmd: Command, rs: seq<InputData>)
    ensures Bytes(enc, Plan(cmd, rs)) == Stream(enc, rs)
    ensures Written(Plan(cmd, rs)) == rs
  {
    var pre, fa, post := [CreatePipe, Spawn(cmd)], FrameActions(rs), [Flush, Wait];
    BytesAppend(enc, pre + fa, post);
    WrittenAppend(pre + fa, post);
    ControlSendsNothing(cmd, enc);
    assert Bytes(enc, pre + fa) == Bytes(enc, fa) && Written(pre + fa) == Written(fa) by {
      HeadAddsNothing(cmd, fa, enc);
    }
    assert Bytes(enc, fa) + [] == Bytes(enc, fa) && Written(fa) + [] == Written(fa);
    BytesOfFrames(enc, rs);
    WrittenOfFrames(rs);
  }

  // ---------------------------------------------------------------------
  // The run against the reference

  /** The streaming loop performs the frame steps up to and including the
      first one the OS fails, and sends what the steps before it wrote plus
      whatever part of the failed write got through. */
  lemma {:induction false} StreamIsCut(rs: seq<InputData>, os: Os, enc: Encoder)
    ensures var fa := FrameActions(rs);
            var j := FirstBroken(os, fa);
            StreamRecords(rs, os, enc) ==
              Streamed(Cut(fa, j), CutSent(enc, os, fa, j), if j < |fa| then Aborted(fa[j]) else Finished)
  {
    if rs != [] {
      var rec := rs[0];
      var fa := FrameActions(rs);
      var rest := FrameActions(rs[1..]);
      assert fa == [WriteRecord(rec), WriteNewline(rec.idx)] + rest;
      FirstBrokenAppend(os, [WriteRecord(rec), WriteNewline(rec.idx)], rest);
      FirstBrokenPair(os, WriteRecord(rec), WriteNewline(rec.idx));
      if os(WriteRecord(rec)).Broken? {
        RecordWriteFails(rec, rest, os, enc);
      } else if os(WriteNewline(rec.idx)).Broken? {
        NewlineWriteFails(rec, rest, os, enc);
      } else {
        StreamIsCut(rs[1..], os, enc);
        FrameWritten(rec, rest, os, enc);
      }
    }
  }

  /** The cut when the first record write fails. */
  lemma RecordWriteFails(rec: InputData, rest: seq<Action>, os: Os, enc: Encoder)
    requires os(WriteRecord(rec)).Broken?
    ensures var fa := [WriteRecord(rec), WriteNewline(rec.idx)] + rest;
            && Cut(fa, 0) == [WriteRecord(rec)]
            && CutSent(enc, os, fa, 0) == Take(enc(rec), Partial(os(WriteRecord(rec))))
  {
    var fa := [WriteRecord(rec), WriteNewline(rec.idx)] + rest;
    assert fa[..0] == [];
  }

  /** The cut when the first newline write fails. */
  lemma NewlineWriteFails(rec: InputData, rest: seq<Action>, os: Os, enc: Encoder)
    ensures var fa := [WriteRecord(rec), WriteNewline(rec.idx)] + rest;
            && Cut(fa, 1) == [WriteRecord(rec), WriteNewline(rec.idx)]
            && CutSent(enc, os, fa, 1) == enc(rec) + Take([Newline], Partial(os(WriteNewline(rec.idx))))
  {
    var fa := [WriteRecord(rec), WriteNewline(rec.idx)] + rest;
    assert fa[..1] == [WriteRecord(rec)] && fa[1] == WriteNewline(rec.idx);
    assert Bytes(enc, [WriteRecord(rec)]) == enc(rec) + Bytes(enc, []) by {
      assert [WriteRecord(rec)][1..] == [];
    }
  }

  /** Once a record and its newline are through, the cut of the frame
      steps is that pair followed by the cut of the remaining steps. */
  lemma FrameWritten(rec: InputData, rest: seq<Action>, os: Os, enc: Encoder)
    ensures var fa := [WriteRecord(rec), WriteNewline(rec.idx)] + rest;
            var j := FirstBroken(os, rest);
            && Cut(fa, 2 + j) == [WriteRecord(rec), WriteNewline(rec.idx)] + Cut(rest, j)
            && CutSent(enc, os, fa, 2 + j) == enc(rec) + [Newline] + CutSent(enc, os, rest, j)
  {
    var pair := [WriteRecord(rec), WriteNewline(rec.idx)];
    assert Bytes(enc, pair) == enc(rec) + [Newline] by {
      assert pair[1..] == [WriteNewline(rec.idx)];
      assert pair[1..][1..] == [];
      assert Bytes(enc, pair[1..]) == [Newline];
    }
    CutAfter(pair, rest, FirstBroken(os, rest));
    CutSentAfter(pair, rest, FirstBroken(os, rest), os, enc);
  }

  /** Cutting `pre + rest` past `pre` is cutting `rest`, after `pre`. */
  lemma CutAfter(pre: seq<Action>, rest: seq<Action>, j: nat)
    requires j <= |rest|
    ensures Cut(pre + rest, |pre| + j) == pre + Cut(rest, j)
  {
    if j < |rest| {
      assert (pre + rest)[..|pre| + j + 1] == pre + rest[..j + 1];
    }
  }

  /** The bytes of `pre + rest` cut past `pre` are those of `pre` followed
      by those of `rest` cut. */
  lemma CutSentAfter(pre: seq<Action>, rest: seq<Action>, j: nat, os: Os, enc: Encoder)
    requires j <= |rest|
    ensures CutSent(enc, os, pre + rest, |pre| + j) == Bytes(enc, pre) + CutSent(enc, os, rest, j)
  {
    var plan, k := pre + rest, |pre| + j;
    var x, y := Bytes(enc, pre), Bytes(enc, rest[..j]);
    BytesOfPrefixAfter(pre, rest, j, enc);
    var tail := FailedPart(enc, os, rest, j);
    assert k < |plan| ==> plan[k] == rest[j];
    assert FailedPart(enc, os, plan, k) == tail;
    ConcatAssoc(x, y, tail);
  }

  /** The bytes of `pre + rest` up to `j` steps past `pre`. */
  lemma BytesOfPrefixAfter(pre: seq<Action>, rest: seq<Action>, j: nat, enc: Encoder)
    requires j <= |rest|
    ensures Bytes(enc, (pre + rest)[..|pre| + j]) == Bytes(enc, pre) + Bytes(enc, rest[..j])
  {
    assert (pre + rest)[..|pre| + j] == pre + rest[..j];
    BytesAppend(enc, pre, rest[..j]);
  }

  lemma ConcatAssoc<T>(a: seq<T>, b: seq<T>, c: seq<T>)
    ensures (a + b) + c == a + (b + c)
  {
  }

  /** Cutting `fa + post` inside `fa` is cutting `fa`. */
  lemma CutBefore(fa: seq<Action>, post: seq<Action>, j: nat, os: Os, enc: Encoder)
    requires j < |fa|
    ensures Cut(fa + post, j) == Cut(fa, j)
    ensures CutSent(enc, os, fa + post, j) == CutSent(enc, os, fa, j)
  {
    assert (fa + post)[..j + 1] == fa[..j + 1];
    assert (fa + post)[..j] == fa[..j];
    assert (fa + post)[j] == fa[j];
  }

  /** Cutting a whole sequence keeps all of it and all of its bytes. */
  lemma CutAll(fa: seq<Action>, os: Os, enc: Encoder)
    ensures Cut(fa, |fa|) == fa
    ensures CutSent(enc, os, fa, |fa|) == Bytes(enc, fa)
  {
    assert fa[..|fa|] == fa;
    assert Bytes(enc, fa) + [] == Bytes(enc, fa);
  }

  /** Cutting `a + [Flush, Wait]` in its last two steps. */
  lemma CutTail(a: seq<Action>, i: nat, os: Os, enc: Encoder)
    requires i <= 2
    ensures Cut(a + [Flush, Wait], |a| + i) == a + Cut([Flush, Wait], i)
    ensures CutSent(enc, os, a + [Flush, Wait], |a| + i) == Bytes(enc, a)
  {
    CutAfter(a, [Flush, Wait], i);
    CutSentAfter(a, [Flush, Wait], i, os, enc);
    TailSendsNothing(os, enc);
    if i == 0 {
      assert CutSent(enc, os, [Flush, Wait], 0) == [];
    } else if i == 1 {
      assert CutSent(enc, os, [Flush, Wait], 1) == [];
    } else {
      assert CutSent(enc, os, [Flush, Wait], 2) == [];
    }
    assert Bytes(enc, a) + [] == Bytes(enc, a);
  }

  /** Flushing and waiting put nothing on the pipe. */
  lemma TailSendsNothing(os: Os, enc: Encoder)
    ensures CutSent(enc, os, [Flush, Wait], 0) == []
    ensures CutSent(enc, os, [Flush, Wait], 1) == []
    ensures CutSent(enc, os, [Flush, Wait], 2) == []
  {
  }

  /** Where the plan's first failure lies, stage by stage. */
  lemma PlanFirstBroken(cmd: Command, rs: seq<InputData>, os: Os)
    ensures var fa := FrameActions(rs);
            var j := FirstBroken(os, fa);
            && Plan(cmd, rs) == [CreatePipe, Spawn(cmd)] + fa + [Flush, Wait]
            && FirstBroken(os, Plan(cmd, rs)) ==
                 if os(CreatePipe).Broken? then 0
                 else if os(Spawn(cmd)).Broken? then 1
                 else if j < |fa| then 2 + j
                 else if os(Flush).Broken? then 2 + |fa|
                 else if os(Wait).Broken? then 3 + |fa|
                 else 4 + |fa|
  {
    var pre, fa, post := [CreatePipe, Spawn(cmd)], FrameActions(rs), [Flush, Wait];
    FirstBrokenAppend(os, pre + fa, post);
    FirstBrokenAppend(os, pre, fa);
    FirstBrokenPair(os, CreatePipe, Spawn(cmd));
    FirstBrokenPair(os, Flush, Wait);
  }

  /** The run performs the plan up to and including the first step the OS
      fails, and nothing after it but dropping the writer; its outcome names
      that step; the pipe holds what the steps before it wrote and whatever
      part of a failed write got through. */
  lemma PipelineIsReference(cmd: Command, rs: seq<InputData>, os: Os, enc: Encoder)
    ensures Pipeline(cmd, rs, os, enc) == Reference(cmd, rs, os, enc)
  {
    PlanFirstBroken(cmd, rs, os);
    var fa := FrameActions(rs);
    if os(CreatePipe).Broken? {
      var plan := Plan(cmd, rs);
      assert plan[..1] == [CreatePipe] && plan[..0] == [];
    } else if os(Spawn(cmd)).Broken? {
      SpawnFailsInPlan(cmd, rs, os, enc);
    } else if FirstBroken(os, fa) < |fa| {
      WriteFailsInPlan(cmd, rs, os, enc);
    } else if os(Flush).Broken? {
      FlushFailsInPlan(cmd, rs, os, enc);
    } else {
      WaitReachedInPlan(cmd, rs, os, enc);
    }
  }

  lemma SpawnFailsInPlan(cmd: Command, rs: seq<InputData>, os: Os, enc: Encoder)
    requires os(CreatePipe) == Done && os(Spawn(cmd)).Broken?
    requires FirstBroken(os, Plan(cmd, rs)) == 1
    ensures Pipeline(cmd, rs, os, enc) == Reference(cmd, rs, os, enc)
  {
    var plan := Plan(cmd, rs);
    assert plan[..2] == [CreatePipe, Spawn(cmd)];
    assert plan[..1] == [CreatePipe];
    ControlSendsNothing(cmd, enc);
  }

  lemma WriteFailsInPlan(cmd: Command, rs: seq<InputData>, os: Os, enc: Encoder)
    requires os(CreatePipe) == Done && os(Spawn(cmd)) == Done
    requires FirstBroken(os, FrameActions(rs)) < |FrameActions(rs)|
    requires FirstBroken(os, Plan(cmd, rs)) == 2 + FirstBroken(os, FrameActions(rs))
    requires Plan(cmd, rs) == [CreatePipe, Spawn(cmd)] + FrameActions(rs) + [Flush, Wait]
    ensures Pipeline(cmd, rs, os, enc) == Reference(cmd, rs, os, enc)
  {
    var pre, fa, post := [CreatePipe, Spawn(cmd)], FrameActions(rs), [Flush, Wait];
    var plan, j := Plan(cmd, rs), FirstBroken(os, fa);
    StreamIsCut(rs, os, enc);
    ConcatAssoc(pre, fa, post);
    CutAfter(pre, fa + post, j);
    CutSentAfter(pre, fa + post, j, os, enc);
    CutBefore(fa, post, j, os, enc);
    ControlSendsNothing(cmd, enc);
    assert [] + CutSent(enc, os, fa, j) == CutSent(enc, os, fa, j);
    assert plan[2 + j] == fa[j];
  }

  lemma FlushFailsInPlan(cmd: Command, rs: seq<InputData>, os: Os, enc: Encoder)
    requires os(CreatePipe) == Done && os(Spawn(cmd)) == Done && os(Flush).Broken?
    requires FirstBroken(os, FrameActions(rs)) == |FrameActions(rs)|
    requires FirstBroken(os, Plan(cmd, rs)) == 2 + |FrameActions(rs)|
    requires Plan(cmd, rs) == [CreatePipe, Spawn(cmd)] + FrameActions(rs) + [Flush, Wait]
    ensures Pipeline(cmd, rs, os, enc) == Reference(cmd, rs, os, enc)
  {
    var pre, fa := [CreatePipe, Spawn(cmd)], FrameActions(rs);
    var a := pre + fa;
    StreamIsCut(rs, os, enc);
    CutAll(fa, os, enc);
    CutTail(a, 0, os, enc);
    HeadAddsNothing(cmd, fa, enc);
    assert Cut([Flush, Wait], 0) == [Flush];
    ConcatAssoc(a, [Flush], [DropWriter]);
    var plan := Plan(cmd, rs);
    assert plan[2 + |fa|] == Flush;
    var r := Report(a + [Flush, DropWriter], Bytes(enc, fa), Failed(Flush));
    assert |a| == 2 + |fa| && plan == a + [Flush, Wait];
    assert Cut(plan, |a|) == a + [Flush];
    assert [Flush] + [DropWriter] == [Flush, DropWriter];
    assert RefTrace(plan, |a|) == Cut(plan, |a|) + [DropWriter];
    assert RefTrace(plan, 2 + |fa|) == r.trace;
    assert CutSent(enc, os, plan, 2 + |fa|) == r.sent;
    assert Reference(cmd, rs, os, enc) == r;
    assert StreamRecords(rs, os, enc) == Streamed(fa, Bytes(enc, fa), Finished);
    assert Pipeline(cmd, rs, os, enc) == r;
  }

  lemma WaitReachedInPlan(cmd: Command, rs: seq<InputData>, os: Os, enc: Encoder)
    requires os(CreatePipe) == Done && os(Spawn(cmd)) == Done && os(Flush) == Done
    requires FirstBroken(os, FrameActions(rs)) == |FrameActions(rs)|
    requires FirstBroken(os, Plan(cmd, rs)) == if os(Wait).Broken? then 3 + |FrameActions(rs)| else 4 + |FrameActions(rs)|
    requires Plan(cmd, rs) == [CreatePipe, Spawn(cmd)] + FrameActions(rs) + [Flush, Wait]
    ensures Pipeline(cmd, rs, os, enc) == Reference(cmd, rs, os, enc)
  {
    var fa := FrameActions(rs);
    var a := [CreatePipe, Spawn(cmd)] + fa;
    var plan, k := Plan(cmd, rs), FirstBroken(os, Plan(cmd, rs));
    var outcome := if os(Wait).Broken? then Failed(Wait) else Completed;
    var r := Report(a + [Flush, DropWriter, Wait], Bytes(enc, fa), outcome);
    StreamIsCut(rs, os, enc);
    CutAll(fa, os, enc);
    assert StreamRecords(rs, os, enc) == Streamed(fa, Bytes(enc, fa), Finished);
    assert Pipeline(cmd, rs, os, enc) == r;
    WaitTrace(cmd, rs, os);
    WaitSent(cmd, rs, os, enc);
    assert (if k < |plan| then Failed(plan[k]) else Completed) == outcome;
    assert Reference(cmd, rs, os, enc) == r;
  }

  /** When the flush succeeds, the reference sends exactly the bytes of
      the frame steps. */
  lemma WaitSent(cmd: Command, rs: seq<InputData>, os: Os, enc: Encoder)
    requires FirstBroken(os, Plan(cmd, rs)) == if os(Wait).Broken? then 3 + |FrameActions(rs)| else 4 + |FrameActions(rs)|
    requires Plan(cmd, rs) == [CreatePipe, Spawn(cmd)] + FrameActions(rs) + [Flush, Wait]
    ensures CutSent(enc, os, Plan(cmd, rs), FirstBroken(os, Plan(cmd, rs))) == Bytes(enc, FrameActions(rs))
  {
    var fa := FrameActions(rs);
    var a := [CreatePipe, Spawn(cmd)] + fa;
    HeadAddsNothing(cmd, fa, enc);
    CutTail(a, if os(Wait).Broken? then 1 else 2, os, enc);
  }

  /** When the flush succeeds, the reference trace is the whole plan with
      the writer dropped just before the wait. */
  lemma WaitTrace(cmd: Command, rs: seq<InputData>, os: Os)
    requires os(Flush) == Done
    requires FirstBroken(os, Plan(cmd, rs)) == if os(Wait).Broken? then 3 + |FrameActions(rs)| else 4 + |FrameActions(rs)|
    requires Plan(cmd, rs) == [CreatePipe, Spawn(cmd)] + FrameActions(rs) + [Flush, Wait]
    ensures RefTrace(Plan(cmd, rs), FirstBroken(os, Plan(cmd, rs))) ==
            [CreatePipe, Spawn(cmd)] + FrameActions(rs) + [Flush, DropWriter, Wait]
  {
    var a := [CreatePipe, Spawn(cmd)] + FrameActions(rs);
    var plan := Plan(cmd, rs);
    CutTail(a, 0, os, (r: InputData) => []);
    assert Cut([Flush, Wait], 0) == [Flush];
    assert plan[|plan| - 1] == Wait;
    ConcatAssoc(a, [Flush], [DropWriter, Wait]);
  }
}
