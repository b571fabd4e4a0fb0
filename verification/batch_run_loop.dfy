/** The batch run written the way the async block of `Msg::Run` in
    src/main.rs is written: straight-line steps with an early return after
    each failure, and a loop over the records. Its contracts tie it to the
    reference, the plan cut at its first failure. */
module BatchRunLoop {
  import opened Utf8
  import opened InputRecords
  import opened Interpreter
  import opened BatchRun

  /** `s` with `trace` and `sent` put in front of what it did. */
  function Prepend(trace: seq<Action>, sent: seq<byte>, s: Streamed): Streamed {
    Streamed(trace + s.trace, sent + s.sent, s.end)
  }

  /** Putting two things in front, one after the other, is putting their
      concatenation in front. */
  lemma PrependTwice(t1: seq<Action>, b1: seq<byte>, t2: seq<Action>, b2: seq<byte>, s: Streamed)
    ensures Prepend(t1, b1, Prepend(t2, b2, s)) == Prepend(t1 + t2, b1 + b2, s)
  {
    ConcatAssoc(t1, t2, s.trace);
    ConcatAssoc(b1, b2, s.sent);
  }

  /** One round of the streaming loop, read off its definition: a failed
      record write, a failed newline write, or both through and the loop
      going on with the next record. */
  lemma StreamStep(rs: seq<InputData>, i: nat, os: Os, enc: Encoder)
    requires i < |rs|
    ensures var rec := rs[i];
            var s := StreamRecords(rs[i..], os, enc);
            var pair := [WriteRecord(rec), WriteNewline(rec.idx)];
            && (os(WriteRecord(rec)).Broken? ==>
                  s == Streamed([WriteRecord(rec)], Take(enc(rec), Partial(os(WriteRecord(rec)))), Aborted(WriteRecord(rec))))
            && (os(WriteRecord(rec)) == Done && os(WriteNewline(rec.idx)).Broken? ==>
                  s == Streamed(pair, enc(rec) + Take([Newline], Partial(os(WriteNewline(rec.idx)))),
                                Aborted(WriteNewline(rec.idx))))
            && (os(WriteRecord(rec)) == Done && os(WriteNewline(rec.idx)) == Done ==>
                  s == Prepend(pair, enc(rec) + [Newline], StreamRecords(rs[i + 1..], os, enc)))
  {
    assert rs[i..][0] == rs[i] && rs[i..][1..] == rs[i + 1..];
  }

  /** The loop over the records: write each record's JSON, then a newline,
      and stop at the first failed write. It performs the frame steps up to
      and including the first one the OS fails, and sends what the steps
      before it wrote plus the part of the failed write that got through. */
  method StreamLoop(rs: seq<InputData>, os: Os, enc: Encoder)
    returns (trace: seq<Action>, sent: seq<byte>, end: StreamEnd)
    ensures var fa := FrameActions(rs);
            var j := FirstBroken(os, fa);
            && trace == Cut(fa, j)
            && sent == CutSent(enc, os, fa, j)
            && end == (if j < |fa| then Aborted(fa[j]) else Finished)
  {
    StreamIsCut(rs, os, enc);
    trace, sent, end := [], [], Finished;
    var i := 0;
    assert rs[0..] == rs;
    while i < |rs|
      invariant i <= |rs|
      invariant StreamRecords(rs, os, enc) == Prepend(trace, sent, StreamRecords(rs[i..], os, enc))
      invariant end == Finished
    {
      var rec := rs[i];
      var data := enc(rec);
      var pair := [WriteRecord(rec), WriteNewline(rec.idx)];
      StreamStep(rs, i, os, enc);
      if os(WriteRecord(rec)).Broken? {
        var n := Partial(os(WriteRecord(rec)));
        trace, sent, end := trace + [WriteRecord(rec)], sent + Take(data, n), Aborted(WriteRecord(rec));
        return;
      }
      if os(WriteNewline(rec.idx)).Broken? {
        var n := Partial(os(WriteNewline(rec.idx)));
        ConcatAssoc(sent, data, Take([Newline], n));
        trace, sent, end := trace + pair, sent + data + Take([Newline], n), Aborted(WriteNewline(rec.idx));
        return;
      }
      PrependTwice(trace, sent, pair, data + [Newline], StreamRecords(rs[i + 1..], os, enc));
      trace, sent := trace + pair, sent + (data + [Newline]);
      i := i + 1;
    }
    assert rs[i..] == [];
    assert trace + [] == trace && sent + [] == sent;
  }

  /** The whole run: create the pipe, spawn, stream, flush, drop the
      writer, wait, returning at the first failure; the writer is dropped
      on every path once the pipe exists. Whatever the OS does, the result
      is the reference: the plan cut at its first failure. */
  method RunBatch(cmd: Command, rs: seq<InputData>, os: Os, enc: Encoder) returns (r: Report)
    ensures r == Reference(cmd, rs, os, enc)
    ensures r.outcome.Failed? ==> os(r.outcome.at).Broken?
  {
    PipelineIsReference(cmd, rs, os, enc);
    StreamIsCut(rs, os, enc);
    if os(CreatePipe).Broken? {
      return Report([CreatePipe], [], Failed(CreatePipe));
    }
    if os(Spawn(cmd)).Broken? {
      return Report([CreatePipe, Spawn(cmd), DropWriter], [], Failed(Spawn(cmd)));
    }
    var trace, sent, end := StreamLoop(rs, os, enc);
    var head := [CreatePipe, Spawn(cmd)] + trace;
    if end.Aborted? {
      return Report(head + [DropWriter], sent, Failed(end.at));
    }
    if os(Flush).Broken? {
      return Report(head + [Flush, DropWriter], sent, Failed(Flush));
    }
    var outcome := if os(Wait).Broken? then Failed(Wait) else Completed;
    r := Report(head + [Flush, DropWriter, Wait], sent, outcome);
  }

  /** One batch run of `script` under `lang` over `args`, as the handler
      starts it: resolve the command, build the records, run. */
  method ExecuteBatch(lang: Language, script: string, args: seq<string>, os: Os, enc: Encoder)
    returns (r: Report)
    ensures r == Reference(Resolve(lang, script), Records(args), os, enc)
  {
    var cmd := Resolve(lang, script);
    var rs := BuildRecords(args);
    r := RunBatch(cmd, rs, os, enc);
  }

  /** The `enumerate` loop: one record per argument, in order, each built
      from the argument and its position. */
  method BuildRecords(args: seq<string>) returns (rs: seq<InputData>)
    ensures rs == Records(args)
  {
    rs := [];
    for idx := 0 to |args|
      invariant |rs| == idx
      invariant forall k :: 0 <= k < idx ==> rs[k] == MakeRecord(k, args[k])
    {
      rs := rs + [MakeRecord(idx, args[idx])];
    }
  }
}
