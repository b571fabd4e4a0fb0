# batch-run in Dafny

A Dafny model of the core of `batch-run`. batch-run is a small editor in
which a user writes a script, picks an interpreter (zsh, bash, python or sh),
and runs it. The script runs as a child process, and the command-line
arguments are streamed to its standard input, one JSON record per line.
The model covers:

- `Utf8` (`utf8.dfy`): the UTF-8 byte length of a Rust string, backed by
  an actual encoder (section 3 of RFC 3629) with its decoder round trip.
- `InputRecords` (`records.dfy`): the `InputData` record built for each
  argument. It holds the argument, its position, its UTF-8 byte length and
  its scalar-wise reversal. `Records` builds one record per argument.
- `Interpreter` (`interpreter.dfy`): the `Language` enum, its display
  names, and the table that maps each interpreter to an executable and an
  argument vector.
- `BatchRun` (`batch_run.dfy`): the async block behind `Msg::Run`. It
  creates the pipe, spawns the child, writes each record's JSON and a
  newline, flushes, drops the writer and waits. `Pipeline` follows the
  source's control flow with its early returns. `Reference` is an
  independent definition: the fixed plan of steps, cut at the first step
  the OS fails. `PipelineIsReference` proves the two equal for every OS
  behaviour.
- `BatchRunFacts` (`batch_run_facts.dfy`): the promises of a run, each
  stated once over all OS behaviours:
  - what reaches the child is a prefix of the full stream;
  - a failure stops the run at once;
  - the writer is dropped before the wait, and exactly once;
  - a clean run sends everything.
- `BatchRunLoop` (`batch_run_loop.dfy`): the run written imperatively,
  with a loop over the records and an early `return` after each failure.
  It is proved equal to the reference.
- `Editor` (`editor.dfy`): the editor state and the `InsertTab`, `Run`
  and language-selection arms of `App::update`, plus the initial state
  from `main`.

The operating system is an oracle `os: Action -> Io`. It answers each
fallible step (pipe creation, the spawn of a given command, the write of a
given record, the newline after record `idx`, the flush, the wait) with
`Done` or `Broken(sent)`. Here `sent` counts the bytes of a failed write
that reached the pipe. Because every step is a distinct value, the oracle
can fail any one particular step. JSON encoding (`serde_json::to_writer`)
is the parameter `enc: InputData -> seq<byte>`. A run's `Report` holds:

- the steps performed;
- the bytes that reached the pipe;
- the outcome: `Completed`, or `Failed(step)` naming the step that failed.

Rust drops the writer `w` whenever the async block returns. So every path
after pipe creation ends with a `DropWriter` step, and on the good path
that step comes before `Wait`.

## Model

| member | source | states |
|---|---|---|
| Utf8.Width | src/main.rs:134 | A scalar takes one to four UTF-8 bytes, and exactly one when it is ASCII |
| Utf8.Len | src/main.rs:134 | `str::len` lies between the scalar count and four times it, and equals the scalar count exactly when the string is ASCII |
| Utf8.EncodeChar | src/main.rs:134 | The UTF-8 encoding of a scalar has its width in bytes, the right lead-byte range and continuation bytes, is the shortest form (two or more bytes only from U+0080, three or more only from U+0800, four only from U+10000), and decodes back to the scalar |
| Utf8.Encode | src/main.rs:134 | The encoding of a string is `Len` bytes long, so `len` is the length of a real encoding |
| Utf8.LenAppend | src/main.rs:134 | Byte length is additive over concatenation |
| Utf8.EncodeAppend | src/main.rs:134 | Encoding maps concatenation of strings to concatenation of bytes |
| Utf8.EncodeAscii | src/main.rs:134 | An ASCII string encodes as its own code points, one byte each |
| InputRecords.Reverse | src/main.rs:135 | `chars().rev()` has the same length and puts scalar `i` at position `n-1-i` |
| InputRecords.ReverseInvolution | src/main.rs:135 | Reversing twice gives the original string |
| InputRecords.ReverseFixedIffPalindrome | src/main.rs:135 | Reversal leaves a string unchanged exactly when it is a palindrome |
| InputRecords.ReverseKeepsLen | src/main.rs:134-135 | A reversed string has the same UTF-8 byte length as the original |
| InputRecords.MakeRecord | src/main.rs:131-136 | A record carries its argument and position, its byte length (bounded by 1x and 4x the scalar count, equal to it iff ASCII), and its scalars in reverse order, with the same byte length |
| InputRecords.Records | src/main.rs:130-136 | N arguments give N records, in order, record `k` built from argument `k` with `idx` `k` |
| InputRecords.RecordsWellFormed | src/main.rs:130-136 | Every record's line and `idx` are its argument and position, and its `len` and `reversed` agree with their definitions |
| InputRecords.AsciiPalindromeRecord | src/main.rs:131-136 | An ASCII palindrome's record has `len` equal to its scalar count and `reversed` equal to itself |
| InputRecords.ExampleRecords | src/main.rs:130-136 | Arguments "a" and "bb" give the records {a,0,1,a} and {bb,1,2,bb} |
| InputRecords.ExampleNonAscii | src/main.rs:134-135 | "é" is one scalar but has `len` 2 |
| Interpreter.Name | src/main.rs:56-66 | Each interpreter's display name is a nonempty word of lower-case ASCII letters, usable as the executable's file name and as the highlighter token |
| Interpreter.NameInjective | src/main.rs:56-66 | The display names of the interpreters are pairwise distinct |
| Interpreter.Resolve | src/main.rs:97-121 | Every interpreter runs from `/usr/bin/<name>` with the script right after `-c`; only zsh gets `--emulate zsh` first; all but Python get `batch-script-<name>` last |
| Interpreter.ResolveTable | src/main.rs:97-121 | The exact executable and argument vector of each of the four interpreters |
| Interpreter.ScriptOnlyChangesItsSlot | src/main.rs:97-121 | Changing the script changes only the argument after `-c` |
| Interpreter.Recover | src/main.rs:97-121 | A command read back as an interpreter and a script is the one `Resolve` gives for them |
| Interpreter.RecoverResolve | src/main.rs:97-121 | The interpreter and the script can always be read back from the resolved command |
| Interpreter.ResolveInjective | src/main.rs:97-121 | Distinct interpreter or script selections give distinct commands |
| BatchRun.StreamRecords | src/main.rs:130-147 | The loop ends early only on a write the OS failed |
| BatchRun.Pipeline | src/main.rs:89-159 | A run starts by creating the pipe, and a failed outcome names a step the OS failed |
| BatchRun.Execute | src/main.rs:85-159 | A run of a script starts by creating the pipe, and its failure names a step the OS failed |
| BatchRun.PlanWrites | src/main.rs:130-147 | The full plan writes exactly the newline-framed stream of the records, and exactly the records |
| BatchRun.CutSentIsPrefix | src/main.rs:138-146 | Whatever a run cut anywhere has sent is a prefix of what the full plan sends |
| BatchRun.StreamIsCut | src/main.rs:130-147 | The loop performs the frame steps up to and including the first failed write, and sends what they wrote plus the part of the failed write that got through |
| BatchRun.PipelineIsReference | src/main.rs:89-159 | For every OS behaviour, the run equals the plan cut at its first failure, with the writer dropped after the last step that uses it |
| BatchRunFacts.StreamShape | src/main.rs:130-147 | The loop performs only writes, writes a prefix of the records, finishes exactly when no write fails (having sent the whole stream), and aborts on the failed write after good ones |
| BatchRunFacts.SentIsPrefixOfStream | src/main.rs:130-147 | The bytes reaching the child are always a prefix of the full newline-framed stream |
| BatchRunFacts.WrittenIsPrefixOfRecords | src/main.rs:130-147 | The records written are always a prefix of the records, in order, never skipped or repeated |
| BatchRunFacts.CleanRun | src/main.rs:89-159 | When nothing fails, the run performs every step in order, sends the whole stream, writes every record once and completes |
| BatchRunFacts.PipeFailureStopsEarly | src/main.rs:90-96 | A failed pipe creation ends the run at once: the trace is the pipe creation alone, so there is no spawn, no write, no wait and no byte sent |
| BatchRunFacts.SpawnFailureStopsEarly | src/main.rs:122-128 | A failed spawn ends the run at once: the trace is the pipe creation, the spawn and the drop of the writer, so no record is written, no byte sent, nothing flushed and nobody waited for |
| BatchRunFacts.WriteFailureAborts | src/main.rs:138-147 | A failed write is the last step before the drop; nothing is flushed or waited for, and all earlier steps succeeded |
| BatchRunFacts.WaitOnlyAfterEverything | src/main.rs:149-158 | The child is waited for only after all records were written, the writer flushed and then dropped, and the whole stream sent; the flush and every other step the OS answered before the wait succeeded |
| BatchRunFacts.WriterDroppedOnce | src/main.rs:149-158 | Once the pipe exists, the writer is dropped exactly once, as the last step or right before the wait |
| BatchRunFacts.PythonSpawnFailure | src/main.rs:110-128 | With the Python executable missing, the run fails at spawning before any record is written |
| BatchRunFacts.ExampleRun | src/main.rs:85-159 | sh with script `cat` over "a" and "bb" spawns `/usr/bin/sh -c cat batch-script-sh`, sends both records each followed by a newline, and completes |
| BatchRunLoop.StreamLoop | src/main.rs:130-147 | The imperative record loop performs and sends exactly the frame steps cut at the first failed write |
| BatchRunLoop.RunBatch | src/main.rs:89-159 | The imperative run with early returns equals the plan cut at its first failure |
| BatchRunLoop.ExecuteBatch | src/main.rs:85-159 | Building the records in an `enumerate` loop and running gives the reference report of the resolved command over `Records(args)` |
| BatchRunLoop.BuildRecords | src/main.rs:130-136 | The `enumerate` loop builds exactly one record per argument, in order, each from the argument and its position |
| Editor.Text | src/main.rs:86 | The buffer's text is the text before the cursor followed by the text after it |
| Editor.Insert | src/main.rs:78-81 | An inserted character lands at the cursor, with the text before and after it kept |
| Editor.Spaces | src/main.rs:77-79 | `n` spaces |
| Editor.TabText | src/main.rs:75-84 | Tab inserts `w` spaces for a nonzero width, and one tab character for width zero |
| Editor.InsertSpaces | src/main.rs:77-79 | Inserting a space `n` times, one at a time, inserts `n` spaces at the cursor at once and leaves the text after the cursor alone |
| Editor.PressTab | src/main.rs:75-84 | The Tab handler, written with its loop, puts the tab text at the cursor |
| Editor.Init | src/main.rs:207-215 | The initial editor is empty, keeps the command line, and selects zsh with the token "zsh", which names it |
| Editor.Update | src/main.rs:69-167 | No message changes the command line; only `Run` hands back a batch job; the token keeps naming the selected interpreter |
| Editor.InsertTabInsertsTabText | src/main.rs:75-84 | Tab inserts the tab text at the cursor and changes nothing else |
| Editor.UpdateInsertTab | src/main.rs:75-84 | The looping handler agrees with `Update`, and the text grows by the width, or by one for width zero |
| Editor.SelectLanguageSetsToken | src/main.rs:162-165 | Selecting an interpreter sets it and the token to its name, leaving buffer and command line alone |
| Editor.SelectLanguageIdempotent | src/main.rs:162-165 | Selecting the same interpreter twice is selecting it once |
| Editor.TokenDeterminesLanguage | src/main.rs:162-165 | In a consistent state the token determines the interpreter |
| Editor.RunTakesSnapshot | src/main.rs:85-89 | Run leaves the editor unchanged and captures the text, the interpreter and the arguments at that moment |
| Editor.ReplayKeepsConsistent | src/main.rs:69-167 | After any sequence of messages the token still names the interpreter and the command line is unchanged |
| Editor.ReachableConsistent | src/main.rs:207-215 | Every state reachable from the initial one has a token that names its interpreter |
| Editor.DefaultTabIsFourSpaces | src/main.rs:40-42 | With the default width of 4, Tab inserts four spaces |

## Left out

- `Msg::ContentAction` and the text editor's own editing actions (cursor
  movement, selection, deletion, undo). They belong to the GUI toolkit, not
  to this program. The buffer is the text before and after one cursor, and
  an insertion never replaces a selection.
- `App::view`, the key bindings (Tab sends `InsertTab`, Ctrl+R sends `Run`),
  the syntax highlighter's theme, and the application setup: GUI toolkit
  code.
- Command-line parsing (clap) and `main`'s exit code. `Cli` is given
  directly, with the tabwidth default of 4 as the `DefaultTabIsFourSpaces`
  example.
- The real OS, tokio and the child process itself are the oracle `os`. The
  model does not say what the child does with its input.
- A step that never returns is outside the model. The oracle answers every
  step, so every modelled run ends `Completed` or `Failed`. In the source a
  write on the blocking pipe writer (`serde_json::to_writer` or
  `write_all`) can wait forever while the child
  neither reads nor exits (src/main.rs:138-146), and `child.wait()` never
  returns for a child that never exits (src/main.rs:155); the program then
  hangs, and no report is produced.
- JSON serialization is the parameter `enc`. The model does not state its
  format or that it never emits a newline.
- The child's exit status and every `eprintln!` message. The source only
  prints them. `Completed` carries no status, and a failure is reported as
  the step that failed.
- `usize` for `idx` and `len` is `nat`. A position or byte length of a
  string in memory always fits.
- The `Task` plumbing of the GUI toolkit (`Task::future`, `.then`). `Run`
  returns a `Batch` task holding the snapshot, and `Execute` and
  `ExecuteBatch` model running it.
- BatchRun.Pipeline: the report names the failed step (`Failed(Spawn(cmd))`
  and so on) rather than the OS error value, which is not modelled.
