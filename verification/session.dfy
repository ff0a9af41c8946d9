/**
  * The `read` command: open the port, then loop forever reading into a
  * 1000-byte scratch buffer, reassembling lines and writing every line,
  * prefixed by its own timestamp, to standard output and, when an output
  * file is configured, appending the same bytes to that file.
  *
  * The outside world is not modelled. Each read's outcome is an input.
  * The k-th record's clock sample and the result of opening the output
  * file for it come from an `Env`. Every effect is an `Event` in a trace.
  */
module Session {
  import opened Options
  import opened Bytes
  import opened Numerals
  import opened Reassembler
  import opened Timestamp

  /** Rust's `u32`, the type of the baud rate. */
  type u32 = x: nat | x < 0x1_0000_0000

  /** The size of the scratch buffer one read fills at most. */
  const ReadCapacity: nat := 1000

  /** The bytes one successful read delivers, `serial_buf[..t]`. */
  type Chunk = s: seq<byte> | |s| <= ReadCapacity

  /** The result of one `port.read`: `t` bytes, a timeout, or any other I/O error (with its debug text). */
  datatype ReadOutcome = Received(data: Chunk) | TimedOut | Failed(description: string)

  /** The result of opening the port, or of opening the output file for append. */
  datatype OpenOutcome = Opened | OpenFailed(reason: string)


  /**
    * One timestamped record (`output` in the drain loop): the time sampled
    * for it and the line it carries. `RecordBytes` gives the bytes written.
    */
  datatype Record = Record(time: DateTime, line: seq<byte>)

  /** One observable effect of the process, in the order it happens. */
  datatype Event =
    | Console(rec: Record)               // `io::stdout().write_all` of the record's bytes, then flush
    | Notice(text: string)               // a `println!` line on standard output
    | Diagnostic(text: string)           // an `eprintln!` line on standard error
    | Append(path: string, rec: Record)  // `file.write_all` of the record's bytes on the file opened for append, then flush
    | Exit(code: int)                    // `process::exit`

  /** The `read` subcommand's arguments. */
  datatype Config = Config(port: string, baud: u32, output: Option<string>)

  /** What the world answers for the k-th record: the time sampled for it and the result of opening the output file. */
  datatype Env = Env(clock: nat -> DateTime, opens: nat -> OpenOutcome)

  /** The loop's state: the accumulation buffer and the number of records written so far. */
  datatype Loop = Loop(buf: seq<byte>, written: nat)

  /** The effects of one stretch of the process, and the loop state after it (`None` once the process has exited). */
  datatype Turn = Turn(events: seq<Event>, next: Option<Loop>)

  /** The message for a device or file that cannot be opened. */
  function OpenFailure(path: string, reason: string): string {
    "Failed to open \"" + path + "\". Error: " + reason
  }

  /** The bytes of the timestamp prefix sampled at `t` (`generate_timestamp().into_bytes()`). */
  function Stamp(t: DateTime): seq<byte> {
    FormatPlain(t);
    AsciiBytes(Format(t))
  }

  /** The bytes of a record: the prefix's bytes, then the line's bytes unchanged. */
  function RecordBytes(r: Record): seq<byte> {
    Stamp(r.time) + r.line
  }

  /** The prefix never holds the delimiter, so a record ends where its line ends. */
  lemma StampNewlineFree(t: DateTime)
    ensures NewlineFree(Stamp(t))
  {
    FormatPlain(t);
    var s := Format(t);
    var b := Stamp(t);
    forall i | 0 <= i < |b| ensures b[i] != NL {
      assert b[i] as int == s[i] as int;
      assert s[i] != '\n';
    }
  }

  /** The events for one record when the output file opens: stdout first, then the same record to the file. */
  function RecordEvents(cfg: Config, rec: Record): seq<Event> {
    match cfg.output
    case None => [Console(rec)]
    case Some(path) => [Console(rec), Append(path, rec)]
  }

  /** The events for writing `lines` as records `k`, `k + 1`, ... when every open of the output file succeeds. */
  function Emit(cfg: Config, env: Env, lines: seq<seq<byte>>, k: nat): seq<Event>
    decreases |lines|
  {
    if |lines| == 0 then []
    else RecordEvents(cfg, Record(env.clock(k), lines[0])) + Emit(cfg, env, lines[1..], k + 1)
  }

  /** Some record numbered in `[k, k + n)` finds the output file unopenable. */
  predicate OpenFailsWithin(cfg: Config, env: Env, k: nat, n: nat) {
    cfg.output.Some? && exists j :: k <= j < k + n && env.opens(j).OpenFailed?
  }

  /** The file, if any, opens for every record. */
  ghost predicate FileAlwaysOpens(cfg: Config, env: Env) {
    cfg.output.None? || forall j: nat :: env.opens(j) == Opened
  }

  /** The result of writing a batch of lines: the events, and whether the process exited on the way. */
  datatype Written = Written(events: seq<Event>, exited: bool)

  /**
    * The body of the drain loop for each line, in order: build the record,
    * write it to stdout, then append it to the output file, exiting with
    * status 1 when the file cannot be opened.
    */
  function WriteLines(cfg: Config, env: Env, lines: seq<seq<byte>>, k: nat): Written
    decreases |lines|
  {
    if |lines| == 0 then Written([], false)
    else
      var rec := Record(env.clock(k), lines[0]);
      match cfg.output
      case None =>
        var tail := WriteLines(cfg, env, lines[1..], k + 1);
        Written([Console(rec)] + tail.events, tail.exited)
      case Some(path) =>
        match env.opens(k)
        case OpenFailed(reason) =>
          Written([Console(rec), Diagnostic(OpenFailure(path, reason)), Exit(1)], true)
        case Opened =>
          var tail := WriteLines(cfg, env, lines[1..], k + 1);
          Written([Console(rec), Append(path, rec)] + tail.events, tail.exited)
  }

  /** Record `j` is the first from `k` on whose open of the output file fails. */
  predicate FirstOpenFailure(env: Env, k: nat, j: nat) {
    && k <= j
    && env.opens(j).OpenFailed?
    && forall i :: k <= i < j ==> env.opens(i).Opened?
  }

  /** Whenever some open in `[k, k + n)` fails, there is a first one. */
  lemma {:induction false} FirstOpenFailureExists(cfg: Config, env: Env, k: nat, n: nat)
    requires OpenFailsWithin(cfg, env, k, n)
    ensures exists j: nat :: j < k + n && FirstOpenFailure(env, k, j)
    decreases n
  {
    if env.opens(k).OpenFailed? {
      assert FirstOpenFailure(env, k, k);
    } else {
      var f :| k <= f < k + n && env.opens(f).OpenFailed?;
      assert OpenFailsWithin(cfg, env, k + 1, n - 1);
      FirstOpenFailureExists(cfg, env, k + 1, n - 1);
      var j: nat :| j < k + 1 + (n - 1) && FirstOpenFailure(env, k + 1, j);
      assert FirstOpenFailure(env, k, j);
    }
  }

  /** The events of a batch that meets the first failed open at record `j`. */
  function ExitTrace(cfg: Config, env: Env, lines: seq<seq<byte>>, k: nat, j: nat): seq<Event>
    requires cfg.output.Some? && k <= j < k + |lines| && env.opens(j).OpenFailed?
  {
    Emit(cfg, env, lines[..j - k], k)
      + [Console(Record(env.clock(j), lines[j - k])), Diagnostic(OpenFailure(cfg.output.value, env.opens(j).reason)), Exit(1)]
  }

  /**
    * When record `j` is the first whose open fails, every earlier record
    * goes to stdout and to the file, record `j` still goes to stdout, and
    * then the diagnostic names the output path and the process exits with
    * status 1.
    */
  lemma {:induction false} WriteLinesExit(cfg: Config, env: Env, lines: seq<seq<byte>>, k: nat, j: nat)
    requires cfg.output.Some?
    requires j < k + |lines| && FirstOpenFailure(env, k, j)
    ensures WriteLines(cfg, env, lines, k) == Written(ExitTrace(cfg, env, lines, k, j), true)
    decreases j - k
  {
    if j == k {
      assert lines[..0] == [];
    } else {
      var path := cfg.output.value;
      var rec := Record(env.clock(k), lines[0]);
      assert env.opens(k).Opened?;
      WriteLinesExit(cfg, env, lines[1..], k + 1, j);
      var before := lines[..j - k];
      assert before[0] == lines[0] && before[1..] == lines[1..][..j - (k + 1)];
      assert lines[1..][j - (k + 1)] == lines[j - k];
      var last := [Console(Record(env.clock(j), lines[j - k])), Diagnostic(OpenFailure(path, env.opens(j).reason)), Exit(1)];
      assert Emit(cfg, env, before, k) == [Console(rec), Append(path, rec)] + Emit(cfg, env, lines[1..][..j - (k + 1)], k + 1);
      assert ([Console(rec), Append(path, rec)] + Emit(cfg, env, lines[1..][..j - (k + 1)], k + 1)) + last
          == [Console(rec), Append(path, rec)] + (Emit(cfg, env, lines[1..][..j - (k + 1)], k + 1) + last);
    }
  }

  /**
    * The process exits while writing a batch exactly when some record's
    * open of the output file fails. It then writes the records before the
    * first such record to both sinks, that record to stdout, a diagnostic
    * naming the output path, and exits with status 1. Otherwise it writes
    * every record to both sinks.
    */
  lemma WriteLinesSpec(cfg: Config, env: Env, lines: seq<seq<byte>>, k: nat)
    ensures var r := WriteLines(cfg, env, lines, k);
            && (r.exited <==> OpenFailsWithin(cfg, env, k, |lines|))
            && (!r.exited ==> r.events == Emit(cfg, env, lines, k))
            && (r.exited ==> cfg.output.Some? && exists j: nat :: j < k + |lines| && FirstOpenFailure(env, k, j) && r.events == ExitTrace(cfg, env, lines, k, j))
  {
    WriteLinesExitsOnFailure(cfg, env, lines, k);
    if OpenFailsWithin(cfg, env, k, |lines|) {
      FirstOpenFailureExists(cfg, env, k, |lines|);
      var j: nat :| j < k + |lines| && FirstOpenFailure(env, k, j);
      WriteLinesExit(cfg, env, lines, k, j);
    }
  }

  /** The exit condition of a batch, and its events when it does not exit. */
  lemma {:induction false} WriteLinesExitsOnFailure(cfg: Config, env: Env, lines: seq<seq<byte>>, k: nat)
    ensures var r := WriteLines(cfg, env, lines, k);
            && (r.exited <==> OpenFailsWithin(cfg, env, k, |lines|))
            && (!r.exited ==> r.events == Emit(cfg, env, lines, k))
    decreases |lines|
  {
    if |lines| > 0 {
      WriteLinesExitsOnFailure(cfg, env, lines[1..], k + 1);
      if cfg.output.Some? && env.opens(k).OpenFailed? {
        assert OpenFailsWithin(cfg, env, k, |lines|);
      } else {
        assert OpenFailsWithin(cfg, env, k, |lines|) <==> OpenFailsWithin(cfg, env, k + 1, |lines| - 1) by {
          if OpenFailsWithin(cfg, env, k, |lines|) {
            var j :| k <= j < k + |lines| && env.opens(j).OpenFailed?;
            assert j != k;
          }
        }
      }
    }
  }

  /** One turn of the read loop for one read outcome. */
  function LoopStep(cfg: Config, env: Env, st: Loop, o: ReadOutcome): Turn {
    match o
    case TimedOut => Turn([], Some(st))
    case Failed(description) => Turn([Diagnostic(description)], Some(st))
    case Received(data) =>
      var d := Step(st.buf, data);
      var w := WriteLines(cfg, env, d.lines, st.written);
      if w.exited then Turn(w.events, None)
      else Turn(w.events, Some(Loop(d.rest, st.written + |d.lines|)))
  }

  /**
    * A timeout changes nothing; a read error prints its text and keeps the
    * buffer; a read of bytes writes the lines the buffer now holds and
    * keeps the unterminated rest, and it stops the loop exactly when the
    * output file fails to open for one of those lines.
    */
  lemma LoopStepSpec(cfg: Config, env: Env, st: Loop, o: ReadOutcome)
    ensures var r := LoopStep(cfg, env, st, o);
            && (o.TimedOut? ==> r == Turn([], Some(st)))
            && (o.Failed? ==> r == Turn([Diagnostic(o.description)], Some(st)))
            && (o.Received? && |o.data| == 0 && NewlineFree(st.buf) ==> r == Turn([], Some(st)))
            && (r.next.None? <==> o.Received? && OpenFailsWithin(cfg, env, st.written, |Step(st.buf, o.data).lines|))
            && (r.next.Some? && (o.Received? || NewlineFree(st.buf)) ==> NewlineFree(r.next.value.buf))
            && (o.Received? && r.next.Some? ==>
                  var d := Step(st.buf, o.data);
                  && r.events == Emit(cfg, env, d.lines, st.written)
                  && r.next.value == Loop(d.rest, st.written + |d.lines|))
  {
    if o.Received? {
      LoopStepReceived(cfg, env, st, o.data);
      StepSplits(st.buf, o.data);
    }
  }

  /** A read of bytes: the loop stops exactly when the file fails to open for a drained line; otherwise it writes them all and keeps the rest. */
  lemma LoopStepReceived(cfg: Config, env: Env, st: Loop, data: Chunk)
    ensures var r := LoopStep(cfg, env, st, Received(data));
            var d := Step(st.buf, data);
            && (r.next.None? <==> OpenFailsWithin(cfg, env, st.written, |d.lines|))
            && (r.next.Some? ==> r.events == Emit(cfg, env, d.lines, st.written) && r.next.value == Loop(d.rest, st.written + |d.lines|))
  {
    WriteLinesExitsOnFailure(cfg, env, Step(st.buf, data).lines, st.written);
  }

  /** The read loop over a finite prefix of the reads, stopping if the process exits. */
  function Run(cfg: Config, env: Env, st: Loop, outcomes: seq<ReadOutcome>): Turn
    decreases |outcomes|
  {
    if |outcomes| == 0 then Turn([], Some(st))
    else
      var first := LoopStep(cfg, env, st, outcomes[0]);
      match first.next
      case None => first
      case Some(st') =>
        var rest := Run(cfg, env, st', outcomes[1..]);
        Turn(first.events + rest.events, rest.next)
  }

  /** Opening the port: a banner and an empty loop, or a diagnostic naming the device and exit status 1. */
  function Connect(cfg: Config, port: OpenOutcome): (r: Turn)
    ensures port.Opened? ==> r.next == Some(Loop([], 0)) && |r.events| == 1 && r.events[0].Notice?
    ensures port.OpenFailed? ==> r.next.None? && r.events == [Diagnostic(OpenFailure(cfg.port, port.reason)), Exit(1)]
  {
    match port
    case Opened => Turn([Notice("Receiving data on " + cfg.port + " at " + Digits(cfg.baud, 10) + " baud:")], Some(Loop([], 0)))
    case OpenFailed(reason) => Turn([Diagnostic(OpenFailure(cfg.port, reason)), Exit(1)], None)
  }

  /** The `read` command over a finite prefix of the reads. */
  function ReadCommand(cfg: Config, port: OpenOutcome, env: Env, outcomes: seq<ReadOutcome>): Turn {
    var start := Connect(cfg, port);
    match start.next
    case None => start
    case Some(st) =>
      var rest := Run(cfg, env, st, outcomes);
      Turn(start.events + rest.events, rest.next)
  }

  /**
    * A port that fails to open ends the command before any read, with the
    * device named on standard error and status 1; an open port prints the
    * banner once and then runs the read loop from an empty buffer.
    */
  lemma ReadCommandSpec(cfg: Config, port: OpenOutcome, env: Env, outcomes: seq<ReadOutcome>)
    ensures var r := ReadCommand(cfg, port, env, outcomes);
            && (port.OpenFailed? ==> r == Turn([Diagnostic(OpenFailure(cfg.port, port.reason)), Exit(1)], None))
            && (port.Opened? ==>
                  var run := Run(cfg, env, Loop([], 0), outcomes);
                  && |r.events| == 1 + |run.events| && r.events[0].Notice?
                  && r.events[1..] == run.events && r.next == run.next)
  {
    if port.Opened? {
      var start := Connect(cfg, port);
      var run := Run(cfg, env, Loop([], 0), outcomes);
      assert (start.events + run.events)[1..] == run.events;
    }
  }

  // ---------------------------------------------------------------------
  // What the sinks receive

  /** The records written to standard output, in order. */
  function ConsoleRecords(events: seq<Event>): seq<Record>
    decreases |events|
  {
    if |events| == 0 then []
    else (if events[0].Console? then [events[0].rec] else []) + ConsoleRecords(events[1..])
  }

  /** The records appended to the file at `path`, in order. */
  function FileRecords(events: seq<Event>, path: string): seq<Record>
    decreases |events|
  {
    if |events| == 0 then []
    else (if events[0].Append? && events[0].path == path then [events[0].rec] else []) + FileRecords(events[1..], path)
  }

  /** The bytes of each record. */
  function Frames(recs: seq<Record>): seq<seq<byte>> {
    seq(|recs|, i requires 0 <= i < |recs| => RecordBytes(recs[i]))
  }

  /** Every byte written to standard output by `write_all`, in order. */
  function ConsoleBytes(events: seq<Event>): seq<byte> {
    Concat(Frames(ConsoleRecords(events)))
  }

  /** Every byte appended to the file at `path`, in order. */
  function FileBytes(events: seq<Event>, path: string): seq<byte> {
    Concat(Frames(FileRecords(events, path)))
  }

  /** Each append to a file comes straight after the write of the same record to stdout. */
  predicate StdoutFirst(events: seq<Event>) {
    forall i :: 0 <= i < |events| && events[i].Append? ==> i > 0 && events[i - 1] == Console(events[i].rec)
  }

  /** The records for `lines` numbered from `k`. */
  function Records(env: Env, lines: seq<seq<byte>>, k: nat): (r: seq<Record>)
    ensures |r| == |lines|
    decreases |lines|
  {
    if |lines| == 0 then [] else [Record(env.clock(k), lines[0])] + Records(env, lines[1..], k + 1)
  }

  /** Record `i` carries line `i` and the clock sample taken for record `k + i`. */
  lemma {:induction false} RecordsAt(env: Env, lines: seq<seq<byte>>, k: nat)
    ensures forall i :: 0 <= i < |lines| ==> Records(env, lines, k)[i] == Record(env.clock(k + i), lines[i])
    decreases |lines|
  {
    if |lines| > 0 {
      RecordsAt(env, lines[1..], k + 1);
      var r := Records(env, lines, k);
      forall i | 0 <= i < |lines| ensures r[i] == Record(env.clock(k + i), lines[i]) {
        if i > 0 {
          assert r[i] == Records(env, lines[1..], k + 1)[i - 1];
        }
      }
    }
  }

  lemma StdoutFirstAppend(a: seq<Event>, b: seq<Event>)
    requires StdoutFirst(a) && StdoutFirst(b)
    requires |b| > 0 ==> !b[0].Append?
    ensures StdoutFirst(a + b)
  {
    var e := a + b;
    forall i | 0 <= i < |e| && e[i].Append? ensures i > 0 && e[i - 1] == Console(e[i].rec) {
      if i >= |a| {
        assert e[i] == b[i - |a|];
        if i > |a| {
          assert e[i - 1] == b[i - 1 - |a|];
        }
      } else {
        assert e[i] == a[i];
        assert e[i - 1] == a[i - 1];
      }
    }
  }

  lemma {:induction false} ConsoleRecordsAppend(a: seq<Event>, b: seq<Event>)
    ensures ConsoleRecords(a + b) == ConsoleRecords(a) + ConsoleRecords(b)
    decreases |a|
  {
    if |a| == 0 {
      assert a + b == b;
    } else {
      assert (a + b)[0] == a[0] && (a + b)[1..] == a[1..] + b;
      ConsoleRecordsAppend(a[1..], b);
    }
  }

  lemma {:induction false} FileRecordsAppend(a: seq<Event>, b: seq<Event>, path: string)
    ensures FileRecords(a + b, path) == FileRecords(a, path) + FileRecords(b, path)
    decreases |a|
  {
    if |a| == 0 {
      assert a + b == b;
    } else {
      assert (a + b)[0] == a[0] && (a + b)[1..] == a[1..] + b;
      FileRecordsAppend(a[1..], b, path);
    }
  }

  /** One record's events: stdout gets the record, the configured file gets it too, and the append follows the stdout write. */
  lemma RecordEventsSinks(cfg: Config, rec: Record, path: string)
    ensures ConsoleRecords(RecordEvents(cfg, rec)) == [rec]
    ensures FileRecords(RecordEvents(cfg, rec), path) == if cfg.output == Some(path) then [rec] else []
    ensures StdoutFirst(RecordEvents(cfg, rec))
    ensures RecordEvents(cfg, rec)[0] == Console(rec)
  {
    match cfg.output
    case None =>
      assert [Console(rec)][1..] == [];
    case Some(out) =>
      var head := [Console(rec), Append(out, rec)];
      var tail := [Append(out, rec)];
      assert head[1..] == tail && tail[1..] == [];
      assert ConsoleRecords(tail) == [];
      assert FileRecords(tail, path) == if out == path then [rec] else [];
  }

  /** Standard output receives every record, in order. */
  lemma {:induction false} ConsoleGetsRecords(cfg: Config, env: Env, lines: seq<seq<byte>>, k: nat)
    ensures ConsoleRecords(Emit(cfg, env, lines, k)) == Records(env, lines, k)
    decreases |lines|
  {
    if |lines| > 0 {
      var rec := Record(env.clock(k), lines[0]);
      ConsoleGetsRecords(cfg, env, lines[1..], k + 1);
      ConsoleRecordsAppend(RecordEvents(cfg, rec), Emit(cfg, env, lines[1..], k + 1));
      RecordEventsSinks(cfg, rec, "");
    }
  }

  /** The configured file receives exactly the same records; any other path receives nothing. */
  lemma {:induction false} FileGetsRecords(cfg: Config, env: Env, lines: seq<seq<byte>>, k: nat, path: string)
    ensures FileRecords(Emit(cfg, env, lines, k), path) == if cfg.output == Some(path) then Records(env, lines, k) else []
    decreases |lines|
  {
    if |lines| > 0 {
      var rec := Record(env.clock(k), lines[0]);
      FileGetsRecords(cfg, env, lines[1..], k + 1, path);
      FileRecordsAppend(RecordEvents(cfg, rec), Emit(cfg, env, lines[1..], k + 1), path);
      RecordEventsSinks(cfg, rec, path);
    }
  }

  /** Every append to the file comes right after the stdout write of the same record. */
  lemma {:induction false} EmitStdoutFirst(cfg: Config, env: Env, lines: seq<seq<byte>>, k: nat)
    ensures StdoutFirst(Emit(cfg, env, lines, k))
    decreases |lines|
  {
    if |lines| > 0 {
      var rec := Record(env.clock(k), lines[0]);
      var tail := Emit(cfg, env, lines[1..], k + 1);
      EmitStdoutFirst(cfg, env, lines[1..], k + 1);
      RecordEventsSinks(cfg, rec, "");
      if |tail| > 0 {
        RecordEventsSinks(cfg, Record(env.clock(k + 1), lines[1]), "");
      }
      StdoutFirstAppend(RecordEvents(cfg, rec), tail);
    }
  }

  /**
    * Both sinks receive the records and nothing else: stdout gets every
    * record, the configured file gets exactly the same records, so the
    * same bytes, any other path gets nothing, and each append follows the
    * stdout write of the same record.
    */
  lemma SinkEquality(cfg: Config, env: Env, lines: seq<seq<byte>>, k: nat, path: string)
    ensures ConsoleRecords(Emit(cfg, env, lines, k)) == Records(env, lines, k)
    ensures FileRecords(Emit(cfg, env, lines, k), path) == if cfg.output == Some(path) then Records(env, lines, k) else []
    ensures cfg.output == Some(path) ==> FileBytes(Emit(cfg, env, lines, k), path) == ConsoleBytes(Emit(cfg, env, lines, k))
    ensures StdoutFirst(Emit(cfg, env, lines, k))
  {
    ConsoleGetsRecords(cfg, env, lines, k);
    FileGetsRecords(cfg, env, lines, k, path);
    EmitStdoutFirst(cfg, env, lines, k);
  }

  /** A record of a line is itself a line: the prefix holds no delimiter. */
  lemma RecordIsLine(rec: Record)
    requires IsLine(rec.line)
    ensures IsLine(RecordBytes(rec))
  {
    StampNewlineFree(rec.time);
    PrefixedLine(Stamp(rec.time), rec.line);
  }

  /**
    * Re-splitting what stdout received gives back exactly the records' bytes,
    * one per drained line, with nothing left over: the timestamps never
    * break a line.
    */
  lemma ConsoleFramesRecords(cfg: Config, env: Env, lines: seq<seq<byte>>, k: nat)
    requires AllLines(lines)
    ensures Drain(ConsoleBytes(Emit(cfg, env, lines, k))) == Split(Frames(Records(env, lines, k)), [])
  {
    var recs := Records(env, lines, k);
    SinkEquality(cfg, env, lines, k, "");
    RecordsAt(env, lines, k);
    var frames := Frames(recs);
    forall i | 0 <= i < |frames| ensures IsLine(frames[i]) {
      RecordIsLine(recs[i]);
    }
    DrainUnique(Concat(frames), Split(frames, []));
  }

  /**
    * Each record's bytes are the 39-byte prefix followed by the line: the
    * prefix reads back as the sampled time and the line is untouched.
    */
  lemma RecordLayout(t: DateTime, line: seq<byte>)
    requires FitsLayout(t)
    ensures |RecordBytes(Record(t, line))| == Width + |line|
    ensures RecordBytes(Record(t, line))[Width..] == line
    ensures forall i :: 0 <= i < Width ==> RecordBytes(Record(t, line))[i] < 128
    ensures Parse(AsciiText(RecordBytes(Record(t, line))[..Width])) == Some(t)
  {
    FormatPlain(t);
    FormatRoundTrip(t);
    var stamp := AsciiBytes(Format(t));
    var r := RecordBytes(Record(t, line));
    assert r == stamp + line;
    assert r[..Width] == stamp;
    AsciiRoundTrip(Format(t));
  }

  // ---------------------------------------------------------------------
  // Many reads

  /** The bytes one read outcome contributes to the stream. */
  function Got(o: ReadOutcome): seq<byte> {
    if o.Received? then o.data else []
  }

  /** The bytes of each read outcome, in order (empty for a timeout or an error). */
  function Chunks(outcomes: seq<ReadOutcome>): (r: seq<seq<byte>>)
    ensures |r| == |outcomes|
    decreases |outcomes|
  {
    if |outcomes| == 0 then [] else [Got(outcomes[0])] + Chunks(outcomes[1..])
  }

  /** The bytes of all successful reads, in order. */
  function ReceivedBytes(outcomes: seq<ReadOutcome>): seq<byte> {
    Concat(Chunks(outcomes))
  }

  /** The text of one failed read, if it failed. */
  function Complaint(o: ReadOutcome): seq<string> {
    if o.Failed? then [o.description] else []
  }

  /** The texts of the failed reads, in order. */
  function FailureTexts(outcomes: seq<ReadOutcome>): seq<string>
    decreases |outcomes|
  {
    if |outcomes| == 0 then [] else Complaint(outcomes[0]) + FailureTexts(outcomes[1..])
  }

  /** The effects that reach stdout or the file: everything but diagnostics. */
  function Sinks(events: seq<Event>): seq<Event>
    decreases |events|
  {
    if |events| == 0 then []
    else (if events[0].Diagnostic? then [] else [events[0]]) + Sinks(events[1..])
  }

  /** The diagnostic texts, in order. */
  function Diagnostics(events: seq<Event>): seq<string>
    decreases |events|
  {
    if |events| == 0 then []
    else (if events[0].Diagnostic? then [events[0].text] else []) + Diagnostics(events[1..])
  }

  lemma {:induction false} SinksAppend(a: seq<Event>, b: seq<Event>)
    ensures Sinks(a + b) == Sinks(a) + Sinks(b)
    decreases |a|
  {
    if |a| == 0 {
      assert a + b == b;
    } else {
      assert (a + b)[0] == a[0] && (a + b)[1..] == a[1..] + b;
      SinksAppend(a[1..], b);
    }
  }

  lemma {:induction false} DiagnosticsAppend(a: seq<Event>, b: seq<Event>)
    ensures Diagnostics(a + b) == Diagnostics(a) + Diagnostics(b)
    decreases |a|
  {
    if |a| == 0 {
      assert a + b == b;
    } else {
      assert (a + b)[0] == a[0] && (a + b)[1..] == a[1..] + b;
      DiagnosticsAppend(a[1..], b);
    }
  }

  /** Writing two batches one after the other numbers the second batch's records on from the first's. */
  lemma {:induction false} EmitAppend(cfg: Config, env: Env, a: seq<seq<byte>>, b: seq<seq<byte>>, k: nat)
    ensures Emit(cfg, env, a + b, k) == Emit(cfg, env, a, k) + Emit(cfg, env, b, k + |a|)
    decreases |a|
  {
    if |a| == 0 {
      assert a + b == b;
    } else {
      assert (a + b)[0] == a[0] && (a + b)[1..] == a[1..] + b;
      EmitAppend(cfg, env, a[1..], b, k + 1);
    }
  }

  /** Writing records produces no diagnostics. */
  lemma {:induction false} EmitQuiet(cfg: Config, env: Env, lines: seq<seq<byte>>, k: nat)
    ensures Sinks(Emit(cfg, env, lines, k)) == Emit(cfg, env, lines, k)
    ensures Diagnostics(Emit(cfg, env, lines, k)) == []
    decreases |lines|
  {
    if |lines| > 0 {
      var head := RecordEvents(cfg, Record(env.clock(k), lines[0]));
      EmitQuiet(cfg, env, lines[1..], k + 1);
      SinksAppend(head, Emit(cfg, env, lines[1..], k + 1));
      DiagnosticsAppend(head, Emit(cfg, env, lines[1..], k + 1));
      assert Sinks(head) == head && Diagnostics(head) == [] by {
        assert Sinks(head[1..]) == head[1..] && Diagnostics(head[1..]) == [] by {
          if |head| == 2 {
            assert Sinks(head[1..][1..]) == [] && Diagnostics(head[1..][1..]) == [];
          }
        }
      }
    }
  }

  /** When the file always opens, no batch of records meets an open failure. */
  lemma NeverFails(cfg: Config, env: Env, k: nat, n: nat)
    requires FileAlwaysOpens(cfg, env)
    ensures !OpenFailsWithin(cfg, env, k, n)
  {
    if cfg.output.Some? {
      forall j | k <= j < k + n ensures !env.opens(j).OpenFailed? {
        assert env.opens(j) == Opened;
      }
    }
  }

  // ---------------------------------------------------------------------
  // The loop read by read

  /** The loop state after one read when nothing stops the loop: a read of bytes drains the buffer, anything else keeps it. */
  function After(st: Loop, o: ReadOutcome): Loop {
    match o
    case Received(data) =>
      var d := Step(st.buf, data);
      Loop(d.rest, st.written + |d.lines|)
    case _ => st
  }

  /** What one read does when the output file always opens: the records of the lines it completes, or the read error's text. */
  function ReadEvents(cfg: Config, env: Env, st: Loop, o: ReadOutcome): seq<Event> {
    match o
    case Received(data) => Emit(cfg, env, Step(st.buf, data).lines, st.written)
    case TimedOut => []
    case Failed(text) => [Diagnostic(text)]
  }

  /** The reads taken one at a time by `ReadEvents` and `After`: a reference for the loop when every open of the file succeeds. */
  function ReadByRead(cfg: Config, env: Env, st: Loop, outcomes: seq<ReadOutcome>): Turn
    decreases |outcomes|
  {
    if |outcomes| == 0 then Turn([], Some(st))
    else
      var rest := ReadByRead(cfg, env, After(st, outcomes[0]), outcomes[1..]);
      Turn(ReadEvents(cfg, env, st, outcomes[0]) + rest.events, rest.next)
  }

  /** With the output file always opening, one turn of the loop is exactly the read's events and never stops the loop. */
  lemma StepIsRead(cfg: Config, env: Env, st: Loop, o: ReadOutcome)
    requires FileAlwaysOpens(cfg, env)
    ensures LoopStep(cfg, env, st, o) == Turn(ReadEvents(cfg, env, st, o), Some(After(st, o)))
  {
    if o.Received? {
      LoopStepReceived(cfg, env, st, o.data);
      NeverFails(cfg, env, st.written, |Step(st.buf, o.data).lines|);
    }
  }

  /** With the output file always opening, the loop is the read-by-read reference: same events, same end state. */
  lemma {:induction false} RunIsReadByRead(cfg: Config, env: Env, st: Loop, outcomes: seq<ReadOutcome>)
    requires FileAlwaysOpens(cfg, env)
    ensures Run(cfg, env, st, outcomes) == ReadByRead(cfg, env, st, outcomes)
    decreases |outcomes|
  {
    if |outcomes| > 0 {
      StepIsRead(cfg, env, st, outcomes[0]);
      RunIsReadByRead(cfg, env, After(st, outcomes[0]), outcomes[1..]);
    }
  }

  /**
    * One read, seen through the reassembler: with a newline-free buffer it
    * drains what `Step` drains, its records are the drained lines', and it
    * complains exactly when it failed.
    */
  lemma ReadIsStep(cfg: Config, env: Env, st: Loop, o: ReadOutcome)
    requires NewlineFree(st.buf)
    ensures var d := Step(st.buf, Got(o));
            && After(st, o) == Loop(d.rest, st.written + |d.lines|)
            && NewlineFree(After(st, o).buf)
            && Sinks(ReadEvents(cfg, env, st, o)) == Emit(cfg, env, d.lines, st.written)
            && Diagnostics(ReadEvents(cfg, env, st, o)) == Complaint(o)
  {
    AfterIsStep(st, o);
    match o
    case Received(data) =>
      EmitQuiet(cfg, env, Step(st.buf, data).lines, st.written);
    case TimedOut =>
    case Failed(text) =>
      var e := [Diagnostic(text)];
      assert e[0] == Diagnostic(text) && e[1..] == [];
      assert Sinks(e) == [] && Diagnostics(e) == [text];
  }

  /** With a newline-free buffer, the state after any read is what `Step` leaves, and the buffer stays newline-free. */
  lemma AfterIsStep(st: Loop, o: ReadOutcome)
    requires NewlineFree(st.buf)
    ensures var d := Step(st.buf, Got(o));
            && After(st, o) == Loop(d.rest, st.written + |d.lines|)
            && NewlineFree(After(st, o).buf)
  {
    StepSplits(st.buf, Got(o));
  }

  /** The reassembler fed the reads' bytes one read at a time, starting from `buf`. */
  function FeedReads(buf: seq<byte>, outcomes: seq<ReadOutcome>): Split {
    Feed(buf, Chunks(outcomes))
  }

  /** Feeding the reads one at a time: the first read's drain, then the rest fed from its leftover. */
  lemma FeedCons(buf: seq<byte>, outcomes: seq<ReadOutcome>)
    requires |outcomes| > 0
    ensures var d := Step(buf, Got(outcomes[0]));
            var t := FeedReads(d.rest, outcomes[1..]);
            FeedReads(buf, outcomes) == Split(d.lines + t.lines, t.rest)
  {
    assert Chunks(outcomes)[1..] == Chunks(outcomes[1..]);
  }

  /** The reassembler given everything the reads received, in one piece, after `buf`. */
  function OneRead(buf: seq<byte>, outcomes: seq<ReadOutcome>): Split {
    Drain(buf + ReceivedBytes(outcomes))
  }

  /** The reference ends holding what feeding the chunks one by one leaves, having counted every line. */
  lemma {:induction false} ReadByReadNext(cfg: Config, env: Env, st: Loop, outcomes: seq<ReadOutcome>)
    requires NewlineFree(st.buf)
    ensures var f := FeedReads(st.buf, outcomes);
            ReadByRead(cfg, env, st, outcomes).next == Some(Loop(f.rest, st.written + |f.lines|))
    decreases |outcomes|
  {
    if |outcomes| > 0 {
      ReadIsStep(cfg, env, st, outcomes[0]);
      ReadByReadNext(cfg, env, After(st, outcomes[0]), outcomes[1..]);
      FeedCons(st.buf, outcomes);
    }
  }

  /** What the reference sends to stdout and the file. */
  function ReferenceSinks(cfg: Config, env: Env, st: Loop, outcomes: seq<ReadOutcome>): seq<Event> {
    Sinks(ReadByRead(cfg, env, st, outcomes).events)
  }

  /** The events for writing, from record `st.written` on, the lines that feeding the reads produces. */
  function FedEvents(cfg: Config, env: Env, st: Loop, outcomes: seq<ReadOutcome>): seq<Event> {
    Emit(cfg, env, FeedReads(st.buf, outcomes).lines, st.written)
  }

  /** The reference's sinks: the first read's records, then the rest's. */
  lemma ReferenceSinksCons(cfg: Config, env: Env, st: Loop, outcomes: seq<ReadOutcome>)
    requires NewlineFree(st.buf) && |outcomes| > 0
    ensures var d := Step(st.buf, Got(outcomes[0]));
            ReferenceSinks(cfg, env, st, outcomes)
              == Emit(cfg, env, d.lines, st.written) + ReferenceSinks(cfg, env, After(st, outcomes[0]), outcomes[1..])
  {
    var rest := ReadByRead(cfg, env, After(st, outcomes[0]), outcomes[1..]);
    SinksAppend(ReadEvents(cfg, env, st, outcomes[0]), rest.events);
    ReadIsStep(cfg, env, st, outcomes[0]);
  }

  /** The fed lines' events: the first read's records, then those of the rest fed from its leftover. */
  lemma FedEventsCons(cfg: Config, env: Env, st: Loop, outcomes: seq<ReadOutcome>)
    requires NewlineFree(st.buf) && |outcomes| > 0
    ensures var d := Step(st.buf, Got(outcomes[0]));
            FedEvents(cfg, env, st, outcomes)
              == Emit(cfg, env, d.lines, st.written) + FedEvents(cfg, env, After(st, outcomes[0]), outcomes[1..])
  {
    var d := Step(st.buf, Got(outcomes[0]));
    var t := FeedReads(d.rest, outcomes[1..]);
    AfterIsStep(st, outcomes[0]);
    FeedCons(st.buf, outcomes);
    EmitAppend(cfg, env, d.lines, t.lines, st.written);
  }

  /** The reference's sinks receive the records of the lines that feeding the chunks one by one produces. */
  lemma {:induction false} ReadByReadSinks(cfg: Config, env: Env, st: Loop, outcomes: seq<ReadOutcome>)
    requires NewlineFree(st.buf)
    ensures ReferenceSinks(cfg, env, st, outcomes) == FedEvents(cfg, env, st, outcomes)
    decreases |outcomes|
  {
    if |outcomes| > 0 {
      ReadIsStep(cfg, env, st, outcomes[0]);
      ReadByReadSinks(cfg, env, After(st, outcomes[0]), outcomes[1..]);
      ReferenceSinksCons(cfg, env, st, outcomes);
      FedEventsCons(cfg, env, st, outcomes);
    }
  }

  /** The reference's diagnostics are exactly the failed reads' texts, in order. */
  lemma {:induction false} ReadByReadDiagnostics(cfg: Config, env: Env, st: Loop, outcomes: seq<ReadOutcome>)
    requires NewlineFree(st.buf)
    ensures Diagnostics(ReadByRead(cfg, env, st, outcomes).events) == FailureTexts(outcomes)
    decreases |outcomes|
  {
    if |outcomes| > 0 {
      var rest := ReadByRead(cfg, env, After(st, outcomes[0]), outcomes[1..]);
      ReadIsStep(cfg, env, st, outcomes[0]);
      ReadByReadDiagnostics(cfg, env, After(st, outcomes[0]), outcomes[1..]);
      DiagnosticsAppend(ReadEvents(cfg, env, st, outcomes[0]), rest.events);
    }
  }

  /** The loop's state after the reads (`None` if it exited). */
  function EndState(cfg: Config, env: Env, st: Loop, outcomes: seq<ReadOutcome>): Option<Loop> {
    Run(cfg, env, st, outcomes).next
  }

  /** What the reads send to stdout and the file. */
  function SinkEvents(cfg: Config, env: Env, st: Loop, outcomes: seq<ReadOutcome>): seq<Event> {
    Sinks(Run(cfg, env, st, outcomes).events)
  }

  /** What the reads print on standard error. */
  function Complaints(cfg: Config, env: Env, st: Loop, outcomes: seq<ReadOutcome>): seq<string> {
    Diagnostics(Run(cfg, env, st, outcomes).events)
  }

  /**
    * However the stream is cut into reads, and with any timeouts and read
    * errors in between, the loop writes exactly what one read of all the
    * received bytes would write: the same records, with the same clock
    * samples, to the same sinks; the read errors come out as diagnostics,
    * in order; and the buffer ends as the undelimited tail of the stream.
    */
  lemma RunIsOneRead(cfg: Config, env: Env, st: Loop, outcomes: seq<ReadOutcome>)
    requires NewlineFree(st.buf)
    requires FileAlwaysOpens(cfg, env)
    ensures var whole := OneRead(st.buf, outcomes);
            && EndState(cfg, env, st, outcomes) == Some(Loop(whole.rest, st.written + |whole.lines|))
            && SinkEvents(cfg, env, st, outcomes) == Emit(cfg, env, whole.lines, st.written)
            && Complaints(cfg, env, st, outcomes) == FailureTexts(outcomes)
  {
    assert OneRead(st.buf, outcomes) == FeedReads(st.buf, outcomes) by {
      FeedIsOneRead(st.buf, Chunks(outcomes));
    }
    var f := FeedReads(st.buf, outcomes);
    assert EndState(cfg, env, st, outcomes) == Some(Loop(f.rest, st.written + |f.lines|)) by {
      RunIsReadByRead(cfg, env, st, outcomes);
      ReadByReadNext(cfg, env, st, outcomes);
    }
    assert SinkEvents(cfg, env, st, outcomes) == Emit(cfg, env, f.lines, st.written) by {
      RunIsReadByRead(cfg, env, st, outcomes);
      ReadByReadSinks(cfg, env, st, outcomes);
    }
    assert Complaints(cfg, env, st, outcomes) == FailureTexts(outcomes) by {
      RunIsReadByRead(cfg, env, st, outcomes);
      ReadByReadDiagnostics(cfg, env, st, outcomes);
    }
  }


  /** A line whose bytes arrive in two reads is written once, whole, as one record. */
  lemma CarryOverExample(cfg: Config, env: Env, first: Chunk, second: Chunk)
    requires cfg.output.None?
    requires IsLine(first + second)
    ensures var outcomes := [Received(first), Received(second)];
            && SinkEvents(cfg, env, Loop([], 0), outcomes) == [Console(Record(env.clock(0), first + second))]
            && EndState(cfg, env, Loop([], 0), outcomes) == Some(Loop([], 1))
  {
    var outcomes := [Received(first), Received(second)];
    var line := first + second;
    assert OneRead([], outcomes) == Split([line], []) by {
      assert ReceivedBytes(outcomes) == line by {
        assert Chunks(outcomes[1..]) == [second] by {
          assert outcomes[1..][1..] == [];
        }
        assert Chunks(outcomes) == [first, second];
        ConcatPair(first, second);
      }
      assert [] + line == line;
      DrainOneLine(line);
    }
    RunIsOneRead(cfg, env, Loop([], 0), outcomes);
    assert Emit(cfg, env, [line], 0) == [Console(Record(env.clock(0), line))];
  }
}
