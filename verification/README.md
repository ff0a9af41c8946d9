# slog — a Dafny model of the serial logger's core

`slog` has two commands:

- `read` opens a serial port and loops forever. Each pass reads up to 1000 bytes into a scratch buffer. The bytes are appended to an accumulation buffer, and every complete line (up to and including a `\n`) is drained from the front of that buffer. Each drained line is prefixed with a coloured local-time stamp. The resulting record goes to standard output and, when an output file is configured, is appended to that file.
- `list` prints the serial ports the system reports.

The model is pure: the outside world's answers are inputs, and every effect is a value.

- `options.dfy` holds `Option` and `MapOr`, the fallback used for absent optional fields.
- `bytes.dfy` holds the byte type, the newline byte, concatenation of byte strings, and the ASCII encoding of text (`String::into_bytes` on ASCII text).
- `numerals.dfy` holds the digits of a number in base 10 or 16 and zero padding to a width (Rust's `{:0N}` and `{:0Nx}`). It includes the sign-aware padding Rust uses for negative numbers, and reads a numeral back as its value.
- `reassembler.dfy` holds the line reassembler:
  - `Drain` is the `while let Some(pos)` loop as a function, and `DrainLoop` is the same loop as a method.
  - `Step` is one successful read.
  - `Feed` is many successful reads.
  - `Splits` is the independent specification of a correct drain: nothing lost, nothing reordered, only whole lines out, no delimiter left behind.
- `timestamp.dfy` holds `generate_timestamp`, given the sampled time's calendar fields, and a parser that reads a prefix back.
- `session.dfy` holds the `read` command:
  - opening the port;
  - the dispatch on a read's outcome (bytes, timeout, any other error);
  - records `timestamp ++ line`;
  - the dual sink, which writes stdout first, then opens the file for append and writes the same bytes, exiting with status 1 when the open fails.

  The k-th record's clock sample and the outcome of opening the file for it come from an `Env`. Reads are a finite sequence of outcomes. Effects form an event trace.
- `listing.dfy` holds the text of the `list` command for a given port list: the count header, the per-port blocks, the `{:04x}` VID/PID line and the aligned optional fields.

## Model

| member | source | states |
|---|---|---|
| Reassembler.FirstNewline | src/main.rs:68 | `position` finds the first `\n`: the returned index holds the delimiter and no earlier byte does; `None` means the buffer has no delimiter |
| Reassembler.Position | src/main.rs:68 | the loop form of `position` meets the same first-delimiter specification |
| Reassembler.FirstNewlineAt | src/main.rs:68 | the first delimiter is unique: any index that is the first delimiter is the one found |
| Reassembler.DrainSplits | src/main.rs:67-69 | the drain loop loses no byte and reorders nothing, emits only complete lines, and leaves a buffer with no delimiter |
| Reassembler.DrainUnique | src/main.rs:67-69 | any split that loses nothing, emits only whole lines and leaves no delimiter is the drain loop's result |
| Reassembler.DrainCharacterised | src/main.rs:67-69 | the drain loop's result and the correct-split specification coincide, both directions |
| Reassembler.DrainLoop | src/main.rs:68-69 | the imperative `while let Some(pos)` loop with `drain(..=pos)` computes exactly the lines and remainder of `Drain`, and they split the buffer correctly |
| Reassembler.CutLine | src/main.rs:68-69 | cutting the front line up to the first delimiter keeps the drained-lines-plus-buffer invariant and emits a whole line |
| Reassembler.StepSplits | src/main.rs:65-69 | a read appends the chunk and drains it: the lines and carried rest split buffer-plus-chunk correctly; an empty read on a partial buffer changes nothing |
| Reassembler.DrainAppend | src/main.rs:60-69 | draining a concatenation equals draining the first part, then draining its rest with the second part |
| Reassembler.FeedIsOneRead | src/main.rs:60-69 | starting from a partial buffer, any chunking of the byte stream into reads drains the same lines and leaves the same rest as one read of all the bytes |
| Reassembler.DrainCountsNewlines | src/main.rs:67-69 | the number of lines drained equals the number of `\n` bytes in the buffer |
| Reassembler.DrainPartial | src/main.rs:68 | a buffer without a delimiter emits nothing and is kept whole |
| Reassembler.DrainOneLine | src/main.rs:68-69 | one complete line drains as itself and empties the buffer |
| Reassembler.PartialLineCarryOver | src/main.rs:60-69 | a line split across two reads is emitted once, whole, after the second read |
| Session.StampNewlineFree | src/main.rs:70 | the timestamp prefix's bytes never contain the delimiter |
| Session.RecordIsLine | src/main.rs:70-74 | a record, `timestamp ++ line`, of a complete line is itself a complete line |
| Session.RecordLayout | src/main.rs:70-74 | a record's bytes are the 39-byte ASCII prefix, which reads back as the sampled time, followed by the line unchanged |
| Session.WriteLinesSpec | src/main.rs:68-97 | writing a batch exits exactly when the output file fails to open for one of its records. It then writes the records before the first failing one to both sinks, writes the failing record to stdout, prints `Failed to open "<path>". Error: <reason>` with the output path, and exits with status 1. Otherwise every record goes to stdout and then to the file |
| Session.WriteLinesExitsOnFailure | src/main.rs:76-97 | the batch exits exactly when some record's open fails, and a batch that does not exit writes every record to both sinks |
| Session.WriteLinesExit | src/main.rs:68-93 | when record `j` is the first whose open fails, the events are the earlier records to both sinks, record `j` to stdout (the stdout write precedes the open), the diagnostic naming the output path, and exit status 1 |
| Session.FirstOpenFailureExists | src/main.rs:78-93 | whenever some open in a batch fails there is a first failing record, the one at which the process exits |
| Session.LoopStepSpec | src/main.rs:63-101 | a timeout changes nothing; another error prints its text and keeps the buffer; bytes write the drained lines, keep the rest newline-free, and stop the loop exactly when a file open fails |
| Session.LoopStepReceived | src/main.rs:64-98 | a read of bytes stops the loop exactly when a file open fails for a drained line; otherwise it writes those lines and carries the rest |
| Session.Connect | src/main.rs:52-59 | an open port prints one banner and starts with an empty buffer; a failed open names the device on stderr and exits with status 1 |
| Session.ReadCommandSpec | src/main.rs:52-108 | a failed port open ends the command before any read; an open port prints the banner once, then runs the read loop from an empty buffer |
| Session.RecordEventsSinks | src/main.rs:76-97 | one record reaches stdout, reaches the configured file too, and the append follows the stdout write |
| Session.ConsoleGetsRecords | src/main.rs:76 | stdout receives every record, in order |
| Session.FileGetsRecords | src/main.rs:78-95 | the configured file receives exactly the records stdout receives; any other path receives nothing |
| Session.EmitStdoutFirst | src/main.rs:76-95 | every append to the file comes right after the stdout write of the same record |
| Session.SinkEquality | src/main.rs:72-97 | both sinks receive the same records, hence the same bytes, and stdout is written first |
| Session.ConsoleFramesRecords | src/main.rs:67-76 | re-splitting the stdout bytes into lines gives back exactly one record per drained line, with nothing left over |
| Session.EmitQuiet | src/main.rs:72-97 | writing records produces no diagnostics |
| Session.NeverFails | src/main.rs:79-94 | when the file always opens, no batch of records meets the exit path |
| Session.StepIsRead | src/main.rs:63-101 | when the file always opens, one loop turn is the read-by-read reference step |
| Session.RunIsReadByRead | src/main.rs:62-103 | when the file always opens, the read loop equals the read-by-read reference |
| Session.ReadByReadNext | src/main.rs:60-69 | after any sequence of reads, the loop's buffer and record count are those of feeding the received chunks through the reassembler |
| Session.ReadByReadSinks | src/main.rs:60-97 | the records written over any sequence of reads are the records of the lines the fed chunks drain |
| Session.ReadByReadDiagnostics | src/main.rs:100-101 | stderr receives exactly the texts of the failed reads, in order; timeouts print nothing |
| Session.RunIsOneRead | src/main.rs:58-103 | when the file always opens, any sequence of reads, timeouts and errors leaves the buffer, writes the records, and prints the diagnostics of one read of all the received bytes |
| Session.CarryOverExample | src/main.rs:60-76 | with no output file, a line arriving in two reads is written once to stdout as record 0, and the buffer ends empty |
| Timestamp.FormatPlain | src/main.rs:163-178 | the prefix is 7-bit ASCII with no line feed for every sampled time |
| Timestamp.DateRoundTrip | src/main.rs:167-170 | `{:04}-{:02}-{:02}` is 10 characters and reads back as year (sign included), month and day |
| Timestamp.ClockRoundTrip | src/main.rs:167-173 | `{:02}:{:02}:{:02}` is 8 characters and reads back as hour, minute and second |
| Timestamp.YearWidth | src/main.rs:167-168 | `{:04}` of a year in -999..9999 is 4 characters, the sign counting towards the width, and reads back as the year |
| Timestamp.FormatRoundTrip | src/main.rs:166-177 | when every field fits its width, the prefix is 39 characters (reset, bracket, green, the time, reset, bracket, space) and reads back as the sampled time |
| Timestamp.FormatInjective | src/main.rs:166-177 | two fitting samples give the same prefix exactly when they are the same time |
| Timestamp.LeapSecondWidth | src/main.rs:174 | a leap-second millisecond value of 1000..1999 makes `{:03}` write four digits, so the prefix is 40 characters |
| Numerals.ValueOfDigits | src/main.rs:117 | the decimal digits of a number read back as that number |
| Numerals.ZeroPadValue | src/main.rs:144 | a zero-padded numeral consists only of digits and reads back as its value |
| Numerals.SignedZeroPadValue | src/main.rs:167-168 | `{:04}` of a signed value reads back as the value: the digits after any `-` give the magnitude |
| Numerals.DigitsFit | src/main.rs:144 | a number's digits fit in `w` places exactly when it is below base to the power `w` |
| Numerals.FixedWidth | src/main.rs:144 | padding a number below base to the power `width` gives exactly `width` characters |
| Listing.HeaderRoundTrip | src/main.rs:114-118 | the count line reads back as the number of ports found, so distinct counts give distinct lines |
| Listing.HeaderExamples | src/main.rs:114-118 | zero, one and three ports give "No ports found.", "Found 1 port:" and "Found 3 ports:" |
| Listing.Hex4 | src/main.rs:144 | `{:04x}` of a `u16` is four lowercase hex digits whose value is the id |
| Listing.UsbIdsRoundTrip | src/main.rs:144 | the VID/PID line is 21 characters and reads back as both ids |
| Listing.UsbIdsExample | src/main.rs:144 | vendor 0x0403 and product 0x6001 print as `    VID:0403 PID:6001` |
| Listing.LeftAlign | src/main.rs:157 | `{:<15}` keeps the text and pads it on the right with spaces up to the width |
| Listing.OptionalInfoLayout | src/main.rs:155-160 | for labels of at most 15 characters the value starts in column 21 after `": "`; an absent value prints exactly as an empty one |
| Listing.PortBlock | src/main.rs:120-137 | each port's block is its indented name and then its type line (`USB`, `Bluetooth`, `PCI` or `Unknown`); a USB block then holds the VID/PID line and the serial number, manufacturer and product lines, six lines in all, and every other block has two |
| Listing.Blocks | src/main.rs:120-137 | the blocks hold two lines per port plus four per USB port, starting with the first port's block |
| Listing.BlocksAppend | src/main.rs:120-137 | blocks follow each other in query order: listing `a` then `b` prints `a`'s blocks, then `b`'s |
| Listing.BlocksSingle | src/main.rs:120-137 | a single port prints exactly its own block |
| Listing.ListPorts | src/main.rs:112-141 | a failed query prints only the error line on stderr; a successful one prints nothing on stderr, and on stdout the count line, which reads back as the number of ports, followed by exactly the ports' blocks |

## Left out

- Serial-port I/O, the system clock and the file system are not modelled. Read outcomes, clock samples and the result of each open for append are inputs. The bytes a write puts in the file are modelled; the file's earlier contents are not.
- The `Display` and `Debug` text of `serialport` and `std::io` errors is not modelled. Error reasons are opaque strings.
- Argument parsing with `clap` is not modelled. The `read` arguments form a `Config`, and `main`'s dispatch between the two commands is left out.
- Port enumeration (`available_ports`) is not modelled. `Listing.ListPorts` takes the query's result, with `None` for a failed query.
- The `usbportinfo-interface` feature's interface line (`src/main.rs:149-152`) is left out, because it is compiled in only under a cargo feature.
- The `unwrap` panics of stdout and file writes and flushes are left out: writes are assumed to succeed. `flush` has no separate effect in the trace.
- The infinite loop is modelled over any finite prefix of the reads (`Run`); non-termination is not modelled.
- Session.RunIsOneRead: assumes the output file opens for every record (`FileAlwaysOpens`). When an open fails the process exits, and `Session.LoopStepSpec` and `Session.WriteLinesSpec` state that case.
- Timestamp.FormatRoundTrip: holds for years -999..9999 and fields below 100 (`FitsLayout`). Wider years make the prefix longer because `{:04}` is a minimum width.
- Timestamp.LeapSecondWidth: the code does not keep the prefix at a fixed width. During a leap second, chrono's sub-second milliseconds reach 1000..1999 and the prefix grows to 40 characters. The model follows the code, not a fixed-width promise.
The functions below model source lines but carry no `ensures` of their own. Their contracts are the lemmas named, each of which has a row in "## Model":
- Reassembler.Drain and Reassembler.Step (src/main.rs:65-69): `DrainSplits`, `DrainUnique`, `DrainCharacterised` and `StepSplits`.
- Reassembler.Feed (src/main.rs:60-69): `FeedIsOneRead` and `PartialLineCarryOver`.
- Session.LoopStep (src/main.rs:63-101): `LoopStepSpec` and `LoopStepReceived`.
- Session.WriteLines (src/main.rs:68-97): `WriteLinesSpec`, `WriteLinesExitsOnFailure` and `WriteLinesExit`.
- Session.RecordBytes (src/main.rs:72-74): `RecordIsLine` and `RecordLayout`.
- Session.Emit (src/main.rs:76-97): `ConsoleGetsRecords`, `FileGetsRecords`, `EmitStdoutFirst`, `SinkEquality`, `ConsoleFramesRecords` and `EmitQuiet`.
- Session.Run (src/main.rs:62-103): `RunIsReadByRead`, `ReadByReadNext`, `ReadByReadSinks`, `ReadByReadDiagnostics` and `RunIsOneRead`.
- Session.ReadCommand (src/main.rs:52-108): `ReadCommandSpec`.
- Timestamp.Format (src/main.rs:163-178): `FormatRoundTrip`, `FormatInjective`, `FormatPlain` and `LeapSecondWidth`.
- Listing.CountHeader (src/main.rs:114-118): `HeaderRoundTrip` and `HeaderExamples`.
- Listing.UsbIds (src/main.rs:144): `UsbIdsRoundTrip` and `UsbIdsExample`.
- Listing.OptionalInfo (src/main.rs:155-160): `OptionalInfoLayout`.
- Numerals.ZeroPad and Numerals.SignedZeroPad: `ZeroPadValue` and `SignedZeroPadValue`.
- Session.Config: the output path is a `string`, so a path that is not valid UTF-8 cannot be represented. For such a path, a failed open panics in `to_str().unwrap()` (src/main.rs:89) instead of printing the diagnostic and exiting with status 1. The model does not cover that panic.
- Local time-zone conversion inside chrono is left out. The calendar fields of the sampled local time are the input.
