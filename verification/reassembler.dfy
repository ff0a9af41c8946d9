/**
  * The streaming line reassembler of the `read` command: each successful read
  * appends its bytes to the accumulation buffer, and then every complete line
  * (up to and including a `\n`) is drained from the front of the buffer.
  * Bytes after the last `\n` stay in the buffer for the next read.
  */
module Reassembler {
  import opened Options
  import opened Bytes

  /** A complete line: non-empty, ends in `\n`, and has no other `\n`. A `\r` is ordinary content. */
  predicate IsLine(l: seq<byte>) {
    |l| > 0 && l[|l| - 1] == NL && NewlineFree(l[..|l| - 1])
  }

  predicate AllLines(ls: seq<seq<byte>>) {
    forall i :: 0 <= i < |ls| ==> IsLine(ls[i])
  }

  /** The lines drained by one pass, and the bytes left in the buffer. */
  datatype Split = Split(lines: seq<seq<byte>>, rest: seq<byte>)

  /** What a correct drain of `buf` must satisfy: nothing lost, nothing reordered, only whole lines out, no line left in. */
  predicate Splits(buf: seq<byte>, s: Split) {
    && Concat(s.lines) + s.rest == buf
    && AllLines(s.lines)
    && NewlineFree(s.rest)
  }

  /** `p` is where the source's `position` lands: the first delimiter of `s`, or `None` when there is none. */
  predicate FirstDelimiter(s: seq<byte>, p: Option<nat>) {
    match p
    case Some(i) => i < |s| && s[i] == NL && NewlineFree(s[..i])
    case None => NewlineFree(s)
  }

  /** `iter().position(|&x| x == b'\n')`: the index of the first delimiter, if any. */
  function FirstNewline(s: seq<byte>): (r: Option<nat>)
    ensures FirstDelimiter(s, r)
    decreases |s|
  {
    if |s| == 0 then None
    else if s[0] == NL then Some(0)
    else match FirstNewline(s[1..])
      case None => None
      case Some(p) => assert s[..p + 1] == [s[0]] + s[1..][..p]; Some(p + 1)
  }

  /** Whatever finds the first delimiter finds the one `FirstNewline` finds. */
  lemma {:induction false} FirstNewlineAt(s: seq<byte>, q: nat)
    requires FirstDelimiter(s, Some(q))
    ensures FirstNewline(s) == Some(q)
    decreases q
  {
    if q > 0 {
      assert s[0] == s[..q][0];
      assert s[1..][..q - 1] == s[..q][1..];
      FirstNewlineAt(s[1..], q - 1);
    }
  }

  /** Prepending one whole line to a correct split gives a correct split. */
  lemma SplitsCons(line: seq<byte>, after: seq<byte>, tail: Split)
    requires IsLine(line) && Splits(after, tail)
    ensures Splits(line + after, Split([line] + tail.lines, tail.rest))
  {
    assert ([line] + tail.lines)[1..] == tail.lines;
  }

  /**
    * The `while let Some(pos) = ...` loop: drain `[0..=pos]` as one line
    * until no delimiter is left.
    */
  function Drain(buf: seq<byte>): Split
    decreases |buf|
  {
    match FirstNewline(buf)
    case None => Split([], buf)
    case Some(pos) =>
      var tail := Drain(buf[pos + 1..]);
      Split([buf[..pos + 1]] + tail.lines, tail.rest)
  }

  /** `Drain` loses nothing, emits only whole lines and leaves no delimiter behind. */
  lemma {:induction false} DrainSplits(buf: seq<byte>)
    ensures Splits(buf, Drain(buf))
    decreases |buf|
  {
    match FirstNewline(buf)
    case None =>
      assert Concat([]) + buf == buf;
    case Some(pos) =>
      var tail := Drain(buf[pos + 1..]);
      DrainSplits(buf[pos + 1..]);
      SplitsAtDelimiter(buf, pos, tail);
      assert Drain(buf) == Split([buf[..pos + 1]] + tail.lines, tail.rest);
  }

  /** Cutting the line up to the first delimiter off the front, then splitting the remainder correctly, splits the whole correctly. */
  lemma SplitsAtDelimiter(buf: seq<byte>, pos: nat, tail: Split)
    requires FirstDelimiter(buf, Some(pos)) && Splits(buf[pos + 1..], tail)
    ensures Splits(buf, Split([buf[..pos + 1]] + tail.lines, tail.rest))
  {
    var line := buf[..pos + 1];
    assert line[..|line| - 1] == buf[..pos];
    assert buf == line + buf[pos + 1..];
    SplitsCons(line, buf[pos + 1..], tail);
  }

  /** One successful read of `chunk` (`extend_from_slice(&serial_buf[..t])`) followed by the drain. */
  function Step(buf: seq<byte>, chunk: seq<byte>): Split {
    Drain(buf + chunk)
  }

  /** A read splits the buffer extended by the chunk; an empty read on a newline-free buffer changes nothing. */
  lemma StepSplits(buf: seq<byte>, chunk: seq<byte>)
    ensures Splits(buf + chunk, Step(buf, chunk))
    ensures |chunk| == 0 && NewlineFree(buf) ==> Step(buf, chunk) == Split([], buf)
  {
    DrainSplits(buf + chunk);
    if |chunk| == 0 && NewlineFree(buf) {
      assert buf + chunk == buf;
      DrainPartial(buf);
    }
  }

  /** A line splits as its newline-free body followed by the delimiter. */
  lemma LineFirstNewline(l: seq<byte>, tail: seq<byte>)
    requires IsLine(l)
    ensures FirstNewline(l + tail) == Some(|l| - 1)
  {
    var s := l + tail;
    assert s[..|l| - 1] == l[..|l| - 1];
    FirstNewlineAt(s, |l| - 1);
  }

  /**
    * `Drain` is the only split of `buf` into whole lines and a newline-free
    * rest: any split that loses nothing, emits only whole lines and keeps
    * no delimiter behind is exactly the one `Drain` computes.
    */
  lemma {:induction false} DrainUnique(buf: seq<byte>, s: Split)
    requires Splits(buf, s)
    ensures Drain(buf) == s
    decreases |s.lines|
  {
    if |s.lines| == 0 {
      assert buf == s.rest;
    } else {
      var line := s.lines[0];
      var more := Split(s.lines[1..], s.rest);
      var after := Concat(s.lines[1..]) + s.rest;
      assert buf == line + after;
      LineFirstNewline(line, after);
      assert buf[..|line|] == line;
      assert buf[|line|..] == after;
      assert AllLines(more.lines);
      DrainUnique(after, more);
      assert s.lines == [line] + more.lines;
    }
  }

  /** A buffer splits exactly as `Drain` says iff it meets the three guarantees. */
  lemma DrainCharacterised(buf: seq<byte>, s: Split)
    ensures Drain(buf) == s <==> Splits(buf, s)
  {
    DrainSplits(buf);
    if Splits(buf, s) {
      DrainUnique(buf, s);
    }
  }

  /** Two correct splits in a row make a correct split of the whole. */
  lemma SplitsAppend(a: seq<byte>, first: Split, b: seq<byte>, second: Split)
    requires Splits(a, first) && Splits(first.rest + b, second)
    ensures Splits(a + b, Split(first.lines + second.lines, second.rest))
  {
    ConcatAppend(first.lines, second.lines);
    calc {
      Concat(first.lines + second.lines) + second.rest;
      Concat(first.lines) + (Concat(second.lines) + second.rest);
      Concat(first.lines) + (first.rest + b);
      (Concat(first.lines) + first.rest) + b;
    }
    var ls := first.lines + second.lines;
    forall i | 0 <= i < |ls| ensures IsLine(ls[i]) {
      if i >= |first.lines| {
        assert ls[i] == second.lines[i - |first.lines|];
      }
    }
  }

  /** Draining `a + b` drains `a` first and then its leftover followed by `b`. */
  lemma DrainAppend(a: seq<byte>, b: seq<byte>)
    ensures Drain(a + b) == Split(Drain(a).lines + Drain(Drain(a).rest + b).lines, Drain(Drain(a).rest + b).rest)
  {
    var first := Drain(a);
    var second := Drain(first.rest + b);
    DrainSplits(a);
    DrainSplits(first.rest + b);
    SplitsAppend(a, first, b, second);
    DrainUnique(a + b, Split(first.lines + second.lines, second.rest));
  }

  /** Feeds the reads one at a time, carrying the leftover buffer from one read to the next. */
  function Feed(buf: seq<byte>, chunks: seq<seq<byte>>): (r: Split)
    decreases |chunks|
  {
    if |chunks| == 0 then Split([], buf)
    else
      var s := Step(buf, chunks[0]);
      var t := Feed(s.rest, chunks[1..]);
      Split(s.lines + t.lines, t.rest)
  }

  /**
    * Chunking independence: however the stream is cut into reads, the lines
    * emitted and the final buffer are those of one read of the whole stream.
    */
  lemma {:induction false} FeedIsOneRead(buf: seq<byte>, chunks: seq<seq<byte>>)
    requires NewlineFree(buf)
    ensures Feed(buf, chunks) == Drain(buf + Concat(chunks))
    decreases |chunks|
  {
    if |chunks| == 0 {
      assert buf + Concat(chunks) == buf;
      assert Splits(buf, Split([], buf)) by { assert Concat([]) == []; }
      DrainUnique(buf, Split([], buf));
    } else {
      var later := Concat(chunks[1..]);
      assert buf + Concat(chunks) == (buf + chunks[0]) + later by {
        assert Concat(chunks) == chunks[0] + later;
      }
      var first := Drain(buf + chunks[0]);
      DrainSplits(buf + chunks[0]);
      assert Feed(buf, chunks) == Split(first.lines + Feed(first.rest, chunks[1..]).lines, Feed(first.rest, chunks[1..]).rest);
      FeedIsOneRead(first.rest, chunks[1..]);
      DrainAppend(buf + chunks[0], later);
    }
  }

  /** The number of delimiter bytes in `s`. */
  function NewlineCount(s: seq<byte>): nat
    decreases |s|
  {
    if |s| == 0 then 0 else (if s[0] == NL then 1 else 0) + NewlineCount(s[1..])
  }

  lemma {:induction false} NewlineCountAppend(a: seq<byte>, b: seq<byte>)
    ensures NewlineCount(a + b) == NewlineCount(a) + NewlineCount(b)
    decreases |a|
  {
    if |a| == 0 {
      assert a + b == b;
    } else {
      assert (a + b)[0] == a[0] && (a + b)[1..] == a[1..] + b;
      NewlineCountAppend(a[1..], b);
    }
  }

  lemma {:induction false} NewlineFreeCount(s: seq<byte>)
    requires NewlineFree(s)
    ensures NewlineCount(s) == 0
    decreases |s|
  {
    if |s| > 0 {
      NewlineFreeCount(s[1..]);
    }
  }

  lemma LineCount(l: seq<byte>)
    requires IsLine(l)
    ensures NewlineCount(l) == 1
  {
    var body := l[..|l| - 1];
    assert l == body + [NL];
    NewlineFreeCount(body);
    NewlineCountAppend(body, [NL]);
  }

  /** One line is emitted per delimiter byte in the stream. */
  lemma {:induction false} DrainCountsNewlines(buf: seq<byte>)
    ensures |Drain(buf).lines| == NewlineCount(buf)
    decreases |buf|
  {
    match FirstNewline(buf)
    case None =>
      NewlineFreeCount(buf);
    case Some(pos) =>
      var line := buf[..pos + 1];
      assert buf == line + buf[pos + 1..];
      assert IsLine(line) by { assert line[..|line| - 1] == buf[..pos]; }
      LineCount(line);
      NewlineCountAppend(line, buf[pos + 1..]);
      DrainCountsNewlines(buf[pos + 1..]);
  }

  /** A newline-free prefix in front of a line still makes one line. */
  lemma PrefixedLine(prefix: seq<byte>, line: seq<byte>)
    requires NewlineFree(prefix) && IsLine(line)
    ensures IsLine(prefix + line)
  {
    var r := prefix + line;
    assert r[..|r| - 1] == prefix + line[..|line| - 1];
    NewlineFreeAppend(prefix, line[..|line| - 1]);
  }

  /** A buffer with no delimiter drains nothing and is kept whole. */
  lemma DrainPartial(buf: seq<byte>)
    requires NewlineFree(buf)
    ensures Drain(buf) == Split([], buf)
  {
    assert Concat([]) == [];
    DrainUnique(buf, Split([], buf));
  }

  /** A buffer holding exactly one line drains to that line, leaving nothing. */
  lemma DrainOneLine(line: seq<byte>)
    requires IsLine(line)
    ensures Drain(line) == Split([line], [])
  {
    assert Concat([line]) == line by {
      assert Concat([line][1..]) == [];
    }
    DrainUnique(line, Split([line], []));
  }

  /** A line whose bytes arrive over two reads comes out whole, exactly once, and nothing is left over. */
  lemma PartialLineCarryOver(first: seq<byte>, second: seq<byte>)
    requires IsLine(first + second)
    ensures Feed([], [first, second]) == Split([first + second], [])
  {
    ConcatPair(first, second);
    FeedIsOneRead([], [first, second]);
    assert [] + (first + second) == first + second;
    DrainOneLine(first + second);
  }

  /**
    * The drain loop as the source writes it: look for the first delimiter,
    * cut the line off the front, repeat until none is left.
    */
  method DrainLoop(buf: seq<byte>) returns (lines: seq<seq<byte>>, rest: seq<byte>)
    ensures Splits(buf, Split(lines, rest))
    ensures Split(lines, rest) == Drain(buf)
  {
    lines := [];
    rest := buf;
    var pos := Position(rest);
    while pos.Some?
      invariant Concat(lines) + rest == buf
      invariant AllLines(lines)
      invariant FirstDelimiter(rest, pos)
      decreases |rest|
    {
      CutLine(buf, lines, rest, pos.value);
      lines := lines + [rest[..pos.value + 1]];
      rest := rest[pos.value + 1..];
      pos := Position(rest);
    }
    DrainUnique(buf, Split(lines, rest));
  }

  /** One turn of the drain loop keeps its invariant: the cut line is whole and nothing is lost. */
  lemma CutLine(buf: seq<byte>, lines: seq<seq<byte>>, rest: seq<byte>, pos: nat)
    requires Concat(lines) + rest == buf && AllLines(lines)
    requires FirstDelimiter(rest, Some(pos))
    ensures Concat(lines + [rest[..pos + 1]]) + rest[pos + 1..] == buf
    ensures AllLines(lines + [rest[..pos + 1]])
  {
    var line := rest[..pos + 1];
    assert line[..|line| - 1] == rest[..pos];
    assert rest == line + rest[pos + 1..];
    ConcatAppend(lines, [line]);
    assert Concat([line]) == line by { assert Concat([line][1..]) == []; }
  }

  /** A left-to-right scan for the first delimiter. */
  method Position(s: seq<byte>) returns (r: Option<nat>)
    ensures FirstDelimiter(s, r)
  {
    var i := 0;
    while i < |s|
      invariant 0 <= i <= |s|
      invariant NewlineFree(s[..i])
    {
      if s[i] == NL {
        return Some(i);
      }
      assert s[..i + 1] == s[..i] + [s[i]];
      i := i + 1;
    }
    assert s[..i] == s;
    return None;
  }
}
