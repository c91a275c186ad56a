/** The chunked line reader, packages/connector-sdk/src/lines.ts. Bytes stand for themselves; decoding a whole line is
  * left out.
  */
module Lines {

  newtype Byte = x: int | 0 <= x < 256

  const NEWLINE: Byte := 10
  const RETURN: Byte := 13
  const MAX_FRAME_BYTES: nat := 16 * 1024 * 1024

  type Bytes = seq<Byte>

  // ---- what the whole stream means ----

  /** Where the first newline at or after `start` stands, or the length. */
  function NewlineFrom(s: Bytes, start: nat): (n: nat)
    requires start <= |s|
    ensures start <= n <= |s|
    ensures forall i :: start <= i < n ==> s[i] != NEWLINE
    ensures n < |s| ==> s[n] == NEWLINE
    decreases |s| - start
  {
    if start == |s| || s[start] == NEWLINE then start else NewlineFrom(s, start + 1)
  }

  function FirstNewline(s: Bytes): nat {
    NewlineFrom(s, 0)
  }

  function DropReturn(line: Bytes): Bytes {
    if line != [] && line[|line| - 1] == RETURN then line[..|line| - 1] else line
  }

  /** What a reader has said: the lines so far, whether one was over the limit, and the bytes after the last line. */
  datatype Said = Said(lines: seq<Bytes>, overflow: bool, left: Bytes)

  /** The stream split on newlines, each line without one trailing return, up to the first line over the limit;
    * `before` are the lines already said. */
  function Split(before: seq<Bytes>, s: Bytes): Said
    decreases |s|
  {
    var n := FirstNewline(s);
    if n > MAX_FRAME_BYTES then Said(before, true, s)
    else if n == |s| then Said(before, false, s)
    else Split(before + [DropReturn(s[..n])], s[n + 1..])
  }

  // ---- splitting in parts ----

  lemma FirstNewlineIs(s: Bytes, n: nat)
    requires n <= |s| && (forall i :: 0 <= i < n ==> s[i] != NEWLINE) && (n < |s| ==> s[n] == NEWLINE)
    ensures FirstNewline(s) == n
  {
  }

  /** A stream with no line over the limit, and more bytes after it: its lines, then those of its tail and the rest. */
  lemma {:induction false} SplitMore(before: seq<Bytes>, s: Bytes, more: Bytes)
    requires !Split(before, s).overflow
    ensures Split(before, s + more) == Split(Split(before, s).lines, Split(before, s).left + more)
    decreases |s|
  {
    var n := FirstNewline(s);
    if n < |s| {
      FirstNewlineIs(s + more, n);
      assert (s + more)[..n] == s[..n];
      assert (s + more)[n + 1..] == s[n + 1..] + more;
      SplitMore(before + [DropReturn(s[..n])], s[n + 1..], more);
    }
  }

  /** What was said before stays in front. */
  lemma {:induction false} SplitAfter(before: seq<Bytes>, s: Bytes)
    ensures Split(before, s) == Split([], s).(lines := before + Split([], s).lines)
    decreases |s|
  {
    var n := FirstNewline(s);
    if n <= MAX_FRAME_BYTES && n < |s| {
      var line, rest := DropReturn(s[..n]), s[n + 1..];
      SplitAfter(before + [line], rest);
      SplitAfter([line], rest);
      assert [] + [line] == [line];
      assert before + ([line] + Split([], rest).lines) == (before + [line]) + Split([], rest).lines;
    }
  }

  /** Once a line is over the limit, nothing that follows changes what was said. */
  lemma {:induction false} OverflowStands(before: seq<Bytes>, s: Bytes, more: Bytes)
    requires Split(before, s).overflow
    ensures Split(before, s + more).overflow && Split(before, s + more).lines == Split(before, s).lines
    decreases |s|
  {
    var n := FirstNewline(s);
    if n <= MAX_FRAME_BYTES {
      FirstNewlineIs(s + more, n);
      assert (s + more)[..n] == s[..n];
      assert (s + more)[n + 1..] == s[n + 1..] + more;
      OverflowStands(before + [DropReturn(s[..n])], s[n + 1..], more);
    } else {
      assert forall i :: 0 <= i < n ==> (s + more)[i] == s[i];
      assert FirstNewline(s + more) >= n;
    }
  }

  // ---- the reader ----

  function Join(parts: seq<Bytes>): Bytes {
    if parts == [] then [] else Join(parts[..|parts| - 1]) + parts[|parts| - 1]
  }

  class LineReader {
    var pending: seq<Bytes>
    var size: nat

    ghost predicate Valid()
      reads this
    {
      && size == |Join(pending)| && size <= MAX_FRAME_BYTES
      && FirstNewline(Join(pending)) == size
    }

    constructor ()
      ensures Valid() && Join(pending) == []
    {
      pending := [];
      size := 0;
    }

    /** One chunk: the lines it completes, and whether a line went over the limit. */
    method Push(chunk: Bytes) returns (lines: seq<Bytes>, overflow: bool)
      requires Valid()
      modifies this
      ensures
        var said := Split([], old(Join(pending)) + chunk);
        lines == said.lines && overflow == said.overflow && (!overflow ==> Valid() && Join(pending) == said.left)
    {
      hide Split;
      ghost var held := Join(pending);
      ghost var left := held + chunk;
      ghost var said := Split([], left);
      lines := [];
      var start := 0;
      var end := NewlineFrom(chunk, 0);
      assert chunk[0..] == chunk;
      while end < |chunk|
        invariant held == Join(pending) && size == |held| <= MAX_FRAME_BYTES && FirstNewline(held) == |held|
        invariant 0 <= start <= |chunk| && end == NewlineFrom(chunk, start)
        invariant left == held + chunk[start..] && said == Split(lines, left)
        decreases |chunk| - start
      {
        var part := chunk[start..end];
        NextLine(lines, held, chunk, start, end);
        if size + |part| > MAX_FRAME_BYTES {
          return lines, true;
        }
        var line := TakeLine(part);
        left := [] + chunk[end + 1..];
        assert said == Split(lines + [DropReturn(line)], left);
        held := [];
        start := end + 1;
        lines := lines + [DropReturn(line)];
        end := NewlineFrom(chunk, start);
      }
      LastLine(lines, held, chunk, start);
      overflow := Keep(chunk[start..]);
    }

    /** The pending bytes and the part up to the newline are a line, and nothing is pending. */
    method TakeLine(part: Bytes) returns (line: Bytes)
      modifies this
      ensures line == old(Join(pending)) + part
      ensures Join(pending) == [] && size == 0
    {
      line := if pending == [] then part else Join(pending) + part;
      pending := [];
      size := 0;
    }

    /** What is left of a chunk waits for its newline. */
    method Keep(rest: Bytes) returns (overflow: bool)
      requires size == |Join(pending)| && FirstNewline(Join(pending) + rest) == size + |rest|
      modifies this
      ensures overflow <==> old(|Join(pending)|) + |rest| > MAX_FRAME_BYTES
      ensures !overflow ==> Valid() && Join(pending) == old(Join(pending)) + rest
    {
      size := size + |rest|;
      if size > MAX_FRAME_BYTES {
        return true;
      }
      overflow := false;
      if |rest| > 0 {
        assert (pending + [rest])[..|pending|] == pending;
        pending := pending + [rest];
      } else {
        assert Join(pending) + rest == Join(pending);
      }
    }
  }

  /** The pending bytes and the chunk up to its next newline are the next line. */
  lemma Reaches(pending: Bytes, chunk: Bytes, start: nat, end: nat)
    requires FirstNewline(pending) == |pending|
    requires start <= |chunk| && end == NewlineFrom(chunk, start)
    ensures
      var left := pending + chunk[start..];
      var n := |pending| + (end - start);
      && FirstNewline(left) == n && left[..n] == pending + chunk[start..end]
      && (end < |chunk| ==> n < |left| && left[n + 1..] == chunk[end + 1..] && [] + chunk[end + 1..] == left[n + 1..])
      && (end == |chunk| ==> n == |left|)
  {
    var left := pending + chunk[start..];
    var n := |pending| + (end - start);
    forall i | 0 <= i < n ensures left[i] != NEWLINE {
      if i >= |pending| {
        assert left[i] == chunk[start + i - |pending|];
      }
    }
    FirstNewlineIs(left, n);
  }

  /** The next line is over the limit, or is taken off the front. */
  lemma NextLine(lines: seq<Bytes>, held: Bytes, chunk: Bytes, start: nat, end: nat)
    requires FirstNewline(held) == |held| && start <= |chunk| && end == NewlineFrom(chunk, start) && end < |chunk|
    ensures
      var left := held + chunk[start..];
      var line := held + chunk[start..end];
      && (|line| > MAX_FRAME_BYTES ==> Split(lines, left) == Said(lines, true, left))
      && (|line| <= MAX_FRAME_BYTES ==> Split(lines, left) == Split(lines + [DropReturn(line)], [] + chunk[end + 1..]))
  {
    Reaches(held, chunk, start, end);
  }

  /** Without another newline, only the limit is left to check. */
  lemma LastLine(lines: seq<Bytes>, held: Bytes, chunk: Bytes, start: nat)
    requires FirstNewline(held) == |held| && start <= |chunk| && NewlineFrom(chunk, start) == |chunk|
    ensures
      var left := held + chunk[start..];
      Split(lines, left) == Said(lines, |left| > MAX_FRAME_BYTES, left) && FirstNewline(left) == |left|
  {
    Reaches(held, chunk, start, |chunk|);
  }

  // ---- any way of cutting ----

  function Concat(chunks: seq<Bytes>): Bytes {
    if chunks == [] then [] else chunks[0] + Concat(chunks[1..])
  }

  /** Feeding the chunks one by one until a line goes over the limit: what is said depends on the bytes alone. */
  method ReadAll(chunks: seq<Bytes>) returns (lines: seq<Bytes>, overflow: bool)
    ensures lines == Split([], Concat(chunks)).lines && overflow == Split([], Concat(chunks)).overflow
  {
    var reader := new LineReader();
    lines, overflow := [], false;
    ghost var read: Bytes := [];
    for k := 0 to |chunks|
      invariant reader.Valid() && fresh(reader) && !overflow
      invariant read + Concat(chunks[k..]) == Concat(chunks)
      invariant Split([], read) == Said(lines, false, Join(reader.pending))
    {
      assert chunks[k..] == [chunks[k]] + chunks[k + 1..];
      assert read + Concat(chunks[k..]) == read + chunks[k] + Concat(chunks[k + 1..]);
      SplitMore([], read, chunks[k]);
      SplitAfter(lines, Join(reader.pending) + chunks[k]);
      var more: seq<Bytes>;
      more, overflow := reader.Push(chunks[k]);
      lines := lines + more;
      read := read + chunks[k];
      if overflow {
        OverflowStands([], read, Concat(chunks[k + 1..]));
        return;
      }
    }
    assert chunks[|chunks|..] == [];
    assert read + [] == read;
  }

  // ---- what the split says ----

  /** Some stretch between newlines, finished or not, is over the limit. */
  ghost predicate LineOver(s: Bytes) {
    exists i: nat, j: nat :: OverAt(s, i, j)
  }

  ghost predicate OverAt(s: Bytes, i: nat, j: nat) {
    i <= j <= |s| && j - i > MAX_FRAME_BYTES && forall k :: i <= k < j ==> s[k] != NEWLINE
  }

  /** Overflow is said exactly when some line of the stream is over the limit. */
  lemma {:induction false} OverflowIsLineOver(before: seq<Bytes>, s: Bytes)
    ensures Split(before, s).overflow <==> LineOver(s)
    decreases |s|
  {
    var n := FirstNewline(s);
    if n > MAX_FRAME_BYTES {
      assert OverAt(s, 0, n);
    } else if n == |s| {
      assert !LineOver(s);
    } else {
      OverflowIsLineOver(before + [DropReturn(s[..n])], s[n + 1..]);
      OverPast(s, n);
    }
  }

  /** A line over the limit stands past a first line within it. */
  lemma OverPast(s: Bytes, n: nat)
    requires n == FirstNewline(s) && n < |s| && n <= MAX_FRAME_BYTES
    ensures LineOver(s) <==> LineOver(s[n + 1..])
  {
    var rest := s[n + 1..];
    if LineOver(rest) {
      var i: nat, j: nat :| OverAt(rest, i, j);
      forall k | n + 1 + i <= k < n + 1 + j ensures s[k] != NEWLINE {
        assert s[k] == rest[k - n - 1];
      }
      assert OverAt(s, n + 1 + i, n + 1 + j);
    }
    if LineOver(s) {
      var i: nat, j: nat :| OverAt(s, i, j);
      assert i > n;
      assert OverAt(rest, i - n - 1, j - n - 1);
    }
  }

  /** The lines themselves, terminated again, with returns kept. */
  function Terminated(lines: seq<Bytes>): Bytes {
    if lines == [] then [] else lines[0] + [NEWLINE] + Terminated(lines[1..])
  }

  lemma OneLine(before: seq<Bytes>, line: Bytes, left: Bytes, stream: Bytes)
    requires |line| <= MAX_FRAME_BYTES && NEWLINE !in line && (line != [] ==> line[|line| - 1] != RETURN)
    requires stream == line + [NEWLINE] + left
    ensures Split(before, stream) == Split(before + [line], left)
  {
    hide FirstNewline;
    var n := |line|;
    assert stream[n] == NEWLINE && forall i :: 0 <= i < n ==> stream[i] == line[i];
    forall i | 0 <= i < n ensures stream[i] != NEWLINE {
      assert line[i] in line;
    }
    FirstNewlineIs(stream, n);
    assert stream[..n] == line && stream[n + 1..] == left;
    assert DropReturn(line) == line;
    SplitFirst(before, stream, n);
  }

  lemma SplitFirst(before: seq<Bytes>, s: Bytes, n: nat)
    requires n == FirstNewline(s) && n < |s| && n <= MAX_FRAME_BYTES
    ensures Split(before, s) == Split(before + [DropReturn(s[..n])], s[n + 1..])
  {
    hide FirstNewline, DropReturn;
  }

  ghost predicate PlainLines(lines: seq<Bytes>) {
    forall k :: 0 <= k < |lines| ==>
      |lines[k]| <= MAX_FRAME_BYTES && NEWLINE !in lines[k] && (lines[k] != [] ==> lines[k][|lines[k]| - 1] != RETURN)
  }

  lemma {:induction false} SplitTakesLines(
      lines: seq<Bytes>, before: seq<Bytes>, left: Bytes, stream: Bytes, after: seq<Bytes>)
    requires PlainLines(lines) && stream == Terminated(lines) + left && after == before + lines
    ensures Split(before, stream) == Split(after, left)
    decreases |lines|
  {
    if lines == [] {
      assert stream == left && after == before;
    } else {
      var line, rest := lines[0], Terminated(lines[1..]) + left;
      assert stream == line + [NEWLINE] + rest;
      assert after == (before + [line]) + lines[1..];
      OneLine(before, line, rest, stream);
      SplitTakesLines(lines[1..], before + [line], left, rest, after);
    }
  }

  /** Nothing is invented or dropped: lines within the limit that end in no return come back from their stream. */
  lemma SplitUndoesTerminated(lines: seq<Bytes>)
    requires PlainLines(lines)
    ensures Split([], Terminated(lines)) == Said(lines, false, [])
  {
    SplitTakesLines(lines, [], [], Terminated(lines), lines);
  }
}
