/** Reading a growing file line by line: what was appended since the last time, up to its
    last whole line (internal/server/agentwork.go). */
module WholeLines {
  import opened Base

  const Newline: byte := 10

  /** Up to and with the first newline; 0 for none. */
  function LineLength(b: Bytes): (n: nat)
    ensures n <= |b|
  {
    if b == [] then 0
    else if b[0] == Newline then 1
    else
      var n := LineLength(b[1..]);
      if n == 0 then 0 else n + 1
  }

  lemma {:induction false} LineEnds(b: Bytes)
    ensures var n := LineLength(b);
      if n == 0 then forall i :: 0 <= i < |b| ==> b[i] != Newline
      else b[n - 1] == Newline && forall i :: 0 <= i < n - 1 ==> b[i] != Newline
  {
    if b != [] && b[0] != Newline {
      LineEnds(b[1..]);
      assert forall i :: 0 < i < |b| ==> b[i] == b[1..][i - 1];
    }
  }

  /** The whole lines of a file, each with its newline. */
  function Lines(b: Bytes): seq<Bytes>
    decreases |b|
  {
    var n := LineLength(b);
    if n == 0 then [] else [b[..n]] + Lines(b[n..])
  }

  /** Where the last whole line ends. */
  function WholeLength(b: Bytes): (n: nat)
    ensures n <= |b|
    decreases |b|
  {
    var n := LineLength(b);
    if n == 0 then 0 else n + WholeLength(b[n..])
  }

  function FoldLines<S>(line: (S, Bytes) -> S, s: S, lines: seq<Bytes>): S
    decreases |lines|
  {
    if lines == [] then s else FoldLines(line, line(s, lines[0]), lines[1..])
  }

  /** A read that starts at an offset, on the text from there on, with what stands there. */
  function ReadOn<S>(line: (S, Bytes) -> S, o: nat, s: S, left: Bytes): (nat, S) {
    (o + WholeLength(left), FoldLines(line, s, Lines(left)))
  }

  /** A file shorter than what was read is another, and is read from its start. */
  function Reread<S>(line: (S, Bytes) -> S, start: S, o: nat, s: S, file: Bytes): (nat, S) {
    if |file| < o then ReadOn(line, 0, start, file) else ReadOn(line, o, s, file[o..])
  }

  lemma FoldFront<S>(line: (S, Bytes) -> S, s: S, b: Bytes, lines: seq<Bytes>)
    ensures FoldLines(line, s, [b] + lines) == FoldLines(line, line(s, b), lines)
  {
    assert ([b] + lines)[1..] == lines;
  }

  /** Reading one whole line off the front. */
  lemma ReadStep<S>(line: (S, Bytes) -> S, o: nat, s: S, left: Bytes, n: nat)
    requires n == LineLength(left) > 0
    ensures ReadOn(line, o, s, left) == ReadOn(line, o + n, line(s, left[..n]), left[n..])
  {
    FoldFront(line, s, left[..n], Lines(left[n..]));
  }

  lemma ReadEnd<S>(line: (S, Bytes) -> S, o: nat, s: S, left: Bytes)
    requires LineLength(left) == 0
    ensures ReadOn(line, o, s, left) == (o, s)
  {
  }

  /** ReadBytes('\n'): the length of the next whole line, 0 while it is still being written. */
  method NextLine(b: Bytes) returns (n: nat)
    ensures n == LineLength(b)
  {
    LineEnds(b);
    var i := 0;
    while i < |b| && b[i] != Newline
      invariant 0 <= i <= |b| && forall j :: 0 <= j < i ==> b[j] != Newline
    {
      i := i + 1;
    }
    n := if i < |b| then i + 1 else 0;
  }

  // ---- reading as it grows -------------------------------------------------------------------

  lemma {:induction false} LineInFront(a: Bytes, b: Bytes)
    requires LineLength(a) > 0
    ensures LineLength(a + b) == LineLength(a)
  {
    if a[0] != Newline {
      assert (a + b)[1..] == a[1..] + b;
      LineInFront(a[1..], b);
    }
  }

  lemma FirstLine(b: Bytes, first: Bytes, rest: Bytes)
    requires b == first + rest && first != [] && LineLength(b) == |first|
    ensures Lines(b) == [first] + Lines(rest) && WholeLength(b) == |first| + WholeLength(rest)
  {
    assert b[..|first|] == first && b[|first|..] == rest;
  }

  /** After whole lines, what is appended is read by itself. */
  lemma {:induction false} LinesAppend(a: Bytes, b: Bytes)
    requires WholeLength(a) == |a|
    ensures Lines(a + b) == Lines(a) + Lines(b) && WholeLength(a + b) == |a| + WholeLength(b)
    decreases |a|
  {
    var n := LineLength(a);
    if n == 0 {
      assert a == [] && a + b == b;
    } else {
      var first, rest := a[..n], a[n..];
      LineInFront(a, b);
      assert a == first + rest;
      AppendBehind(first, rest, b);
      FirstLine(a, first, rest);
      FirstLine(a + b, first, rest + b);
      LinesAppend(rest, b);
      AppendBehind([first], Lines(rest), Lines(b));
    }
  }

  lemma {:induction false} WholePart(b: Bytes)
    ensures var w := b[..WholeLength(b)];
      WholeLength(w) == |w| && Lines(w) == Lines(b)
    decreases |b|
  {
    var n := LineLength(b);
    if n > 0 {
      WholePart(b[n..]);
      LineEnds(b);
      var rest := b[n..][..WholeLength(b[n..])];
      var w := b[..WholeLength(b)];
      assert w == b[..n] + rest;
      SingleLine(b[..n]);
      LinesAppend(b[..n], rest);
      assert Lines(b) == [b[..n]] + Lines(b[n..]);
    }
  }

  lemma SingleLine(b: Bytes)
    requires b != [] && b[|b| - 1] == Newline && forall i :: 0 <= i < |b| - 1 ==> b[i] != Newline
    ensures WholeLength(b) == |b| && Lines(b) == [b]
  {
    LineEnds(b);
    assert LineLength(b) == |b| && b[..|b|] == b && b[|b|..] == [];
    assert LineLength([]) == 0;
  }

  lemma {:induction false} FoldAppend<S>(line: (S, Bytes) -> S, s: S, a: seq<Bytes>, b: seq<Bytes>)
    ensures FoldLines(line, s, a + b) == FoldLines(line, FoldLines(line, s, a), b)
    decreases |a|
  {
    if a == [] {
      assert a + b == b;
    } else {
      assert (a + b)[1..] == a[1..] + b;
      FoldAppend(line, line(s, a[0]), a[1..], b);
    }
  }

  /** The reader stands at the file's last line end, with what reading the whole file in one
      go would give. */
  ghost predicate CaughtUp<S(!new)>(line: (S, Bytes) -> S, start: S, at: (nat, S), file: Bytes) {
    at.0 == WholeLength(file) && at.1 == FoldLines(line, start, Lines(file))
  }

  /** A read catches up with any file that kept what was read, or is shorter than it. */
  lemma ReadCatchesUp<S(!new)>(line: (S, Bytes) -> S, start: S, at: (nat, S), was: Bytes, file: Bytes)
    requires CaughtUp(line, start, at, was)
    requires |file| < at.0 || file[..at.0] == was[..at.0]
    ensures CaughtUp(line, start, Reread(line, start, at.0, at.1, file), file)
  {
    if |file| >= at.0 {
      var head, rest := file[..at.0], file[at.0..];
      WholePart(was);
      assert file == head + rest;
      LinesAppend(head, rest);
      FoldAppend(line, start, Lines(head), Lines(rest));
    }
  }

  /** Reads of a file at whatever moments, each picking up where the last one stood. */
  function Reads<S>(line: (S, Bytes) -> S, start: S, files: seq<Bytes>): (nat, S) {
    if files == [] then (0, start)
    else
      var at := Reads(line, start, files[..|files| - 1]);
      Reread(line, start, at.0, at.1, files[|files| - 1])
  }

  ghost predicate Growing(files: seq<Bytes>) {
    forall i :: 0 <= i < |files| - 1 ==> files[i] <= files[i + 1]
  }

  /** For a file that only grows, incremental reading equals reading it all, wherever the
      reads fell, in the middle of a line included. */
  lemma {:induction false} IncrementalIsBatch<S(!new)>(line: (S, Bytes) -> S, start: S, files: seq<Bytes>)
    requires files != [] && Growing(files)
    ensures CaughtUp(line, start, Reads(line, start, files), files[|files| - 1])
    decreases |files|
  {
    var front, file := files[..|files| - 1], files[|files| - 1];
    var at := Reads(line, start, front);
    if front == [] {
      ReadCatchesUp(line, start, at, [], file);
    } else {
      IncrementalIsBatch(line, start, front);
      assert front[|front| - 1] <= file;
      ReadCatchesUp(line, start, at, front[|front| - 1], file);
    }
  }

  /** The offset is at a line end, and the last one. */
  lemma {:induction false} WholeLengthIsLastLineEnd(b: Bytes)
    ensures var o := WholeLength(b);
      (o > 0 ==> b[o - 1] == Newline) && forall i :: o <= i < |b| ==> b[i] != Newline
    decreases |b|
  {
    var n := LineLength(b);
    LineEnds(b);
    if n > 0 {
      WholeLengthIsLastLineEnd(b[n..]);
      forall i | WholeLength(b) <= i < |b| ensures b[i] != Newline {
        assert b[i] == b[n..][i - n];
      }
    }
  }
}
