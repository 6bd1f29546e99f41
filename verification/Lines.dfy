/** Lines of text, as readers of byte streams find them. */
module Lines {
  import opened Bytes
  import opened Options

  const LF: byte := 10
  const CR: byte := 13

  /** The index of the first line feed. */
  function LineEnd(s: bytes): (r: Option<nat>)
    ensures r.Some? ==> r.value < |s| && s[r.value] == LF && LF !in s[..r.value]
    ensures r.None? ==> LF !in s
  {
    if s == [] then None
    else if s[0] == LF then Some(0)
    else
      var i :- LineEnd(s[1..]);
      Some(i + 1)
  }

  lemma {:induction false} LineEndAt(line: bytes, rest: bytes)
    requires LF !in line
    ensures LineEnd(line + [LF] + rest) == Some(|line|)
    ensures (line + [LF] + rest)[..|line|] == line
    ensures (line + [LF] + rest)[..|line| + 1] == line + [LF] && (line + [LF] + rest)[|line| + 1..] == rest
  {
    var s := line + [LF] + rest;
    if line != [] {
      assert s[1..] == line[1..] + [LF] + rest;
      LineEndAt(line[1..], rest);
    }
  }

  // ----- bufio.Scanner with an 8 MiB buffer -----

  const MAX_LINE := 0x80_0000

  function DropCr(line: bytes): (r: bytes)
    ensures |r| <= |line| && (LF !in line ==> LF !in r)
  {
    if line != [] && line[|line| - 1] == CR then line[..|line| - 1] else line
  }

  /** The lines scanned from data; scanning stops for good at a line that does not fit the buffer. */
  function Scan(data: bytes): (lines: seq<bytes>)
    ensures forall l | l in lines :: LF !in l && |l| < MAX_LINE
    decreases |data|
  {
    if data == [] then []
    else
      match LineEnd(data)
      case None => if |data| < MAX_LINE then [DropCr(data)] else []
      case Some(i) => if i < MAX_LINE then [DropCr(data[..i])] + Scan(data[i + 1..]) else []
  }

  /** Every line followed by a line feed. */
  function Unlines(lines: seq<bytes>): bytes
    decreases |lines|
  {
    if lines == [] then [] else lines[0] + [LF] + Unlines(lines[1..])
  }

  function DropCrs(lines: seq<bytes>): (r: seq<bytes>)
    ensures |r| == |lines|
  {
    seq(|lines|, i requires 0 <= i < |lines| => DropCr(lines[i]))
  }

  lemma UnlinesAppend(lines: seq<bytes>, line: bytes)
    ensures Unlines(lines + [line]) == Unlines(lines) + (line + [LF])
    decreases |lines|
  {
    if lines == [] {
      assert lines + [line] == [line] && [line][1..] == [];
      assert Unlines([line]) == line + [LF] + [];
    } else {
      assert (lines + [line])[1..] == lines[1..] + [line];
      UnlinesAppend(lines[1..], line);
    }
  }

  /** One carriage return at a line's end is dropped, and nothing else. */
  lemma DropsOneCr(line: bytes)
    ensures DropCr(line + [13]) == line
    ensures line == [] || line[|line| - 1] != 13 ==> DropCr(line) == line
  {
    assert (line + [13])[..|line + [13]| - 1] == line;
  }

  lemma NoLines()
    ensures Unlines([]) == [] && DropCrs([]) == []
  {
  }

  lemma ScanStep(line: bytes, rest: bytes)
    requires LF !in line && |line| < MAX_LINE
    ensures Scan(line + [LF] + rest) == [DropCr(line)] + Scan(rest)
  {
    hide LineEnd, DropCr;
    LineEndAt(line, rest);
  }

  // What is scanned from text that ends inside a line.
  lemma ScanLast(last: bytes, rest: bytes)
    requires 10 !in last && (rest == [] || rest[0] == 10)
    ensures |last| >= 8388608 ==> Scan(last + rest) == []
    ensures |last| < 8388608 && rest == [] ==> Scan(last + rest) == if last == [] then [] else [DropCr(last)]
  {
    hide DropCr, LineEnd;
    if rest == [] {
      assert last + rest == last;
    } else {
      LineEndAt(last, rest[1..]);
      assert last + rest == last + [LF] + rest[1..];
    }
  }

  /**
   * The scanner in full: every line that ends with a line feed, then a last line without one, but nothing from the
   * first line of eight MiB or more on.
   */
  lemma {:induction false} ScanExact(lines: seq<bytes>, last: bytes, rest: bytes)
    requires (forall l | l in lines :: 10 !in l && |l| < 8388608) && 10 !in last && (rest == [] || rest[0] == 10)
    ensures |last| >= 8388608 ==> Scan(Unlines(lines) + (last + rest)) == DropCrs(lines)
    ensures |last| < 8388608 && rest == [] ==>
              Scan(Unlines(lines) + (last + rest)) == DropCrs(lines) + (if last == [] then [] else [DropCr(last)])
    decreases |lines|
  {
    hide LineEnd, DropCr, DropCrs, Scan, Unlines;
    NoLines();
    var tail := last + rest;
    if lines == [] {
      assert Unlines(lines) + tail == tail;
      ScanLast(last, rest);
    } else {
      assert lines[0] in lines;
      FirstLine(lines, tail);
      DropFirst(lines);
      ScanStep(lines[0], Unlines(lines[1..]) + tail);
      ScanExact(lines[1..], last, rest);
    }
  }

  lemma FirstLine(lines: seq<bytes>, tail: bytes)
    requires lines != []
    ensures Unlines(lines) + tail == lines[0] + [LF] + (Unlines(lines[1..]) + tail)
  {
    assert Unlines(lines) == lines[0] + [LF] + Unlines(lines[1..]);
  }

  lemma DropFirst(lines: seq<bytes>)
    requires lines != []
    ensures DropCrs(lines) == [DropCr(lines[0])] + DropCrs(lines[1..])
  {
    hide DropCr;
    var r := [DropCr(lines[0])] + DropCrs(lines[1..]);
    assert |r| == |lines|;
    forall i | 0 <= i < |lines|
      ensures DropCrs(lines)[i] == r[i]
    {
    }
  }

  /** Scanning what was written line by line gives the lines back, a trailing carriage return aside. */
  lemma {:induction false} ScanUnlines(lines: seq<bytes>)
    requires forall l | l in lines :: LF !in l && |l| < MAX_LINE
    ensures Scan(Unlines(lines)) == DropCrs(lines)
    decreases |lines|
  {
    hide LineEnd, DropCr, DropCrs;
    if lines == [] {
      NoLines();
    } else {
      assert lines[0] in lines;
      LineEndAt(lines[0], Unlines(lines[1..]));
      ScanUnlines(lines[1..]);
      DropFirst(lines);
    }
  }
}
