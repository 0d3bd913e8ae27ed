// Splitting a byte stream into lines the way `bufio.ScanLines` does: each
// line ends at a '\n', one trailing '\r' is dropped from it, and a final
// line without a newline still counts; a final newline does not start an
// extra empty line.

module Lines {
  import opened ByteCount

  const LF: byte := 10
  const CR: byte := 13

  /** `line` without one trailing carriage return, if it has one. */
  function DropCR(line: seq<byte>): (r: seq<byte>)
    ensures r == line || (line == r + [CR])
    ensures |line| > 0 && line[|line| - 1] == CR ==> line == r + [CR]
  {
    if |line| > 0 && line[|line| - 1] == CR then line[..|line| - 1] else line
  }

  /** The index of the first `b` in `s`, or -1 when there is none. */
  function IndexByte(s: seq<byte>, b: byte): (i: int)
    ensures -1 <= i < |s|
    ensures 0 <= i ==> s[i] == b
  {
    if |s| == 0 then -1
    else if s[0] == b then 0
    else
      var j := IndexByte(s[1..], b);
      if j < 0 then -1 else j + 1
  }

  /** No `b` comes before the index `IndexByte` returns, and none at all when it returns -1. */
  lemma {:induction false} IndexByteIsFirst(s: seq<byte>, b: byte)
    ensures forall k :: 0 <= k < |s| && (IndexByte(s, b) < 0 || k < IndexByte(s, b)) ==> s[k] != b
    decreases |s|
  {
    if |s| > 0 && s[0] != b {
      IndexByteIsFirst(s[1..], b);
      forall k | 0 < k < |s| ensures s[k] == s[1..][k - 1] { }
    }
  }

  /** The lines `bufio.ScanLines` yields for `data`, in order. */
  function ScanLines(data: seq<byte>): (r: seq<seq<byte>>)
    ensures r == [] <==> data == []
    decreases |data|
  {
    if |data| == 0 then []
    else
      var i := IndexByte(data, LF);
      if i >= 0 then [DropCR(data[..i])] + ScanLines(data[i + 1..])
      else [DropCR(data)]
  }

  /** Each line followed by a newline, all concatenated: the inverse of splitting. */
  function Terminated(lines: seq<seq<byte>>): seq<byte>
  {
    if lines == [] then [] else lines[0] + [LF] + Terminated(lines[1..])
  }

  /** `ScanLines` unfolded once, when `data` holds a newline. */
  lemma ScanLinesAtNewline(data: seq<byte>, i: nat)
    requires i == IndexByte(data, LF)
    ensures ScanLines(data) == [DropCR(data[..i])] + ScanLines(data[i + 1..])
  {
  }

  /** `ScanLines` unfolded once, when `data` is non-empty and holds no newline. */
  lemma ScanLinesWithoutNewline(data: seq<byte>)
    requires |data| > 0 && IndexByte(data, LF) < 0
    ensures ScanLines(data) == [DropCR(data)]
  {
  }

  /** A line ended by `"\r\n"` comes out without either byte, and scanning goes on after them. */
  lemma CRLFEndsLine(x: seq<byte>, y: seq<byte>)
    requires LF !in x
    ensures ScanLines(x + [CR, LF] + y) == [x] + ScanLines(y)
  {
    var d := x + [CR, LF] + y;
    var i := IndexByte(d, LF);
    IndexByteIsFirst(d, LF);
    assert d[|x| + 1] == LF;
    assert i == |x| + 1 by {
      forall k | 0 <= k < |x| + 1 ensures d[k] != LF {
        if k < |x| { assert d[k] == x[k]; } else { assert d[k] == CR; }
      }
    }
    assert d[..i] == x + [CR];
    assert d[i + 1..] == y;
    ScanLinesAtNewline(d, i);
  }

  /** Total length of the lines. */
  function TotalLength(lines: seq<seq<byte>>): nat
  {
    if lines == [] then 0 else |lines[0]| + TotalLength(lines[1..])
  }

  /** The first line, before dropping its carriage return, holds no newline. */
  lemma FirstLineHasNoNewline(data: seq<byte>)
    ensures var i := IndexByte(data, LF);
      LF !in DropCR(if i >= 0 then data[..i] else data)
  {
    IndexByteIsFirst(data, LF);
    var i := IndexByte(data, LF);
    var first := if i >= 0 then data[..i] else data;
    var r := DropCR(first);
    forall k | 0 <= k < |r| ensures r[k] != LF {
      assert r[k] == first[k] == data[k];
    }
  }

  /** No line of `lines` holds a newline byte. */
  predicate NoNewlineIn(lines: seq<seq<byte>>)
  {
    forall k :: 0 <= k < |lines| ==> LF !in lines[k]
  }

  lemma NoNewlineInCons(line: seq<byte>, lines: seq<seq<byte>>)
    requires LF !in line && NoNewlineIn(lines)
    ensures NoNewlineIn([line] + lines)
  {
    forall k | 0 < k < |[line] + lines| ensures LF !in ([line] + lines)[k] {
      assert ([line] + lines)[k] == lines[k - 1];
    }
  }

  /** No line holds a newline byte. */
  lemma {:induction false} LinesHaveNoNewline(data: seq<byte>)
    ensures NoNewlineIn(ScanLines(data))
    decreases |data|
  {
    if |data| > 0 {
      var i := IndexByte(data, LF);
      FirstLineHasNoNewline(data);
      if i >= 0 {
        LinesHaveNoNewline(data[i + 1..]);
        NoNewlineInCons(DropCR(data[..i]), ScanLines(data[i + 1..]));
        ScanLinesAtNewline(data, i);
      } else {
        NoNewlineInCons(DropCR(data), []);
        ScanLinesWithoutNewline(data);
        assert [DropCR(data)] + [] == [DropCR(data)];
      }
    }
  }

  /**
    * No carriage return sits just before a newline or at the very end, so
    * no line of the data ends in '\r' and `DropCR` has nothing to drop.
    */
  predicate NoLineEndsInCR(data: seq<byte>)
  {
    forall k :: 0 <= k < |data| && data[k] == CR ==> k + 1 < |data| && data[k + 1] != LF
  }

  /** What follows a position of such data has no line ending in '\r' either. */
  lemma NoLineEndsInCRSuffix(data: seq<byte>, j: nat)
    requires j <= |data| && NoLineEndsInCR(data)
    ensures NoLineEndsInCR(data[j..])
  {
    forall k | 0 <= k < |data[j..]| && data[j..][k] == CR
      ensures k + 1 < |data[j..]| && data[j..][k + 1] != LF
    {
      assert data[j..][k] == data[j + k];
      if j + k + 1 < |data| { assert data[j..][k + 1] == data[j + k + 1]; }
    }
  }

  /**
    * Round trip for data in which no line ends in a carriage return:
    * terminating every line with a newline gives back the data, with a
    * newline added when the last line had none.
    */
  lemma {:induction false} ScanLinesRoundTrip(data: seq<byte>)
    requires NoLineEndsInCR(data)
    ensures Terminated(ScanLines(data)) == WithFinalNewline(data)
    decreases |data|
  {
    if |data| > 0 {
      var i := IndexByte(data, LF);
      if i >= 0 {
        NoLineEndsInCRSuffix(data, i + 1);
        ScanLinesRoundTrip(data[i + 1..]);
        RoundTripFirstLine(data, i);
      } else {
        RoundTripLastLine(data);
      }
    }
  }

  /** `data`, with a newline appended unless it is empty or already ends with one. */
  function WithFinalNewline(data: seq<byte>): (r: seq<byte>)
    ensures r == data || r == data + [LF]
  {
    if data == [] || data[|data| - 1] == LF then data else data + [LF]
  }

  /** The round trip's inductive step, for data whose first newline is at `i`. */
  lemma RoundTripFirstLine(data: seq<byte>, i: nat)
    requires NoLineEndsInCR(data) && i < |data| && i == IndexByte(data, LF)
    requires Terminated(ScanLines(data[i + 1..])) == WithFinalNewline(data[i + 1..])
    ensures Terminated(ScanLines(data)) == WithFinalNewline(data)
  {
    var line, rest := data[..i], data[i + 1..];
    assert DropCR(line) == line by {
      if i > 0 {
        assert data[i] == LF;
        assert line[|line| - 1] == data[i - 1] != CR;
      }
    }
    ScanLinesAtNewline(data, i);
    TerminatedCons(line, ScanLines(rest));
    RoundTripStep(data, i, WithFinalNewline(rest));
  }

  /** The round trip for data without a newline: one line, terminated. */
  lemma RoundTripLastLine(data: seq<byte>)
    requires NoLineEndsInCR(data) && |data| > 0 && IndexByte(data, LF) < 0
    ensures Terminated(ScanLines(data)) == WithFinalNewline(data)
  {
    assert data[|data| - 1] != CR;
    assert data[|data| - 1] != LF by {
      IndexByteIsFirst(data, LF);
    }
    assert DropCR(data) == data;
    ScanLinesWithoutNewline(data);
    TerminatedCons(data, []);
  }

  /** The round trip's step: the first line and its newline, then the rest. */
  lemma RoundTripStep(data: seq<byte>, i: nat, restBack: seq<byte>)
    requires i < |data| && data[i] == LF
    requires restBack == WithFinalNewline(data[i + 1..])
    ensures data[..i] + [LF] + restBack == WithFinalNewline(data)
  {
    var rest := data[i + 1..];
    assert data == data[..i] + [LF] + rest;
    if rest != [] {
      assert rest[|rest| - 1] == data[|data| - 1];
    }
  }

  lemma TerminatedCons(line: seq<byte>, lines: seq<seq<byte>>)
    ensures Terminated([line] + lines) == line + [LF] + Terminated(lines)
  {
    assert ([line] + lines)[1..] == lines;
  }

  /** `IndexByte` finds the same newline in `x + y` as in `x` when `x` has one. */
  lemma IndexByteInPrefix(x: seq<byte>, y: seq<byte>)
    requires 0 <= IndexByte(x, LF)
    ensures IndexByte(x + y, LF) == IndexByte(x, LF)
  {
    var i, j := IndexByte(x, LF), IndexByte(x + y, LF);
    IndexByteIsFirst(x, LF);
    IndexByteIsFirst(x + y, LF);
    assert (x + y)[i] == LF;
    assert forall k :: 0 <= k < i ==> (x + y)[k] == x[k];
  }

  /** Scanning two pieces separately gives the same lines when the first ends with a newline. */
  lemma {:induction false} ScanLinesAppend(x: seq<byte>, y: seq<byte>)
    requires x == [] || x[|x| - 1] == LF
    ensures ScanLines(x + y) == ScanLines(x) + ScanLines(y)
    decreases |x|
  {
    if x != [] {
      var i := IndexByte(x, LF);
      assert 0 <= i by {
        IndexByteIsFirst(x, LF);
        assert x[|x| - 1] == LF;
      }
      ScanLinesAppend(x[i + 1..], y);
      ScanLinesAppendStep(x, y, i);
    } else {
      assert x + y == y;
    }
  }

  /** `ScanLinesAppend`'s inductive step, for `x` whose first newline is at `i`. */
  lemma ScanLinesAppendStep(x: seq<byte>, y: seq<byte>, i: nat)
    requires i == IndexByte(x, LF)
    requires ScanLines(x[i + 1..] + y) == ScanLines(x[i + 1..]) + ScanLines(y)
    ensures ScanLines(x + y) == ScanLines(x) + ScanLines(y)
  {
    var a, b, c := [DropCR(x[..i])], ScanLines(x[i + 1..]), ScanLines(y);
    assert ScanLines(x) == a + b by {
      ScanLinesAtNewline(x, i);
    }
    assert ScanLines(x + y) == a + (b + c) by {
      ScanLinesPastNewline(x, y, i);
    }
    AppendAssociates(a, b, c);
  }

  lemma AppendAssociates<T>(a: seq<T>, b: seq<T>, c: seq<T>)
    ensures a + (b + c) == (a + b) + c
  {
  }

  /** The first line of `x + y` is that of `x` when `x` holds a newline. */
  lemma ScanLinesPastNewline(x: seq<byte>, y: seq<byte>, i: nat)
    requires i == IndexByte(x, LF)
    ensures ScanLines(x + y) == [DropCR(x[..i])] + ScanLines(x[i + 1..] + y)
  {
    IndexByteInPrefix(x, y);
    assert (x + y)[..i] == x[..i];
    assert (x + y)[i + 1..] == x[i + 1..] + y;
    ScanLinesAtNewline(x + y, i);
  }

  /** One line per newline, plus one for a last line that lacks its newline. */
  lemma {:induction false} LineCount(data: seq<byte>)
    ensures |ScanLines(data)| == Count(data, [LF]) + OpenTail(data)
    decreases |data|
  {
    if |data| > 0 {
      var i := IndexByte(data, LF);
      if i >= 0 {
        LineCount(data[i + 1..]);
        LineCountStep(data, i);
      } else {
        LineCountLast(data);
      }
    }
  }

  /** 1 when `data` ends in a line without its newline, else 0. */
  function OpenTail(data: seq<byte>): (n: nat)
    ensures n == 1 <==> data != [] && data[|data| - 1] != LF
    ensures n <= 1
  {
    if data != [] && data[|data| - 1] != LF then 1 else 0
  }

  /** `LineCount`'s inductive step, for data whose first newline is at `i`. */
  lemma LineCountStep(data: seq<byte>, i: nat)
    requires i < |data| && i == IndexByte(data, LF)
    requires |ScanLines(data[i + 1..])| == Count(data[i + 1..], [LF]) + OpenTail(data[i + 1..])
    ensures |ScanLines(data)| == Count(data, [LF]) + OpenTail(data)
  {
    IndexByteIsFirst(data, LF);
    assert LF !in data[..i] by {
      forall k | 0 <= k < i ensures data[..i][k] != LF { assert data[..i][k] == data[k]; }
    }
    CountSkipsToByte(data, LF, i);
    ScanLinesAtNewline(data, i);
    if data[i + 1..] != [] {
      assert data[i + 1..][|data[i + 1..]| - 1] == data[|data| - 1];
    }
  }

  /** `LineCount` for non-empty data without a newline: one line, and nothing to count. */
  lemma LineCountLast(data: seq<byte>)
    requires |data| > 0 && IndexByte(data, LF) < 0
    ensures |ScanLines(data)| == Count(data, [LF]) + OpenTail(data)
  {
    IndexByteIsFirst(data, LF);
    CountZeroIffAbsent(data, [LF]);
    forall p ensures !OccursAt(data, [LF], p) {
      if 0 <= p < |data| { assert data[p..p + 1][0] == data[p]; }
    }
    ScanLinesWithoutNewline(data);
  }

  /** Counting one byte: everything before its first occurrence is skipped. */
  lemma {:induction false} CountSkipsToByte(s: seq<byte>, b: byte, i: nat)
    requires i < |s| && s[i] == b && b !in s[..i]
    ensures Count(s, [b]) == 1 + Count(s[i + 1..], [b])
    decreases i
  {
    if i == 0 {
      assert s[..1] == [b];
    } else {
      assert s[..1] != [b] by { assert s[0] in s[..i]; }
      assert s[1..][..i - 1] == s[..i][1..];
      assert s[1..][i - 1 + 1..] == s[i + 1..];
      CountSkipsToByte(s[1..], b, i - 1);
    }
  }

  /** The lines are never longer, together, than the data they come from. */
  lemma {:induction false} LinesFitInData(data: seq<byte>)
    ensures TotalLength(ScanLines(data)) <= |data|
    decreases |data|
  {
    if |data| > 0 {
      var i := IndexByte(data, LF);
      if i >= 0 {
        LinesFitInData(data[i + 1..]);
        LinesFitStep(data, i);
      } else {
        LinesFitLast(data);
      }
    }
  }

  /** `LinesFitInData`'s inductive step, for data whose first newline is at `i`. */
  lemma LinesFitStep(data: seq<byte>, i: nat)
    requires i == IndexByte(data, LF)
    requires TotalLength(ScanLines(data[i + 1..])) <= |data[i + 1..]|
    ensures TotalLength(ScanLines(data)) <= |data|
  {
    ScanLinesAtNewline(data, i);
    TotalLengthCons(DropCR(data[..i]), ScanLines(data[i + 1..]));
  }

  /** `LinesFitInData` for non-empty data without a newline: one line, at most as long. */
  lemma LinesFitLast(data: seq<byte>)
    requires |data| > 0 && IndexByte(data, LF) < 0
    ensures TotalLength(ScanLines(data)) <= |data|
  {
    ScanLinesWithoutNewline(data);
    TotalLengthCons(DropCR(data), []);
    assert [DropCR(data)] + [] == [DropCR(data)];
  }

  lemma TotalLengthCons(line: seq<byte>, lines: seq<seq<byte>>)
    ensures TotalLength([line] + lines) == |line| + TotalLength(lines)
  {
    assert ([line] + lines)[1..] == lines;
  }

  /**
    * One step of the scanner over `data` from position `pos`: the next line
    * and the position just past it, as `bufio.Scanner` with `ScanLines`
    * advances.
    */
  method ScanNext(data: seq<byte>, pos: nat) returns (line: seq<byte>, next: nat)
    requires pos < |data|
    ensures pos < next <= |data|
    ensures ScanLines(data[pos..]) == [line] + ScanLines(data[next..])
  {
    var rest := data[pos..];
    var i := IndexByte(rest, LF);
    if i >= 0 {
      line, next := DropCR(rest[..i]), pos + i + 1;
      assert rest[i + 1..] == data[next..];
      ScanLinesAtNewline(rest, i);
    } else {
      line, next := DropCR(rest), |data|;
      ScanLinesWithoutNewline(rest);
      assert data[next..] == [];
    }
  }
}
