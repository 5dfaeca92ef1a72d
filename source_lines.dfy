/** The lines of a source as `src/utils/error_context.py` sees them: an index turned
    into a line and a column the way `Position.advance` steps, the split into lines
    (`str.splitlines`, with `'\n'` the only line break) and the bounds of one line. */
module SourceLines {
  import opened Wrappers
  import opened Positions

  function Max(a: int, b: int): int {
    if a < b then b else a
  }

  function Min(a: int, b: int): int {
    if a < b then a else b
  }

  // ---------------------------------------------------------------------------
  // Index to line and column

  /** `index` moved into `[0, n]`. */
  function Clamp(index: int, n: nat): nat {
    if index < 0 then 0 else if index > n then n else index
  }

  /** The position reached by `Position.advance` over the first `n` characters. */
  function Walk(source: string, n: nat): Position
    requires n <= |source|
  {
    if n == 0 then Start() else Advance(Walk(source, n - 1), Some(source[n - 1]))
  }

  /** The number of newlines in `s`. */
  function Newlines(s: string): nat {
    if |s| == 0 then 0 else Newlines(s[..|s| - 1]) + (if s[|s| - 1] == '\n' then 1 else 0)
  }

  /** Where the line holding index `n` begins: just after the last newline before `n`,
      or at 0. */
  function LineStart(s: string, n: nat): (r: nat)
    requires n <= |s|
    ensures r <= n && (r == 0 || s[r - 1] == '\n')
    ensures forall k :: r <= k < n ==> s[k] != '\n'
  {
    if n == 0 then 0 else if s[n - 1] == '\n' then n else LineStart(s, n - 1)
  }

  /** After `n` characters the line is one more than the newlines passed, the column
      one more than the characters since the line began, and the index is `n`. */
  lemma {:induction false} WalkCounts(source: string, n: nat)
    requires n <= |source|
    ensures Walk(source, n).index == n
    ensures Walk(source, n).line == 1 + Newlines(source[..n])
    ensures Walk(source, n).column == 1 + n - LineStart(source, n)
    decreases n
  {
    if n > 0 {
      WalkCounts(source, n - 1);
      assert source[..n][..n - 1] == source[..n - 1];
    }
  }

  /** `index_to_line_col`: the index clamped into the source, then one step per
      character before it, as `Position.advance` steps. */
  method IndexToLineCol(source: string, index: int) returns (line: int, col: int)
    ensures var p := Walk(source, Clamp(index, |source|)); line == p.line && col == p.column
    ensures var n := Clamp(index, |source|); line == 1 + Newlines(source[..n]) && col == 1 + n - LineStart(source, n)
  {
    var i := index;
    if i < 0 {
      i := 0;
    }
    if i > |source| {
      i := |source|;
    }
    line, col := 1, 1;
    for k := 0 to i
      invariant line == Walk(source, k).line && col == Walk(source, k).column
    {
      if source[k] == '\n' {
        line := line + 1;
        col := 1;
      } else {
        col := col + 1;
      }
    }
    WalkCounts(source, i);
  }

  // ---------------------------------------------------------------------------
  // Lines

  /** The length of the first line of a non-empty `s`, its newline included. */
  function FirstLineLength(s: string): (n: nat)
    requires |s| > 0
    ensures 0 < n <= |s|
    ensures n < |s| ==> s[n - 1] == '\n'
  {
    if s[0] == '\n' || |s| == 1 then 1 else 1 + FirstLineLength(s[1..])
  }

  /** No newline comes before the end of the first line. */
  lemma {:induction false} FirstLineHasNoNewline(s: string)
    requires |s| > 0
    ensures forall k :: 0 <= k < FirstLineLength(s) - 1 ==> s[k] != '\n'
    decreases |s|
  {
    if !(s[0] == '\n' || |s| == 1) {
      FirstLineHasNoNewline(s[1..]);
      forall k | 0 <= k < FirstLineLength(s) - 1
        ensures s[k] != '\n'
      {
        if k > 0 {
          assert s[k] == s[1..][k - 1];
        }
      }
    }
  }

  /** `s.splitlines(keepends=True)`, with `'\n'` the only line break. */
  function SplitLinesKeepEnds(s: string): seq<string>
    decreases |s|
  {
    if |s| == 0 then [] else var n := FirstLineLength(s); [s[..n]] + SplitLinesKeepEnds(s[n..])
  }

  function Concat(lines: seq<string>): string {
    if |lines| == 0 then "" else lines[0] + Concat(lines[1..])
  }

  /** Dropping the first element of `[x] + xs` leaves `xs`. */
  lemma DropFirst<T>(x: T, xs: seq<T>)
    ensures ([x] + xs)[1..] == xs && ([x] + xs)[0] == x
  {
  }

  /** The lines with their ends put back together are the source again. */
  lemma {:induction false} SplitLinesRejoin(s: string)
    ensures Concat(SplitLinesKeepEnds(s)) == s
    decreases |s|
  {
    if |s| > 0 {
      var n := FirstLineLength(s);
      SplitLinesRejoin(s[n..]);
      DropFirst(s[..n], SplitLinesKeepEnds(s[n..]));
      assert s[..n] + s[n..] == s;
    }
  }

  /** `sum(len(lines[i]) for i in range(k))`. */
  function SumLengths(lines: seq<string>, k: nat): nat
    requires k <= |lines|
  {
    if k == 0 then 0 else |lines[0]| + SumLengths(lines[1..], k - 1)
  }

  /** A line of the split: not empty, a newline at most as its last character, and one
      there unless it is the last line. */
  predicate LineShaped(line: string, notLast: bool) {
    |line| > 0 && (forall j :: 0 <= j < |line| - 1 ==> line[j] != '\n')
    && (notLast ==> line[|line| - 1] == '\n')
  }

  /** Every line of the split is shaped so. */
  lemma {:induction false} SplitLinesShape(s: string)
    ensures var lines := SplitLinesKeepEnds(s);
            forall k :: 0 <= k < |lines| ==> LineShaped(lines[k], k + 1 < |lines|)
    decreases |s|
  {
    if |s| > 0 {
      var n := FirstLineLength(s);
      var rest := SplitLinesKeepEnds(s[n..]);
      SplitLinesShape(s[n..]);
      var lines := [s[..n]] + rest;
      assert SplitLinesKeepEnds(s) == lines;
      FirstLineShaped(s, |rest| > 0);
      forall k | 0 <= k < |lines|
        ensures LineShaped(lines[k], k + 1 < |lines|)
      {
        if k > 0 {
          assert lines[k] == rest[k - 1];
          assert LineShaped(rest[k - 1], k < |rest|);
        }
      }
    }
  }

  /** The first line of the split is shaped so; it ends in a newline when more follows. */
  lemma FirstLineShaped(s: string, more: bool)
    requires |s| > 0
    requires more ==> |SplitLinesKeepEnds(s[FirstLineLength(s)..])| > 0
    ensures LineShaped(s[..FirstLineLength(s)], more)
  {
    var n := FirstLineLength(s);
    var line := s[..n];
    FirstLineHasNoNewline(s);
    forall j | 0 <= j < |line| - 1
      ensures line[j] != '\n'
    {
      assert line[j] == s[j];
    }
    if more {
      assert |s[n..]| > 0;
      assert line[n - 1] == s[n - 1];
    }
  }

  lemma {:induction false} SumLengthsStep(lines: seq<string>, k: nat)
    requires k < |lines|
    ensures SumLengths(lines, k + 1) == SumLengths(lines, k) + |lines[k]|
    decreases k
  {
    if k > 0 {
      SumLengthsStep(lines[1..], k - 1);
      assert lines[1..][k - 1] == lines[k];
    }
  }

  /** All the lines' lengths together are the length of their concatenation. */
  lemma {:induction false} ConcatLength(lines: seq<string>)
    ensures |Concat(lines)| == SumLengths(lines, |lines|)
    decreases |lines|
  {
    if |lines| > 0 {
      ConcatLength(lines[1..]);
    }
  }

  /** Line `k` sits in the concatenation right after the lines before it. */
  lemma {:induction false} ConcatSlice(lines: seq<string>, k: nat)
    requires k < |lines|
    ensures SumLengths(lines, k) + |lines[k]| <= |Concat(lines)|
    ensures Concat(lines)[SumLengths(lines, k)..SumLengths(lines, k) + |lines[k]|] == lines[k]
    decreases k
  {
    var c := Concat(lines);
    assert c == lines[0] + Concat(lines[1..]);
    if k > 0 {
      ConcatSlice(lines[1..], k - 1);
      var st := SumLengths(lines[1..], k - 1);
      assert lines[1..][k - 1] == lines[k];
      assert c[|lines[0]| + st..|lines[0]| + st + |lines[k]|] == Concat(lines[1..])[st..st + |lines[k]|];
    }
  }

  /** `line_bounds`: (0, 0) for a line number below 1, the end of the source twice past
      the last line, and otherwise the line's start and end with its newline left out. */
  function LineBounds(source: string, line: int): (int, int) {
    if line <= 0 then (0, 0)
    else
      var lines := SplitLinesKeepEnds(source);
      if line > |lines| then (|source|, |source|)
      else
        var start := SumLengths(lines, line - 1);
        var end := start + |lines[line - 1]|;
        SplitLinesRejoin(source);
        ConcatSlice(lines, line - 1);
        if end > start && source[end - 1] == '\n' then (start, end - 1) else (start, end)
  }

  /** Line `k` of the split is the piece of the source right after the lines before it. */
  lemma LineInSource(source: string, k: nat, st: nat, text: string)
    requires k < |SplitLinesKeepEnds(source)|
    requires st == SumLengths(SplitLinesKeepEnds(source), k) && text == SplitLinesKeepEnds(source)[k]
    ensures st + |text| <= |source| && source[st..st + |text|] == text
  {
    var lines := SplitLinesKeepEnds(source);
    SplitLinesRejoin(source);
    ConcatSlice(lines, k);
  }

  /** Offset `i` starts a line of `s`: it is 0 or just after a newline. */
  predicate StartsLine(s: string, i: int) {
    i == 0 || (0 < i <= |s| && s[i - 1] == '\n')
  }

  /** Offset `i` stops a line's text in `s`: it is the end of `s` or at a newline. */
  predicate StopsLine(s: string, i: int) {
    i == |s| || (0 <= i < |s| && s[i] == '\n')
  }

  /** `s[a..b]` is a stretch of `s` holding no newline. */
  predicate NewlineFree(s: string, a: int, b: int) {
    0 <= a <= b <= |s| && forall k :: a <= k < b ==> s[k] != '\n'
  }

  /** Each line of the split starts the source or follows a newline. */
  lemma LineStartInSource(source: string, k: nat)
    requires k < |SplitLinesKeepEnds(source)|
    ensures StartsLine(source, SumLengths(SplitLinesKeepEnds(source), k))
  {
    var lines := SplitLinesKeepEnds(source);
    SplitLinesRejoin(source);
    if k > 0 {
      SplitLinesShape(source);
      assert LineShaped(lines[k - 1], true);
    }
    LineStartInConcat(lines, k);
  }

  /** The last line of the split runs to the end of the source. */
  lemma LastLineInSource(source: string, k: nat, st: nat, text: string)
    requires k + 1 == |SplitLinesKeepEnds(source)|
    requires st == SumLengths(SplitLinesKeepEnds(source), k) && text == SplitLinesKeepEnds(source)[k]
    ensures st + |text| == |source|
  {
    var lines := SplitLinesKeepEnds(source);
    SplitLinesRejoin(source);
    SumLengthsStep(lines, k);
    ConcatLength(lines);
  }

  /** Within a concatenation, a line after one that ends in a newline follows that
      newline. */
  lemma LineStartInConcat(lines: seq<string>, k: nat)
    requires k < |lines|
    requires k > 0 ==> LineShaped(lines[k - 1], true)
    ensures var c := Concat(lines);
            var st := SumLengths(lines, k);
            st == 0 || (0 < st <= |c| && c[st - 1] == '\n')
  {
    if k > 0 {
      var c := Concat(lines);
      var st := SumLengths(lines, k);
      ConcatSlice(lines, k - 1);
      SumLengthsStep(lines, k - 1);
      var prev := lines[k - 1];
      assert c[SumLengths(lines, k - 1)..st] == prev;
      assert c[st - 1] == prev[|prev| - 1];
    }
  }

  /** A line number of the source bounds one line exactly: it starts the source or
      follows a newline, holds no newline, and ends the source or stops at a newline. */
  lemma LineBoundsAreALine(source: string, line: int)
    requires 1 <= line <= |SplitLinesKeepEnds(source)|
    ensures var (st, en) := LineBounds(source, line);
            StartsLine(source, st) && NewlineFree(source, st, en) && StopsLine(source, en)
  {
    var lines := SplitLinesKeepEnds(source);
    var k := line - 1;
    var text := lines[k];
    var st := SumLengths(lines, k);
    var raw := st + |text|;
    LineInSource(source, k, st, text);
    LineStartInSource(source, k);
    SplitLinesShape(source);
    assert LineShaped(text, k + 1 < |lines|);
    RawLineBounds(source, line, st, raw, text);
    if k + 1 == |lines| {
      LastLineInSource(source, k, st, text);
    }
  }

  /** `line_bounds` for an existing line: its start, and its end less a final newline. */
  lemma LineBoundsWithin(source: string, line: int, st: nat, raw: nat)
    requires 1 <= line <= |SplitLinesKeepEnds(source)|
    requires st == SumLengths(SplitLinesKeepEnds(source), line - 1)
    requires raw == st + |SplitLinesKeepEnds(source)[line - 1]| && raw <= |source|
    ensures LineBounds(source, line) == (if raw > st && source[raw - 1] == '\n' then (st, raw - 1) else (st, raw))
  {
  }

  /** `line_bounds` within the piece `text` of the source that line `line` covers. */
  lemma RawLineBounds(source: string, line: int, st: nat, raw: nat, text: string)
    requires 1 <= line <= |SplitLinesKeepEnds(source)|
    requires st == SumLengths(SplitLinesKeepEnds(source), line - 1)
    requires text == SplitLinesKeepEnds(source)[line - 1] && raw == st + |text|
    requires raw <= |source| && source[st..raw] == text
    requires LineShaped(text, line < |SplitLinesKeepEnds(source)|)
    ensures var (a, b) := LineBounds(source, line);
            a == st && st <= b <= raw && NewlineFree(source, st, b)
            && (b == raw || StopsLine(source, b))
            && (b == raw ==> line == |SplitLinesKeepEnds(source)|)
  {
    LineBoundsWithin(source, line, st, raw);
    forall j | st <= j < raw
      ensures source[j] == text[j - st]
    {
      assert source[st..raw][j - st] == source[j];
    }
    if source[raw - 1] != '\n' {
      assert text[|text| - 1] != '\n';
    }
  }

  /** Past the last line, and below line 1, the bounds are empty. */
  lemma LineBoundsOutside(source: string, line: int)
    requires line <= 0 || line > |SplitLinesKeepEnds(source)|
    ensures var (st, en) := LineBounds(source, line); st == en
    ensures line <= 0 ==> LineBounds(source, line) == (0, 0)
  {
  }

  // ---------------------------------------------------------------------------
  // Lines without their ends

  /** A line of the split with its newline taken off. */
  function StripNewline(line: string): string {
    if |line| > 0 && line[|line| - 1] == '\n' then line[..|line| - 1] else line
  }

  /** `s.splitlines()`, with `'\n'` the only line break. */
  function SplitLines(s: string): (lines: seq<string>)
    ensures |lines| == |SplitLinesKeepEnds(s)|
    decreases |s|
  {
    if |s| == 0 then [] else var n := FirstLineLength(s); [StripNewline(s[..n])] + SplitLines(s[n..])
  }

  /** A non-empty source has at least one line. */
  lemma SomeLine(s: string)
    requires |s| > 0
    ensures |SplitLines(s)| > 0
  {
  }
}
