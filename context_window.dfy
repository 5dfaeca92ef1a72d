/** The window of source lines `format_error_context` (src/utils/error_context.py)
    shows around an error: the header, each line numbered and marked, and the caret
    line under the target. */
module ContextWindow {
  import opened Strings
  import opened SourceLines

  /** `SourceLocation`: a 0-based index, a 1-based line and column, and a caret span. */
  datatype SourceLocation = SourceLocation(index: int, line: int, column: int, span: int)

  const Header := "[ErrorContext] Source context:"

  /** An entry `format_error_context` emits after its header: a shown line, marked or
      not, or the caret line under the target. */
  datatype Row = Shown(marked: bool, ln: nat, text: string) | Caret

  /** A shown line: the marker ('>' on the target line, a space on the others), the line
      number right-justified to `width`, a bar and the text. */
  function ContextLine(marked: bool, ln: nat, width: nat, text: string): (r: string)
    ensures |r| > 0 && (r[0] == '>' <==> marked)
  {
    (if marked then ">" else " ") + " " + PadLeft(NatToString(ln), width) + " | " + text
  }

  /** The caret line: a blank gutter as wide as the line numbers, a bar, then
      `column - 1` spaces (none for a column below 1) and `span` carets (at least one). */
  function CaretLine(width: nat, column: int, span: int): (r: string)
    ensures |r| > 0 && r[0] == ' '
  {
    "  " + Repeat(' ', width) + " | " + Repeat(' ', Max(0, column - 1)) + Repeat('^', Max(1, span))
  }

  /** The carets start right after `column - 1` spaces past the gutter, and there are
      `span` of them, at least one. */
  lemma CaretLineShape(width: nat, column: int, span: int)
    ensures var r := CaretLine(width, column, span);
            |r| == width + 5 + Max(0, column - 1) + Max(1, span)
            && r[width + 2..width + 5] == " | "
            && forall k :: width + 5 <= k < |r| ==> (r[k] == '^' <==> k >= width + 5 + Max(0, column - 1))
  {
    var r := CaretLine(width, column, span);
    assert r[width + 2..width + 5] == " | ";
  }

  function Render(row: Row, width: nat, loc: SourceLocation): (r: string)
    ensures |r| > 0 && (r[0] == '>' <==> row.Shown? && row.marked)
  {
    match row
    case Shown(marked, ln, text) => ContextLine(marked, ln, width, text)
    case Caret => CaretLine(width, loc.column, loc.span)
  }

  /** `f` applied to every element, kept apart from what `f` computes. */
  function MapSeq<A, B>(f: A -> B, xs: seq<A>): (r: seq<B>)
    ensures |r| == |xs|
    decreases |xs|
  {
    if |xs| == 0 then [] else MapSeq(f, xs[..|xs| - 1]) + [f(xs[|xs| - 1])]
  }

  lemma {:induction false} MapSeqIndex<A, B>(f: A -> B, xs: seq<A>, i: nat)
    requires i < |xs|
    ensures MapSeq(f, xs)[i] == f(xs[i])
    decreases |xs|
  {
    if i < |xs| - 1 {
      MapSeqIndex(f, xs[..|xs| - 1], i);
    }
  }

  lemma {:induction false} MapSeqAppend<A, B>(f: A -> B, xs: seq<A>, ys: seq<A>)
    ensures MapSeq(f, xs + ys) == MapSeq(f, xs) + MapSeq(f, ys)
    decreases |ys|
  {
    if |ys| > 0 {
      var init := ys[..|ys| - 1];
      assert (xs + ys)[..|xs + ys| - 1] == xs + init;
      assert (xs + ys)[|xs + ys| - 1] == ys[|ys| - 1];
      MapSeqAppend(f, xs, init);
    } else {
      assert xs + ys == xs;
    }
  }

  function Renderer(width: nat, loc: SourceLocation): Row -> string {
    row => Render(row, width, loc)
  }

  function RenderAll(rows: seq<Row>, width: nat, loc: SourceLocation): seq<string> {
    MapSeq(Renderer(width, loc), rows)
  }

  /** What the loop of `format_error_context` emits for line `ln`. */
  function RowsFor(lines: seq<string>, target: int, ln: int): seq<Row>
    requires 1 <= ln <= |lines|
  {
    [Shown(ln == target, ln, lines[ln - 1])] + (if ln == target then [Caret] else [])
  }

  /** What it emits for the lines from `lo` up to, not including, `hi`. */
  function Rows(lines: seq<string>, target: int, lo: int, hi: int): seq<Row>
    requires 1 <= lo && (hi <= lo || hi - 1 <= |lines|)
    decreases hi - lo
  {
    if hi <= lo then [] else Rows(lines, target, lo, hi - 1) + RowsFor(lines, target, hi - 1)
  }

  /** The first line shown around `line`: `window` lines before it, but not before line 1. */
  function FirstShown(line: int, window: int): (r: int)
    ensures r >= 1
  {
    Max(1, line - window)
  }

  /** The last line shown around `line`: `window` lines after it, but not after the last line. */
  function LastShown(total: int, line: int, window: int): (r: int)
    ensures r <= total
  {
    Min(total, line + window)
  }

  /** The target line clamped into `[1, total]`. */
  function TargetLine(loc: SourceLocation, total: int): int {
    Max(1, Min(loc.line, total))
  }

  /** The entries `format_error_context` joins with newlines; none for an empty source. */
  function ContextRows(source: string, loc: SourceLocation, window: int): seq<string> {
    if |source| == 0 then [] else Window(SplitLines(source), loc, window)
  }

  /** The entries for the lines of a source: none when there are no lines, else the
      header and the rows of the window around the clamped target line. */
  function Window(lines: seq<string>, loc: SourceLocation, window: int): seq<string> {
    var total := |lines|;
    if total == 0 then []
    else
      var line := TargetLine(loc, total);
      var startLine := FirstShown(line, window);
      var endLine := LastShown(total, line, window);
      Emitted(lines, line, startLine, endLine, loc)
  }

  /** The header, then the rows for lines `startLine` to `endLine`, numbered as wide as
      `endLine`. */
  function Emitted(lines: seq<string>, line: int, startLine: int, endLine: int, loc: SourceLocation): seq<string>
    requires 1 <= startLine && endLine <= |lines|
  {
    [Header] + RenderAll(Rows(lines, line, startLine, endLine + 1), |IntToString(endLine)|, loc)
  }

  /** One more line rendered: the entries so far, then those of its rows. */
  lemma RenderStep(lines: seq<string>, target: int, lo: int, ln: int, width: nat, loc: SourceLocation)
    requires 1 <= lo <= ln <= |lines|
    ensures RenderAll(Rows(lines, target, lo, ln + 1), width, loc)
            == RenderAll(Rows(lines, target, lo, ln), width, loc) + RenderAll(RowsFor(lines, target, ln), width, loc)
  {
    MapSeqAppend(Renderer(width, loc), Rows(lines, target, lo, ln), RowsFor(lines, target, ln));
  }

  /** The entries of one line: its shown line, then the caret line on the target. */
  lemma RowsForRendered(lines: seq<string>, target: int, ln: int, width: nat, loc: SourceLocation)
    requires 1 <= ln <= |lines|
    ensures var shown := ContextLine(ln == target, ln, width, lines[ln - 1]);
            var entries := RenderAll(RowsFor(lines, target, ln), width, loc);
            (ln == target ==> entries == [shown, CaretLine(width, loc.column, loc.span)])
            && (ln != target ==> entries == [shown])
  {
    var row := RowsFor(lines, target, ln);
    if ln == target {
      assert row == [row[0]] + [row[1]];
      MapSeqAppend(Renderer(width, loc), [row[0]], [row[1]]);
    }
  }

  lemma AppendOne<T>(h: seq<T>, r: seq<T>, x: T)
    ensures h + r + [x] == h + (r + [x])
  {
  }

  lemma AppendTwo<T>(h: seq<T>, r: seq<T>, x: T, y: T)
    ensures h + r + [x] + [y] == h + (r + [x, y])
  {
  }

  /** The loop of `format_error_context`: the header, then for each line of the window
      its row, and the caret row after the target line. */
  method EmitWindow(lines: seq<string>, line: int, startLine: int, endLine: int, loc: SourceLocation)
    returns (out: seq<string>)
    requires 1 <= startLine && endLine <= |lines|
    ensures out == Emitted(lines, line, startLine, endLine, loc)
  {
    var width := |IntToString(endLine)|;
    out := [Header];
    var ln := startLine;
    while ln <= endLine
      invariant startLine <= ln && (ln <= endLine + 1 || ln == startLine)
      invariant out == [Header] + RenderAll(Rows(lines, line, startLine, ln), width, loc)
    {
      EmitStep(lines, line, startLine, ln, width, loc, out);
      out := out + [ContextLine(ln == line, ln, width, lines[ln - 1])];
      if ln == line {
        out := out + [CaretLine(width, loc.column, loc.span)];
      }
      ln := ln + 1;
    }
  }

  /** One turn of the loop keeps the emitted entries those of the rows so far. */
  lemma EmitStep(lines: seq<string>, target: int, lo: int, ln: int, width: nat, loc: SourceLocation, out: seq<string>)
    requires 1 <= lo <= ln <= |lines|
    requires out == [Header] + RenderAll(Rows(lines, target, lo, ln), width, loc)
    ensures var next := out + [ContextLine(ln == target, ln, width, lines[ln - 1])];
            var after := [Header] + RenderAll(Rows(lines, target, lo, ln + 1), width, loc);
            (ln == target ==> next + [CaretLine(width, loc.column, loc.span)] == after)
            && (ln != target ==> next == after)
  {
    var r := RenderAll(Rows(lines, target, lo, ln), width, loc);
    var shown := ContextLine(ln == target, ln, width, lines[ln - 1]);
    RenderStep(lines, target, lo, ln, width, loc);
    RowsForRendered(lines, target, ln, width, loc);
    if ln == target {
      AppendTwo([Header], r, shown, CaretLine(width, loc.column, loc.span));
    } else {
      AppendOne([Header], r, shown);
    }
  }

  /** The rows for `lo .. hi - 1`: one per line, one caret row more when the target is
      among them, the target's own row the only marked one and the caret row after it. */
  lemma {:induction false} RowsShape(lines: seq<string>, target: int, lo: int, hi: int)
    requires 1 <= lo <= hi && hi - 1 <= |lines|
    ensures var rows := Rows(lines, target, lo, hi);
            |rows| == (hi - lo) + (if lo <= target < hi then 1 else 0)
            && (forall i :: 0 <= i < |rows| ==> (rows[i].Shown? && rows[i].marked <==> lo <= target < hi && i == target - lo))
            && (lo <= target < hi ==> rows[target - lo] == Shown(true, target, lines[target - 1]) && rows[target - lo + 1] == Caret)
    decreases hi - lo
  {
    if lo < hi {
      RowsShape(lines, target, lo, hi - 1);
      var before := Rows(lines, target, lo, hi - 1);
      var row := RowsFor(lines, target, hi - 1);
      var rows := before + row;
      assert Rows(lines, target, lo, hi) == rows;
      forall i | 0 <= i < |rows|
        ensures rows[i].Shown? && rows[i].marked <==> lo <= target < hi && i == target - lo
      {
        if i >= |before| {
          assert rows[i] == row[i - |before|];
        } else {
          assert rows[i] == before[i];
        }
      }
      if target == hi - 1 {
        assert rows[target - lo] == row[0];
        assert rows[target - lo + 1] == row[1];
      }
    }
  }

  /** What `format_error_context` does once the source is split: no entries for no
      lines, else the window around the clamped target line. */
  method WindowAround(lines: seq<string>, loc: SourceLocation, window: int) returns (out: seq<string>)
    ensures out == Window(lines, loc, window)
  {
    var total := |lines|;
    if total == 0 {
      return [];
    }
    var line := TargetLine(loc, total);
    var startLine := FirstShown(line, window);
    var endLine := LastShown(total, line, window);
    out := EmitWindow(lines, line, startLine, endLine, loc);
  }

  /** The window's bounds stay within the lines and, for a window of at least 0, hold
      the clamped target line. */
  lemma WindowBounds(total: int, loc: SourceLocation, window: int)
    requires total > 0
    ensures var line := TargetLine(loc, total);
            var startLine := FirstShown(line, window);
            var endLine := LastShown(total, line, window);
            1 <= line <= total && 1 <= startLine && endLine <= total
            && (window >= 0 ==> startLine <= line <= endLine)
            && (loc.line < 1 ==> line == 1) && (loc.line > total ==> line == total)
            && (1 <= loc.line <= total ==> line == loc.line)
  {
  }

  /** The entries for a window holding the target line: the header, then one row per
      line and the caret row; the target's row is the only one marked '>' and the caret
      row follows it. */
  lemma EmittedShape(lines: seq<string>, line: int, startLine: int, endLine: int, loc: SourceLocation)
    requires 1 <= startLine <= line <= endLine <= |lines|
    ensures var width := |IntToString(endLine)|;
            var out := Emitted(lines, line, startLine, endLine, loc);
            |out| == endLine - startLine + 3 && out[0] == Header
            && (forall i :: 1 <= i < |out| ==> |out[i]| > 0 && (out[i][0] == '>' <==> i == 1 + line - startLine))
            && out[1 + line - startLine] == ContextLine(true, line, width, lines[line - 1])
            && out[2 + line - startLine] == CaretLine(width, loc.column, loc.span)
  {
    RowsShape(lines, line, startLine, endLine + 1);
    EmittedMarks(lines, line, startLine, endLine, loc);
    EmittedTarget(lines, line, startLine, endLine, loc);
  }

  /** Every entry after the header is non-empty, and only the target's row starts with '>'. */
  lemma EmittedMarks(lines: seq<string>, line: int, startLine: int, endLine: int, loc: SourceLocation)
    requires 1 <= startLine <= line <= endLine <= |lines|
    ensures var out := Emitted(lines, line, startLine, endLine, loc);
            forall i :: 1 <= i < |out| ==> |out[i]| > 0 && (out[i][0] == '>' <==> i == 1 + line - startLine)
  {
    var width := |IntToString(endLine)|;
    RowsShape(lines, line, startLine, endLine + 1);
    var rows := Rows(lines, line, startLine, endLine + 1);
    var out := [Header] + RenderAll(rows, width, loc);
    forall i | 1 <= i < |out|
      ensures |out[i]| > 0 && (out[i][0] == '>' <==> i == 1 + line - startLine)
    {
      MapSeqIndex(Renderer(width, loc), rows, i - 1);
    }
  }

  /** Entry `i` of a list is entry `i + 1` once a header is put in front. */
  lemma AfterHeader<T>(h: T, xs: seq<T>, i: nat)
    requires i < |xs|
    ensures ([h] + xs)[i + 1] == xs[i]
  {
  }

  /** The target's row and the caret row after it, as rendered at any width. */
  lemma RenderedTarget(lines: seq<string>, line: int, startLine: int, endLine: int, width: nat, loc: SourceLocation)
    requires 1 <= startLine <= line <= endLine <= |lines|
    ensures var rendered := RenderAll(Rows(lines, line, startLine, endLine + 1), width, loc);
            |rendered| == endLine - startLine + 2
            && rendered[line - startLine] == ContextLine(true, line, width, lines[line - 1])
            && rendered[line - startLine + 1] == CaretLine(width, loc.column, loc.span)
  {
    var rows := Rows(lines, line, startLine, endLine + 1);
    var k := line - startLine;
    assert |rows| == endLine - startLine + 2 && rows[k] == Shown(true, line, lines[line - 1]) && rows[k + 1] == Caret by {
      RowsShape(lines, line, startLine, endLine + 1);
    }
    MapSeqIndex(Renderer(width, loc), rows, k);
    MapSeqIndex(Renderer(width, loc), rows, k + 1);
    assert Render(rows[k], width, loc) == ContextLine(true, line, width, lines[line - 1]);
    assert Render(rows[k + 1], width, loc) == CaretLine(width, loc.column, loc.span);
  }

  /** The target's row and the caret row after it, as emitted. */
  lemma EmittedTarget(lines: seq<string>, line: int, startLine: int, endLine: int, loc: SourceLocation)
    requires 1 <= startLine <= line <= endLine <= |lines|
    ensures var width := |IntToString(endLine)|;
            var out := Emitted(lines, line, startLine, endLine, loc);
            |out| == endLine - startLine + 3
            && out[1 + line - startLine] == ContextLine(true, line, width, lines[line - 1])
            && out[2 + line - startLine] == CaretLine(width, loc.column, loc.span)
  {
    var width := |IntToString(endLine)|;
    var rendered := RenderAll(Rows(lines, line, startLine, endLine + 1), width, loc);
    RenderedTarget(lines, line, startLine, endLine, width, loc);
    var k := line - startLine;
    AfterHeader(Header, rendered, k);
    AfterHeader(Header, rendered, k + 1);
  }


}
