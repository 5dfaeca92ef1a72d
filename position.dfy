/** Positions in source text: a 0-based character index with a 1-based line and column
    (src/io/position.py). */
module Positions {
  import opened Wrappers
  import opened Strings

  datatype Position = Position(index: int, line: int, column: int)

  /** The position a fresh reader starts at. */
  function Start(): Position {
    Position(0, 1, 1)
  }

  /** `Position.advance`: the position after reading `c` (`None` at end of input). */
  function Advance(p: Position, c: Option<char>): Position {
    if c == Some('\n') then Position(p.index + 1, p.line + 1, 1)
    else Position(p.index + 1, p.line, p.column + 1)
  }

  /** Every advance moves the index by one; a newline starts a new line at column 1,
      anything else (including `None`) moves one column right on the same line. */
  lemma AdvanceMoves(p: Position, c: Option<char>)
    ensures Advance(p, c).index == p.index + 1
    ensures c == Some('\n') ==> Advance(p, c).line == p.line + 1 && Advance(p, c).column == 1
    ensures c != Some('\n') ==> Advance(p, c).line == p.line && Advance(p, c).column == p.column + 1
  {
  }

  /** `Position.copy`: a field-by-field duplicate. */
  function Copy(p: Position): (q: Position)
    ensures q.index == p.index && q.line == p.line && q.column == p.column
  {
    Position(p.index, p.line, p.column)
  }

  /** `Position.__str__`: "(line L, col C)". */
  function ToString(p: Position): (s: string)
    ensures |s| > 12 && s[..6] == "(line " && s[|s| - 1] == ')'
  {
    "(line " + IntToString(p.line) + ", col " + IntToString(p.column) + ")"
  }

  lemma IntToStringHasNoComma(i: int)
    ensures forall k :: 0 <= k < |IntToString(i)| ==> IntToString(i)[k] != ','
  {
    if i < 0 {
      assert IntToString(i) == "-" + NatToString(-i);
    }
  }

  lemma IntToStringInjective(i: int, j: int)
    requires IntToString(i) == IntToString(j)
    ensures i == j
  {
    if i < 0 {
      assert IntToString(i)[1..] == NatToString(-i);
      assert IntToString(j)[1..] == NatToString(-j);
      NatToStringInjective(-i, -j);
    } else {
      NatToStringInjective(i, j);
    }
  }

  /** Offset of the first ',' in `s`, or `|s|` when there is none. */
  function CommaIndex(s: string): nat
    ensures CommaIndex(s) <= |s|
  {
    if s == [] then 0 else if s[0] == ',' then 0 else 1 + CommaIndex(s[1..])
  }

  lemma {:induction false} CommaIndexAfter(u: string, v: string)
    requires forall k :: 0 <= k < |u| ==> u[k] != ','
    requires |v| > 0 && v[0] == ','
    ensures CommaIndex(u + v) == |u|
    decreases |u|
  {
    if u == [] {
      assert u + v == v;
    } else {
      assert (u + v)[1..] == u[1..] + v;
      CommaIndexAfter(u[1..], v);
    }
  }

  /** A rendering splits back into its parts at its first comma. */
  lemma RenderingParts(u: string, w: string)
    requires forall k :: 0 <= k < |u| ==> u[k] != ','
    ensures var s := "(line " + u + ", col " + w + ")";
            && CommaIndex(s) == 6 + |u| && |s| == 6 + |u| + 6 + |w| + 1
            && u == s[6..CommaIndex(s)] && w == s[CommaIndex(s) + 6..|s| - 1]
  {
    var s := "(line " + u + ", col " + w + ")";
    var head, tail := "(line " + u, ", col " + w + ")";
    assert head + tail == s;
    CommaIndexAfter(head, tail);
    assert s[6..6 + |u|] == u;
    assert s[6 + |u| + 6..|s| - 1] == w;
  }

  /** The rendering keeps line and column apart: equal renderings mean equal line
      and equal column. */
  lemma ToStringInjective(p: Position, q: Position)
    requires ToString(p) == ToString(q)
    ensures p.line == q.line && p.column == q.column
  {
    IntToStringHasNoComma(p.line);
    IntToStringHasNoComma(q.line);
    RenderingParts(IntToString(p.line), IntToString(p.column));
    RenderingParts(IntToString(q.line), IntToString(q.column));
    IntToStringInjective(p.line, q.line);
    IntToStringInjective(p.column, q.column);
  }

  /** The position reached by advancing over every character of `s` in turn. */
  function AdvanceOver(p: Position, s: string): Position
    decreases |s|
  {
    if s == [] then p else Advance(AdvanceOver(p, s[..|s| - 1]), Some(s[|s| - 1]))
  }

  /** The position of offset `i` in `text`, as a reader starting at `Start()` sees it. */
  function PositionAt(text: string, i: nat): Position
    requires i <= |text|
  {
    AdvanceOver(Start(), text[..i])
  }

  function NewlineCount(s: string): nat {
    multiset(s)['\n']
  }

  /** What folding `Advance` over `s` from the start computes, stated without `Advance`:
      the index is `|s|`, the line is one more than the number of newlines, and the
      column is one more than the number of characters after the last newline. */
  lemma {:induction false} AdvanceOverStart(s: string)
    ensures AdvanceOver(Start(), s).index == |s|
    ensures AdvanceOver(Start(), s).line == 1 + NewlineCount(s)
    ensures 1 <= AdvanceOver(Start(), s).column <= |s| + 1
    ensures forall k :: |s| - (AdvanceOver(Start(), s).column - 1) <= k < |s| ==> s[k] != '\n'
    ensures AdvanceOver(Start(), s).column - 1 < |s| ==> s[|s| - AdvanceOver(Start(), s).column] == '\n'
    decreases |s|
  {
    if s != [] {
      var init := s[..|s| - 1];
      AdvanceOverStart(init);
      assert s == init + [s[|s| - 1]];
      assert multiset(s) == multiset(init) + multiset{s[|s| - 1]};
    }
  }

  lemma AdvanceOverAppend(p: Position, s: string, c: char)
    ensures AdvanceOver(p, s + [c]) == Advance(AdvanceOver(p, s), Some(c))
  {
    assert (s + [c])[..|s + [c]| - 1] == s;
  }

  lemma PositionAtNext(text: string, i: nat)
    requires i < |text|
    ensures PositionAt(text, i + 1) == Advance(PositionAt(text, i), Some(text[i]))
  {
    assert text[..i + 1] == text[..i] + [text[i]];
    AdvanceOverAppend(Start(), text[..i], text[i]);
  }
}
