/** Tokens produced by the lexer (src/syntax/token.py). */
module Tokens {

  datatype TokenType =
    | Keyword | Identifier | Number | StringLiteral | CharLiteral
    | ArithmeticOperator | RelationalOperator | LogicalOperator | AssignOperator
    | Semicolon | Comma | Colon | Dot | LParenthesis | RParenthesis
    | LBracket | RBracket | RangeOperator | Comment | Whitespace | Unknown

  /** An immutable token: its kind, its literal text and the half-open span
      `[start, end)` of source offsets it came from. */
  datatype Token = Token(kind: TokenType, value: string, start: int, end: int)

  /** Whitespace and comments: tokens the rewrite passes look past. */
  predicate IsTrivia(t: Token) {
    t.kind == Whitespace || t.kind == Comment
  }

  /** The `-` operator token both merging passes look for. */
  predicate IsMinusOperator(t: Token) {
    t.kind == ArithmeticOperator && t.value == "-"
  }

  /** A token whose span is exactly its text in `source`. */
  predicate SpansText(t: Token, source: string) {
    0 <= t.start <= t.end <= |source| && t.end == t.start + |t.value| && t.value == source[t.start..t.end]
  }

  /** The concatenated texts of a token sequence. */
  function Texts(ts: seq<Token>): string {
    if ts == [] then "" else ts[0].value + Texts(ts[1..])
  }

  lemma TextsCons(t: Token, rest: seq<Token>)
    ensures Texts([t] + rest) == t.value + Texts(rest)
  {
    assert ([t] + rest)[1..] == rest;
  }

  /** The text of a concatenation is the concatenation of the texts. */
  lemma {:induction false} TextsAppend(a: seq<Token>, b: seq<Token>)
    ensures Texts(a + b) == Texts(a) + Texts(b)
    decreases |a|
  {
    if a == [] {
      assert a + b == b;
    } else {
      assert (a + b)[1..] == a[1..] + b;
      TextsAppend(a[1..], b);
    }
  }

  /** `ts` covers `[i, n)` without gaps: each token starts where the previous one
      ended, the first at `i` and the last ending at `n`. */
  ghost predicate Tiles(ts: seq<Token>, i: int, n: int) {
    && (ts == [] ==> i == n)
    && (ts != [] ==> ts[0].start == i && ts[|ts| - 1].end == n)
    && (forall k :: 0 <= k < |ts| - 1 ==> ts[k].end == ts[k + 1].start)
  }

  lemma ConsTiles(t: Token, rest: seq<Token>, e: int, n: int)
    requires Tiles(rest, e, n) && t.end == e
    ensures Tiles([t] + rest, t.start, n)
  {
    var ts := [t] + rest;
    forall k | 0 <= k < |ts| - 1
      ensures ts[k].end == ts[k + 1].start
    {
      if k > 0 {
        assert ts[k] == rest[k - 1] && ts[k + 1] == rest[k];
      }
    }
  }
}
