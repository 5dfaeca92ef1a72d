/** The STRING_LITERAL to CHAR_LITERAL pass (src/lexer/char_literal.py). */
module CharLiterals {
  import opened Tokens

  /** What the pass does to one token: a STRING_LITERAL whose text, quotes included,
      is three characters long becomes a CHAR_LITERAL; only the kind changes. */
  function FixChar(t: Token): (r: Token)
    ensures r.value == t.value && r.start == t.start && r.end == t.end
    ensures r.kind == CharLiteral <==> t.kind == CharLiteral || (t.kind == StringLiteral && |t.value| == 3)
    ensures r.kind != CharLiteral ==> r == t
  {
    if t.kind == StringLiteral && |t.value| == 3 then Token(CharLiteral, t.value, t.start, t.end) else t
  }

  /** The pass over a token list: the per-token rewrite in place, in order. */
  function FixAll(ts: seq<Token>): (r: seq<Token>)
    ensures |r| == |ts|
    ensures forall k :: 0 <= k < |ts| ==> r[k] == FixChar(ts[k])
  {
    if ts == [] then [] else [FixChar(ts[0])] + FixAll(ts[1..])
  }

  /** `fix_char_literals`. */
  method FixCharLiterals(tokens: seq<Token>) returns (result: seq<Token>)
    ensures result == FixAll(tokens)
  {
    result := [];
    for k := 0 to |tokens|
      invariant |result| == k
      invariant forall i :: 0 <= i < k ==> result[i] == FixChar(tokens[i])
    {
      var token := tokens[k];
      if token.kind == StringLiteral {
        if |token.value| == 3 {
          result := result + [Token(CharLiteral, token.value, token.start, token.end)];
        } else {
          result := result + [token];
        }
      } else {
        result := result + [token];
      }
    }
  }

  /** Running the pass twice is running it once. */
  lemma FixAllIdempotent(ts: seq<Token>)
    ensures FixAll(FixAll(ts)) == FixAll(ts)
  {
    var once := FixAll(ts);
    assert forall k :: 0 <= k < |ts| ==> FixChar(once[k]) == once[k];
  }

  /** The pass changes no text: the token texts concatenate to the same string. */
  lemma {:induction false} FixAllKeepsTexts(ts: seq<Token>)
    ensures Texts(FixAll(ts)) == Texts(ts)
  {
    if ts != [] {
      FixAllKeepsTexts(ts[1..]);
      TextsCons(FixChar(ts[0]), FixAll(ts[1..]));
    }
  }
}
