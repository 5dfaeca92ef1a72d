/** Merging of a unary minus with the number after it (src/lexer/negative_number.py). */
module NegativeNumbers {
  import opened Strings
  import opened Tokens

  /** The kinds of the previous meaningful token after which a `-` is a sign. */
  const SignContexts: set<TokenType> :=
    {AssignOperator, RelationalOperator, ArithmeticOperator, LogicalOperator,
     LParenthesis, LBracket, Comma, Colon, RangeOperator}

  /** The keywords, lower-cased, after which a `-` is a sign. */
  const SignKeywords: set<string> := {"then", "else", "do", "of", "to", "downto"}

  /** The first offset at or after `j` whose token is not whitespace or a comment,
      or `|ts|` when there is none. */
  function NextMeaningful(ts: seq<Token>, j: nat): (r: nat)
    requires j <= |ts|
    ensures j <= r <= |ts|
    ensures forall k :: j <= k < r ==> IsTrivia(ts[k])
    ensures r < |ts| ==> !IsTrivia(ts[r])
    decreases |ts| - j
  {
    if j < |ts| && IsTrivia(ts[j]) then NextMeaningful(ts, j + 1) else j
  }

  /** The last index below `n` whose token is not whitespace or a comment, or -1. */
  function LastMeaningfulBelow(rs: seq<Token>, n: nat): (r: int)
    requires n <= |rs|
    ensures -1 <= r < n
    ensures forall k :: r < k < n ==> IsTrivia(rs[k])
    ensures r >= 0 ==> !IsTrivia(rs[r])
  {
    if n == 0 then -1 else if IsTrivia(rs[n - 1]) then LastMeaningfulBelow(rs, n - 1) else n - 1
  }

  /** Whether a `-` is a sign, judged from the tokens produced so far: there is no
      meaningful token before it, or the last one is an operator, an opening bracket,
      a separator or one of the sign keywords in any case. */
  predicate SignContext(rs: seq<Token>) {
    var p := LastMeaningfulBelow(rs, |rs|);
    p < 0 || rs[p].kind in SignContexts || (rs[p].kind == Keyword && Lower(rs[p].value) in SignKeywords)
  }

  /** The merged NUMBER token: a minus sign in front of the number's text, spanning from
      the minus to the end of the number. */
  function Negated(minus: Token, num: Token): Token {
    Token(Number, "-" + num.value, minus.start, num.end)
  }

  /** Whether the token at `i` is a `-` that merges: the next meaningful token is a
      NUMBER and the tokens produced so far make the minus a sign. */
  predicate MergesAt(ts: seq<Token>, i: nat, acc: seq<Token>)
    requires i < |ts|
  {
    var j := NextMeaningful(ts, i + 1);
    IsMinusOperator(ts[i]) && j < |ts| && ts[j].kind == Number && SignContext(acc)
  }

  /** The pass from offset `i`, with `acc` produced so far: a merging minus becomes the
      negated number and the scan resumes after the number, dropping the whitespace and
      comments in between; every other token, trivia included, is copied. */
  function MergeFrom(ts: seq<Token>, i: nat, acc: seq<Token>): seq<Token>
    requires i <= |ts|
    decreases |ts| - i
  {
    if i == |ts| then acc
    else if MergesAt(ts, i, acc) then
      var j := NextMeaningful(ts, i + 1);
      MergeFrom(ts, j + 1, acc + [Negated(ts[i], ts[j])])
    else MergeFrom(ts, i + 1, acc + [ts[i]])
  }

  function MergeNegatives(ts: seq<Token>): seq<Token> {
    MergeFrom(ts, 0, [])
  }

  /** `merge_negative_numbers`. */
  method MergeNegativeNumbers(tokens: seq<Token>) returns (result: seq<Token>)
    ensures result == MergeNegatives(tokens)
  {
    result := [];
    var i := 0;
    while i < |tokens|
      invariant 0 <= i <= |tokens|
      invariant MergeFrom(tokens, i, result) == MergeNegatives(tokens)
      decreases |tokens| - i
    {
      if tokens[i].kind == Whitespace || tokens[i].kind == Comment {
        result, i := Copy(tokens, i, result);
        continue;
      }
      if tokens[i].kind == ArithmeticOperator && tokens[i].value == "-" {
        var j := LookAhead(tokens, i + 1);
        if j < |tokens| && tokens[j].kind == Number {
          var isUnary := IsUnary(result);
          if isUnary {
            assert MergesAt(tokens, i, result);
            result := result + [Token(Number, "-" + tokens[j].value, tokens[i].start, tokens[j].end)];
            i := j + 1;
            continue;
          }
        }
      }
      result, i := Copy(tokens, i, result);
    }
  }

  /** The no-merge step: append the token at `i` and move past it. */
  method Copy(tokens: seq<Token>, i: nat, result: seq<Token>) returns (result': seq<Token>, i': nat)
    requires i < |tokens| && !MergesAt(tokens, i, result)
    ensures i' == i + 1 && result' == result + [tokens[i]]
    ensures MergeFrom(tokens, i', result') == MergeFrom(tokens, i, result)
  {
    result', i' := result + [tokens[i]], i + 1;
  }

  /** The look-ahead loop: skip whitespace and comments from `j`. */
  method LookAhead(tokens: seq<Token>, j0: nat) returns (j: nat)
    requires j0 <= |tokens|
    ensures j == NextMeaningful(tokens, j0)
  {
    j := j0;
    while j < |tokens| && (tokens[j].kind == Whitespace || tokens[j].kind == Comment)
      invariant j0 <= j <= |tokens|
      invariant NextMeaningful(tokens, j) == NextMeaningful(tokens, j0)
    {
      j := j + 1;
    }
  }

  /** The look-back loop over the result and the context test that follows it. */
  method IsUnary(result: seq<Token>) returns (isUnary: bool)
    ensures isUnary == SignContext(result)
  {
    var prevIdx := |result| - 1;
    while prevIdx >= 0 && (result[prevIdx].kind == Whitespace || result[prevIdx].kind == Comment)
      invariant -1 <= prevIdx < |result|
      invariant LastMeaningfulBelow(result, prevIdx + 1) == LastMeaningfulBelow(result, |result|)
    {
      prevIdx := prevIdx - 1;
    }
    isUnary := false;
    if prevIdx < 0 {
      isUnary := true;
    } else {
      var prevToken := result[prevIdx];
      if prevToken.kind in SignContexts {
        isUnary := true;
      } else if prevToken.kind == Keyword {
        if Lower(prevToken.value) in SignKeywords {
          isUnary := true;
        }
      }
    }
  }

  // ---------------------------------------------------------------------------
  // Properties of the pass

  /** A minus in sign position whose next meaningful token is a NUMBER: the output holds
      the merged token where the minus stood, the whitespace and comments up to the
      number are dropped, and the pass goes on right after the number. */
  lemma MinusMerged(ts: seq<Token>, i: nat, acc: seq<Token>)
    requires i < |ts| && IsMinusOperator(ts[i]) && SignContext(acc)
    requires NextMeaningful(ts, i + 1) < |ts| && ts[NextMeaningful(ts, i + 1)].kind == Number
    ensures var j := NextMeaningful(ts, i + 1);
            var out := MergeFrom(ts, i, acc);
            |out| > |acc| && out[..|acc| + 1] == acc + [Negated(ts[i], ts[j])]
            && out == MergeFrom(ts, j + 1, acc + [Negated(ts[i], ts[j])])
  {
    var j := NextMeaningful(ts, i + 1);
    MergeFromBounds(ts, j + 1, acc + [Negated(ts[i], ts[j])]);
  }

  /** A minus whose last meaningful predecessor is an operand (an identifier, a number
      or a closing bracket) is a subtraction: it is copied as it is and the pass goes on
      with the next token, whatever follows it. */
  lemma MinusAfterOperandCopied(ts: seq<Token>, i: nat, acc: seq<Token>)
    requires i < |ts| && IsMinusOperator(ts[i])
    requires LastMeaningfulBelow(acc, |acc|) >= 0
    requires acc[LastMeaningfulBelow(acc, |acc|)].kind in {Identifier, Number, RParenthesis, RBracket}
    ensures var out := MergeFrom(ts, i, acc);
            |out| > |acc| && out[..|acc| + 1] == acc + [ts[i]] && out == MergeFrom(ts, i + 1, acc + [ts[i]])
  {
    assert !SignContext(acc);
    MergeFromBounds(ts, i + 1, acc + [ts[i]]);
  }

  /** Tokens other than a `-` operator are copied one by one. */
  lemma {:induction false} MergeFromCopies(ts: seq<Token>, i: nat, n: nat, acc: seq<Token>)
    requires i <= n <= |ts|
    requires forall k :: i <= k < n ==> !IsMinusOperator(ts[k])
    ensures MergeFrom(ts, i, acc) == MergeFrom(ts, n, acc + ts[i..n])
    decreases n - i
  {
    if i == n {
      assert acc + ts[i..n] == acc;
    } else {
      MergeFromCopies(ts, i + 1, n, acc + [ts[i]]);
      assert acc + [ts[i]] + ts[i + 1..n] == acc + ts[i..n];
    }
  }

  /** `x := -5`: after `:=` the minus is a sign, and the NUMBER `-5` spans both. */
  lemma AssignNegativeLiteral()
    ensures MergeNegatives([Token(Identifier, "x", 0, 1), Token(Whitespace, " ", 1, 2), Token(AssignOperator, ":=", 2, 4),
                            Token(Whitespace, " ", 4, 5), Token(ArithmeticOperator, "-", 5, 6), Token(Number, "5", 6, 7)])
         == [Token(Identifier, "x", 0, 1), Token(Whitespace, " ", 1, 2), Token(AssignOperator, ":=", 2, 4),
             Token(Whitespace, " ", 4, 5), Token(Number, "-5", 5, 7)]
  {
    var ts := [Token(Identifier, "x", 0, 1), Token(Whitespace, " ", 1, 2), Token(AssignOperator, ":=", 2, 4),
               Token(Whitespace, " ", 4, 5), Token(ArithmeticOperator, "-", 5, 6), Token(Number, "5", 6, 7)];
    var acc := ts[..4];
    MergeFromCopies(ts, 0, 4, []);
    assert [] + ts[0..4] == acc;
    assert LastMeaningfulBelow(acc, 4) == 2;
    assert NextMeaningful(ts, 5) == 5;
    MinusMerged(ts, 4, acc);
    assert Negated(ts[4], ts[5]) == Token(Number, "-5", 5, 7);
    assert MergeFrom(ts, 6, acc + [Negated(ts[4], ts[5])]) == acc + [Negated(ts[4], ts[5])];
  }

  /** `x - 5`: after an identifier the minus is a subtraction, and nothing changes. */
  lemma SubtractionUnchanged()
    ensures MergeNegatives([Token(Identifier, "x", 0, 1), Token(Whitespace, " ", 1, 2), Token(ArithmeticOperator, "-", 2, 3),
                            Token(Whitespace, " ", 3, 4), Token(Number, "5", 4, 5)])
         == [Token(Identifier, "x", 0, 1), Token(Whitespace, " ", 1, 2), Token(ArithmeticOperator, "-", 2, 3),
             Token(Whitespace, " ", 3, 4), Token(Number, "5", 4, 5)]
  {
    var ts := [Token(Identifier, "x", 0, 1), Token(Whitespace, " ", 1, 2), Token(ArithmeticOperator, "-", 2, 3),
               Token(Whitespace, " ", 3, 4), Token(Number, "5", 4, 5)];
    var acc := [ts[0], ts[1]];
    MergeFromCopies(ts, 0, 2, []);
    assert [] + ts[0..2] == acc;
    assert LastMeaningfulBelow(acc, 2) == 0;
    MinusAfterOperandCopied(ts, 2, acc);
    MergeFromCopies(ts, 3, 5, acc + [ts[2]]);
    assert acc + [ts[2]] + ts[3..5] == ts;
  }


  /** The pass only appends to what it has produced, and at most one token per input
      token: the output is never longer than the input. */
  lemma {:induction false} MergeFromBounds(ts: seq<Token>, i: nat, acc: seq<Token>)
    requires i <= |ts|
    ensures acc <= MergeFrom(ts, i, acc)
    ensures |MergeFrom(ts, i, acc)| <= |acc| + |ts| - i
    decreases |ts| - i
  {
    if i < |ts| {
      if MergesAt(ts, i, acc) {
        var j := NextMeaningful(ts, i + 1);
        MergeFromBounds(ts, j + 1, acc + [Negated(ts[i], ts[j])]);
      } else {
        MergeFromBounds(ts, i + 1, acc + [ts[i]]);
      }
    }
  }

  lemma MergeNegativesShorter(ts: seq<Token>)
    ensures |MergeNegatives(ts)| <= |ts|
  {
    MergeFromBounds(ts, 0, []);
  }

  /** The tokens other than whitespace and comments, in order. */
  function Significant(ts: seq<Token>): (r: seq<Token>)
    ensures |r| <= |ts|
    ensures forall k :: 0 <= k < |r| ==> !IsTrivia(r[k])
  {
    if ts == [] then [] else (if IsTrivia(ts[0]) then [] else [ts[0]]) + Significant(ts[1..])
  }

  lemma {:induction false} SignificantAppend(a: seq<Token>, b: seq<Token>)
    ensures Significant(a + b) == Significant(a) + Significant(b)
    decreases |a|
  {
    if a == [] {
      assert a + b == b;
    } else {
      assert (a + b)[1..] == a[1..] + b;
      SignificantAppend(a[1..], b);
    }
  }

  /** The text of the tokens other than whitespace and comments. */
  function SignificantText(ts: seq<Token>): string {
    Texts(Significant(ts))
  }

  /** Appending one token adds its text unless it is whitespace or a comment. */
  lemma SignificantTextSnoc(acc: seq<Token>, t: Token)
    ensures SignificantText(acc + [t]) == SignificantText(acc) + (if IsTrivia(t) then "" else t.value)
  {
    SignificantAppend(acc, [t]);
    TextsAppend(Significant(acc), Significant([t]));
    assert [t][1..] == [];
    if !IsTrivia(t) {
      TextsCons(t, []);
    }
  }

  /** The text from offset `a` starts with the text of the token at `a`. */
  lemma SignificantTextFrom(ts: seq<Token>, a: nat)
    requires a < |ts|
    ensures SignificantText(ts[a..]) == (if IsTrivia(ts[a]) then "" else ts[a].value) + SignificantText(ts[a + 1..])
  {
    assert ts[a..] == [ts[a]] + ts[a + 1..];
    SignificantAppend([ts[a]], ts[a + 1..]);
    TextsAppend(Significant([ts[a]]), Significant(ts[a + 1..]));
    assert [ts[a]][1..] == [];
    if !IsTrivia(ts[a]) {
      TextsCons(ts[a], []);
    }
  }

  /** Whitespace and comments add no text. */
  lemma {:induction false} SkipTrivia(ts: seq<Token>, a: nat, j: nat)
    requires a <= j <= |ts|
    requires forall k :: a <= k < j ==> IsTrivia(ts[k])
    ensures SignificantText(ts[a..]) == SignificantText(ts[j..])
    decreases j - a
  {
    if a < j {
      SignificantTextFrom(ts, a);
      SkipTrivia(ts, a + 1, j);
    }
  }

  /** Seen from the minus, the significant text is the minus, then the number's text. */
  lemma MinusSuffixText(ts: seq<Token>, i: nat, j: nat)
    requires i < j < |ts| && IsMinusOperator(ts[i]) && ts[j].kind == Number
    requires forall k :: i < k < j ==> IsTrivia(ts[k])
    ensures SignificantText(ts[i..]) == "-" + (ts[j].value + SignificantText(ts[j + 1..]))
  {
    SignificantTextFrom(ts, i);
    SkipTrivia(ts, i + 1, j);
    SignificantTextFrom(ts, j);
  }

  /** Regrouping the three pieces of a merge's text. */
  lemma Regroup(before: string, v: string, rest: string)
    ensures before + ("-" + v) + rest == before + ("-" + (v + rest))
  {
    assert "-" + v + rest == "-" + (v + rest);
  }

  /** The text a merge contributes is the minus and the number's text. */
  lemma MergeStepText(ts: seq<Token>, i: nat, j: nat, acc: seq<Token>)
    requires i < j < |ts| && IsMinusOperator(ts[i]) && ts[j].kind == Number
    requires forall k :: i < k < j ==> IsTrivia(ts[k])
    ensures SignificantText(acc + [Negated(ts[i], ts[j])]) + SignificantText(ts[j + 1..]) ==
            SignificantText(acc) + SignificantText(ts[i..])
  {
    SignificantTextSnoc(acc, Negated(ts[i], ts[j]));
    MinusSuffixText(ts, i, j);
    Regroup(SignificantText(acc), ts[j].value, SignificantText(ts[j + 1..]));
  }

  /** The text a copied token contributes is its own. */
  lemma CopyStepText(ts: seq<Token>, i: nat, acc: seq<Token>)
    requires i < |ts|
    ensures SignificantText(acc + [ts[i]]) + SignificantText(ts[i + 1..]) == SignificantText(acc) + SignificantText(ts[i..])
  {
    var before, own, rest := SignificantText(acc), if IsTrivia(ts[i]) then "" else ts[i].value, SignificantText(ts[i + 1..]);
    SignificantTextSnoc(acc, ts[i]);
    SignificantTextFrom(ts, i);
    assert before + own + rest == before + (own + rest);
  }

  /** Ignoring whitespace and comments the pass changes no text: a merged token's text
      is the minus followed by the number's text. */
  lemma {:induction false} MergeFromKeepsText(ts: seq<Token>, i: nat, acc: seq<Token>)
    requires i <= |ts|
    ensures SignificantText(MergeFrom(ts, i, acc)) == SignificantText(acc) + SignificantText(ts[i..])
    decreases |ts| - i
  {
    if i == |ts| {
      assert ts[i..] == [];
      assert SignificantText(acc) + SignificantText(ts[i..]) == SignificantText(acc);
    } else if MergesAt(ts, i, acc) {
      var j := NextMeaningful(ts, i + 1);
      var acc' := acc + [Negated(ts[i], ts[j])];
      assert MergeFrom(ts, i, acc) == MergeFrom(ts, j + 1, acc');
      MergeFromKeepsText(ts, j + 1, acc');
      MergeStepText(ts, i, j, acc);
    } else {
      var acc' := acc + [ts[i]];
      assert MergeFrom(ts, i, acc) == MergeFrom(ts, i + 1, acc');
      MergeFromKeepsText(ts, i + 1, acc');
      CopyStepText(ts, i, acc);
    }
  }

  lemma MergeNegativesKeepsText(ts: seq<Token>)
    ensures SignificantText(MergeNegatives(ts)) == SignificantText(ts)
  {
    MergeFromKeepsText(ts, 0, []);
    assert ts[0..] == ts;
  }

  /** Output token `t` is the merge of the minus at `i` with the number at `j`, which
      only whitespace and comments separate. */
  ghost predicate NegatedAt(ts: seq<Token>, i: int, j: int, t: Token) {
    && 0 <= i < j < |ts|
    && IsMinusOperator(ts[i]) && ts[j].kind == Number
    && (forall k :: i < k < j ==> IsTrivia(ts[k]))
    && t == Negated(ts[i], ts[j])
  }

  /** An output token is an input token or a minus merged with its number. */
  ghost predicate FromInput(ts: seq<Token>, t: Token) {
    t in ts || exists i, j :: NegatedAt(ts, i, j, t)
  }

  /** Where each output token comes from: an input token copied, or a NUMBER merged from
      a minus and the number after it. In particular whitespace and comments are only
      ever copied. */
  lemma {:induction false} MergeFromOrigin(ts: seq<Token>, i: nat, acc: seq<Token>)
    requires i <= |ts|
    requires forall t :: t in acc ==> FromInput(ts, t)
    ensures forall t :: t in MergeFrom(ts, i, acc) ==> FromInput(ts, t)
    decreases |ts| - i
  {
    if i < |ts| {
      if MergesAt(ts, i, acc) {
        var j := NextMeaningful(ts, i + 1);
        var m := Negated(ts[i], ts[j]);
        assert NegatedAt(ts, i, j, m);
        MergeFromOrigin(ts, j + 1, acc + [m]);
      } else {
        MergeFromOrigin(ts, i + 1, acc + [ts[i]]);
      }
    }
  }

  lemma MergeNegativesOrigin(ts: seq<Token>)
    ensures forall t :: t in MergeNegatives(ts) ==> FromInput(ts, t)
  {
    MergeFromOrigin(ts, 0, []);
  }

  /** Without a `-` operator token the pass changes nothing. */
  lemma {:induction false} MergeFromWithoutMinus(ts: seq<Token>, i: nat, acc: seq<Token>)
    requires i <= |ts|
    requires forall k :: 0 <= k < |ts| ==> !IsMinusOperator(ts[k])
    ensures MergeFrom(ts, i, acc) == acc + ts[i..]
    decreases |ts| - i
  {
    if i == |ts| {
      assert acc + ts[i..] == acc;
    } else {
      MergeFromWithoutMinus(ts, i + 1, acc + [ts[i]]);
      assert acc + [ts[i]] + ts[i + 1..] == acc + ts[i..];
    }
  }

  lemma MergeNegativesWithoutMinus(ts: seq<Token>)
    requires forall k :: 0 <= k < |ts| ==> !IsMinusOperator(ts[k])
    ensures MergeNegatives(ts) == ts
  {
    MergeFromWithoutMinus(ts, 0, []);
    assert [] + ts[0..] == ts;
  }
}
