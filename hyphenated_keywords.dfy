/** Merging of hyphenated keywords (src/lexer/hyphenated_keywords.py). */
module HyphenatedKeywords {
  import opened Strings
  import opened Tokens

  /** `HYPHENATED_KEYWORDS`. */
  const Hyphenated: set<string> := {"turun-ke", "selain-itu"}

  /** An IDENTIFIER or a KEYWORD: what may stand on either side of the hyphen. */
  predicate IsWord(t: Token) {
    t.kind == Identifier || t.kind == Keyword
  }

  /** Three consecutive tokens a hyphenated keyword is merged from: a word, the `-`
      operator and a word whose joined text, lower-cased, is a hyphenated keyword. */
  predicate Joins(t1: Token, t2: Token, t3: Token) {
    IsWord(t1) && IsMinusOperator(t2) && IsWord(t3) && Lower(t1.value + "-" + t3.value) in Hyphenated
  }

  /** The merged KEYWORD: the joined text in its original case, spanning from the
      first word to the second. */
  function Joined(t1: Token, t3: Token): Token {
    Token(Keyword, t1.value + "-" + t3.value, t1.start, t3.end)
  }

  /** The pass: at each position, three tokens that join become one keyword and the
      scan moves past all three; any other token is copied and the scan moves by one. */
  function Hyphenate(ts: seq<Token>): seq<Token>
    decreases |ts|
  {
    if ts == [] then []
    else if |ts| >= 3 && Joins(ts[0], ts[1], ts[2]) then [Joined(ts[0], ts[2])] + Hyphenate(ts[3..])
    else [ts[0]] + Hyphenate(ts[1..])
  }

  /** `merge_hyphenated_keywords`. */
  method MergeHyphenatedKeywords(tokens: seq<Token>) returns (result: seq<Token>)
    ensures result == Hyphenate(tokens)
  {
    result := [];
    var i := 0;
    while i < |tokens|
      invariant 0 <= i <= |tokens|
      invariant result + Hyphenate(tokens[i..]) == Hyphenate(tokens)
    {
      HyphenateAt(tokens, i);
      if i + 2 < |tokens| {
        var token1, token2, token3 := tokens[i], tokens[i + 1], tokens[i + 2];
        if IsWord(token1) && token2.kind == ArithmeticOperator && token2.value == "-" && IsWord(token3) {
          var potential := token1.value + "-" + token3.value;
          if Lower(potential) in Hyphenated {
            assert Joins(token1, token2, token3);
            var merged := Token(Keyword, potential, token1.start, token3.end);
            assert merged == Joined(token1, token3);
            Regroup(result, merged, Hyphenate(tokens[i + 3..]));
            result := result + [merged];
            i := i + 3;
            continue;
          }
        }
      }
      Regroup(result, tokens[i], Hyphenate(tokens[i + 1..]));
      result := result + [tokens[i]];
      i := i + 1;
    }
    assert tokens[i..] == [];
  }

  /** Moving one token from the pending part to the result keeps their concatenation. */
  lemma Regroup<T>(result: seq<T>, x: T, rest: seq<T>)
    ensures result + ([x] + rest) == (result + [x]) + rest
  {
  }

  /** One step of the pass at position `i`. */
  lemma HyphenateAt(ts: seq<Token>, i: nat)
    requires i < |ts|
    ensures i + 2 < |ts| && Joins(ts[i], ts[i + 1], ts[i + 2]) ==>
              Hyphenate(ts[i..]) == [Joined(ts[i], ts[i + 2])] + Hyphenate(ts[i + 3..])
    ensures !(i + 2 < |ts| && Joins(ts[i], ts[i + 1], ts[i + 2])) ==>
              Hyphenate(ts[i..]) == [ts[i]] + Hyphenate(ts[i + 1..])
  {
    var rest := ts[i..];
    assert rest[0] == ts[i];
    if |rest| >= 3 {
      assert rest[1] == ts[i + 1] && rest[2] == ts[i + 2] && rest[3..] == ts[i + 3..];
    }
    assert rest[1..] == ts[i + 1..];
  }

  /** The pass never lengthens the token list. */
  lemma {:induction false} HyphenateShorter(ts: seq<Token>)
    ensures |Hyphenate(ts)| <= |ts|
    decreases |ts|
  {
    if ts != [] {
      if |ts| >= 3 && Joins(ts[0], ts[1], ts[2]) {
        HyphenateShorter(ts[3..]);
      } else {
        HyphenateShorter(ts[1..]);
      }
    }
  }

  /** The pass changes no text: the merged keyword's text is the three texts joined. */
  lemma {:induction false} HyphenateKeepsTexts(ts: seq<Token>)
    ensures Texts(Hyphenate(ts)) == Texts(ts)
    decreases |ts|
  {
    if ts != [] {
      if |ts| >= 3 && Joins(ts[0], ts[1], ts[2]) {
        HyphenateKeepsTexts(ts[3..]);
        assert ts == [ts[0], ts[1], ts[2]] + ts[3..];
        JoinKeepsTexts(ts[0], ts[1], ts[2], ts[3..], Hyphenate(ts[3..]));
      } else {
        HyphenateKeepsTexts(ts[1..]);
        TextsCons(ts[0], Hyphenate(ts[1..]));
        assert ts == [ts[0]] + ts[1..];
        TextsCons(ts[0], ts[1..]);
      }
    }
  }

  /** Replacing a word, the `-` and a word by their joined keyword keeps the text. */
  lemma JoinKeepsTexts(t1: Token, t2: Token, t3: Token, rest: seq<Token>, restOut: seq<Token>)
    requires t2.value == "-" && Texts(restOut) == Texts(rest)
    ensures Texts([Joined(t1, t3)] + restOut) == Texts([t1, t2, t3] + rest)
  {
    TextsCons(Joined(t1, t3), restOut);
    assert [t1, t2, t3] + rest == [t1] + ([t2] + ([t3] + rest));
    TextsCons(t1, [t2] + ([t3] + rest));
    TextsCons(t2, [t3] + rest);
    TextsCons(t3, rest);
    assert t1.value + "-" + t3.value + Texts(rest) == t1.value + ("-" + (t3.value + Texts(rest)));
  }

  /** Tokens that cover a stretch of source without gaps still do after merging. */
  lemma {:induction false} HyphenateKeepsTiles(ts: seq<Token>, i: int, n: int)
    requires Tiles(ts, i, n)
    ensures Tiles(Hyphenate(ts), i, n)
    decreases |ts|
  {
    if ts != [] {
      if |ts| >= 3 && Joins(ts[0], ts[1], ts[2]) {
        var rest := ts[3..];
        if rest == [] {
          assert ts[2] == ts[|ts| - 1];
          assert Hyphenate(ts) == [Joined(ts[0], ts[2])];
        } else {
          TilesSuffix(ts, 3, i, n);
          HyphenateKeepsTiles(rest, ts[3].start, n);
          assert ts[2].end == ts[3].start;
          ConsTiles(Joined(ts[0], ts[2]), Hyphenate(rest), ts[3].start, n);
        }
      } else {
        var rest := ts[1..];
        if rest == [] {
          assert Hyphenate(ts) == [ts[0]];
        } else {
          TilesSuffix(ts, 1, i, n);
          HyphenateKeepsTiles(rest, ts[1].start, n);
          ConsTiles(ts[0], Hyphenate(rest), ts[1].start, n);
        }
      }
    }
  }

  /** A non-empty suffix of a tiling tiles the rest of the stretch. */
  lemma TilesSuffix(ts: seq<Token>, m: nat, i: int, n: int)
    requires Tiles(ts, i, n) && m < |ts|
    ensures Tiles(ts[m..], ts[m].start, n)
  {
    var s := ts[m..];
    assert forall k :: 0 <= k < |s| ==> s[k] == ts[m + k];
  }

  /** Output token `t` is the keyword merged from the three input tokens at `k`. */
  ghost predicate MergedAt(ts: seq<Token>, k: int, t: Token) {
    0 <= k < |ts| - 2 && Joins(ts[k], ts[k + 1], ts[k + 2]) && t == Joined(ts[k], ts[k + 2])
  }

  /** An output token is an input token or a keyword merged from input tokens. */
  ghost predicate FromInput(ts: seq<Token>, t: Token) {
    t in ts || exists k :: MergedAt(ts, k, t)
  }

  /** What comes from a suffix comes from the whole list. */
  lemma FromSuffix(ts: seq<Token>, d: nat, t: Token)
    requires d <= |ts| && FromInput(ts[d..], t)
    ensures FromInput(ts, t)
  {
    var rest := ts[d..];
    if t !in rest {
      var k :| MergedAt(rest, k, t);
      assert rest[k] == ts[k + d] && rest[k + 1] == ts[k + d + 1] && rest[k + 2] == ts[k + d + 2];
      assert MergedAt(ts, k + d, t);
    }
  }

  /** Where each output token comes from: it is an input token, or the keyword merged
      from three consecutive input tokens that join. */
  lemma {:induction false} HyphenateOrigin(ts: seq<Token>)
    ensures forall t :: t in Hyphenate(ts) ==> FromInput(ts, t)
    decreases |ts|
  {
    if ts != [] {
      var merge := |ts| >= 3 && Joins(ts[0], ts[1], ts[2]);
      var d := if merge then 3 else 1;
      HyphenateOrigin(ts[d..]);
      forall t | t in Hyphenate(ts)
        ensures FromInput(ts, t)
      {
        if t in Hyphenate(ts[d..]) {
          FromSuffix(ts, d, t);
        } else if merge {
          assert MergedAt(ts, 0, t);
        }
      }
    }
  }

  /** A merged keyword's text is a hyphenated keyword up to case. */
  lemma JoinedIsHyphenated(t1: Token, t2: Token, t3: Token)
    requires Joins(t1, t2, t3)
    ensures Joined(t1, t3).kind == Keyword && Lower(Joined(t1, t3).value) in Hyphenated
  {
  }

  /** Without a `-` operator token nothing is merged. */
  lemma {:induction false} HyphenateWithoutMinus(ts: seq<Token>)
    requires forall k :: 0 <= k < |ts| ==> !IsMinusOperator(ts[k])
    ensures Hyphenate(ts) == ts
    decreases |ts|
  {
    if ts != [] {
      assert forall k :: 0 <= k < |ts| - 1 ==> ts[1..][k] == ts[k + 1];
      HyphenateWithoutMinus(ts[1..]);
      if |ts| >= 3 {
        assert !IsMinusOperator(ts[1]);
      }
      assert [ts[0]] + ts[1..] == ts;
    }
  }
}
