/** The maximal-munch scanner (src/lexer/lexer.py). */
module Lexing {
  import opened Wrappers
  import opened Strings
  import opened Tokens
  import opened Automata
  import opened Dfa
  import opened Readers

  /** The transition the configured DFA takes from `q` on `c`. */
  function Move(config: DFAConfig, q: State, c: char): Option<State> {
    TableOfWellFormed(config.transitions);
    Next(TableOf(config.transitions), config.charClasses, q, c)
  }

  /** A transition function: the state reached from a state on a character, if any. */
  type StepFn = (State, char) -> Option<State>

  /** The configured DFA's transition function. */
  function Delta(config: DFAConfig): StepFn {
    (q, c) => Move(config, q, c)
  }

  /** The transition function is what the DFA's transition table gives. */
  lemma DeltaIsNext(config: DFAConfig, table: Table, q: State, c: char)
    requires table == TableOf(config.transitions)
    ensures WellFormed(table) && Delta(config)(q, c) == Next(table, config.charClasses, q, c)
  {
    TableOfWellFormed(config.transitions);
  }

  /** The state the DFA is in after reading `s` from `q`, or `None` if it gets stuck. */
  function Run(delta: StepFn, q: State, s: string): Option<State>
    decreases |s|
  {
    if s == [] then Some(q)
    else match Run(delta, q, s[..|s| - 1])
      case None => None
      case Some(p) => delta(p, s[|s| - 1])
  }

  /** `src[i..e]` drives the DFA from its start state into a final state. */
  predicate Accepts(config: DFAConfig, delta: StepFn, src: string, i: nat, e: nat)
    requires i <= e <= |src|
  {
    var r := Run(delta, config.startState, src[i..e]);
    r.Some? && r.value in config.finalStates
  }

  /** The last accepting point seen while probing: where the accepted lexeme ends and
      the final state it ended in. */
  datatype Accept = Accept(end: nat, state: State)

  /** The inner scanning loop from offset `j` in state `q`: it follows transitions while
      it can, remembering the last point at which the state was final. It returns where
      it stopped and that last accepting point. */
  function Probe(config: DFAConfig, delta: StepFn, src: string, q: State, j: nat, acc: Option<Accept>): (r: (nat, Option<Accept>))
    requires j <= |src|
    ensures j <= r.0 <= |src|
    ensures r.1 == acc || (r.1.Some? && j < r.1.value.end <= r.0 && r.1.value.state in config.finalStates)
    decreases |src| - j
  {
    if j < |src| && delta(q, src[j]).Some? then
      var q' := delta(q, src[j]).value;
      Probe(config, delta, src, q', j + 1, if q' in config.finalStates then Some(Accept(j + 1, q')) else acc)
    else (j, acc)
  }

  /** The keyword and reserved-word override: an IDENTIFIER whose lower-cased text is a
      keyword becomes KEYWORD; otherwise one whose exact text is in the reserved map
      takes the mapped kind. */
  function Classify(config: DFAConfig, kind: TokenType, lexeme: string): TokenType {
    if kind == Identifier && Lower(lexeme) in config.keywords then Keyword
    else if kind == Identifier && lexeme in config.reservedMap then config.reservedMap[lexeme]
    else kind
  }

  /** The tokens `tokenize` produces from offset `i` on. After an accepted lexeme the
      scan resumes right after it. When nothing was accepted, an UNKNOWN token is
      produced for the character at which probing stopped, if any, and the characters
      probed before it produce no token. */
  function LexFrom(config: DFAConfig, delta: StepFn, src: string, i: nat): seq<Token>
    requires i <= |src|
    decreases |src| - i
  {
    if i == |src| then []
    else
      var (stop, acc) := Probe(config, delta, src, config.startState, i, None);
      if acc.Some? then
        var e := acc.value.end;
        [Token(Classify(config, config.finalStates[acc.value.state], src[i..e]), src[i..e], i, e)]
          + LexFrom(config, delta, src, e)
      else if stop < |src| then
        [Token(Unknown, [src[stop]], stop, stop + 1)] + LexFrom(config, delta, src, stop + 1)
      else []
  }

  function Lex(config: DFAConfig, src: string): seq<Token> {
    LexFrom(config, Delta(config), src, 0)
  }

  // ---------------------------------------------------------------------------
  // Maximal munch

  /** What the probe has learned by offset `j`: `acc` is the last accepting point in
      `(i, j]`, and none of `(i, j]` accepts when it is `None`. */
  ghost predicate AcceptedSoFar(config: DFAConfig, delta: StepFn, src: string, i: nat, j: nat, acc: Option<Accept>)
    requires i <= j <= |src|
  {
    match acc
    case None => forall e :: i < e <= j ==> !Accepts(config, delta, src, i, e)
    case Some(a) =>
      && i < a.end <= j
      && Run(delta, config.startState, src[i..a.end]) == Some(a.state)
      && a.state in config.finalStates
      && forall e :: a.end < e <= j ==> !Accepts(config, delta, src, i, e)
  }

  /** Reading one more character extends the run by one move. */
  lemma RunSnoc(config: DFAConfig, delta: StepFn, src: string, i: nat, j: nat)
    requires i <= j < |src|
    ensures Run(delta, config.startState, src[i..j + 1]) ==
              match Run(delta, config.startState, src[i..j])
              case None => None
              case Some(p) => delta(p, src[j])
  {
    assert src[i..j + 1][..j - i] == src[i..j];
  }

  lemma {:induction false} ProbeSound(config: DFAConfig, delta: StepFn, src: string, i: nat, q: State, j: nat, acc: Option<Accept>)
    requires i <= j <= |src|
    requires Run(delta, config.startState, src[i..j]) == Some(q)
    requires AcceptedSoFar(config, delta, src, i, j, acc)
    ensures var (stop, acc') := Probe(config, delta, src, q, j, acc);
            && Run(delta, config.startState, src[i..stop]).Some?
            && (stop < |src| ==> delta(Run(delta, config.startState, src[i..stop]).value, src[stop]).None?)
            && AcceptedSoFar(config, delta, src, i, stop, acc')
    decreases |src| - j
  {
    if j < |src| && delta(q, src[j]).Some? {
      var q' := delta(q, src[j]).value;
      var acc' := if q' in config.finalStates then Some(Accept(j + 1, q')) else acc;
      AcceptedSoFarStep(config, delta, src, i, q, j, acc);
      ProbeSound(config, delta, src, i, q', j + 1, acc');
    }
  }

  /** One probe step keeps the run and the record of the last accepting point. */
  lemma AcceptedSoFarStep(config: DFAConfig, delta: StepFn, src: string, i: nat, q: State, j: nat, acc: Option<Accept>)
    requires i <= j < |src|
    requires Run(delta, config.startState, src[i..j]) == Some(q)
    requires AcceptedSoFar(config, delta, src, i, j, acc)
    requires delta(q, src[j]).Some?
    ensures var q' := delta(q, src[j]).value;
            && Run(delta, config.startState, src[i..j + 1]) == Some(q')
            && AcceptedSoFar(config, delta, src, i, j + 1, if q' in config.finalStates then Some(Accept(j + 1, q')) else acc)
  {
    RunSnoc(config, delta, src, i, j);
  }

  /** Once the DFA is stuck it stays stuck. */
  lemma {:induction false} StuckStaysStuck(config: DFAConfig, delta: StepFn, src: string, i: nat, stop: nat, e: nat)
    requires i <= stop < e <= |src|
    requires Run(delta, config.startState, src[i..stop]).Some?
    requires delta(Run(delta, config.startState, src[i..stop]).value, src[stop]).None?
    ensures Run(delta, config.startState, src[i..e]).None?
    decreases e - stop
  {
    RunSnoc(config, delta, src, i, e - 1);
    if e - 1 > stop {
      StuckStaysStuck(config, delta, src, i, stop, e - 1);
    }
  }

  /** Maximal munch: a probe from the start state at `i` reports the LONGEST prefix of
      `src[i..]` that leaves the DFA in a final state, or nothing when no non-empty
      prefix does. */
  lemma LongestAccepted(config: DFAConfig, delta: StepFn, src: string, i: nat)
    requires i <= |src|
    ensures var acc := Probe(config, delta, src, config.startState, i, None).1;
            && (acc.Some? ==>
                  && i < acc.value.end <= |src|
                  && Accepts(config, delta, src, i, acc.value.end)
                  && Run(delta, config.startState, src[i..acc.value.end]) == Some(acc.value.state)
                  && forall e :: acc.value.end < e <= |src| ==> !Accepts(config, delta, src, i, e))
            && (acc.None? ==> forall e :: i < e <= |src| ==> !Accepts(config, delta, src, i, e))
  {
    assert src[i..i] == [];
    ProbeSound(config, delta, src, i, config.startState, i, None);
    var (stop, acc) := Probe(config, delta, src, config.startState, i, None);
    forall e | stop < e <= |src|
      ensures !Accepts(config, delta, src, i, e)
    {
      StuckStaysStuck(config, delta, src, i, stop, e);
    }
  }

  /** Where probing stops: the DFA has run over `src[i..stop]` and cannot move on
      the next character, if there is one. */
  lemma ProbeStops(config: DFAConfig, delta: StepFn, src: string, i: nat)
    requires i <= |src|
    ensures var stop := Probe(config, delta, src, config.startState, i, None).0;
            && Run(delta, config.startState, src[i..stop]).Some?
            && (stop < |src| ==> delta(Run(delta, config.startState, src[i..stop]).value, src[stop]).None?)
  {
    assert src[i..i] == [];
    ProbeSound(config, delta, src, i, config.startState, i, None);
  }

  // ---------------------------------------------------------------------------
  // The token stream

  /** Every token is the text it spans, and tokens come in source order without
      overlapping, all at or after offset `i`. */
  ghost predicate WellPlaced(ts: seq<Token>, src: string, i: nat) {
    && (forall k :: 0 <= k < |ts| ==> SpansText(ts[k], src) && i <= ts[k].start < ts[k].end)
    && (forall k, l :: 0 <= k < l < |ts| ==> ts[k].end <= ts[l].start)
  }

  lemma ConsWellPlaced(t: Token, rest: seq<Token>, src: string, i: nat, e: nat)
    requires SpansText(t, src) && i <= t.start < t.end <= e
    requires WellPlaced(rest, src, e)
    ensures WellPlaced([t] + rest, src, i)
  {
    var ts := [t] + rest;
    forall k, l | 0 <= k < l < |ts|
      ensures ts[k].end <= ts[l].start
    {
      if k > 0 {
        assert ts[k] == rest[k - 1] && ts[l] == rest[l - 1];
      } else {
        assert ts[l] == rest[l - 1];
      }
    }
    forall k | 0 <= k < |ts|
      ensures SpansText(ts[k], src) && i <= ts[k].start < ts[k].end
    {
      if k > 0 {
        assert ts[k] == rest[k - 1];
      }
    }
  }

  lemma {:induction false} LexFromWellPlaced(config: DFAConfig, delta: StepFn, src: string, i: nat)
    requires i <= |src|
    ensures WellPlaced(LexFrom(config, delta, src, i), src, i)
    decreases |src| - i
  {
    if i < |src| {
      var (stop, acc) := Probe(config, delta, src, config.startState, i, None);
      if acc.Some? {
        var e := acc.value.end;
        LexFromWellPlaced(config, delta, src, e);
        var t := Token(Classify(config, config.finalStates[acc.value.state], src[i..e]), src[i..e], i, e);
        ConsWellPlaced(t, LexFrom(config, delta, src, e), src, i, e);
      } else if stop < |src| {
        LexFromWellPlaced(config, delta, src, stop + 1);
        ConsWellPlaced(Token(Unknown, [src[stop]], stop, stop + 1), LexFrom(config, delta, src, stop + 1), src, i, stop + 1);
      }
    }
  }

  /** Each token of `tokenize` spans its own text, and token starts strictly increase. */
  lemma LexWellPlaced(config: DFAConfig, src: string)
    ensures var ts := Lex(config, src);
            && (forall k :: 0 <= k < |ts| ==> SpansText(ts[k], src))
            && (forall k, l :: 0 <= k < l < |ts| ==> ts[k].start < ts[l].start)
  {
    LexFromWellPlaced(config, Delta(config), src, 0);
  }

  /** The tokens that are not UNKNOWN are exactly the maximal accepted lexemes: each
      starts where the previous token ended (or at 0), is the longest accepted prefix
      there, and its kind is the final state's kind after the keyword override; the
      scan resumes right after it. */
  lemma {:induction false} LexFromMaximal(config: DFAConfig, delta: StepFn, src: string, i: nat)
    requires i < |src|
    requires Probe(config, delta, src, config.startState, i, None).1.Some?
    ensures var ts := LexFrom(config, delta, src, i);
            var a := Probe(config, delta, src, config.startState, i, None).1.value;
            && ts[0] == Token(Classify(config, config.finalStates[a.state], src[i..a.end]), src[i..a.end], i, a.end)
            && Accepts(config, delta, src, i, a.end)
            && (forall e :: a.end < e <= |src| ==> !Accepts(config, delta, src, i, e))
            && ts[1..] == LexFrom(config, delta, src, a.end)
  {
    LongestAccepted(config, delta, src, i);
    LexFromRound(config, delta, src, i);
  }

  /** When nothing is accepted at `i`, the UNKNOWN token is the character where probing
      stopped and scanning resumes after it; the characters probed before it are not
      part of any token. */
  lemma UnknownAtStop(config: DFAConfig, delta: StepFn, src: string, i: nat)
    requires i < |src|
    requires Probe(config, delta, src, config.startState, i, None).1.None?
    ensures var stop := Probe(config, delta, src, config.startState, i, None).0;
            var ts := LexFrom(config, delta, src, i);
            && (forall e :: i < e <= |src| ==> !Accepts(config, delta, src, i, e))
            && (stop < |src| ==> ts[0] == Token(Unknown, [src[stop]], stop, stop + 1)
                                 && ts[1..] == LexFrom(config, delta, src, stop + 1))
            && (stop == |src| ==> ts == [])
  {
    LongestAccepted(config, delta, src, i);
    LexFromRound(config, delta, src, i);
  }

  /** Keyword matching ignores letter case. */
  lemma KeywordCaseInsensitive(config: DFAConfig, a: string, b: string)
    requires Lower(a) == Lower(b) && Lower(a) in config.keywords
    ensures Classify(config, Identifier, a) == Keyword && Classify(config, Identifier, b) == Keyword
  {
  }

  /** Only IDENTIFIER tokens are reclassified; a keyword match wins over the reserved map,
      which is consulted with the exact text. */
  lemma ClassifyCases(config: DFAConfig, kind: TokenType, lexeme: string)
    ensures kind != Identifier ==> Classify(config, kind, lexeme) == kind
    ensures kind == Identifier && Lower(lexeme) !in config.keywords && lexeme !in config.reservedMap ==>
              Classify(config, kind, lexeme) == Identifier
    ensures kind == Identifier && Lower(lexeme) !in config.keywords && lexeme in config.reservedMap ==>
              Classify(config, kind, lexeme) == config.reservedMap[lexeme]
  {
  }

  // ---------------------------------------------------------------------------
  // The scanner object

  class Lexer {
    const config: DFAConfig
    const dfa: DFA
    const keywords: set<string>
    const reservedMap: map<string, TokenType>

    ghost predicate Valid()
      reads this, dfa, dfa.automaton
    {
      && dfa.Valid()
      && dfa.config == config
      && (forall k :: k in keywords <==> k in config.keywords)
      && reservedMap == config.reservedMap
    }

    /** Builds the lexer from an already loaded configuration. */
    constructor (config: DFAConfig)
      ensures Valid() && this.config == config && fresh(dfa) && fresh(dfa.automaton)
    {
      this.config := config;
      dfa := new DFA(config);
      keywords := set k | k in config.keywords;
      reservedMap := config.reservedMap;
    }

    /** `tokenize`: the tokens `Lex` describes. It uses the lexer's DFA and changes
        only its current state. */
    method Tokenize(source: string) returns (tokens: seq<Token>)
      requires Valid()
      modifies dfa
      ensures Valid()
      ensures tokens == Lex(config, source)
    {
      var reader := new Reader(source);
      tokens := [];
      ghost var whole := Lex(config, source);
      while !reader.Eof()
        invariant Valid()
        invariant fresh(reader) && reader.Valid() && reader.text == source
        invariant tokens + LexFrom(config, Delta(config), source, reader.pos.index) == whole
        decreases |source| - reader.pos.index
      {
        LexFromRound(config, Delta(config), source, reader.pos.index);
        var t, next := NextToken(reader);
        ghost var rest := LexFrom(config, Delta(config), source, next.pos.index);
        if t.Some? {
          assert tokens + [t.value] + rest == whole by {
            Regroup(tokens, [t.value], rest);
          }
          tokens := tokens + [t.value];
        } else {
          assert tokens + rest == whole;
        }
        reader := next;
      }
    }

    /** One round of the outer loop of `tokenize`: probe from the reader's offset, then
        either produce the accepted token and rewind to its end, or produce an UNKNOWN
        token for the character where probing stopped and move past it, or, at the end
        of input with nothing accepted, produce nothing. */
    method NextToken(reader: Reader) returns (t: Option<Token>, next: Reader)
      requires Valid() && reader.Valid() && !reader.Eof()
      modifies reader, dfa
      ensures Valid() && next.Valid() && next.text == reader.text
      ensures next == reader || fresh(next)
      ensures (t, next.pos.index) == Round(config, Delta(config), reader.text, old(reader.pos.index))
    {
      var source := reader.text;
      var startPos := reader.pos.index;
      dfa.Reset();
      var lastAcceptedState, acceptedLexeme := Scan(reader);
      RoundScanned(config, Delta(config), source, startPos, reader.pos.index, lastAcceptedState, acceptedLexeme);
      if acceptedLexeme != "" {
        var kind := Reclassify(config.finalStates[lastAcceptedState.value], acceptedLexeme);
        var end := startPos + |acceptedLexeme|;
        t := Some(Token(kind, acceptedLexeme, startPos, end));
        // Rewind: a fresh reader moved to the end of the accepted lexeme.
        next := ReaderAt(source, end);
      } else if !reader.Eof() {
        var stop := reader.pos.index;
        assert reader.currentChar.value == source[stop];
        t := Some(Token(Unknown, [reader.currentChar.value], stop, stop + 1));
        reader.Advance();
        next := reader;
      } else {
        t := None;
        next := reader;
      }
    }

    /** The keyword and reserved-word override `tokenize` applies to an accepted
        lexeme, using the lexer's own keyword set and reserved map. */
    method Reclassify(kind: TokenType, lexeme: string) returns (kind': TokenType)
      requires Valid()
      ensures kind' == Classify(config, kind, lexeme)
    {
      kind' := kind;
      if kind == Identifier && Lower(lexeme) in keywords {
        kind' := Keyword;
      } else if kind == Identifier && lexeme in reservedMap {
        kind' := reservedMap[lexeme];
      }
    }

    /** The loop state of the inner scan (see `ScanInvariant`). */
    ghost predicate Scanning(reader: Reader, source: string, startPos: nat, lexeme: string,
                             lastAcceptedState: Option<State>, acceptedLexeme: string)
      reads this, dfa, dfa.automaton, reader
    {
      && Valid()
      && reader.Valid() && reader.text == source
      && ScanInvariant(config, Delta(config), source, startPos, reader.pos.index, dfa.current, lexeme, lastAcceptedState, acceptedLexeme)
    }

    /** One round of the inner scan: read the current character into the lexeme, step
        the DFA on it, record the lexeme if the new state is final, and advance. */
    method Feed(reader: Reader, ghost source: string, ghost startPos: nat, lexeme: string,
                lastAcceptedState: Option<State>, acceptedLexeme: string)
      returns (lexeme': string, lastAcceptedState': Option<State>, acceptedLexeme': string)
      requires Scanning(reader, source, startPos, lexeme, lastAcceptedState, acceptedLexeme)
      requires !reader.Eof() && dfa.CanTransition(reader.currentChar.value)
      modifies reader, dfa
      ensures Scanning(reader, source, startPos, lexeme', lastAcceptedState', acceptedLexeme')
      ensures reader.pos.index == old(reader.pos.index) + 1
    {
      var c := reader.currentChar.value;
      ghost var j := reader.pos.index;
      ghost var q := dfa.current;
      assert c == source[j];
      DeltaIsNext(config, dfa.table, q, c);
      lexeme' := lexeme + [c];
      var _ := dfa.Step(c);
      ghost var q' := dfa.current;
      assert q' == Delta(config)(q, source[j]).value;
      lastAcceptedState', acceptedLexeme' := lastAcceptedState, acceptedLexeme;
      if dfa.GetTokenType().Some? {
        lastAcceptedState' := Some(dfa.current);
        acceptedLexeme' := lexeme';
      }
      reader.Advance();
      FeedKeepsInvariant(config, Delta(config), source, startPos, j, q, lexeme, lastAcceptedState, acceptedLexeme,
                         lastAcceptedState', acceptedLexeme');
    }

    /** The inner loop of `tokenize`: feed characters to the DFA while it can move,
        recording the state and lexeme at every final state. It returns the last
        accepted state and lexeme (`None` and "" when there is none), which `Probe`
        describes, and leaves the reader where probing stopped. */
    method Scan(reader: Reader) returns (lastAcceptedState: Option<State>, acceptedLexeme: string)
      requires Valid() && reader.Valid() && dfa.current == config.startState
      modifies reader, dfa
      ensures Valid() && reader.Valid()
      ensures old(reader.pos.index) <= reader.pos.index
      ensures lastAcceptedState.None? <==> acceptedLexeme == ""
      ensures lastAcceptedState.Some? ==>
                && old(reader.pos.index) + |acceptedLexeme| <= |reader.text|
                && acceptedLexeme == reader.text[old(reader.pos.index)..old(reader.pos.index) + |acceptedLexeme|]
      ensures Probe(config, Delta(config), reader.text, config.startState, old(reader.pos.index), None) ==
              (reader.pos.index, AcceptedAt(old(reader.pos.index), acceptedLexeme, lastAcceptedState))
    {
      var source := reader.text;
      var startPos := reader.pos.index;
      var lexeme := "";
      lastAcceptedState := None;
      acceptedLexeme := "";
      while !reader.Eof() && dfa.CanTransition(reader.currentChar.value)
        invariant Scanning(reader, source, startPos, lexeme, lastAcceptedState, acceptedLexeme)
        decreases |source| - reader.pos.index
      {
        lexeme, lastAcceptedState, acceptedLexeme := Feed(reader, source, startPos, lexeme, lastAcceptedState, acceptedLexeme);
      }
      ProbeDone(config, Delta(config), source, dfa.current, reader.pos.index, AcceptedAt(startPos, acceptedLexeme, lastAcceptedState));
    }
  }

  /** The inner scan's loop state: the reader is at `j` in state `q`, `lexeme` is the
      text read since `startPos`, `acceptedLexeme` is the prefix of it read when the DFA
      was last in a final state, and the rest of the probe from here ends as the whole
      probe from `startPos` does. */
  ghost predicate ScanInvariant(config: DFAConfig, delta: StepFn, source: string, startPos: nat, j: nat, q: State, lexeme: string,
                                lastAcceptedState: Option<State>, acceptedLexeme: string)
  {
    && startPos <= j <= |source|
    && lexeme == source[startPos..j]
    && (lastAcceptedState.None? <==> acceptedLexeme == "")
    && (lastAcceptedState.Some? ==>
          && startPos + |acceptedLexeme| <= j
          && acceptedLexeme == source[startPos..startPos + |acceptedLexeme|])
    && Probe(config, delta, source, config.startState, startPos, None) ==
       Probe(config, delta, source, q, j, AcceptedAt(startPos, acceptedLexeme, lastAcceptedState))
  }

  /** One round of the inner scan keeps its loop state. */
  lemma FeedKeepsInvariant(config: DFAConfig, delta: StepFn, source: string, startPos: nat, j: nat, q: State, lexeme: string,
                           last: Option<State>, accepted: string, last': Option<State>, accepted': string)
    requires ScanInvariant(config, delta, source, startPos, j, q, lexeme, last, accepted)
    requires j < |source| && delta(q, source[j]).Some?
    requires var q' := delta(q, source[j]).value;
             if q' in config.finalStates then last' == Some(q') && accepted' == lexeme + [source[j]]
             else last' == last && accepted' == accepted
    ensures ScanInvariant(config, delta, source, startPos, j + 1, delta(q, source[j]).value,
                          lexeme + [source[j]], last', accepted')
  {
    ProbeStep(config, delta, source, q, j, AcceptedAt(startPos, accepted, last));
  }

  /** One round of the outer loop of `tokenize` from offset `i`: the token it produces,
      if any, and the offset the next round starts from. */
  function Round(config: DFAConfig, delta: StepFn, src: string, i: nat): (r: (Option<Token>, nat))
    requires i < |src|
    ensures i < r.1 <= |src|
  {
    var (stop, acc) := Probe(config, delta, src, config.startState, i, None);
    if acc.Some? then
      var e := acc.value.end;
      (Some(Token(Classify(config, config.finalStates[acc.value.state], src[i..e]), src[i..e], i, e)), e)
    else if stop < |src| then (Some(Token(Unknown, [src[stop]], stop, stop + 1)), stop + 1)
    else (None, |src|)
  }

  /** `LexFrom` is the token of a round followed by the tokens from where the round
      leaves off; a round without a token ends the scan. */
  lemma LexFromRound(config: DFAConfig, delta: StepFn, src: string, i: nat)
    requires i < |src|
    ensures var (t, e) := Round(config, delta, src, i);
            && (t.Some? ==> LexFrom(config, delta, src, i) == [t.value] + LexFrom(config, delta, src, e))
            && (t.None? ==> LexFrom(config, delta, src, i) == [] && LexFrom(config, delta, src, e) == [])
  {
  }

  /** The round read off the outcome of the inner scan from `i`: the accepted token and
      a resume after it; or, with nothing accepted, an UNKNOWN token for the character
      where probing stopped and a resume after that character; or nothing when probing
      reached the end of input. */
  lemma RoundScanned(config: DFAConfig, delta: StepFn, src: string, i: nat, stop: nat,
                     last: Option<State>, lexeme: string)
    requires i < |src|
    requires Probe(config, delta, src, config.startState, i, None) == (stop, AcceptedAt(i, lexeme, last))
    requires last.None? <==> lexeme == ""
    requires last.Some? ==> i + |lexeme| <= |src| && lexeme == src[i..i + |lexeme|]
    ensures last.Some? ==>
              && last.value in config.finalStates
              && Round(config, delta, src, i) ==
                 (Some(Token(Classify(config, config.finalStates[last.value], lexeme), lexeme, i, i + |lexeme|)), i + |lexeme|)
    ensures last.None? && stop < |src| ==>
              Round(config, delta, src, i) == (Some(Token(Unknown, [src[stop]], stop, stop + 1)), stop + 1)
    ensures last.None? ==> stop <= |src| && (stop == |src| ==> Round(config, delta, src, i) == (None, |src|))
  {
  }

  lemma Regroup(done: seq<Token>, produced: seq<Token>, rest: seq<Token>)
    ensures done + produced + rest == done + (produced + rest)
  {
  }

  lemma ProbeStep(config: DFAConfig, delta: StepFn, src: string, q: State, j: nat, acc: Option<Accept>)
    requires j < |src| && delta(q, src[j]).Some?
    ensures var q' := delta(q, src[j]).value;
            Probe(config, delta, src, q, j, acc) ==
            Probe(config, delta, src, q', j + 1, if q' in config.finalStates then Some(Accept(j + 1, q')) else acc)
  {
  }

  lemma ProbeDone(config: DFAConfig, delta: StepFn, src: string, q: State, j: nat, acc: Option<Accept>)
    requires j <= |src|
    requires j < |src| ==> delta(q, src[j]).None?
    ensures Probe(config, delta, src, q, j, acc) == (j, acc)
  {
  }

  /** The rewind: a fresh reader over `source` advanced `n` times. */
  method ReaderAt(source: string, n: nat) returns (reader: Reader)
    requires n <= |source|
    ensures fresh(reader) && reader.Valid() && reader.text == source && reader.pos.index == n
  {
    reader := new Reader(source);
    for k := 0 to n
      invariant reader.Valid() && reader.text == source && reader.pos.index == k
    {
      reader.Advance();
    }
  }

  /** The probe's last accepting point as the source's loop variables hold it. */
  function AcceptedAt(startPos: nat, acceptedLexeme: string, lastAcceptedState: Option<State>): Option<Accept> {
    if lastAcceptedState.Some? then Some(Accept(startPos + |acceptedLexeme|, lastAcceptedState.value)) else None
  }

  // ---------------------------------------------------------------------------
  // Characters probed without an accepting state are lost

  /** A configuration whose only token is "ab": after reading "a" the DFA is in a
      non-final state that can still move on "b". */
  function ProbeDemo(): DFAConfig {
    DFAConfig("S", map["B" := Identifier], map[], [("S", "a", "A"), ("A", "b", "B")], [], map[])
  }

  /** On the source "a" the probe moves to the non-final state and reaches the end
      of input without accepting, so `tokenize` produces no token at all: the text of
      its tokens is empty although the source is not, and there is no UNKNOWN token
      to show for it. The same happens, for instance, to an unterminated string
      literal at the end of a file. */
  lemma LexDropsProbedText()
    ensures Lex(ProbeDemo(), "a") == []
    ensures Texts(Lex(ProbeDemo(), "a")) != "a"
  {
    var c := ProbeDemo();
    var t := TableOf(c.transitions);
    assert TableOf(c.transitions[..1]) == Table(map[("S", "a") := "A"], [("S", "a")]);
    assert t == Table(map[("S", "a") := "A", ("A", "b") := "B"], [("S", "a"), ("A", "b")]);
    assert Move(c, "S", 'a') == Some("A");
    assert Delta(c)("S", 'a') == Some("A");
    assert Probe(c, Delta(c), "a", "A", 1, None) == (1, None);
    assert Probe(c, Delta(c), "a", "S", 0, None) == (1, None);
  }

  /** The scan as the surrounding design describes it: when nothing is accepted at
      `i`, the character AT `i` becomes an UNKNOWN token and scanning resumes at
      `i + 1`. */
  function LexCorrectedFrom(config: DFAConfig, delta: StepFn, src: string, i: nat): seq<Token>
    requires i <= |src|
    decreases |src| - i
  {
    if i == |src| then []
    else
      var acc := Probe(config, delta, src, config.startState, i, None).1;
      if acc.Some? then
        var e := acc.value.end;
        [Token(Classify(config, config.finalStates[acc.value.state], src[i..e]), src[i..e], i, e)]
          + LexCorrectedFrom(config, delta, src, e)
      else [Token(Unknown, [src[i]], i, i + 1)] + LexCorrectedFrom(config, delta, src, i + 1)
  }

  function LexCorrected(config: DFAConfig, src: string): seq<Token> {
    LexCorrectedFrom(config, Delta(config), src, 0)
  }

  /** The first token of the corrected scan at `i` and where the scan resumes. */
  function CorrectedHead(config: DFAConfig, delta: StepFn, src: string, i: nat): (r: (Token, nat))
    requires i < |src|
    ensures i < r.1 <= |src| && r.0.start == i && r.0.end == r.1 && r.0.value == src[i..r.1]
  {
    var acc := Probe(config, delta, src, config.startState, i, None).1;
    if acc.Some? then
      var e := acc.value.end;
      (Token(Classify(config, config.finalStates[acc.value.state], src[i..e]), src[i..e], i, e), e)
    else (Token(Unknown, [src[i]], i, i + 1), i + 1)
  }

  lemma CorrectedUnfold(config: DFAConfig, delta: StepFn, src: string, i: nat)
    requires i < |src|
    ensures var (t, e) := CorrectedHead(config, delta, src, i);
            LexCorrectedFrom(config, delta, src, i) == [t] + LexCorrectedFrom(config, delta, src, e)
  {
  }

  lemma {:induction false} LexCorrectedFromTexts(config: DFAConfig, delta: StepFn, src: string, i: nat)
    requires i <= |src|
    ensures Texts(LexCorrectedFrom(config, delta, src, i)) == src[i..]
    decreases |src| - i
  {
    if i < |src| {
      var (t, e) := CorrectedHead(config, delta, src, i);
      CorrectedUnfold(config, delta, src, i);
      LexCorrectedFromTexts(config, delta, src, e);
      TextsCons(t, LexCorrectedFrom(config, delta, src, e));
      assert src[i..] == src[i..e] + src[e..];
    }
  }

  lemma {:induction false} LexCorrectedFromWellPlaced(config: DFAConfig, delta: StepFn, src: string, i: nat)
    requires i <= |src|
    ensures WellPlaced(LexCorrectedFrom(config, delta, src, i), src, i)
    decreases |src| - i
  {
    if i < |src| {
      var (t, e) := CorrectedHead(config, delta, src, i);
      CorrectedUnfold(config, delta, src, i);
      LexCorrectedFromWellPlaced(config, delta, src, e);
      ConsWellPlaced(t, LexCorrectedFrom(config, delta, src, e), src, i, e);
    }
  }

  lemma {:induction false} LexCorrectedFromTiles(config: DFAConfig, delta: StepFn, src: string, i: nat)
    requires i <= |src|
    ensures Tiles(LexCorrectedFrom(config, delta, src, i), i, |src|)
    decreases |src| - i
  {
    if i < |src| {
      var (t, e) := CorrectedHead(config, delta, src, i);
      CorrectedUnfold(config, delta, src, i);
      LexCorrectedFromTiles(config, delta, src, e);
      ConsTiles(t, LexCorrectedFrom(config, delta, src, e), e, |src|);
    }
  }

  /** With the correction every character of the source is in exactly one token:
      the tokens tile the source and their texts concatenate back to it. */
  lemma LexCorrectedRoundTrip(config: DFAConfig, src: string)
    ensures Texts(LexCorrected(config, src)) == src
    ensures var ts := LexCorrected(config, src);
            && (forall k :: 0 <= k < |ts| ==> SpansText(ts[k], src))
            && Tiles(ts, 0, |src|)
  {
    LexCorrectedFromTexts(config, Delta(config), src, 0);
    LexCorrectedFromWellPlaced(config, Delta(config), src, 0);
    LexCorrectedFromTiles(config, Delta(config), src, 0);
  }

  /** The correction changes only what happens when nothing is accepted: where some
      prefix is accepted, both scans produce the same token. */
  lemma CorrectionKeepsAcceptedTokens(config: DFAConfig, delta: StepFn, src: string, i: nat)
    requires i < |src|
    requires Probe(config, delta, src, config.startState, i, None).1.Some?
    ensures LexCorrectedFrom(config, delta, src, i)[0] == LexFrom(config, delta, src, i)[0]
  {
  }
}
