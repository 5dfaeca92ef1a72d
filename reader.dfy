/** A character cursor over source text with position tracking (src/text/reader.py). */
module Readers {
  import opened Wrappers
  import opened Positions
  import opened Errors

  /** The character at offset `i`, or `None` past the end. */
  function CharAt(text: string, i: int): Option<char> {
    if 0 <= i < |text| then Some(text[i]) else None
  }

  class Reader {
    const text: string
    var pos: Position
    var currentChar: Option<char>

    /** The cursor is at some offset of the text, its line and column are those of
        that offset, and `currentChar` mirrors the offset. */
    ghost predicate Valid()
      reads this
    {
      && 0 <= pos.index <= |text|
      && pos == PositionAt(text, pos.index)
      && currentChar == CharAt(text, pos.index)
    }

    constructor (text: string)
      ensures Valid() && this.text == text
      ensures pos == Position(0, 1, 1)
      ensures currentChar == if text == [] then None else Some(text[0])
    {
      this.text := text;
      pos := Position(0, 1, 1);
      currentChar := if text == [] then None else Some(text[0]);
    }

    /** Moves to the next character; a no-op at end of input. */
    method Advance()
      requires Valid()
      modifies this
      ensures Valid()
      ensures old(currentChar) == None ==> pos == old(pos) && currentChar == None
      ensures old(currentChar) != None ==>
                pos == Positions.Advance(old(pos), old(currentChar)) && pos.index == old(pos.index) + 1
    {
      if currentChar == None {
        return;
      }
      PositionAtNext(text, pos.index);
      pos := Positions.Advance(pos, currentChar);
      if pos.index >= |text| {
        currentChar := None;
      } else {
        currentChar := Some(text[pos.index]);
      }
    }

    /** The character `k` places ahead of the cursor, without moving it. Dafny has no
        default arguments: a call to `peek()` with the default of one is `Peek(1)`. */
    function Peek(k: int): (r: Option<char>)
      reads this
      ensures r == CharAt(text, pos.index + k)
      ensures Valid() && k == 0 ==> r == currentChar
    {
      var idx := pos.index + k;
      if 0 <= idx < |text| then Some(text[idx]) else None
    }

    /** Raises a lexical error exactly when the current character is not `expected`;
        never moves the cursor. */
    function Expect(expected: char): (r: Outcome<LexicalError>)
      reads this
      ensures r.Fail? <==> currentChar != Some(expected)
      ensures r.Fail? ==> r.error == LexicalError(expected, currentChar, pos)
    {
      if currentChar != Some(expected) then Fail(LexicalError(expected, currentChar, pos)) else Pass
    }

    /** End of input: no current character, which for a valid reader means the
        cursor is at the end of the text. */
    predicate Eof()
      reads this
      ensures Valid() ==> (Eof() <==> pos.index == |text|)
    {
      currentChar == None
    }
  }
}
