/** The `Lexer` class of text_lexer.cpp: a cursor (`pos`, `line`, `column`)
    over an immutable source string. Every method is proved to do what the
    matching function of `LexSpec` computes from the cursor it starts at. */
module TextLexer {
  import opened Chars
  import opened LexSpec
  import LexProps

  class Lexer {
    const source: string
    var pos: nat
    var line: int
    var column: int

    ghost predicate Valid()
      reads this
    {
      pos <= |source|
    }

    /** The line and column the cursor holds. */
    function Here(): Pos
      reads this
    {
      Pos(line, column)
    }

    constructor (src: string)
      ensures Valid() && source == src && pos == 0 && Here() == Start
    {
      source := src;
      pos := 0;
      line := 1;
      column := 1;
    }

    /** `peek`: the character under the cursor, NUL past the end. */
    function Peek(): char
      reads this
    {
      At(source, pos)
    }

    /** `advance`: returns the character under the cursor and moves past it
        if there is one; the line and column move in any case. */
    method Advance() returns (c: char)
      requires Valid()
      modifies this
      ensures Valid()
      ensures c == At(source, old(pos))
      ensures pos == if old(pos) < |source| then old(pos) + 1 else old(pos)
      ensures Here() == Next(old(Here()), c)
    {
      if pos < |source| {
        c := source[pos];
        pos := pos + 1;
      } else {
        c := '\0';
      }
      if c == '\n' {
        line := line + 1;
        column := 1;
      } else {
        column := column + 1;
      }
    }

    /** One of the `while (<class>(peek())) value += advance();` loops:
        consumes the maximal run of class `r` and returns it. */
    method AdvanceWhile(r: Run) returns (v: string)
      requires Valid()
      modifies this
      ensures Valid()
      ensures pos == RunEnd(source, old(pos), r)
      ensures v == source[old(pos)..pos]
      ensures Here() == Track(source, old(pos), pos, old(Here()))
    {
      ghost var p0, h0 := pos, Here();
      v := "";
      while InRun(r, Peek())
        invariant Valid() && p0 <= pos
        invariant RunEnd(source, pos, r) == RunEnd(source, p0, r)
        invariant v == source[p0..pos]
        invariant Here() == Track(source, p0, pos, h0)
        decreases |source| - pos
      {
        var c := Advance();
        v := v + [c];
      }
    }

    /** The inner loop of the block-comment branch of `skipWhitespace`,
        entered just after the opening `/` `*`: it stops before a closing
        `*` `/`, or at NUL, where `skipWhitespace` returns. */
    method SkipCommentBody() returns (closed: bool)
      requires Valid()
      modifies this
      ensures Valid()
      ensures closed == BlockCommentEnd(source, old(pos)).Closed?
      ensures pos == match BlockCommentEnd(source, old(pos))
                     case Closed(a) => a - 2
                     case Unclosed(z) => z
      ensures Here() == Track(source, old(pos), pos, old(Here()))
    {
      ghost var p0, h0 := pos, Here();
      while !(Peek() == '*' && At(source, pos + 1) == '/')
        invariant Valid() && p0 <= pos
        invariant BlockCommentEnd(source, pos) == BlockCommentEnd(source, p0)
        invariant Here() == Track(source, p0, pos, h0)
        decreases |source| - pos
      {
        if Peek() == '\0' {
          return false;
        }
        var c := Advance();
      }
      return true;
    }

    /** The block-comment branch of `skipWhitespace`: `/` `*`, the body,
        and `*` `/` when the comment is closed. */
    method SkipBlockComment() returns (closed: bool)
      requires Valid() && Peek() == '/' && At(source, pos + 1) == '*'
      modifies this
      ensures Valid()
      ensures closed == BlockCommentEnd(source, old(pos) + 2).Closed?
      ensures pos == match BlockCommentEnd(source, old(pos) + 2)
                     case Closed(a) => a
                     case Unclosed(z) => z
      ensures Here() == Track(source, old(pos), pos, old(Here()))
    {
      ghost var p0, h0 := pos, Here();
      var c := Advance();
      c := Advance();
      TrackPair(source, p0, h0);
      ghost var mid := pos;
      closed := SkipCommentBody();
      TrackSplit(source, p0, mid, pos, h0);
      if closed {
        ghost var last, h1 := pos, Here();
        c := Advance();
        c := Advance();
        TrackPair(source, last, h1);
        TrackSplit(source, p0, last, pos, h0);
      }
    }

    /** `skipWhitespace`: skips blanks, `#` and `//` line comments (up to the
        newline) and `/* ... */` block comments; an unclosed block comment
        ends the skipping at the NUL that stops it. */
    method SkipWhitespace()
      requires Valid()
      modifies this
      ensures Valid() && pos == SkipWs(source, old(pos))
      ensures Here() == Track(source, old(pos), pos, old(Here()))
    {
      ghost var p0, h0 := pos, Here();
      while true
        invariant Valid() && p0 <= pos
        invariant SkipWs(source, pos) == SkipWs(source, p0)
        invariant Here() == Track(source, p0, pos, h0)
        decreases |source| - pos
      {
        ghost var head, h1 := pos, Here();
        if Peek() == '#' || (Peek() == '/' && At(source, pos + 1) == '/') {
          var v := AdvanceWhile(LineBody);
          assert SkipWs(source, head) == SkipWs(source, pos);
        } else if Peek() == '/' && At(source, pos + 1) == '*' {
          var closed := SkipBlockComment();
          if !closed {
            assert pos == SkipWs(source, head);
            TrackSplit(source, p0, head, pos, h0);
            return;
          }
          assert SkipWs(source, head) == SkipWs(source, pos);
        } else if IsSpace(Peek()) {
          var c := Advance();
          assert SkipWs(source, head) == SkipWs(source, pos);
        } else {
          break;
        }
        TrackSplit(source, p0, head, pos, h0);
      }
    }

    /** `recognizeIdOrKeyword`. */
    method RecognizeIdOrKeyword() returns (t: Token)
      requires Valid()
      modifies this
      ensures Valid()
      ensures Lexed(t, pos, Here()) == RecognizeWord(source, old(pos), old(Here()))
    {
      if IsDigit(Peek()) {
        var value := AdvanceWhile(AlnumChars);
        return MakeError(IllegalIdMessage + value, Here());
      }
      var value := AdvanceWhile(WordChars);
      if value in Keywords {
        return MakeToken(Keywords[value], value, Here());
      }
      return MakeToken(TokenId, value, Here());
    }

    /** The fraction part of `recognizeNumber`, entered just after the
        decimal point. */
    method ReadFraction() returns (value: string, isError: bool)
      requires Valid()
      modifies this
      ensures Valid()
      ensures NumberShape(pos, true, isError) == Fraction(source, old(pos))
      ensures value == source[old(pos)..pos]
      ensures Here() == Track(source, old(pos), pos, old(Here()))
    {
      ghost var p0, h0 := pos, Here();
      isError := false;
      value := "";
      if !IsDigit(Peek()) {
        isError := true;
      } else {
        value := AdvanceWhile(Digits);
      }
      if Peek() == '.' {
        isError := true;
        var c := Advance();
        value := value + [c];
        assert value == source[p0..pos];
        ghost var mid := pos;
        var v := AdvanceWhile(Digits);
        TrackSplit(source, p0, mid, pos, h0);
        assert source[p0..pos] == source[p0..mid] + source[mid..pos];
        value := value + v;
      }
    }

    /** The integer part and the fraction part of `recognizeNumber`, up to
        its check for a trailing letter. */
    method ReadNumberBody() returns (value: string, hasDecimalPoint: bool, isError: bool)
      requires Valid()
      modifies this
      ensures Valid()
      ensures NumberShape(pos, hasDecimalPoint, isError) == NumberBody(source, old(pos))
      ensures value == source[old(pos)..pos]
      ensures Here() == Track(source, old(pos), pos, old(Here()))
    {
      ghost var p0, h0 := pos, Here();
      hasDecimalPoint := false;
      isError := false;
      value := AdvanceWhile(Digits);
      if Peek() == '.' {
        var c := Advance();
        value := value + [c];
        assert value == source[p0..pos];
        hasDecimalPoint := true;
        ghost var mid := pos;
        var v;
        v, isError := ReadFraction();
        TrackSplit(source, p0, mid, pos, h0);
        assert source[p0..pos] == source[p0..mid] + source[mid..pos];
        value := value + v;
      }
    }

    /** `recognizeNumber`: digits, an optional fraction, and the checks for a
        missing fraction, a second decimal point and a trailing word. */
    method RecognizeNumber() returns (t: Token)
      requires Valid()
      modifies this
      ensures Valid()
      ensures Lexed(t, pos, Here()) == LexSpec.RecognizeNumber(source, old(pos), old(Here()))
    {
      ghost var p0, h0 := pos, Here();
      var value, hasDecimalPoint, isError := ReadNumberBody();
      if IsAlpha(Peek()) || Peek() == '_' {
        isError := true;
        ghost var mid := pos;
        var v := AdvanceWhile(WordChars);
        TrackSplit(source, p0, mid, pos, h0);
        assert source[p0..pos] == source[p0..mid] + source[mid..pos] by {
          assert p0 <= mid <= pos <= |source|;
          assert value == source[p0..mid] && v == source[mid..pos];
        }
        value := value + v;
      }
      assert NumberShape(pos, hasDecimalPoint, isError) == NumberScan(source, p0);
      if isError {
        return MakeError(BadNumberMessage + value, Here());
      }
      return MakeToken(if hasDecimalPoint then TokenFloat else TokenNum, value, Here());
    }

    /** `recognizeOpOrSep`: a two-character operator or bit operator first,
        then a one-character operator, bit operator or separator. */
    method RecognizeOpOrSep() returns (t: Token)
      requires Valid()
      modifies this
      ensures Valid()
      ensures Lexed(t, pos, Here()) == LexSpec.RecognizeOpOrSep(source, old(pos), old(Here()))
    {
      var c := Advance();
      var value := [c];
      var doubleOp := value + [Peek()];
      if doubleOp in Operators || doubleOp in BitOperators {
        var d := Advance();
        value := value + [d];
        return MakeToken(if doubleOp in Operators then TokenOp else TokenBitOp, value, Here());
      }
      if value in Operators {
        return MakeToken(TokenOp, value, Here());
      }
      if value in BitOperators {
        return MakeToken(TokenBitOp, value, Here());
      }
      if value in Separators {
        return MakeToken(TokenSep, value, Here());
      }
      return MakeError(UnknownSymbolMessage + value, Here());
    }

    /** `getNextToken`. */
    method GetNextToken() returns (t: Token)
      requires Valid()
      modifies this
      ensures Valid()
      ensures Lexed(t, pos, Here()) == Scan(source, old(pos), old(Here()))
    {
      SkipWhitespace();
      var ch := Peek();
      if IsAlpha(ch) || ch == '_' {
        t := RecognizeIdOrKeyword();
      } else if IsDigit(ch) {
        t := RecognizeNumber();
      } else if [ch] in Operators || [ch] in Separators {
        t := RecognizeOpOrSep();
      } else if ch == '\0' {
        t := EndToken;
      } else {
        var c := Advance();
        t := Token(TokenError, IllegalCharMessage + [ch], 0, 0);
      }
    }

    /** The driver's loop without its output: tokens are collected until
        `getNextToken` returns the end token. */
    method Tokenize() returns (ts: seq<Token>)
      requires Valid()
      modifies this
      ensures Valid()
      ensures ts == LexFrom(source, old(pos), old(Here()))
      ensures forall k :: 0 <= k < |ts| ==> !IsEnd(ts[k])
    {
      ghost var p0, h0 := pos, Here();
      ghost var all := LexFrom(source, pos, Here());
      ghost var rest := all;
      ts := [];
      assert ts + rest == rest;
      while true
        invariant Valid()
        invariant rest == LexFrom(source, pos, Here())
        invariant ts + rest == all
        decreases |source| - pos
      {
        ghost var head, h1 := pos, Here();
        var t := GetNextToken();
        LexFromStep(source, head, h1, Lexed(t, pos, Here()));
        if t.kind == TokenError && t.value == "" {
          assert ts + [] == ts;
          break;
        }
        ghost var next := LexFrom(source, pos, Here());
        assert (ts + [t]) + next == ts + ([t] + next);
        ts, rest := ts + [t], next;
      }
      LexProps.LexedTokensAreNotEnd(source, p0, h0);
    }
  }
}
