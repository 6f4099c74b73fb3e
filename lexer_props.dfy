/** Properties of the scanner of text_lexer.cpp, stated over the functions of
    `LexSpec` that the `Lexer` class is proved to implement. */
module LexProps {
  import opened Chars
  import opened LexSpec

  // ---------------------------------------------------------------------
  // Termination of the driver loop and the end sentinel

  /** No token the driver loop collects is the end sentinel: every error
      token carries a non-empty message. */
  lemma {:induction false} LexedTokensAreNotEnd(s: string, i: nat, p: Pos)
    requires i <= |s|
    ensures forall k :: 0 <= k < |LexFrom(s, i, p)| ==> !IsEnd(LexFrom(s, i, p)[k])
    decreases |s| - i
  {
    var r := Scan(s, i, p);
    if !IsEnd(r.tok) {
      LexedTokensAreNotEnd(s, r.end, r.at);
      assert LexFrom(s, i, p) == [r.tok] + LexFrom(s, r.end, r.at);
    }
  }

  /** The driver loop stops after at most one token per character. */
  lemma {:induction false} LexFromLength(s: string, i: nat, p: Pos)
    requires i <= |s|
    ensures |LexFrom(s, i, p)| <= |s| - i
    decreases |s| - i
  {
    var r := Scan(s, i, p);
    if !IsEnd(r.tok) {
      LexFromLength(s, r.end, r.at);
    }
  }

  // ---------------------------------------------------------------------
  // Positions

  /** Over a stretch with no newline the line stays and the column grows by
      the stretch's length. */
  lemma {:induction false} TrackWithoutNewline(s: string, a: nat, b: nat, p: Pos)
    requires a <= b <= |s|
    requires forall k :: a <= k < b ==> s[k] != '\n'
    ensures Track(s, a, b, p) == Pos(p.line, p.column + (b - a))
    decreases b
  {
    if b > a {
      TrackWithoutNewline(s, a, b - 1, p);
    }
  }

  /** A newline moves to column 1 of the next line whatever came before. */
  lemma TrackAfterNewline(s: string, a: nat, b: nat, p: Pos)
    requires a < b <= |s| && s[b - 1] == '\n'
    ensures Track(s, a, b, p).column == 1
    ensures Track(s, a, b, p).line == Track(s, a, b - 1, p).line + 1
  {
  }

  /** A token that is not an error records the line and column of its first
      character: `makeToken` subtracts the lexeme's length from the column
      reached after it, and no lexeme spans a newline. */
  lemma TokenStartsWhereLexemeStarts(s: string, i: nat, p: Pos)
    requires i <= |s|
    requires Scan(s, i, p).tok.kind != TokenError
    ensures var j := SkipWs(s, i);
            var r := Scan(s, i, p);
            r.tok.value == s[j..r.end] &&
            r.tok.line == Track(s, i, j, p).line &&
            r.tok.column == Track(s, i, j, p).column
  {
    var j := SkipWs(s, i);
    var q := Track(s, i, j, p);
    var ch := At(s, j);
    if IsAlpha(ch) || ch == '_' {
      LexemeWithoutNewline(s, j, RecognizeWord(s, j, q));
    } else if IsDigit(ch) {
      NumberWithoutNewline(s, j, q);
      LexemeWithoutNewline(s, j, RecognizeNumber(s, j, q));
    } else {
      OpWithoutNewline(s, j, q);
      LexemeWithoutNewline(s, j, RecognizeOpOrSep(s, j, q));
    }
  }

  /** A token made by `makeToken` at the end of a newline-free lexeme
      `s[j..end]` gets the lexeme's starting line and column. */
  lemma LexemeWithoutNewline(s: string, j: nat, r: Lexed)
    requires j <= r.end <= |s|
    requires forall k :: j <= k < r.end ==> s[k] != '\n'
    requires exists q: Pos :: r.at == Track(s, j, r.end, q) && r.tok == MakeToken(r.tok.kind, s[j..r.end], r.at)
    ensures forall q: Pos :: r.at == Track(s, j, r.end, q) ==> r.tok.line == q.line && r.tok.column == q.column
    ensures r.tok.value == s[j..r.end]
  {
    forall q: Pos | r.at == Track(s, j, r.end, q)
      ensures r.tok.line == q.line && r.tok.column == q.column
    {
      TrackWithoutNewline(s, j, r.end, q);
    }
  }

  lemma NumberWithoutNewline(s: string, j: nat, q: Pos)
    requires j < |s| && IsDigit(s[j])
    requires RecognizeNumber(s, j, q).tok.kind != TokenError
    ensures var r := RecognizeNumber(s, j, q);
            (forall k :: j <= k < r.end ==> s[k] != '\n') &&
            r.tok == MakeToken(r.tok.kind, s[j..r.end], r.at) && r.at == Track(s, j, r.end, q)
  {
    var sh := NumberScan(s, j);
    var a := RunEnd(s, j, Digits);
    if At(s, a) == '.' {
      var b := a + 1;
      var d := if IsDigit(At(s, b)) then RunEnd(s, b, Digits) else b;
      assert forall k :: a < k < d ==> IsDigit(s[k]);
    }
  }

  lemma OpWithoutNewline(s: string, j: nat, q: Pos)
    requires j < |s| && ([s[j]] in Operators || [s[j]] in Separators)
    ensures var r := RecognizeOpOrSep(s, j, q);
            (forall k :: j <= k < r.end ==> s[k] != '\n') &&
            r.tok == MakeToken(r.tok.kind, s[j..r.end], r.at) && r.at == Track(s, j, r.end, q)
  {
    var two := [s[j]] + [At(s, j + 1)];
    if two in Operators || two in BitOperators {
      NoNulInOperators(two);
      assert two[1] == At(s, j + 1) != '\0';
      assert s[j..j + 2] == two;
      assert s[j + 1] != '\n';
      assert Track(s, j, j + 1, q) == Next(q, s[j]);
      assert Track(s, j, j + 2, q) == Next(Track(s, j, j + 1, q), s[j + 1]);
    } else {
      assert s[j..j + 1] == [s[j]];
    }
  }

  // ---------------------------------------------------------------------
  // Whitespace and comments

  /** Skipping is idempotent: where it stops there is nothing more to skip. */
  lemma SkipIsIdempotent(s: string, i: nat)
    requires i <= |s|
    ensures SkipWs(s, SkipWs(s, i)) == SkipWs(s, i)
  {
  }

  /** Starting the scan after some blanks, with the position those blanks
      lead to, yields the same token, end index and position. */
  lemma {:induction false} LeadingBlanksDoNotMatter(s: string, i: nat, k: nat, p: Pos)
    requires i <= k <= |s|
    requires forall m :: i <= m < k ==> IsSpace(s[m])
    ensures Scan(s, k, Track(s, i, k, p)) == Scan(s, i, p)
    decreases k - i
  {
    if i < k {
      BlanksSkipped(s, i, k);
      TrackSplit(s, i, k, SkipWs(s, i), p);
    }
  }

  lemma {:induction false} BlanksSkipped(s: string, i: nat, k: nat)
    requires i <= k <= |s|
    requires forall m :: i <= m < k ==> IsSpace(s[m])
    ensures SkipWs(s, i) == SkipWs(s, k)
    decreases k - i
  {
    if i < k {
      BlanksSkipped(s, i + 1, k);
    }
  }

  /** Text that skipping passes over anyway (blanks, comments) changes no
      token: the driver loop started after it, at the position it leads
      to, collects the same tokens as started before it. */
  lemma SkippedTextDoesNotMatter(s: string, i: nat, k: nat, p: Pos)
    requires i <= k <= |s| && SkipWs(s, k) == SkipWs(s, i)
    ensures LexFrom(s, k, Track(s, i, k, p)) == LexFrom(s, i, p)
  {
    TrackSplit(s, i, k, SkipWs(s, i), p);
    assert Scan(s, k, Track(s, i, k, p)) == Scan(s, i, p);
  }

  /** In particular, blanks before the next token change no token. */
  lemma BlanksBeforeTokens(s: string, i: nat, k: nat, p: Pos)
    requires i <= k <= |s|
    requires forall m :: i <= m < k ==> IsSpace(s[m])
    ensures LexFrom(s, k, Track(s, i, k, p)) == LexFrom(s, i, p)
  {
    BlanksSkipped(s, i, k);
    SkippedTextDoesNotMatter(s, i, k, p);
  }

  /** A `#` or `//` comment runs up to, not past, the next newline (or the
      end); skipping then resumes at that newline. */
  lemma LineCommentStopsAtNewline(s: string, i: nat)
    requires i <= |s|
    requires At(s, i) == '#' || (At(s, i) == '/' && At(s, i + 1) == '/')
    ensures var e := RunEnd(s, i, LineBody);
            (At(s, e) == '\n' || At(s, e) == '\0') &&
            (forall k :: i <= k < e ==> s[k] != '\n') &&
            SkipWs(s, i) == SkipWs(s, e)
  {
  }

  /** A block comment with no closing `*` `/` (and no NUL) silently runs to
      the end of the input: no token, not even an error, follows it. */
  lemma UnclosedBlockCommentEndsInput(s: string, i: nat, p: Pos)
    requires i + 2 <= |s| && s[i] == '/' && s[i + 1] == '*'
    requires forall k :: i + 2 <= k < |s| ==> s[k] != '\0' && !ClosesAt(s, k)
    ensures SkipWs(s, i) == |s|
    ensures Scan(s, i, p).tok == EndToken
    ensures LexFrom(s, i, p) == []
  {
    UnclosedRunsToEnd(s, i + 2);
  }

  lemma {:induction false} UnclosedRunsToEnd(s: string, k: nat)
    requires k <= |s|
    requires forall m :: k <= m < |s| ==> s[m] != '\0' && !ClosesAt(s, m)
    ensures BlockCommentEnd(s, k) == Unclosed(|s|)
    decreases |s| - k
  {
    if k < |s| {
      UnclosedRunsToEnd(s, k + 1);
    }
  }

  /** Block comments do not nest: the body ends at the first `*` `/` after
      the opening, whatever `/` `*` pairs come before it. */
  lemma {:induction false} BodyEndsAtFirstClose(s: string, k: nat, c: nat)
    requires k <= c && c + 1 < |s|
    requires forall m :: k <= m < c ==> !ClosesAt(s, m) && s[m] != '\0'
    requires ClosesAt(s, c)
    ensures BlockCommentEnd(s, k) == Closed(c + 2)
    decreases c - k
  {
    if k < c {
      BodyEndsAtFirstClose(s, k + 1, c);
    }
  }

  // ---------------------------------------------------------------------
  // Identifiers and keywords

  /** A letter- or underscore-led maximal run of letters, digits and
      underscores is one token: a boolean literal for `true` and `false`,
      a keyword for the other table words, an identifier otherwise. */
  lemma WordClassification(s: string, j: nat, p: Pos)
    requires j < |s| && (IsAlpha(s[j]) || s[j] == '_')
    ensures var r := RecognizeWord(s, j, p);
            var w := r.tok.value;
            j < r.end && w == s[j..r.end] &&
            (forall k :: j <= k < r.end ==> IsAlnum(s[k]) || s[k] == '_') &&
            !(IsAlnum(At(s, r.end)) || At(s, r.end) == '_') &&
            (r.tok.kind == TokenBool <==> w == "true" || w == "false") &&
            (r.tok.kind == TokenKeyword <==>
               w in {"int", "float", "bool", "if", "else", "while", "for", "read", "write"}) &&
            (r.tok.kind == TokenId <==> w !in Keywords)
  {
  }

  /** A letter or `_` after the skipped text starts `recognizeIdOrKeyword`. */
  lemma ScanAtWord(s: string, i: nat, p: Pos)
    requires i <= |s|
    requires IsAlpha(At(s, SkipWs(s, i))) || At(s, SkipWs(s, i)) == '_'
    ensures Scan(s, i, p) == RecognizeWord(s, SkipWs(s, i), Track(s, i, SkipWs(s, i), p))
  {
  }

  /** The digit-led branch of `recognizeIdOrKeyword` is never taken from
      `getNextToken`, which sends digits to `recognizeNumber`. */
  lemma DigitLedWordUnreachable(s: string, i: nat, p: Pos)
    requires i <= |s|
    requires IsDigit(At(s, SkipWs(s, i)))
    ensures Scan(s, i, p) == RecognizeNumber(s, SkipWs(s, i), Track(s, i, SkipWs(s, i), p))
  {
  }

  // ---------------------------------------------------------------------
  // Numbers

  /** A digit run not followed by `.`, a letter or `_` is an integer literal. */
  lemma IntegerLiteral(s: string, j: nat, p: Pos)
    requires j < |s| && IsDigit(s[j])
    requires var e := RunEnd(s, j, Digits); At(s, e) != '.' && !IsAlpha(At(s, e)) && At(s, e) != '_'
    ensures var e := RunEnd(s, j, Digits);
            var r := RecognizeNumber(s, j, p);
            r.tok.kind == TokenNum && r.tok.value == s[j..e] && r.end == e
  {
  }

  /** `digits.digits` followed by neither `.`, a letter nor `_` is a float
      literal. */
  lemma FloatLiteral(s: string, j: nat, p: Pos)
    requires j < |s|
    requires var a := RunEnd(s, j, Digits);
             At(s, a) == '.' && IsDigit(At(s, a + 1))
    requires var d := RunEnd(s, RunEnd(s, j, Digits) + 1, Digits);
             At(s, d) != '.' && !IsAlpha(At(s, d)) && At(s, d) != '_'
    ensures var d := RunEnd(s, RunEnd(s, j, Digits) + 1, Digits);
            var r := RecognizeNumber(s, j, p);
            r.tok.kind == TokenFloat && r.tok.value == s[j..d] && r.end == d
  {
  }

  /** A number is an error exactly when its decimal point has no digit after
      it, a second decimal point follows the fraction, or a letter or `_`
      follows; then the whole consumed run, trailing word included, is the
      text of a single error token. */
  lemma MalformedNumber(s: string, j: nat, p: Pos)
    requires j <= |s|
    ensures var a := RunEnd(s, j, Digits);
            var d := if IsDigit(At(s, a + 1)) then RunEnd(s, a + 1, Digits) else a + 1;
            var b := NumberBody(s, j).end;
            var r := RecognizeNumber(s, j, p);
            (r.tok.kind == TokenError <==>
              (At(s, a) == '.' && (!IsDigit(At(s, a + 1)) || At(s, d) == '.')) ||
              IsAlpha(At(s, b)) || At(s, b) == '_') &&
            r.end == (if IsAlpha(At(s, b)) || At(s, b) == '_' then RunEnd(s, b, WordChars) else b) &&
            (r.tok.kind == TokenError ==>
              r.tok == MakeError(BadNumberMessage + s[j..r.end], Track(s, j, r.end, p)))
  {
    var sh := NumberScan(s, j);
    var r := RecognizeNumber(s, j, p);
    assert r.end == sh.end;
    assert r.tok.kind == TokenError <==> sh.isError;
  }

  /** A text whose first token is followed only by blanks and comments
      lexes to that one token. */
  lemma {:induction false} SingleToken(s: string, r: Lexed)
    requires r == Scan(s, 0, Start) && !IsEnd(r.tok) && SkipWs(s, r.end) == |s|
    ensures Lex(s) == [r.tok]
  {
    assert IsEnd(Scan(s, r.end, r.at).tok);
    assert LexFrom(s, r.end, r.at) == [];
  }

  /** `12abc` lexes to a single malformed-number token. */
  lemma NumberWithLetters(s: string)
    requires s == "12abc"
    ensures Lex(s) == [MakeError(BadNumberMessage + "12abc", Pos(1, 6))]
  {
    assert SkipWs(s, 0) == 0;
    DigitLedWordUnreachable(s, 0, Start);
    assert NumberScan(s, 0) == NumberShape(5, false, true) by {
      assert RunEnd(s, 2, Digits) == 2;
      assert RunEnd(s, 1, Digits) == 2;
      assert RunEnd(s, 0, Digits) == 2;
      assert NumberBody(s, 0) == NumberShape(2, false, false);
      assert RunEnd(s, 5, WordChars) == 5;
      assert RunEnd(s, 4, WordChars) == 5;
      assert RunEnd(s, 3, WordChars) == 5;
      assert RunEnd(s, 2, WordChars) == 5;
    }
    TrackWithoutNewline(s, 0, 5, Start);
    assert s[0..5] == s;
    SingleToken(s, Scan(s, 0, Start));
  }

  /** `1.2.3` lexes to a single malformed-number token. */
  lemma NumberWithTwoPoints(s: string)
    requires s == "1.2.3"
    ensures Lex(s) == [MakeError(BadNumberMessage + "1.2.3", Pos(1, 6))]
  {
    assert SkipWs(s, 0) == 0;
    DigitLedWordUnreachable(s, 0, Start);
    assert NumberScan(s, 0) == NumberShape(5, true, true) by {
      assert RunEnd(s, 1, Digits) == 1;
      assert RunEnd(s, 0, Digits) == 1;
      assert Fraction(s, 2) == NumberShape(5, true, true) by {
        assert RunEnd(s, 3, Digits) == 3;
        assert RunEnd(s, 2, Digits) == 3;
        assert RunEnd(s, 5, Digits) == 5;
        assert RunEnd(s, 4, Digits) == 5;
      }
    }
    TrackWithoutNewline(s, 0, 5, Start);
    assert s[0..5] == s;
    SingleToken(s, Scan(s, 0, Start));
  }

  /** `3.` lexes to a single malformed-number token. */
  lemma NumberWithoutFraction(s: string)
    requires s == "3."
    ensures Lex(s) == [MakeError(BadNumberMessage + "3.", Pos(1, 3))]
  {
    assert SkipWs(s, 0) == 0;
    DigitLedWordUnreachable(s, 0, Start);
    assert NumberScan(s, 0) == NumberShape(2, true, true) by {
      assert RunEnd(s, 0, Digits) == 1;
      assert Fraction(s, 2) == NumberShape(2, true, true);
    }
    TrackWithoutNewline(s, 0, 2, Start);
    assert s[0..2] == s;
    SingleToken(s, Scan(s, 0, Start));
  }

  // ---------------------------------------------------------------------
  // Operators and separators

  /** A two-character entry of the operator or bit-operator table is taken
      whole, as an operator when the operator table has it. */
  lemma TwoCharacterOperatorFirst(s: string, j: nat, p: Pos)
    requires j + 1 < |s|
    requires [s[j], s[j + 1]] in Operators || [s[j], s[j + 1]] in BitOperators
    ensures var r := RecognizeOpOrSep(s, j, p);
            r.end == j + 2 && r.tok.value == [s[j], s[j + 1]] &&
            r.tok.kind == if [s[j], s[j + 1]] in Operators then TokenOp else TokenBitOp
  {
    assert [s[j]] + [At(s, j + 1)] == [s[j], s[j + 1]];
  }

  /** Otherwise one character is taken, classified as operator, then bit
      operator, then separator. */
  lemma OneCharacterFallback(s: string, j: nat, p: Pos)
    requires j < |s|
    requires [s[j], At(s, j + 1)] !in Operators && [s[j], At(s, j + 1)] !in BitOperators
    ensures var r := RecognizeOpOrSep(s, j, p);
            r.end == j + 1 && r.tok.value != [] &&
            (r.tok.kind == TokenOp <==> [s[j]] in Operators) &&
            (r.tok.kind == TokenBitOp <==> [s[j]] !in Operators && [s[j]] in BitOperators) &&
            (r.tok.kind == TokenSep <==> [s[j]] !in Operators && [s[j]] !in BitOperators && [s[j]] in Separators)
  {
    assert [s[j]] + [At(s, j + 1)] == [s[j], At(s, j + 1)];
  }

  /** `<<` is a bit operator and `&&` an operator. */
  lemma TwoCharacterOperatorExamples()
    ensures Scan("<<", 0, Start).tok == Token(TokenBitOp, "<<", 1, 1)
    ensures Scan("&&", 0, Start).tok == Token(TokenOp, "&&", 1, 1)
  {
    assert SkipWs("<<", 0) == 0;
    assert Scan("<<", 0, Start) == RecognizeOpOrSep("<<", 0, Start);
    assert ['<'] + [At("<<", 1)] == "<<" && "<<" !in Operators && "<<" in BitOperators;
    assert SkipWs("&&", 0) == 0;
    assert Scan("&&", 0, Start) == RecognizeOpOrSep("&&", 0, Start);
    assert ['&'] + [At("&&", 1)] == "&&" && "&&" in Operators;
  }

  /** A lone `&` or `|` is an operator although the bit-operator table lists
      it too. */
  lemma OneCharacterOperatorExamples()
    ensures Scan("& x", 0, Start).tok == Token(TokenOp, "&", 1, 1)
    ensures Scan("|", 0, Start).tok == Token(TokenOp, "|", 1, 1)
  {
    assert SkipWs("& x", 0) == 0;
    assert Scan("& x", 0, Start) == RecognizeOpOrSep("& x", 0, Start);
    assert ['&'] + [At("& x", 1)] == "& " && "& " !in Operators && "& " !in BitOperators && "&" in Operators;
    assert SkipWs("|", 0) == 0;
    assert Scan("|", 0, Start) == RecognizeOpOrSep("|", 0, Start);
    assert ['|'] + [At("|", 1)] == "|\0" && "|\0" !in Operators && "|\0" !in BitOperators && "|" in Operators;
  }

  /** The "unrecognized symbol" error of `recognizeOpOrSep` is never produced
      from `getNextToken`, which enters it only on a table character, and no
      token is the two-character separator `[]`. */
  lemma OpOrSepFromScanIsClassified(s: string, i: nat, p: Pos)
    requires i <= |s|
    requires var ch := At(s, SkipWs(s, i)); [ch] in Operators || [ch] in Separators
    ensures Scan(s, i, p).tok.kind in {TokenOp, TokenBitOp, TokenSep}
    ensures Scan(s, i, p).tok.value != "[]"
  {
    var j := SkipWs(s, i);
    var ch := At(s, j);
    assert !IsAlpha(ch) && ch != '_' && !IsDigit(ch) && ch != '\0';
    assert Scan(s, i, p) == RecognizeOpOrSep(s, j, Track(s, i, j, p));
    assert "[]" !in Operators && "[]" !in BitOperators;
  }

  /** A character in no table (nor a letter, digit, `_` or NUL) is an
      illegal-character error, at line 0 and column 0, and is skipped. */
  lemma IllegalCharacter(s: string, i: nat, p: Pos)
    requires i <= |s|
    requires var ch := At(s, SkipWs(s, i));
             ch != '\0' && !IsAlnum(ch) && ch != '_' && [ch] !in Operators && [ch] !in Separators
    ensures var j := SkipWs(s, i);
            var r := Scan(s, i, p);
            r.tok == Token(TokenError, IllegalCharMessage + [s[j]], 0, 0) && r.end == j + 1
  {
  }

  /** `~` and `^` are in the bit-operator table but `getNextToken` only looks
      at the operator and separator tables, so they are illegal characters. */
  lemma TildeIsIllegal()
    ensures Scan("~", 0, Start).tok == Token(TokenError, IllegalCharMessage + "~", 0, 0)
  {
    assert SkipWs("~", 0) == 0;
  }
}
