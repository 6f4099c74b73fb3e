/** The scanner of text_lexer.cpp as pure functions over the source text.
    Each function here is the specification that one method of
    `TextLexer.Lexer` is proved to implement: a cursor is a position `i`
    in the source plus the `Pos` (line and column) the lexer holds there. */
module LexSpec {
  import opened Chars

  /** The lexer's token codes, in the order of its enum (codes 0 to 8). */
  datatype TokenType =
    | TokenId | TokenNum | TokenFloat | TokenBool | TokenKeyword
    | TokenOp | TokenSep | TokenBitOp | TokenError

  datatype Token = Token(kind: TokenType, value: string, line: int, column: int)

  /** What `getNextToken` returns at a NUL lookahead: an error token with an
      empty value; its line and column are value-initialised to 0. */
  const EndToken := Token(TokenError, "", 0, 0)

  /** The driver's test for the end of the token stream. */
  predicate IsEnd(t: Token) { t.kind == TokenError && t.value == "" }

  // ---------------------------------------------------------------------
  // The constant tables

  const Keywords: map<string, TokenType> := map[
    "int" := TokenKeyword, "float" := TokenKeyword, "bool" := TokenKeyword,
    "if" := TokenKeyword, "else" := TokenKeyword, "while" := TokenKeyword,
    "for" := TokenKeyword, "read" := TokenKeyword, "write" := TokenKeyword,
    "true" := TokenBool, "false" := TokenBool]

  const Operators: set<string> := {
    "+", "-", "*", "/", "=", "&", "|", "+=", "-=", "*=", "/=", "==", "!=",
    "<", "<=", ">", ">=", "&&", "||", "!", "++", "--"}

  const Separators: set<string> := {";", ",", "(", ")", "{", "}", "[]", "]", ":"}

  const BitOperators: set<string> := {"&", "|", "~", "^", "<<", ">>"}

  /** Error texts (the source's messages, in English). */
  const IllegalIdMessage := "illegal identifier (cannot start with a digit): "
  const BadNumberMessage := "illegal number format: "
  const UnknownSymbolMessage := "unrecognized symbol: "
  const IllegalCharMessage := "illegal character: "

  // ---------------------------------------------------------------------
  // Cursor positions

  datatype Pos = Pos(line: int, column: int)

  const Start := Pos(1, 1)

  /** The line/column update `advance` makes for one character. */
  function Next(p: Pos, c: char): Pos {
    if c == '\n' then Pos(p.line + 1, 1) else Pos(p.line, p.column + 1)
  }

  /** The position reached from `p` after advancing over the characters
      `s[a..b]`. */
  function Track(s: string, a: nat, b: nat, p: Pos): Pos
    requires a <= b <= |s|
    decreases b
  {
    if b == a then p else Next(Track(s, a, b - 1, p), s[b - 1])
  }

  /** `peek` at index i: the character there, or NUL past the end (which is
      also what `source[size()]` reads). */
  function At(s: string, i: nat): char {
    if i < |s| then s[i] else '\0'
  }

  // ---------------------------------------------------------------------
  // Character runs

  /** The character classes the scanning loops run over. */
  datatype Run =
    | Digits       // isdigit
    | WordChars    // isalnum or '_'
    | AlnumChars   // isdigit or isalpha
    | LineBody     // neither newline nor NUL

  predicate InRun(r: Run, c: char) {
    match r
    case Digits => IsDigit(c)
    case WordChars => IsAlnum(c) || c == '_'
    case AlnumChars => IsDigit(c) || IsAlpha(c)
    case LineBody => c != '\n' && c != '\0'
  }

  /** Where a maximal run of class `r` starting at `i` ends. */
  function RunEnd(s: string, i: nat, r: Run): (e: nat)
    requires i <= |s|
    ensures i <= e <= |s|
    ensures forall k :: i <= k < e ==> InRun(r, s[k])
    ensures !InRun(r, At(s, e))
    decreases |s| - i
  {
    if i < |s| && InRun(r, s[i]) then RunEnd(s, i + 1, r) else i
  }

  // ---------------------------------------------------------------------
  // Whitespace and comments

  predicate ClosesAt(s: string, k: nat) { At(s, k) == '*' && At(s, k + 1) == '/' }

  /** How the body of a block comment ends: just past the first `*` `/`, or
      at a NUL (the end of input) with the comment still open. */
  datatype CommentEnd = Closed(after: nat) | Unclosed(stop: nat)

  /** The inner loop of the block-comment branch of `skipWhitespace`,
      started just after the opening `/` `*`. */
  function BlockCommentEnd(s: string, i: nat): (r: CommentEnd)
    requires i <= |s|
    ensures r.Closed? ==> i + 2 <= r.after <= |s| && ClosesAt(s, r.after - 2)
    ensures r.Closed? ==> forall k :: i <= k < r.after - 2 ==> !ClosesAt(s, k) && s[k] != '\0'
    ensures r.Unclosed? ==> i <= r.stop <= |s| && At(s, r.stop) == '\0'
    ensures r.Unclosed? ==> forall k :: i <= k < r.stop ==> !ClosesAt(s, k) && s[k] != '\0'
    decreases |s| - i
  {
    if ClosesAt(s, i) then Closed(i + 2)
    else if At(s, i) == '\0' then Unclosed(i)
    else BlockCommentEnd(s, i + 1)
  }

  /** A position where `skipWhitespace` has nothing more to skip. */
  predicate NothingToSkip(s: string, r: nat) {
    var c := At(s, r);
    c == '\0' || (!IsSpace(c) && c != '#' && !(c == '/' && (At(s, r + 1) == '/' || At(s, r + 1) == '*')))
  }

  /** Where `skipWhitespace` leaves the cursor when started at `i`. */
  function SkipWs(s: string, i: nat): (r: nat)
    requires i <= |s|
    ensures i <= r <= |s|
    ensures NothingToSkip(s, r)
    decreases |s| - i
  {
    var c := At(s, i);
    if c == '#' || (c == '/' && At(s, i + 1) == '/') then
      SkipWs(s, RunEnd(s, i, LineBody))
    else if c == '/' && At(s, i + 1) == '*' then
      match BlockCommentEnd(s, i + 2)
      case Closed(a) => SkipWs(s, a)
      case Unclosed(z) => z
    else if IsSpace(c) then
      SkipWs(s, i + 1)
    else
      i
  }

  // ---------------------------------------------------------------------
  // Token construction

  /** `makeToken`: the column is the current column minus the lexeme's length. */
  function MakeToken(kind: TokenType, value: string, p: Pos): Token {
    Token(kind, value, p.line, p.column - |value|)
  }

  /** `makeError`: the message followed by the current position, at the current position. */
  function MakeError(msg: string, p: Pos): (t: Token)
    ensures t.kind == TokenError && |t.value| > |msg|
  {
    Token(TokenError, msg + " at line " + IntToString(p.line) + ":" + IntToString(p.column), p.line, p.column)
  }

  /** The result of one recognizer: the token, the index after it and the
      position reached there. */
  datatype Lexed = Lexed(tok: Token, end: nat, at: Pos)

  /** The kind of a letter- or underscore-led word. */
  function WordKind(v: string): TokenType {
    if v in Keywords then Keywords[v] else TokenId
  }

  /** `recognizeIdOrKeyword` started at `j` with position `p`. */
  function RecognizeWord(s: string, j: nat, p: Pos): Lexed
    requires j <= |s|
  {
    if IsDigit(At(s, j)) then
      var e := RunEnd(s, j, AlnumChars);
      var q := Track(s, j, e, p);
      Lexed(MakeError(IllegalIdMessage + s[j..e], q), e, q)
    else
      var e := RunEnd(s, j, WordChars);
      var q := Track(s, j, e, p);
      Lexed(MakeToken(WordKind(s[j..e]), s[j..e], q), e, q)
  }

  /** The shape `recognizeNumber` found: where it stopped, whether it read a
      decimal point, and whether the text is malformed. */
  datatype NumberShape = NumberShape(end: nat, hasDot: bool, isError: bool)

  /** The fraction part of `recognizeNumber`, started just after the
      decimal point at `b`: a missing digit or a second decimal point (and the
      digits after it) make the number malformed. */
  function Fraction(s: string, b: nat): (r: NumberShape)
    requires b <= |s|
    ensures b <= r.end <= |s| && r.hasDot
  {
    var d := if IsDigit(At(s, b)) then RunEnd(s, b, Digits) else b;
    var missingFraction := !IsDigit(At(s, b));
    if At(s, d) == '.' then NumberShape(RunEnd(s, d + 1, Digits), true, true)
    else NumberShape(d, true, missingFraction)
  }

  /** The integer part and the fraction part (from the decimal point until the
      letter check) of `recognizeNumber`. */
  function NumberBody(s: string, j: nat): (r: NumberShape)
    requires j <= |s|
    ensures RunEnd(s, j, Digits) <= r.end <= |s|
  {
    var a := RunEnd(s, j, Digits);
    if At(s, a) != '.' then NumberShape(a, false, false)
    else Fraction(s, a + 1)
  }

  /** All of `recognizeNumber`'s consumption, including a trailing word run. */
  function NumberScan(s: string, j: nat): (r: NumberShape)
    requires j <= |s|
    ensures j <= r.end <= |s|
  {
    var b := NumberBody(s, j);
    var c := At(s, b.end);
    if IsAlpha(c) || c == '_' then NumberShape(RunEnd(s, b.end, WordChars), b.hasDot, true)
    else b
  }

  /** `recognizeNumber` started at `j` with position `p`. */
  function RecognizeNumber(s: string, j: nat, p: Pos): Lexed
    requires j <= |s|
  {
    var sh := NumberScan(s, j);
    var v := s[j..sh.end];
    var q := Track(s, j, sh.end, p);
    if sh.isError then Lexed(MakeError(BadNumberMessage + v, q), sh.end, q)
    else Lexed(MakeToken(if sh.hasDot then TokenFloat else TokenNum, v, q), sh.end, q)
  }

  /** `recognizeOpOrSep` started at `j` with position `p`; the first
      `advance` moves only while a character is left. */
  function RecognizeOpOrSep(s: string, j: nat, p: Pos): (r: Lexed)
    requires j <= |s|
    ensures j < |s| ==> j < r.end <= j + 2
    ensures r.end <= |s|
    ensures !IsEnd(r.tok)
    ensures r.tok.kind == TokenOp ==> r.tok.value in Operators
    ensures r.tok.kind == TokenBitOp ==> r.tok.value in BitOperators && r.tok.value !in Operators
    ensures r.tok.kind == TokenSep ==> r.tok.value in Separators && |r.tok.value| == 1
  {
    var c := At(s, j);
    var first := [c];
    var j1 := if j < |s| then j + 1 else j;
    var p1 := Next(p, c);
    var two := first + [At(s, j1)];
    if two in Operators || two in BitOperators then
      assert two[0] == c != '\0' && two[1] == At(s, j1) != '\0' by { NoNulInOperators(two); }
      var q := Next(p1, At(s, j1));
      Lexed(MakeToken(if two in Operators then TokenOp else TokenBitOp, two, q), j1 + 1, q)
    else if first in Operators then Lexed(MakeToken(TokenOp, first, p1), j1, p1)
    else if first in BitOperators then Lexed(MakeToken(TokenBitOp, first, p1), j1, p1)
    else if first in Separators then Lexed(MakeToken(TokenSep, first, p1), j1, p1)
    else Lexed(MakeError(UnknownSymbolMessage + first, p1), j1, p1)
  }

  lemma NoNulInOperators(w: string)
    requires w in Operators || w in BitOperators
    ensures forall k :: 0 <= k < |w| ==> w[k] != '\0'
  {
  }

  /** `getNextToken` from index `i` with position `p`. It yields the end
      token exactly when the lookahead after skipping is NUL, and otherwise
      consumes at least one character. */
  function Scan(s: string, i: nat, p: Pos): (r: Lexed)
    requires i <= |s|
    ensures SkipWs(s, i) <= r.end <= |s|
    ensures IsEnd(r.tok) <==> At(s, SkipWs(s, i)) == '\0'
    ensures !IsEnd(r.tok) ==> SkipWs(s, i) < r.end
  {
    var j := SkipWs(s, i);
    var q := Track(s, i, j, p);
    var ch := At(s, j);
    if IsAlpha(ch) || ch == '_' then RecognizeWord(s, j, q)
    else if IsDigit(ch) then RecognizeNumber(s, j, q)
    else if [ch] in Operators || [ch] in Separators then RecognizeOpOrSep(s, j, q)
    else if ch == '\0' then Lexed(EndToken, j, q)
    else Lexed(Token(TokenError, IllegalCharMessage + [ch], 0, 0), j + 1, Next(q, ch))
  }

  /** The tokens the driver loop collects from index `i` with position `p`:
      `getNextToken` repeated until it returns the end token. */
  function LexFrom(s: string, i: nat, p: Pos): (ts: seq<Token>)
    requires i <= |s|
    decreases |s| - i
  {
    var r := Scan(s, i, p);
    if IsEnd(r.tok) then [] else [r.tok] + LexFrom(s, r.end, r.at)
  }

  /** One iteration of the driver loop. */
  lemma LexFromStep(s: string, i: nat, p: Pos, r: Lexed)
    requires i <= |s| && r == Scan(s, i, p)
    ensures LexFrom(s, i, p) == if IsEnd(r.tok) then [] else [r.tok] + LexFrom(s, r.end, r.at)
  {
  }

  /** The tokens of a whole source text. */
  function Lex(s: string): seq<Token> { LexFrom(s, 0, Start) }

  // ---------------------------------------------------------------------
  // Facts about `Track` used by the imperative lexer

  /** Advancing over two characters. */
  lemma TrackPair(s: string, a: nat, p: Pos)
    requires a + 2 <= |s|
    ensures Track(s, a, a + 2, p) == Next(Next(p, s[a]), s[a + 1])
  {
    assert Track(s, a, a + 1, p) == Next(p, s[a]);
  }

  lemma {:induction false} TrackSplit(s: string, a: nat, b: nat, c: nat, p: Pos)
    requires a <= b <= c <= |s|
    ensures Track(s, a, c, p) == Track(s, b, c, Track(s, a, b, p))
    decreases c
  {
    if c > b {
      TrackSplit(s, a, b, c - 1, p);
    }
  }
}
