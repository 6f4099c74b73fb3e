/** The token file that connects the two programs: the record the lexer's
    driver writes for each token (text_lexer.cpp) and the per-line decoding
    of `readTokens` (parse.cpp) that turns the lines of such a file into the
    parser's tokens. Opening, reading and closing the files is not part of
    this model: a file is the sequence of lines `getline` returns. */
module TokenCodec {
  import opened Wrappers
  import opened Chars
  import opened ParseSpec
  import L = LexSpec

  predicate SpaceFree(s: string) {
    forall k :: 0 <= k < |s| ==> !IsSpace(s[k])
  }

  // ---------------------------------------------------------------------
  // The `std::string` searches `readTokens` relies on

  /** `find`: the first index of `ch` in `s`, or `|s|` (`npos`) when there
      is none. */
  function Find(s: string, ch: char): (r: nat)
    ensures r <= |s|
    ensures r < |s| ==> s[r] == ch
    ensures forall k :: 0 <= k < r ==> s[k] != ch
    decreases |s|
  {
    if s == [] || s[0] == ch then 0
    else 1 + Find(s[1..], ch)
  }

  /** `rfind`: the last index of `ch` in `s`, or `|s|` (`npos`) when there
      is none. */
  function RFind(s: string, ch: char): (r: nat)
    ensures r <= |s|
    ensures r < |s| ==> s[r] == ch
    ensures forall k :: r < k < |s| ==> s[k] != ch
    ensures r == |s| ==> forall k :: 0 <= k < |s| ==> s[k] != ch
    decreases |s|
  {
    if s == [] then 0
    else if s[|s| - 1] == ch then |s| - 1
    else
      var p := RFind(s[..|s| - 1], ch);
      if p == |s| - 1 then |s| else p
  }

  // ---------------------------------------------------------------------
  // Decoding (`readTokens`)

  /** The `typeStr == "0"` ... `typeStr == "6"` chain: any other text,
      the bit-operator code `7` of the lexer included, is an error token. */
  function KindOfCode(code: string): TokenType {
    if code == "0" then TokenId
    else if code == "1" then TokenNum
    else if code == "2" then TokenFloat
    else if code == "3" then TokenBool
    else if code == "4" then TokenKeyword
    else if code == "5" then TokenOp
    else if code == "6" then TokenSep
    else TokenError
  }

  /** The body of the `getline` loop of `readTokens` on one line: `None`
      where the loop `continue`s. The type is the text between the first
      `(` and the first `,`; the value is the text between that `,` and the
      last `)`, with every `isspace` character erased (twice, as written).
      The lengths given to `substr` are unsigned: a `,` before the `(`, or a
      last `)` before the first `,`, makes the difference wrap around, and
      `substr` then takes the rest of the line. */
  function DecodeLine(line: string): (r: Option<Token>)
    ensures r.Some? ==> SpaceFree(r.value.value)
  {
    var open := Find(line, '(');
    if line == [] || open == |line| || Find(line, ')') == |line| then None
    else
      var comma := Find(line, ',');
      if comma == |line| then None
      else
        var typeStart := open + 1;
        var code := if comma >= typeStart then line[typeStart..comma] else line[typeStart..];
        var close := RFind(line, ')');
        var value := if close > comma then line[comma + 1..close] else line[comma + 1..];
        Some(Token(KindOfCode(code), RemoveSpaces(RemoveSpaces(value))))
  }

  /** A line is skipped exactly when it lacks a `(`, a `)` or a `,`. */
  lemma SkippedLines(line: string)
    ensures DecodeLine(line).Some? <==> '(' in line && ')' in line && ',' in line
  {
    var open, close, comma := Find(line, '('), Find(line, ')'), Find(line, ',');
    assert open < |line| <==> '(' in line;
    assert close < |line| <==> ')' in line;
    assert comma < |line| <==> ',' in line;
  }

  /** The tokens `readTokens` collects from the lines of a file: one for
      every line that is not skipped, in the order of the lines. */
  function DecodeAll(lines: seq<string>): (r: seq<Token>)
    ensures |r| <= |lines|
    ensures forall k :: 0 <= k < |r| ==> SpaceFree(r[k].value)
    decreases |lines|
  {
    if lines == [] then []
    else
      var front := DecodeAll(lines[..|lines| - 1]);
      match DecodeLine(lines[|lines| - 1])
      case None => front
      case Some(t) => front + [t]
  }

  /** The `getline` loop of `readTokens`. */
  method ReadTokens(lines: seq<string>) returns (tokens: seq<Token>)
    ensures tokens == DecodeAll(lines)
  {
    tokens := [];
    var i := 0;
    while i < |lines|
      invariant 0 <= i <= |lines|
      invariant tokens == DecodeAll(lines[..i])
    {
      assert lines[..i + 1][..i] == lines[..i];
      var t := DecodeLine(lines[i]);
      if t.Some? {
        tokens := tokens + [t.value];
      }
      i := i + 1;
    }
    assert lines[..|lines|] == lines;
  }

  /** Decoding works line by line: the tokens of two files read one after
      the other are the tokens of the first followed by those of the
      second. */
  lemma {:induction false} DecodeAllAppend(a: seq<string>, b: seq<string>)
    ensures DecodeAll(a + b) == DecodeAll(a) + DecodeAll(b)
    decreases |b|
  {
    if b == [] {
      assert a + b == a;
    } else {
      var b' := b[..|b| - 1];
      assert (a + b)[..|a + b| - 1] == a + b';
      assert (a + b)[|a + b| - 1] == b[|b| - 1];
      DecodeAllAppend(a, b');
    }
  }

  // ---------------------------------------------------------------------
  // The record layout `readTokens` documents: `(code, value)`

  /** The parser's code for each kind, in the order of its enum. */
  function KindCode(k: TokenType): string {
    match k
    case TokenId => "0"
    case TokenNum => "1"
    case TokenFloat => "2"
    case TokenBool => "3"
    case TokenKeyword => "4"
    case TokenOp => "5"
    case TokenSep => "6"
    case TokenError => "7"
  }

  /** A record in the two-field layout `(TYPE, VALUE)` that `readTokens`
      expects. */
  function FormatPair(t: Token): string {
    "(" + KindCode(t.kind) + ", " + t.value + ")"
  }

  /** A line `(code,value)` whose code holds no comma decodes to the token
      of that code, with the white space of the value erased. */
  lemma DecodeRecord(code: string, value: string)
    requires ',' !in code
    ensures DecodeLine("(" + code + "," + value + ")") ==
            Some(Token(KindOfCode(code), RemoveSpaces(RemoveSpaces(value))))
  {
    RecordLandmarks(code, value);
  }

  /** Where `readTokens` finds the brackets and the comma of such a line. */
  lemma RecordLandmarks(code: string, value: string)
    requires ',' !in code
    ensures var line := "(" + code + "," + value + ")";
            Find(line, '(') == 0 && Find(line, ',') == |code| + 1 &&
            Find(line, ')') < |line| && RFind(line, ')') == |line| - 1 &&
            line[1..|code| + 1] == code && line[|code| + 2..|line| - 1] == value
  {
    var line := "(" + code + "," + value + ")";
    var comma := |code| + 1;
    assert Find(line, '(') == 0 by {
      FindPrefix(line, '(', 0);
    }
    assert Find(line, ',') == comma by {
      assert forall k :: 0 < k < comma ==> line[k] == code[k - 1];
      FindPrefix(line, ',', comma);
    }
    RFindLast(line, ')');
    assert line[1..comma] == code;
    assert line[comma + 1..|line| - 1] == value;
  }

  /** Every parser token whose value has no white space survives being
      written as `(code, value)` and read back. */
  lemma PairRoundTrip(t: Token)
    requires SpaceFree(t.value)
    ensures DecodeLine(FormatPair(t)) == Some(t)
  {
    var value := " " + t.value;
    assert FormatPair(t) == "(" + KindCode(t.kind) + "," + value + ")";
    DecodeRecord(KindCode(t.kind), value);
    KindCodeRoundTrip(t.kind);
    assert RemoveSpaces(value) == t.value by {
      assert value[1..] == t.value;
    }
  }

  /** Reading a kind's code gives the kind back. */
  lemma KindCodeRoundTrip(k: TokenType)
    ensures KindOfCode(KindCode(k)) == k
  {
    match k
    case TokenId =>
    case TokenNum =>
    case TokenFloat =>
    case TokenBool =>
    case TokenKeyword =>
    case TokenOp =>
    case TokenSep =>
    case TokenError =>
  }

  // ---------------------------------------------------------------------
  // The lexer's records: `(code, "value", line, column)`

  /** The lexer's code for each kind: its enum has the bit-operator code 7,
      so its error code is 8. */
  function LexerCode(k: L.TokenType): string {
    match k
    case TokenId => "0"
    case TokenNum => "1"
    case TokenFloat => "2"
    case TokenBool => "3"
    case TokenKeyword => "4"
    case TokenOp => "5"
    case TokenSep => "6"
    case TokenBitOp => "7"
    case TokenError => "8"
  }

  /** The line the lexer's driver writes for a token, without its newline. */
  function FormatRecord(t: L.Token): string {
    "(" + LexerCode(t.kind) + ", \"" + t.value + "\", " + IntToString(t.line) + ", " +
    IntToString(t.column) + ")"
  }

  /** What `readTokens` makes of a lexer record: the code is read with the
      parser's table, so a bit operator (code 7) and a lexical error
      (code 8) both come back as error tokens, and the value is everything
      after the first `,`: the quoted lexeme, its line and its column, with
      the spaces erased. */
  lemma RecordDecoding(t: L.Token)
    ensures DecodeLine(FormatRecord(t)) ==
            Some(Token(KindOfCode(LexerCode(t.kind)),
                       "\"" + (RemoveSpaces(t.value) + ("\"," + (IntToString(t.line) + ("," + IntToString(t.column)))))))
    ensures KindOfCode(LexerCode(t.kind)) == TokenError <==> t.kind == L.TokenBitOp || t.kind == L.TokenError
  {
    var ln, col := IntToString(t.line), IntToString(t.column);
    var value := " " + ("\"" + (t.value + ("\"," + (" " + (ln + ("," + (" " + col)))))));
    assert FormatRecord(t) == "(" + LexerCode(t.kind) + "," + value + ")";
    DecodeRecord(LexerCode(t.kind), value);
    LexerCodeRead(t.kind);
    DigitsHaveNoSpace(ln);
    DigitsHaveNoSpace(col);
    RecordValueErased(t.value, ln, col);
    ErasingTwice(value);
  }

  /** The spaces of the value part of a lexer record are erased, and only
      those. */
  lemma RecordValueErased(v: string, ln: string, col: string)
    requires SpaceFree(ln) && SpaceFree(col)
    ensures RemoveSpaces(" " + ("\"" + (v + ("\"," + (" " + (ln + ("," + (" " + col)))))))) ==
            "\"" + (RemoveSpaces(v) + ("\"," + (ln + ("," + col))))
  {
    var g := " " + col;
    var f := "," + g;
    var e := ln + f;
    var d := " " + e;
    var c := "\"," + d;
    var b := v + c;
    LeadingSpaceDropped("\"" + b);
    SpaceFreeKept("\"", b);
    RemoveSpacesAppend(v, c);
    SpaceFreeKept("\",", d);
    LeadingSpaceDropped(e);
    SpaceFreeKept(ln, f);
    SpaceFreeKept(",", g);
    LeadingSpaceDropped(col);
  }

  /** A space-free front is kept as it is. */
  lemma SpaceFreeKept(a: string, s: string)
    requires SpaceFree(a)
    ensures RemoveSpaces(a + s) == a + RemoveSpaces(s)
  {
    RemoveSpacesAppend(a, s);
  }

  /** The second `erase(remove_if(...))` of `readTokens` changes nothing. */
  lemma ErasingTwice(s: string)
    ensures RemoveSpaces(RemoveSpaces(s)) == RemoveSpaces(s)
  {
  }

  /** The parser's table reads the lexer's codes 0 to 6 as the kinds of the
      same name, and the codes 7 and 8 as errors. */
  lemma LexerCodeRead(k: L.TokenType)
    ensures KindOfCode(LexerCode(k)) == TokenError <==> k == L.TokenBitOp || k == L.TokenError
  {
    match k
    case TokenId =>
    case TokenNum =>
    case TokenFloat =>
    case TokenBool =>
    case TokenKeyword =>
    case TokenOp =>
    case TokenSep =>
    case TokenBitOp =>
    case TokenError =>
  }

  lemma LeadingSpaceDropped(b: string)
    ensures RemoveSpaces(" " + b) == RemoveSpaces(b)
  {
    assert (" " + b)[1..] == b;
  }

  /** So the lexer's records never round-trip: the value the parser reads is
      never the lexeme, and a bit operator is read as an error token. */
  lemma RecordsDoNotRoundTrip(t: L.Token)
    ensures DecodeLine(FormatRecord(t)).Some?
    ensures DecodeLine(FormatRecord(t)).value.value != t.value
    ensures t.kind == L.TokenBitOp ==> DecodeLine(FormatRecord(t)).value.kind == TokenError
  {
    RecordDecoding(t);
  }

  // ---------------------------------------------------------------------
  // Helpers

  lemma FindPrefix(s: string, ch: char, i: nat)
    requires i < |s| && s[i] == ch && forall k :: 0 <= k < i ==> s[k] != ch
    ensures Find(s, ch) == i
  {
  }

  lemma RFindLast(s: string, ch: char)
    requires |s| > 0 && s[|s| - 1] == ch
    ensures RFind(s, ch) == |s| - 1 && Find(s, ch) < |s|
  {
  }

  lemma {:induction false} RemoveSpacesAppend(a: string, b: string)
    ensures RemoveSpaces(a + b) == RemoveSpaces(a) + RemoveSpaces(b)
    decreases |a|
  {
    if a != [] {
      assert (a + b)[1..] == a[1..] + b;
      RemoveSpacesAppend(a[1..], b);
    } else {
      assert a + b == b;
    }
  }

  lemma DigitsHaveNoSpace(s: string)
    requires forall k :: 0 <= k < |s| ==> IsDigit(s[k]) || s[k] == '-'
    ensures SpaceFree(s)
  {
  }
}
