/** The parser of parse.cpp as pure functions over the token vector. A cursor
    is the index `current`; every parsing function takes the cursor it starts
    at and returns what it built together with the cursor it stops at
    (`Step`), or the `SyntaxError` that `error` would print before exiting.
    The `Parser` class of module `Parse` is proved to compute exactly these
    functions. */
module ParseSpec {
  import opened Wrappers

  // ---------------------------------------------------------------------
  // Tokens, trees and results

  /** The parser's own token codes 0 to 7: unlike the lexer's enum it has no
      bit-operator code, so its error code is 7. */
  datatype TokenType =
    | TokenId | TokenNum | TokenFloat | TokenBool | TokenKeyword
    | TokenOp | TokenSep | TokenError

  datatype Token = Token(kind: TokenType, value: string)

  /** What `peek` and `previous` return off the ends of the vector. */
  const EndToken := Token(TokenError, "")

  /** The node types, in the order of the enum. */
  datatype NodeKind =
    | Expr | BoolExpr | Decls | Stmts | Assign | If | While | For | Read
    | Write | Block | Op | Id | Num | Float | BoolVal | TypeName | List

  /** A `TreeNode*`: `Null` stands for the `nullptr` that `for` stores for
      an absent clause. */
  datatype Tree = Null | Node(kind: NodeKind, value: string, children: seq<Tree>)

  /** The message given to `error` and the value of the token under the
      cursor when it was called. */
  datatype SyntaxError = SyntaxError(message: string, token: string)

  /** A parsed value and the cursor after it. */
  datatype Step<T> = Step(val: T, next: nat)

  type Parsed<T> = Result<Step<T>, SyntaxError>

  // ---------------------------------------------------------------------
  // The token cursor

  /** `peek`: the token at `c`, or the empty error token past the end. */
  function Peek(ts: seq<Token>, c: nat): Token {
    if c < |ts| then ts[c] else EndToken
  }

  /** `previous`: the token before `c`, or the empty error token at 0. */
  function Previous(ts: seq<Token>, c: nat): Token {
    if 0 < c <= |ts| then ts[c - 1] else EndToken
  }

  /** `isAtEnd`: the lookahead is an error token with an empty value; a
      token like that inside the vector also counts as the end. */
  predicate IsAtEnd(ts: seq<Token>, c: nat) {
    Peek(ts, c) == EndToken
  }

  /** `advance`: moves one token on unless at the end. */
  function Advance(ts: seq<Token>, c: nat): (n: nat)
    requires c <= |ts|
    ensures n <= |ts|
    ensures n == c <==> IsAtEnd(ts, c)
  {
    if IsAtEnd(ts, c) then c else c + 1
  }

  /** `check(type)`. */
  predicate Check(ts: seq<Token>, c: nat, k: TokenType) {
    !IsAtEnd(ts, c) && Peek(ts, c).kind == k
  }

  /** `check(type, value)`. */
  predicate CheckValue(ts: seq<Token>, c: nat, k: TokenType, v: string) {
    !IsAtEnd(ts, c) && Peek(ts, c).kind == k && Peek(ts, c).value == v
  }

  /** `check(value)`, of any type. */
  predicate CheckText(ts: seq<Token>, c: nat, v: string) {
    !IsAtEnd(ts, c) && Peek(ts, c).value == v
  }

  /** `error(message)`, reported at the token under the cursor. */
  function ErrorAt<T>(ts: seq<Token>, c: nat, message: string): Result<T, SyntaxError> {
    Failure(SyntaxError(message, Peek(ts, c).value))
  }

  /** `consume(type, message)`. */
  function Consume(ts: seq<Token>, c: nat, k: TokenType, message: string): (r: Result<nat, SyntaxError>)
    ensures r.Success? <==> Check(ts, c, k)
    ensures r.Success? ==> c < |ts| && r.value == c + 1 && ts[c].kind == k
  {
    if Check(ts, c, k) then Success(c + 1) else ErrorAt(ts, c, message)
  }

  /** `consume(type, value, message)`: its message also names the actual
      token. */
  function ConsumeValue(ts: seq<Token>, c: nat, k: TokenType, v: string, message: string): (r: Result<nat, SyntaxError>)
    ensures r.Success? <==> CheckValue(ts, c, k, v)
    ensures r.Success? ==> c < |ts| && r.value == c + 1 && ts[c] == Token(k, v)
    ensures r.Failure? ==> r.error.token == Peek(ts, c).value
  {
    if CheckValue(ts, c, k, v) then Success(c + 1)
    else ErrorAt(ts, c, message + " (Actual: " + Peek(ts, c).value + ")")
  }

  /** `consume(value, message)`, of any type. */
  function ConsumeText(ts: seq<Token>, c: nat, v: string, message: string): (r: Result<nat, SyntaxError>)
    ensures r.Success? <==> CheckText(ts, c, v)
    ensures r.Success? ==> c < |ts| && r.value == c + 1 && ts[c].value == v
  {
    if CheckText(ts, c, v) then Success(c + 1) else ErrorAt(ts, c, message)
  }

  // ---------------------------------------------------------------------
  // The operator-precedence engine of parseArithmeticExpr

  /** The operand stack and the operator stack; the top of each is its last
      element. */
  datatype Stacks = Stacks(nodes: seq<Tree>, ops: seq<string>)

  function Top<T>(s: seq<T>): T
    requires |s| > 0
  {
    s[|s| - 1]
  }

  function Pop<T>(s: seq<T>): seq<T>
    requires |s| > 0
  {
    s[..|s| - 1]
  }

  /** `precedence[op]`, the precedence table of parseArithmeticExpr; for a
      key the table lacks, `neg` included, `operator[]` inserts and returns
      0. */
  function Prec(op: string): int {
    if op == "||" then 1
    else if op == "&&" then 2
    else if op == "==" || op == "!=" || op == "<" || op == "<=" || op == ">" || op == ">=" then 3
    else if op == "+" || op == "-" then 4
    else if op == "*" || op == "/" || op == "%" then 5
    else if op == "!" || op == "++" || op == "--" then 6
    else 0
  }

  /** The operators `processOp` reduces with one operand; `neg` is not one. */
  predicate IsUnary(op: string) {
    op == "!" || op == "++" || op == "--"
  }

  function Arity(op: string): nat {
    if IsUnary(op) then 1 else 2
  }

  /** A tree the expression engine can build: a leaf for an identifier or a
      literal, or an operator node with as many operands as `processOp`
      pops for it. */
  predicate IsOperand(t: Tree)
    decreases t
  {
    t.Node? &&
    (((t.kind == Id || t.kind == Num || t.kind == Float || t.kind == BoolVal) && t.children == []) ||
     (t.kind == Op && |t.children| == Arity(t.value) &&
      forall i :: 0 <= i < |t.children| ==> IsOperand(t.children[i])))
  }

  predicate AllOperands(nodes: seq<Tree>) {
    forall i :: 0 <= i < |nodes| ==> IsOperand(nodes[i])
  }

  /** The `processOp` closure: pops the top operator and as many operands as
      it takes (the right one first) and pushes the operator node. `at` is
      the token value an error reports. */
  function ProcessOp(st: Stacks, at: string): (r: Result<Stacks, SyntaxError>)
    requires |st.ops| > 0
    ensures r.Success? ==> r.value.ops == Pop(st.ops)
  {
    var op := Top(st.ops);
    var n := st.nodes;
    if IsUnary(op) then
      if |n| == 0 then Failure(SyntaxError("Missing operand for unary operator", at))
      else Success(Stacks(Pop(n) + [Node(Op, op, [Top(n)])], Pop(st.ops)))
    else if |n| < 2 then Failure(SyntaxError("Missing operands for binary operator", at))
    else Success(Stacks(n[..|n| - 2] + [Node(Op, op, [n[|n| - 2], n[|n| - 1]])], Pop(st.ops)))
  }

  /** The loop of the `)` branch: reduce down to the nearest `(` and drop it;
      with no `(` on the stack the parentheses are unmatched. */
  function CloseParen(st: Stacks, at: string): (r: Result<Stacks, SyntaxError>)
    decreases |st.ops|
  {
    if |st.ops| == 0 then Failure(SyntaxError("Unmatched parentheses", at))
    else if Top(st.ops) == "(" then Success(Stacks(st.nodes, Pop(st.ops)))
    else
      var s1 :- ProcessOp(st, at);
      CloseParen(s1, at)
  }

  /** The loop before an operator is pushed: reduce while the top is not `(`
      and binds at least as tightly (`>=`) as the incoming precedence `p`. */
  function ReduceWhile(st: Stacks, p: int, at: string): (r: Result<Stacks, SyntaxError>)
    decreases |st.ops|
  {
    if |st.ops| > 0 && Top(st.ops) != "(" && Prec(Top(st.ops)) >= p then
      var s1 :- ProcessOp(st, at);
      ReduceWhile(s1, p, at)
    else Success(st)
  }

  /** The loop after the main loop: reduce every operator; a `(` left on
      the stack is an unmatched parenthesis. */
  function Drain(st: Stacks, at: string): (r: Result<Stacks, SyntaxError>)
    decreases |st.ops|
  {
    if |st.ops| == 0 then Success(st)
    else if Top(st.ops) == "(" then Failure(SyntaxError("Unmatched parentheses", at))
    else
      var s1 :- ProcessOp(st, at);
      Drain(s1, at)
  }

  /** The tokens the main loop of parseArithmeticExpr stops at: the end, `;`,
      `,`, the keywords `then`, `do` and `else`, and `{`. A `)` is not one. */
  predicate ExprStops(ts: seq<Token>, c: nat) {
    IsAtEnd(ts, c) || CheckValue(ts, c, TokenSep, ";") || CheckValue(ts, c, TokenSep, ",") ||
    CheckValue(ts, c, TokenKeyword, "then") || CheckValue(ts, c, TokenKeyword, "do") ||
    CheckValue(ts, c, TokenKeyword, "else") || CheckValue(ts, c, TokenSep, "{")
  }

  /** The operator pushed for an operator token `v`: a `-` with no operand
      yet, or right after `(`, becomes `neg`. */
  function Incoming(v: string, st: Stacks): string {
    if v == "-" && (|st.nodes| == 0 || (|st.ops| > 0 && Top(st.ops) == "(")) then "neg" else v
  }

  /** The leaf an operand token becomes, if its type is an operand type. */
  function OperandKind(k: TokenType): Option<NodeKind> {
    match k
    case TokenId => Some(Id)
    case TokenNum => Some(Num)
    case TokenFloat => Some(Float)
    case TokenBool => Some(BoolVal)
    case _ => None
  }

  /** The main loop of parseArithmeticExpr from cursor `c` with stacks `st`. */
  function ExprLoop(ts: seq<Token>, c: nat, st: Stacks): (r: Parsed<Stacks>)
    requires c <= |ts|
    ensures r.Success? ==> c <= r.value.next <= |ts|
    ensures r.Success? && r.value.next == c ==> r.value.val == st
    decreases |ts| - c
  {
    if ExprStops(ts, c) then Success(Step(st, c))
    else if CheckValue(ts, c, TokenSep, "(") then
      ExprLoop(ts, c + 1, Stacks(st.nodes, st.ops + ["("]))
    else if CheckValue(ts, c, TokenSep, ")") then
      var s1 :- CloseParen(st, Peek(ts, c + 1).value);
      ExprLoop(ts, c + 1, s1)
    else if Check(ts, c, TokenOp) then
      var op := Incoming(ts[c].value, st);
      var s1 :- ReduceWhile(st, Prec(op), Peek(ts, c + 1).value);
      ExprLoop(ts, c + 1, Stacks(s1.nodes, s1.ops + [op]))
    else if OperandKind(Peek(ts, c).kind).Some? then
      var leaf := Node(OperandKind(ts[c].kind).value, ts[c].value, []);
      ExprLoop(ts, c + 1, Stacks(st.nodes + [leaf], st.ops))
    else ErrorAt(ts, c, "Expected operand in expression")
  }

  /** An `EXPR` node wrapping one operand tree. */
  predicate IsExprNode(t: Tree) {
    t.Node? && t.kind == Expr && t.value == "" && |t.children| == 1 && IsOperand(t.children[0])
  }

  /** `parseArithmeticExpr`. */
  function ParseArithmeticExpr(ts: seq<Token>, c: nat): (r: Parsed<Tree>)
    requires c <= |ts|
    ensures r.Success? ==> c < r.value.next <= |ts|
  {
    if CheckValue(ts, c, TokenSep, ";") then ErrorAt(ts, c, "Empty expression not allowed here")
    else
      var loop :- ExprLoop(ts, c, Stacks([], []));
      var st :- Drain(loop.val, Peek(ts, loop.next).value);
      if |st.nodes| == 0 then ErrorAt(ts, loop.next, "Empty expression")
      else if |st.nodes| > 1 then ErrorAt(ts, loop.next, "Malformed expression")
      else Success(Step(Node(Expr, "", [st.nodes[0]]), loop.next))
  }

  /** The comparison operators `parseBoolExpr` looks for. */
  predicate AtComparison(ts: seq<Token>, c: nat) {
    CheckValue(ts, c, TokenOp, ">") || CheckValue(ts, c, TokenOp, "<") ||
    CheckValue(ts, c, TokenOp, ">=") || CheckValue(ts, c, TokenOp, "<=") ||
    CheckValue(ts, c, TokenOp, "==") || CheckValue(ts, c, TokenOp, "!=")
  }

  /** `parseBoolExpr`: an arithmetic expression, optionally compared with a
      second one. */
  function ParseBoolExpr(ts: seq<Token>, c: nat): (r: Parsed<Tree>)
    requires c <= |ts|
    ensures r.Success? ==> c < r.value.next <= |ts|
  {
    var left :- ParseArithmeticExpr(ts, c);
    if CheckValue(ts, left.next, TokenSep, "{") then Success(left)
    else if AtComparison(ts, left.next) then
      var op := Peek(ts, left.next);
      var right :- ParseArithmeticExpr(ts, left.next + 1);
      Success(Step(Node(BoolExpr, op.value, [left.val, right.val]), right.next))
    else Success(left)
  }

  // ---------------------------------------------------------------------
  // Declarations

  /** The type keyword at `c`, tried as `int`, `float`, `bool`; empty if
      there is none. */
  function TypeKeyword(ts: seq<Token>, c: nat): (ty: string)
    ensures ty == "" || ty == "int" || ty == "float" || ty == "bool"
    ensures ty != "" ==> CheckValue(ts, c, TokenKeyword, ty)
  {
    if CheckValue(ts, c, TokenKeyword, "int") then "int"
    else if CheckValue(ts, c, TokenKeyword, "float") then "float"
    else if CheckValue(ts, c, TokenKeyword, "bool") then "bool"
    else ""
  }

  predicate IsIdLeaf(t: Tree) {
    t.Node? && t.kind == Id && t.children == []
  }

  /** A declarator list: identifiers, each optionally followed by its
      initializer expression. Read from the back: an expression must come
      right after an identifier leaf. */
  predicate IsDeclarators(items: seq<Tree>)
    decreases |items|
  {
    items == [] ||
    if IsExprNode(Top(items)) then
      |items| >= 2 && IsIdLeaf(items[|items| - 2]) && IsDeclarators(items[..|items| - 2])
    else IsIdLeaf(Top(items)) && IsDeclarators(Pop(items))
  }

  /** A `LIST` node: the `TYPE` node and the declarators. */
  predicate IsDeclNode(t: Tree) {
    t.Node? && t.kind == List && t.value == "" && |t.children| >= 1 &&
    t.children[0].Node? && t.children[0].kind == TypeName && t.children[0].children == [] &&
    (t.children[0].value == "int" || t.children[0].value == "float" || t.children[0].value == "bool") &&
    IsDeclarators(t.children[1..])
  }

  /** The `if (match(TOKEN_OP, "="))` part of a declarator; a `bool`
      declaration parses its initializer with `parseBoolExpr`. */
  function Initializer(ts: seq<Token>, c: nat, ty: string): (r: Parsed<seq<Tree>>)
    requires c <= |ts|
    ensures r.Success? ==> c <= r.value.next <= |ts|
  {
    if CheckValue(ts, c, TokenOp, "=") then
      var e :- if ty == "bool" then ParseBoolExpr(ts, c + 1) else ParseArithmeticExpr(ts, c + 1);
      Success(Step([e.val], e.next))
    else Success(Step([], c))
  }

  /** One declarator: the identifier leaf, then its initializer if any. */
  predicate IsDeclarator(d: seq<Tree>) {
    (|d| == 1 || |d| == 2) && IsIdLeaf(d[0]) && (|d| == 2 ==> IsExprNode(d[1]))
  }

  /** The body of the declarator loop: a name, then `= expression`
      optionally. */
  function Declarator(ts: seq<Token>, c: nat, ty: string, lenient: bool): (r: Parsed<seq<Tree>>)
    requires c <= |ts|
    ensures r.Success? ==> c < r.value.next <= |ts|
  {
    var c1 :- Consume(ts, c, TokenId, if lenient then "Expected variable name in declaration" else "Expected variable name");
    var init :- Initializer(ts, c1, ty);
    Success(Step([Node(Id, ts[c].value, [])] + init.val, init.next))
  }

  /** Once the name is there, a declarator is its leaf and the initializer. */
  lemma DeclaratorAfterName(ts: seq<Token>, c: nat, ty: string, lenient: bool)
    requires c <= |ts| && Check(ts, c, TokenId)
    ensures Declarator(ts, c, ty, lenient) ==
            match Initializer(ts, c + 1, ty)
            case Failure(e) => Failure(e)
            case Success(init) => Success(Step([Node(Id, ts[c].value, [])] + init.val, init.next))
  {
  }

  /** The `do ... while (match(TOKEN_SEP, ","))` loop of a declaration,
      appending to `acc`. In `parseDecls` (`lenient`) a `;` where a name is
      expected ends the loop and is consumed; the caller then still needs
      its own `;`. */
  function Declarators(ts: seq<Token>, c: nat, ty: string, acc: seq<Tree>, lenient: bool): (r: Parsed<seq<Tree>>)
    requires c <= |ts|
    ensures r.Success? ==> c < r.value.next <= |ts|
    decreases |ts| - c, 1
  {
    if lenient && CheckValue(ts, c, TokenSep, ";") then Success(Step(acc, c + 1))
    else
      var d :- Declarator(ts, c, ty, lenient);
      MoreDeclarators(ts, d.next, ty, acc + d.val, lenient)
  }

  /** The `while (match(TOKEN_SEP, ","))` test after a declarator: a `,`
      sends the loop round again. */
  function MoreDeclarators(ts: seq<Token>, c: nat, ty: string, acc: seq<Tree>, lenient: bool): (r: Parsed<seq<Tree>>)
    requires c <= |ts|
    ensures r.Success? ==> c <= r.value.next <= |ts|
    decreases |ts| - c, 0
  {
    if CheckValue(ts, c, TokenSep, ",") then Declarators(ts, c + 1, ty, acc, lenient)
    else Success(Step(acc, c))
  }

  /** In `parseDecls` a `;` where a name is expected ends the list. */
  lemma DeclaratorsEndAtSemicolon(ts: seq<Token>, c: nat, ty: string, acc: seq<Tree>)
    requires c <= |ts|
    requires CheckValue(ts, c, TokenSep, ";")
    ensures Declarators(ts, c, ty, acc, true) == Success(Step(acc, c + 1))
  {
  }

  /** One declaration `type declarators ;`: `parseDecl` (used by `for`), or
      with `lenient` the body of the `parseDecls` loop. */
  function ParseDecl(ts: seq<Token>, c: nat, lenient: bool): (r: Parsed<Tree>)
    requires c <= |ts|
    ensures r.Success? ==> c < r.value.next <= |ts|
  {
    var ty := TypeKeyword(ts, c);
    if ty == "" then ErrorAt(ts, c, "Expected type keyword in declaration")
    else
      var items :- Declarators(ts, c + 1, ty, [], lenient);
      var c2 :- ConsumeValue(ts, items.next, TokenSep, ";", "Expected ';' after declaration");
      Success(Step(Node(List, "", [Node(TypeName, ty, [])] + items.val), c2))
  }

  /** The loop of `parseDecls`: declarations while the lookahead is a type
      keyword. */
  function DeclsLoop(ts: seq<Token>, c: nat, acc: seq<Tree>): (r: Parsed<seq<Tree>>)
    requires c <= |ts|
    ensures r.Success? ==> c <= r.value.next <= |ts| && TypeKeyword(ts, r.value.next) == ""
    decreases |ts| - c
  {
    if IsAtEnd(ts, c) then Success(Step(acc, c))
    else if TypeKeyword(ts, c) != "" then
      var d :- ParseDecl(ts, c, true);
      DeclsLoop(ts, d.next, acc + [d.val])
    else Success(Step(acc, c))
  }

  /** `parseDecls`: a `DECLS` node holding one `LIST` per declaration. */
  function ParseDecls(ts: seq<Token>, c: nat): (r: Parsed<Tree>)
    requires c <= |ts|
    ensures r.Success? ==> c <= r.value.next <= |ts| && TypeKeyword(ts, r.value.next) == ""
  {
    var d :- DeclsLoop(ts, c, []);
    Success(Step(Node(Decls, "", d.val), d.next))
  }

  // ---------------------------------------------------------------------
  // Statements

  predicate IsIncDec(op: string) {
    op == "++" || op == "--"
  }

  /** An `ASSIGN` node: the target, and the right-hand side unless the
      operator is `++` or `--`. */
  predicate IsAssignNode(t: Tree) {
    t.Node? && t.kind == Assign && |t.children| == (if IsIncDec(t.value) then 1 else 2) &&
    IsIdLeaf(t.children[0]) && (|t.children| == 2 ==> IsExprNode(t.children[1]))
  }

  /** The right-hand side of a plain `=`: `parseBoolExpr` when the lookahead
      is a boolean, `!`, an identifier or `(`. */
  predicate RhsLooksBoolean(ts: seq<Token>, c: nat) {
    Check(ts, c, TokenBool) || CheckValue(ts, c, TokenOp, "!") ||
    Check(ts, c, TokenId) || CheckValue(ts, c, TokenSep, "(")
  }

  /** `parseAssignStmt(inForLoop)`. The node is labelled with whatever
      operator token follows the identifier. */
  function ParseAssign(ts: seq<Token>, c: nat, inForLoop: bool): (r: Parsed<Tree>)
    requires c <= |ts|
    ensures r.Success? ==> c < r.value.next <= |ts|
  {
    var c1 :- Consume(ts, c, TokenId, "Expected identifier in assignment");
    var rhs :- AssignOperator(ts, c1);
    var node := Node(Assign, ts[c1].value, [Node(Id, ts[c].value, [])] + rhs.val);
    if inForLoop then Success(Step(node, rhs.next))
    else
      var c2 :- ConsumeValue(ts, rhs.next, TokenSep, ";", "Expected ';' after assignment");
      Success(Step(node, c2))
  }

  /** The operator of an assignment and, unless it is `++` or `--`, the
      right-hand side after it. */
  function AssignOperator(ts: seq<Token>, c: nat): (r: Parsed<seq<Tree>>)
    requires c <= |ts|
    ensures r.Success? ==> c < r.value.next <= |ts|
  {
    if IsIncDec(Peek(ts, c).value) then
      var c1 :- Consume(ts, c, TokenOp, "Expected operator");
      Success(Step([], c1))
    else
      var c1 :- Consume(ts, c, TokenOp, "Expected assignment operator");
      var rhs :- if ts[c].value == "=" && RhsLooksBoolean(ts, c1) then ParseBoolExpr(ts, c1)
                 else ParseArithmeticExpr(ts, c1);
      Success(Step([rhs.val], rhs.next))
  }

  /** The `do ... while (match(TOKEN_SEP, ","))` identifier list of `read`
      and of `write (...)`, appending to `acc`. */
  function IdList(ts: seq<Token>, c: nat, acc: seq<Tree>, message: string): (r: Parsed<seq<Tree>>)
    requires c <= |ts|
    ensures r.Success? ==> c < r.value.next <= |ts|
    decreases |ts| - c
  {
    var c1 :- Consume(ts, c, TokenId, message);
    var items := acc + [Node(Id, ts[c].value, [])];
    if CheckValue(ts, c1, TokenSep, ",") then IdList(ts, c1 + 1, items, message)
    else Success(Step(items, c1))
  }

  /** `parseReadStmt`: `read ( id, ... ) ;`. */
  function ParseRead(ts: seq<Token>, c: nat): (r: Parsed<Tree>)
    requires c <= |ts|
    ensures r.Success? ==> c < r.value.next <= |ts|
  {
    var c1 :- ConsumeValue(ts, c, TokenKeyword, "read", "Expected 'read'");
    var c2 :- ConsumeValue(ts, c1, TokenSep, "(", "Expected '(' after 'read'");
    var ids :- IdList(ts, c2, [], "Expected variable name in read statement");
    var c3 :- ConsumeValue(ts, ids.next, TokenSep, ")", "Expected ')' after read arguments");
    var c4 :- ConsumeValue(ts, c3, TokenSep, ";", "Expected ';' after read statement");
    Success(Step(Node(Read, "", ids.val), c4))
  }

  /** `parseWriteStmt`: `write ( id, ... ) ;` or `write id ;`. */
  function ParseWrite(ts: seq<Token>, c: nat): (r: Parsed<Tree>)
    requires c <= |ts|
    ensures r.Success? ==> c < r.value.next <= |ts|
  {
    var c1 :- ConsumeValue(ts, c, TokenKeyword, "write", "Expected 'write'");
    var ids :- WriteArgs(ts, c1);
    var c3 :- ConsumeValue(ts, ids.next, TokenSep, ";", "Expected ';' after write statement");
    Success(Step(Node(Write, "", ids.val), c3))
  }

  /** The arguments of `write`: a parenthesised identifier list, or one
      identifier. */
  function WriteArgs(ts: seq<Token>, c: nat): (r: Parsed<seq<Tree>>)
    requires c <= |ts|
    ensures r.Success? ==> c < r.value.next <= |ts|
  {
    if CheckValue(ts, c, TokenSep, "(") then
      var l :- IdList(ts, c + 1, [], "Expected variable name in write statement");
      var c2 :- ConsumeValue(ts, l.next, TokenSep, ")", "Expected ')' after write arguments");
      Success(Step(l.val, c2))
    else
      var c2 :- Consume(ts, c, TokenId, "Expected variable name in write statement");
      Success(Step([Node(Id, ts[c].value, [])], c2))
  }

  /** The shapes the statement parsers build. */
  predicate IsStmt(t: Tree)
    decreases t
  {
    t.Node? &&
    match t.kind
    case Block => t.value == "" && forall i :: 0 <= i < |t.children| ==> IsStmt(t.children[i])
    case Assign => IsAssignNode(t)
    case If =>
      (|t.children| == 2 || |t.children| == 3) && IsExprNode(t.children[0]) &&
      forall i :: 1 <= i < |t.children| ==> IsStmt(t.children[i])
    case While => |t.children| == 2 && IsExprNode(t.children[0]) && IsStmt(t.children[1])
    case For =>
      |t.children| == 4 &&
      (t.children[0] == Null || IsDeclNode(t.children[0]) || IsAssignNode(t.children[0])) &&
      (t.children[1] == Null || IsExprNode(t.children[1])) &&
      (t.children[2] == Null || IsAssignNode(t.children[2])) &&
      t.children[3].Node? && t.children[3].kind == Block && IsStmt(t.children[3])
    case Read => |t.children| >= 1 && forall i :: 0 <= i < |t.children| ==> IsIdLeaf(t.children[i])
    case Write => |t.children| >= 1 && forall i :: 0 <= i < |t.children| ==> IsIdLeaf(t.children[i])
    case Stmts => t.value == "empty_stmt" && t.children == []
    case _ => false
  }

  /** The initializer clause of `for`: absent, a declaration (which consumes
      its own `;`), or an assignment parsed with its `;` and then followed by
      the `;` that `for` consumes itself. */
  function ForInit(ts: seq<Token>, c: nat): (r: Parsed<Tree>)
    requires c <= |ts|
    ensures r.Success? ==> c < r.value.next <= |ts|
  {
    if !CheckValue(ts, c, TokenSep, ";") then
      if TypeKeyword(ts, c) != "" then ParseDecl(ts, c, false)
      else
        var a :- ParseAssign(ts, c, false);
        var c1 :- ConsumeValue(ts, a.next, TokenSep, ";", "Expected ';' after for initializer");
        Success(Step(a.val, c1))
    else Success(Step(Null, c + 1))
  }

  /** The head of `parseIfStmt`: `if ( condition ) {`. */
  function IfHeader(ts: seq<Token>, c: nat): (r: Parsed<Tree>)
    requires c <= |ts|
    ensures r.Success? ==> c < r.value.next <= |ts|
  {
    var c1 :- ConsumeValue(ts, c, TokenKeyword, "if", "Expected 'if'");
    var c2 :- ConsumeValue(ts, c1, TokenSep, "(", "Expected '(' after 'if'");
    var cond :- ParseBoolExpr(ts, c2);
    var c3 :- ConsumeValue(ts, cond.next, TokenSep, ")", "Expected ')' after condition");
    var c4 :- ConsumeValue(ts, c3, TokenSep, "{", "Expected '{' to start if block");
    Success(Step(cond.val, c4))
  }

  /** The then-branch of `parseIfStmt`: a block, or one statement and an
      optional `;`. */
  function ThenBranch(ts: seq<Token>, c: nat): (r: Parsed<Tree>)
    requires c <= |ts|
    ensures r.Success? ==> c < r.value.next <= |ts|
    decreases |ts| - c, 2
  {
    if CheckValue(ts, c, TokenSep, "{") then ParseBlock(ts, c + 1)
    else
      var s :- ParseStmt(ts, c);
      Success(Step(s.val, if CheckValue(ts, s.next, TokenSep, ";") then s.next + 1 else s.next))
  }

  /** `parseIfStmt`. The first `{` is consumed outright, then-branches of
      the form `{ ... }` need a second `{` for parseBlock, the then-branch's
      closing `}` is not consumed, and `else` needs `{` twice. */
  function ParseIf(ts: seq<Token>, c: nat): (r: Parsed<Tree>)
    requires c <= |ts|
    ensures r.Success? ==> c < r.value.next <= |ts|
    decreases |ts| - c, 0
  {
    var cond :- IfHeader(ts, c);
    var thenBranch :- ThenBranch(ts, cond.next);
    var elseBranch :- ElseBranch(ts, thenBranch.next);
    Success(Step(Node(If, "", [cond.val, thenBranch.val] + elseBranch.val), elseBranch.next))
  }

  /** The optional `else` of `parseIfStmt`: `else {` and then a block, so
      two `{` in a row. */
  function ElseBranch(ts: seq<Token>, c: nat): (r: Parsed<seq<Tree>>)
    requires c <= |ts|
    ensures r.Success? ==> c <= r.value.next <= |ts|
    decreases |ts| - c, 0
  {
    if CheckValue(ts, c, TokenKeyword, "else") then
      var c1 :- ConsumeValue(ts, c + 1, TokenSep, "{", "Expected '{' to start else block");
      var block :- ParseBlock(ts, c1);
      Success(Step([block.val], block.next))
    else Success(Step([], c))
  }

  /** `parseWhileStmt`: the body is a block or a single statement. */
  function ParseWhile(ts: seq<Token>, c: nat): (r: Parsed<Tree>)
    requires c <= |ts|
    ensures r.Success? ==> c < r.value.next <= |ts|
    decreases |ts| - c, 0
  {
    var c1 :- ConsumeValue(ts, c, TokenKeyword, "while", "Expected 'while'");
    var c2 :- ConsumeValue(ts, c1, TokenSep, "(", "Expected '(' after 'while'");
    var cond :- ParseBoolExpr(ts, c2);
    var c3 :- ConsumeValue(ts, cond.next, TokenSep, ")", "Expected ')' after condition");
    var body :- if CheckValue(ts, c3, TokenSep, "{") then ParseBlock(ts, c3) else ParseStmt(ts, c3);
    Success(Step(Node(While, "", [cond.val, body.val]), body.next))
  }

  /** The three clauses of a `for` header; `Null` for an absent one. */
  datatype ForClauses = ForClauses(init: Tree, cond: Tree, update: Tree)

  predicate IsForClauses(h: ForClauses) {
    (h.init == Null || IsDeclNode(h.init) || IsAssignNode(h.init)) &&
    (h.cond == Null || IsExprNode(h.cond)) &&
    (h.update == Null || IsAssignNode(h.update))
  }

  /** The header of `parseForStmt`, from `for` to its `)`. */
  function ForHeader(ts: seq<Token>, c: nat): (r: Parsed<ForClauses>)
    requires c <= |ts|
    ensures r.Success? ==> c < r.value.next <= |ts|
  {
    var c1 :- ConsumeValue(ts, c, TokenKeyword, "for", "Expected 'for'");
    var c2 :- ConsumeValue(ts, c1, TokenSep, "(", "Expected '(' after 'for'");
    var init :- ForInit(ts, c2);
    ForRest(ts, init)
  }

  /** The condition and update clauses of a `for` header, after the
      initializer `init`. */
  function ForRest(ts: seq<Token>, init: Step<Tree>): (r: Parsed<ForClauses>)
    requires init.next <= |ts|
    ensures r.Success? ==> init.next < r.value.next <= |ts|
  {
    var cond :- ForCond(ts, init.next);
    var update :- ForUpdate(ts, cond.next);
    Success(Step(ForClauses(init.val, cond.val, update.val), update.next))
  }

  /** The condition clause of `for` and the `;` after it. */
  function ForCond(ts: seq<Token>, c: nat): (r: Parsed<Tree>)
    requires c <= |ts|
    ensures r.Success? ==> c < r.value.next <= |ts|
  {
    var cond :-
      if !CheckValue(ts, c, TokenSep, ";") then ParseBoolExpr(ts, c)
      else Success(Step(Null, c));
    var c1 :- ConsumeValue(ts, cond.next, TokenSep, ";", "Expected ';' after for condition");
    Success(Step(cond.val, c1))
  }

  /** The update clause of `for` and the `)` after it. */
  function ForUpdate(ts: seq<Token>, c: nat): (r: Parsed<Tree>)
    requires c <= |ts|
    ensures r.Success? ==> c < r.value.next <= |ts|
  {
    var update :-
      if !CheckValue(ts, c, TokenSep, ")") then ParseAssign(ts, c, true)
      else Success(Step(Null, c));
    var c1 :- ConsumeValue(ts, update.next, TokenSep, ")", "Expected ')' after for update");
    Success(Step(update.val, c1))
  }

  /** `parseForStmt`: four slots, `Null` for an absent clause, and the
      body. */
  function ParseFor(ts: seq<Token>, c: nat): (r: Parsed<Tree>)
    requires c <= |ts|
    ensures r.Success? ==> c < r.value.next <= |ts|
    decreases |ts| - c, 0
  {
    var h :- ForHeader(ts, c);
    var body :- ForBody(ts, h.next);
    Success(Step(Node(For, "", [h.val.init, h.val.cond, h.val.update, body.val]), body.next))
  }

  /** The body of `parseForStmt`: a block, or a single statement wrapped in
      a block. */
  function ForBody(ts: seq<Token>, c: nat): (r: Parsed<Tree>)
    requires c <= |ts|
    ensures r.Success? ==> c < r.value.next <= |ts|
    decreases |ts| - c, 2
  {
    if CheckValue(ts, c, TokenSep, "{") then ParseBlock(ts, c)
    else
      var s :- ParseStmt(ts, c);
      Success(Step(Node(Block, "", [s.val]), s.next))
  }

  /** `parseStmt`: dispatch on the lookahead; a lone `;` is the empty
      statement. */
  function ParseStmt(ts: seq<Token>, c: nat): (r: Parsed<Tree>)
    requires c <= |ts|
    ensures r.Success? ==> c < r.value.next <= |ts|
    decreases |ts| - c, 1
  {
    if CheckValue(ts, c, TokenSep, "{") then ParseBlock(ts, c)
    else if CheckValue(ts, c, TokenKeyword, "if") then ParseIf(ts, c)
    else if CheckValue(ts, c, TokenKeyword, "while") then ParseWhile(ts, c)
    else if CheckValue(ts, c, TokenKeyword, "for") then ParseFor(ts, c)
    else if CheckValue(ts, c, TokenKeyword, "read") then ParseRead(ts, c)
    else if CheckValue(ts, c, TokenKeyword, "write") then ParseWrite(ts, c)
    else if Check(ts, c, TokenId) then ParseAssign(ts, c, false)
    else if CheckValue(ts, c, TokenSep, ";") then Success(Step(Node(Stmts, "empty_stmt", []), c + 1))
    else ErrorAt(ts, c, "Expected statement but found: " + Peek(ts, c).value)
  }

  /** The statement loop shared by `parseStmts` and `parseBlock`: statements
      until the end or a `}`, which is left in place. */
  function StmtList(ts: seq<Token>, c: nat, acc: seq<Tree>): (r: Parsed<seq<Tree>>)
    requires c <= |ts|
    ensures r.Success? ==> c <= r.value.next <= |ts|
    decreases |ts| - c, 2
  {
    if IsAtEnd(ts, c) || CheckValue(ts, c, TokenSep, "}") then Success(Step(acc, c))
    else
      var s :- ParseStmt(ts, c);
      StmtList(ts, s.next, acc + [s.val])
  }

  /** `parseBlock`: `{ statements }`. */
  function ParseBlock(ts: seq<Token>, c: nat): (r: Parsed<Tree>)
    requires c <= |ts|
    ensures r.Success? ==> c < r.value.next <= |ts|
    decreases |ts| - c, 0
  {
    var c1 :- ConsumeValue(ts, c, TokenSep, "{", "Expected '{' to start block");
    var items :- StmtList(ts, c1, []);
    var c2 :- ConsumeValue(ts, items.next, TokenSep, "}", "Expected '}' to end block");
    Success(Step(Node(Block, "", items.val), c2))
  }

  /** `parseStmts`: a `STMTS` node over the statement loop. */
  function ParseStmts(ts: seq<Token>, c: nat): (r: Parsed<Tree>)
    requires c <= |ts|
    ensures r.Success? ==> c <= r.value.next <= |ts|
  {
    var s :- StmtList(ts, c, []);
    Success(Step(Node(Stmts, "", s.val), s.next))
  }

  /** `parse`: a `BLOCK` root holding the declarations and the statements.
      Nothing checks that the tokens are used up. */
  function Parse(ts: seq<Token>): (r: Parsed<Tree>)
    ensures r.Success? ==> r.value.next <= |ts|
  {
    var d :- ParseDecls(ts, 0);
    var s :- ParseStmts(ts, d.next);
    Success(Step(Node(Block, "", [d.val, s.val]), s.next))
  }
}
