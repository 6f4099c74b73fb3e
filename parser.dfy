/** The `Parser` class of parse.cpp: a cursor `current` over an immutable
    token vector. Every method is proved to compute what the matching
    function of `ParseSpec` computes from the cursor it starts at: the same
    tree and the same final cursor, or the same syntax error. */
module Parse {
  import opened Wrappers
  import opened ParseSpec

  /** A method's result `r` and final cursor `cur` are what `spec` says. */
  predicate Agrees<T(==)>(r: Result<T, SyntaxError>, cur: nat, spec: Parsed<T>) {
    match spec
    case Success(s) => r == Success(s.val) && cur == s.next
    case Failure(e) => r == Failure(e)
  }

  /** A `consume` passed and left the cursor where `spec` says, or failed
      with its error. */
  predicate Moved(o: Outcome<SyntaxError>, cur: nat, spec: Result<nat, SyntaxError>) {
    match spec
    case Success(n) => o == Pass && cur == n
    case Failure(e) => o == Fail(e)
  }

  /** The loop of the `)` branch of parseArithmeticExpr, on the stacks. */
  method CloseParenthesis(st: Stacks, at: string) returns (r: Result<Stacks, SyntaxError>)
    ensures r == CloseParen(st, at)
  {
    var nodes, ops := st.nodes, st.ops;
    while |ops| > 0 && Top(ops) != "("
      invariant CloseParen(Stacks(nodes, ops), at) == CloseParen(st, at)
      decreases |ops|
    {
      var s :- ProcessOp(Stacks(nodes, ops), at);
      nodes, ops := s.nodes, s.ops;
    }
    if |ops| == 0 {
      return Failure(SyntaxError("Unmatched parentheses", at));
    }
    return Success(Stacks(nodes, Pop(ops)));
  }

  /** The loop that reduces before an operator of precedence `p` is pushed. */
  method ReduceBefore(st: Stacks, p: int, at: string) returns (r: Result<Stacks, SyntaxError>)
    ensures r == ReduceWhile(st, p, at)
  {
    var nodes, ops := st.nodes, st.ops;
    while |ops| > 0 && Top(ops) != "(" && Prec(Top(ops)) >= p
      invariant ReduceWhile(Stacks(nodes, ops), p, at) == ReduceWhile(st, p, at)
      decreases |ops|
    {
      var s :- ProcessOp(Stacks(nodes, ops), at);
      nodes, ops := s.nodes, s.ops;
    }
    return Success(Stacks(nodes, ops));
  }

  /** The loop after the main loop of parseArithmeticExpr. */
  method ReduceAll(st: Stacks, at: string) returns (r: Result<Stacks, SyntaxError>)
    ensures r == Drain(st, at)
  {
    var nodes, ops := st.nodes, st.ops;
    while |ops| > 0
      invariant Drain(Stacks(nodes, ops), at) == Drain(st, at)
      decreases |ops|
    {
      if Top(ops) == "(" {
        return Failure(SyntaxError("Unmatched parentheses", at));
      }
      var s :- ProcessOp(Stacks(nodes, ops), at);
      nodes, ops := s.nodes, s.ops;
    }
    return Success(Stacks(nodes, ops));
  }

  class Parser {
    const tokens: seq<Token>
    var current: nat

    ghost predicate Valid()
      reads this
    {
      current <= |tokens|
    }

    constructor (ts: seq<Token>)
      ensures Valid() && tokens == ts && current == 0
    {
      tokens := ts;
      current := 0;
    }

    /** `advance`: moves on unless at the end and returns `previous()`. */
    method Advance() returns (t: Token)
      requires Valid()
      modifies this
      ensures Valid()
      ensures current == ParseSpec.Advance(tokens, old(current))
      ensures t == Previous(tokens, current)
    {
      if !IsAtEnd(tokens, current) {
        current := current + 1;
      }
      t := Previous(tokens, current);
    }

    /** `match(type)`. */
    method MatchKind(k: TokenType) returns (b: bool)
      requires Valid()
      modifies this
      ensures Valid()
      ensures b == Check(tokens, old(current), k)
      ensures current == if b then old(current) + 1 else old(current)
    {
      b := Check(tokens, current, k);
      if b {
        var t := Advance();
      }
    }

    /** `match(type, value)`. */
    method Match(k: TokenType, v: string) returns (b: bool)
      requires Valid()
      modifies this
      ensures Valid()
      ensures b == CheckValue(tokens, old(current), k, v)
      ensures current == if b then old(current) + 1 else old(current)
    {
      b := CheckValue(tokens, current, k, v);
      if b {
        var t := Advance();
      }
    }

    /** `consume(type, message)`. */
    method Consume(k: TokenType, message: string) returns (o: Outcome<SyntaxError>)
      requires Valid()
      modifies this
      ensures Valid()
      ensures Moved(o, current, ParseSpec.Consume(tokens, old(current), k, message))
    {
      if Check(tokens, current, k) {
        var t := Advance();
        return Pass;
      }
      return Fail(SyntaxError(message, Peek(tokens, current).value));
    }

    /** `consume(type, value, message)`. */
    method ConsumeValue(k: TokenType, v: string, message: string) returns (o: Outcome<SyntaxError>)
      requires Valid()
      modifies this
      ensures Valid()
      ensures Moved(o, current, ParseSpec.ConsumeValue(tokens, old(current), k, v, message))
    {
      if CheckValue(tokens, current, k, v) {
        var t := Advance();
        return Pass;
      }
      return Fail(SyntaxError(message + " (Actual: " + Peek(tokens, current).value + ")", Peek(tokens, current).value));
    }

    /** `parseArithmeticExpr`: operator-precedence parsing with an operand
        stack `nodes` and an operator stack `ops`, tops last. */
    method ParseArithmeticExpr() returns (r: Result<Tree, SyntaxError>)
      requires Valid()
      modifies this
      ensures Valid()
      ensures Agrees(r, current, ParseSpec.ParseArithmeticExpr(tokens, old(current)))
    {
      if CheckValue(tokens, current, TokenSep, ";") {
        return Failure(SyntaxError("Empty expression not allowed here", Peek(tokens, current).value));
      }
      var st :- ExpressionLoop();
      var at := Peek(tokens, current).value;
      st :- ReduceAll(st, at);
      if |st.nodes| == 0 {
        return Failure(SyntaxError("Empty expression", at));
      }
      if |st.nodes| > 1 {
        return Failure(SyntaxError("Malformed expression", at));
      }
      return Success(Node(Expr, "", [st.nodes[0]]));
    }

    /** The main loop of `parseArithmeticExpr`: operands are pushed, `(`
        is pushed, `)` reduces to its `(`, and an operator first reduces the
        operators that bind at least as tightly. */
    method ExpressionLoop() returns (r: Result<Stacks, SyntaxError>)
      requires Valid()
      modifies this
      ensures Valid()
      ensures Agrees(r, current, ExprLoop(tokens, old(current), Stacks([], [])))
    {
      ghost var c0 := current;
      var st := Stacks([], []);
      while !ExprStops(tokens, current)
        invariant Valid()
        invariant ExprLoop(tokens, current, st) == ExprLoop(tokens, c0, Stacks([], []))
        decreases |tokens| - current
      {
        if CheckValue(tokens, current, TokenSep, "(") {
          var t := Advance();
          st := Stacks(st.nodes, st.ops + ["("]);
        } else if CheckValue(tokens, current, TokenSep, ")") {
          var t := Advance();
          st :- CloseParenthesis(st, Peek(tokens, current).value);
        } else if Check(tokens, current, TokenOp) {
          var t := Advance();
          var op := t.value;
          if op == "-" && (|st.nodes| == 0 || (|st.ops| > 0 && Top(st.ops) == "(")) {
            op := "neg";
          }
          assert op == Incoming(t.value, st);
          st :- ReduceBefore(st, Prec(op), Peek(tokens, current).value);
          st := Stacks(st.nodes, st.ops + [op]);
        } else {
          var kind := OperandKind(Peek(tokens, current).kind);
          if kind.None? {
            return Failure(SyntaxError("Expected operand in expression", Peek(tokens, current).value));
          }
          var t := Advance();
          st := Stacks(st.nodes + [Node(kind.value, t.value, [])], st.ops);
        }
      }
      return Success(st);
    }

    /** `parseBoolExpr`. */
    method ParseBoolExpr() returns (r: Result<Tree, SyntaxError>)
      requires Valid()
      modifies this
      ensures Valid()
      ensures Agrees(r, current, ParseSpec.ParseBoolExpr(tokens, old(current)))
    {
      var left :- ParseArithmeticExpr();
      if CheckValue(tokens, current, TokenSep, "{") {
        return Success(left);
      }
      if AtComparison(tokens, current) {
        var op := Advance();
        var right :- ParseArithmeticExpr();
        return Success(Node(BoolExpr, op.value, [left, right]));
      }
      return Success(left);
    }

    /** `parseDecl`, or with `lenient` the body of the loop of `parseDecls`. */
    method ParseDecl(lenient: bool) returns (r: Result<Tree, SyntaxError>)
      requires Valid()
      modifies this
      ensures Valid()
      ensures Agrees(r, current, ParseSpec.ParseDecl(tokens, old(current), lenient))
    {
      var ty := TypeKeyword(tokens, current);
      if ty == "" {
        return Failure(SyntaxError("Expected type keyword in declaration", Peek(tokens, current).value));
      }
      var t := Advance();
      var items :- ParseDeclarators(ty, lenient);
      :- ConsumeValue(TokenSep, ";", "Expected ';' after declaration");
      return Success(Node(List, "", [Node(TypeName, ty, [])] + items));
    }

    /** The `do ... while (match(TOKEN_SEP, ","))` loop of a declaration. */
    method ParseDeclarators(ty: string, lenient: bool) returns (r: Result<seq<Tree>, SyntaxError>)
      requires Valid()
      modifies this
      ensures Valid()
      ensures Agrees(r, current, Declarators(tokens, old(current), ty, [], lenient))
    {
      ghost var c1 := current;
      var items: seq<Tree> := [];
      while true
        invariant Valid()
        invariant Declarators(tokens, current, ty, items, lenient) == Declarators(tokens, c1, ty, [], lenient)
        decreases |tokens| - current
      {
        var pass :- DeclaratorsPass(ty, lenient, items);
        items := pass.0;
        if !pass.1 {
          break;
        }
      }
      return Success(items);
    }

    /** One pass of that loop: in `parseDecls` a `;` that ends it, otherwise
        a declarator and the test for `,`. The flag says whether the loop
        goes on, and the list is then where the rest of the loop starts. */
    method DeclaratorsPass(ty: string, lenient: bool, items: seq<Tree>) returns (r: Result<(seq<Tree>, bool), SyntaxError>)
      requires Valid()
      modifies this
      ensures Valid()
      ensures match r
              case Failure(e) => Declarators(tokens, old(current), ty, items, lenient) == Failure(e)
              case Success(pass) =>
                if pass.1 then
                  old(current) < current &&
                  Declarators(tokens, current, ty, pass.0, lenient) == Declarators(tokens, old(current), ty, items, lenient)
                else Declarators(tokens, old(current), ty, items, lenient) == Success(Step(pass.0, current))
    {
      ghost var here := current;
      if lenient {
        var semicolon := Match(TokenSep, ";");
        if semicolon {
          DeclaratorsEndAtSemicolon(tokens, here, ty, items);
          return Success((items, false));
        }
      }
      var d :- ParseDeclarator(ty, lenient);
      assert Declarators(tokens, here, ty, items, lenient) == MoreDeclarators(tokens, current, ty, items + d, lenient);
      var comma := Match(TokenSep, ",");
      return Success((items + d, comma));
    }

    /** One declarator: a name and its optional initializer. */
    method ParseDeclarator(ty: string, lenient: bool) returns (r: Result<seq<Tree>, SyntaxError>)
      requires Valid()
      modifies this
      ensures Valid()
      ensures Agrees(r, current, Declarator(tokens, old(current), ty, lenient))
    {
      var init: seq<Tree>;
      :- Consume(TokenId, if lenient then "Expected variable name in declaration" else "Expected variable name");
      DeclaratorAfterName(tokens, current - 1, ty, lenient);
      var id := Node(Id, Previous(tokens, current).value, []);
      init :- ParseInitializer(ty);
      return Success([id] + init);
    }

    /** The optional `= expression` of a declarator. */
    method ParseInitializer(ty: string) returns (r: Result<seq<Tree>, SyntaxError>)
      requires Valid()
      modifies this
      ensures Valid()
      ensures Agrees(r, current, Initializer(tokens, old(current), ty))
    {
      var hasInit := Match(TokenOp, "=");
      if !hasInit {
        return Success([]);
      }
      var e: Tree;
      if ty == "bool" {
        e :- ParseBoolExpr();
      } else {
        e :- ParseArithmeticExpr();
      }
      return Success([e]);
    }

    /** `parseDecls`. */
    method ParseDecls() returns (r: Result<Tree, SyntaxError>)
      requires Valid()
      modifies this
      ensures Valid()
      ensures Agrees(r, current, ParseSpec.ParseDecls(tokens, old(current)))
    {
      ghost var c0 := current;
      var decls: seq<Tree> := [];
      while !IsAtEnd(tokens, current)
        invariant Valid()
        invariant DeclsLoop(tokens, current, decls) == DeclsLoop(tokens, c0, [])
        decreases |tokens| - current
      {
        if TypeKeyword(tokens, current) == "" {
          break;
        }
        var d :- ParseDecl(true);
        decls := decls + [d];
      }
      return Success(Node(Decls, "", decls));
    }

    /** `parseAssignStmt(inForLoop)`. */
    method ParseAssignStmt(inForLoop: bool) returns (r: Result<Tree, SyntaxError>)
      requires Valid()
      modifies this
      ensures Valid()
      ensures Agrees(r, current, ParseAssign(tokens, old(current), inForLoop))
    {
      ghost var c0 := current;
      :- Consume(TokenId, "Expected identifier in assignment");
      var id := Node(Id, Previous(tokens, current).value, []);
      var op := Peek(tokens, current).value;
      assert id == Node(Id, tokens[c0].value, []);
      var rhs :- ParseAssignOperator();
      ghost var spec := ParseAssign(tokens, c0, inForLoop);
      var node := Node(Assign, op, [id] + rhs);
      if !inForLoop {
        assert spec == (var c2 :- ParseSpec.ConsumeValue(tokens, current, TokenSep, ";", "Expected ';' after assignment");
                        Success(Step(node, c2)));
        :- ConsumeValue(TokenSep, ";", "Expected ';' after assignment");
      } else {
        assert spec == Success(Step(node, current));
      }
      return Success(node);
    }

    /** The operator of an assignment and, unless it is `++` or `--`, its
        right-hand side. */
    method ParseAssignOperator() returns (r: Result<seq<Tree>, SyntaxError>)
      requires Valid()
      modifies this
      ensures Valid()
      ensures Agrees(r, current, AssignOperator(tokens, old(current)))
    {
      var op := Peek(tokens, current).value;
      if op == "++" || op == "--" {
        :- Consume(TokenOp, "Expected operator");
        return Success([]);
      }
      :- Consume(TokenOp, "Expected assignment operator");
      var rhs: Tree;
      if op == "=" && RhsLooksBoolean(tokens, current) {
        rhs :- ParseBoolExpr();
      } else {
        rhs :- ParseArithmeticExpr();
      }
      return Success([rhs]);
    }

    /** The `do ... while (match(TOKEN_SEP, ","))` identifier list of
        `parseReadStmt` and `parseWriteStmt`. */
    method IdentifierList(message: string) returns (r: Result<seq<Tree>, SyntaxError>)
      requires Valid()
      modifies this
      ensures Valid()
      ensures Agrees(r, current, IdList(tokens, old(current), [], message))
    {
      ghost var c0 := current;
      var ids: seq<Tree> := [];
      while true
        invariant Valid() && forall i :: 0 <= i < |ids| ==> IsIdLeaf(ids[i])
        invariant IdList(tokens, current, ids, message) == IdList(tokens, c0, [], message)
        decreases |tokens| - current
      {
        :- Consume(TokenId, message);
        ids := ids + [Node(Id, Previous(tokens, current).value, [])];
        var comma := Match(TokenSep, ",");
        if !comma {
          break;
        }
      }
      return Success(ids);
    }

    /** `parseReadStmt`. */
    method ParseReadStmt() returns (r: Result<Tree, SyntaxError>)
      requires Valid()
      modifies this
      ensures Valid()
      ensures Agrees(r, current, ParseRead(tokens, old(current)))
    {
      var ids: seq<Tree>;
      :- ConsumeValue(TokenKeyword, "read", "Expected 'read'");
      :- ConsumeValue(TokenSep, "(", "Expected '(' after 'read'");
      ids :- IdentifierList("Expected variable name in read statement");
      :- ConsumeValue(TokenSep, ")", "Expected ')' after read arguments");
      :- ConsumeValue(TokenSep, ";", "Expected ';' after read statement");
      return Success(Node(Read, "", ids));
    }

    /** `parseWriteStmt`. */
    method ParseWriteStmt() returns (r: Result<Tree, SyntaxError>)
      requires Valid()
      modifies this
      ensures Valid()
      ensures Agrees(r, current, ParseWrite(tokens, old(current)))
    {
      var ids: seq<Tree>;
      :- ConsumeValue(TokenKeyword, "write", "Expected 'write'");
      var parenthesised := Match(TokenSep, "(");
      if parenthesised {
        ids :- IdentifierList("Expected variable name in write statement");
        :- ConsumeValue(TokenSep, ")", "Expected ')' after write arguments");
      } else {
        :- Consume(TokenId, "Expected variable name in write statement");
        ids := [Node(Id, Previous(tokens, current).value, [])];
      }
      :- ConsumeValue(TokenSep, ";", "Expected ';' after write statement");
      return Success(Node(Write, "", ids));
    }

    /** The head of `parseIfStmt`: `if ( condition ) {`. */
    method ParseIfHeader() returns (r: Result<Tree, SyntaxError>)
      requires Valid()
      modifies this
      ensures Valid()
      ensures Agrees(r, current, IfHeader(tokens, old(current)))
    {
      var cond: Tree;
      :- ConsumeValue(TokenKeyword, "if", "Expected 'if'");
      :- ConsumeValue(TokenSep, "(", "Expected '(' after 'if'");
      cond :- ParseBoolExpr();
      :- ConsumeValue(TokenSep, ")", "Expected ')' after condition");
      :- ConsumeValue(TokenSep, "{", "Expected '{' to start if block");
      return Success(cond);
    }

    /** `parseIfStmt`. */
    method ParseIfStmt() returns (r: Result<Tree, SyntaxError>)
      requires Valid()
      modifies this
      ensures Valid()
      ensures Agrees(r, current, ParseIf(tokens, old(current)))
      decreases |tokens| - current, 0
    {
      var cond :- ParseIfHeader();
      var thenBranch :- ParseThenBranch();
      var elseBranch :- ParseElseBranch();
      return Success(Node(If, "", [cond, thenBranch] + elseBranch));
    }

    /** The then-branch of `parseIfStmt`. */
    method ParseThenBranch() returns (r: Result<Tree, SyntaxError>)
      requires Valid()
      modifies this
      ensures Valid()
      ensures Agrees(r, current, ThenBranch(tokens, old(current)))
      decreases |tokens| - current, 2
    {
      var brace := Match(TokenSep, "{");
      if brace {
        r := ParseBlock();
        return;
      }
      var s :- ParseStmt();
      if CheckValue(tokens, current, TokenSep, ";") {
        var t := Advance();
      }
      return Success(s);
    }

    /** The optional else-branch of `parseIfStmt`. */
    method ParseElseBranch() returns (r: Result<seq<Tree>, SyntaxError>)
      requires Valid()
      modifies this
      ensures Valid()
      ensures Agrees(r, current, ElseBranch(tokens, old(current)))
      decreases |tokens| - current, 0
    {
      var hasElse := Match(TokenKeyword, "else");
      if !hasElse {
        return Success([]);
      }
      :- ConsumeValue(TokenSep, "{", "Expected '{' to start else block");
      var block :- ParseBlock();
      return Success([block]);
    }

    /** `parseWhileStmt`. */
    method ParseWhileStmt() returns (r: Result<Tree, SyntaxError>)
      requires Valid()
      modifies this
      ensures Valid()
      ensures Agrees(r, current, ParseWhile(tokens, old(current)))
      decreases |tokens| - current, 0
    {
      var cond, body: Tree;
      :- ConsumeValue(TokenKeyword, "while", "Expected 'while'");
      :- ConsumeValue(TokenSep, "(", "Expected '(' after 'while'");
      cond :- ParseBoolExpr();
      :- ConsumeValue(TokenSep, ")", "Expected ')' after condition");
      if CheckValue(tokens, current, TokenSep, "{") {
        body :- ParseBlock();
      } else {
        body :- ParseStmt();
      }
      return Success(Node(While, "", [cond, body]));
    }

    /** The header of `parseForStmt`, from `for` to its `)`. */
    method ParseForHeader() returns (r: Result<ForClauses, SyntaxError>)
      requires Valid()
      modifies this
      ensures Valid()
      ensures Agrees(r, current, ForHeader(tokens, old(current)))
    {
      var init, cond, update: Tree;
      :- ConsumeValue(TokenKeyword, "for", "Expected 'for'");
      :- ConsumeValue(TokenSep, "(", "Expected '(' after 'for'");
      init :- ParseForInit();
      cond :- ParseForCond();
      update :- ParseForUpdate();
      return Success(ForClauses(init, cond, update));
    }

    /** The initializer clause of `parseForStmt`. */
    method ParseForInit() returns (r: Result<Tree, SyntaxError>)
      requires Valid()
      modifies this
      ensures Valid()
      ensures Agrees(r, current, ForInit(tokens, old(current)))
    {
      if !CheckValue(tokens, current, TokenSep, ";") {
        if TypeKeyword(tokens, current) != "" {
          r := ParseDecl(false);
          return;
        }
        var init :- ParseAssignStmt(false);
        :- ConsumeValue(TokenSep, ";", "Expected ';' after for initializer");
        return Success(init);
      }
      var t := Advance();
      return Success(Null);
    }

    /** The condition clause of `parseForStmt` and its `;`. */
    method ParseForCond() returns (r: Result<Tree, SyntaxError>)
      requires Valid()
      modifies this
      ensures Valid()
      ensures Agrees(r, current, ForCond(tokens, old(current)))
    {
      var cond: Tree := Null;
      if !CheckValue(tokens, current, TokenSep, ";") {
        cond :- ParseBoolExpr();
      }
      :- ConsumeValue(TokenSep, ";", "Expected ';' after for condition");
      return Success(cond);
    }

    /** The update clause of `parseForStmt` and its `)`. */
    method ParseForUpdate() returns (r: Result<Tree, SyntaxError>)
      requires Valid()
      modifies this
      ensures Valid()
      ensures Agrees(r, current, ForUpdate(tokens, old(current)))
    {
      var update: Tree := Null;
      if !CheckValue(tokens, current, TokenSep, ")") {
        update :- ParseAssignStmt(true);
      }
      :- ConsumeValue(TokenSep, ")", "Expected ')' after for update");
      return Success(update);
    }

    /** `parseForStmt`. */
    method ParseForStmt() returns (r: Result<Tree, SyntaxError>)
      requires Valid()
      modifies this
      ensures Valid()
      ensures Agrees(r, current, ParseFor(tokens, old(current)))
      decreases |tokens| - current, 0
    {
      var h :- ParseForHeader();
      var body: Tree;
      if CheckValue(tokens, current, TokenSep, "{") {
        body :- ParseBlock();
      } else {
        var s :- ParseStmt();
        body := Node(Block, "", [s]);
      }
      return Success(Node(For, "", [h.init, h.cond, h.update, body]));
    }

    /** `parseStmt`. */
    method ParseStmt() returns (r: Result<Tree, SyntaxError>)
      requires Valid()
      modifies this
      ensures Valid()
      ensures Agrees(r, current, ParseSpec.ParseStmt(tokens, old(current)))
      decreases |tokens| - current, 1
    {
      if CheckValue(tokens, current, TokenSep, "{") {
        r := ParseBlock();
      } else if CheckValue(tokens, current, TokenKeyword, "if") {
        r := ParseIfStmt();
      } else if CheckValue(tokens, current, TokenKeyword, "while") {
        r := ParseWhileStmt();
      } else if CheckValue(tokens, current, TokenKeyword, "for") {
        r := ParseForStmt();
      } else if CheckValue(tokens, current, TokenKeyword, "read") {
        r := ParseReadStmt();
      } else if CheckValue(tokens, current, TokenKeyword, "write") {
        r := ParseWriteStmt();
      } else if Check(tokens, current, TokenId) {
        r := ParseAssignStmt(false);
      } else {
        var empty := Match(TokenSep, ";");
        if empty {
          return Success(Node(Stmts, "empty_stmt", []));
        }
        return Failure(SyntaxError("Expected statement but found: " + Peek(tokens, current).value, Peek(tokens, current).value));
      }
    }

    /** `parseBlock`. */
    method ParseBlock() returns (r: Result<Tree, SyntaxError>)
      requires Valid()
      modifies this
      ensures Valid()
      ensures Agrees(r, current, ParseSpec.ParseBlock(tokens, old(current)))
      decreases |tokens| - current, 0
    {
      var items: seq<Tree> := [];
      :- ConsumeValue(TokenSep, "{", "Expected '{' to start block");
      ghost var c1 := current;
      while !IsAtEnd(tokens, current) && !CheckValue(tokens, current, TokenSep, "}")
        invariant Valid() && c1 <= current
        invariant StmtList(tokens, current, items) == StmtList(tokens, c1, [])
        decreases |tokens| - current
      {
        var s :- ParseStmt();
        items := items + [s];
      }
      :- ConsumeValue(TokenSep, "}", "Expected '}' to end block");
      return Success(Node(Block, "", items));
    }

    /** `parseStmts`. */
    method ParseStmts() returns (r: Result<Tree, SyntaxError>)
      requires Valid()
      modifies this
      ensures Valid()
      ensures Agrees(r, current, ParseSpec.ParseStmts(tokens, old(current)))
    {
      ghost var c0 := current;
      var items: seq<Tree> := [];
      while !IsAtEnd(tokens, current) && !CheckValue(tokens, current, TokenSep, "}")
        invariant Valid()
        invariant StmtList(tokens, current, items) == StmtList(tokens, c0, [])
        decreases |tokens| - current
      {
        var s :- ParseStmt();
        items := items + [s];
      }
      return Success(Node(Stmts, "", items));
    }

    /** `parse`: declarations, then statements, under a `BLOCK` root. */
    method Parse() returns (r: Result<Tree, SyntaxError>)
      requires Valid() && current == 0
      modifies this
      ensures Valid()
      ensures Agrees(r, current, ParseSpec.Parse(tokens))
    {
      var decls :- ParseDecls();
      var stmts :- ParseStmts();
      return Success(Node(Block, "", [decls, stmts]));
    }
  }
}
