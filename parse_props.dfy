/** What the parser of parse.cpp guarantees, proved about the functions of
    `ParseSpec`: the shapes of the trees it builds, where each parsing
    function leaves the cursor, and the inputs it can never accept. */
module ParseProps {
  import opened Wrappers
  import opened ParseSpec

  // ---------------------------------------------------------------------
  // The operator-precedence engine

  /** `processOp` fails exactly when the operand stack is too short for the
      top operator; otherwise it replaces the operator's operands (left one
      first) by one `OP` node and pops the operator. */
  lemma ProcessOpReduces(st: Stacks, at: string)
    requires |st.ops| > 0
    ensures ProcessOp(st, at).Success? <==> Arity(Top(st.ops)) <= |st.nodes|
    ensures ProcessOp(st, at).Success? ==>
              var k := |st.nodes| - Arity(Top(st.ops));
              ProcessOp(st, at).value == Stacks(st.nodes[..k] + [Node(Op, Top(st.ops), st.nodes[k..])], Pop(st.ops))
    ensures ProcessOp(st, at).Failure? ==> ProcessOp(st, at).error.token == at
  {
    var n, op := st.nodes, Top(st.ops);
    if IsUnary(op) && |n| >= 1 {
      assert n[..|n| - 1] == Pop(n) && [Top(n)] == n[|n| - 1..];
      assert ProcessOp(st, at) == Success(Stacks(Pop(n) + [Node(Op, op, [Top(n)])], Pop(st.ops)));
    } else if !IsUnary(op) && |n| >= 2 {
      assert [n[|n| - 2], n[|n| - 1]] == n[|n| - 2..];
      assert ProcessOp(st, at) == Success(Stacks(n[..|n| - 2] + [Node(Op, op, [n[|n| - 2], n[|n| - 1]])], Pop(st.ops)));
    }
  }

  /** A reduction builds operand trees out of operand trees. */
  lemma ProcessOpKeepsOperands(st: Stacks, at: string)
    requires |st.ops| > 0 && AllOperands(st.nodes)
    ensures ProcessOp(st, at).Success? ==> AllOperands(ProcessOp(st, at).value.nodes)
  {
    ProcessOpReduces(st, at);
    if ProcessOp(st, at).Success? {
      var k := |st.nodes| - Arity(Top(st.ops));
      var t := Node(Op, Top(st.ops), st.nodes[k..]);
      assert forall i :: 0 <= i < |t.children| ==> t.children[i] == st.nodes[k + i];
      assert IsOperand(t);
      var r := ProcessOp(st, at).value.nodes;
      assert forall i :: 0 <= i < |r| ==> r[i] == if i < k then st.nodes[i] else t;
    }
  }

  lemma {:induction false} CloseParenKeepsOperands(st: Stacks, at: string)
    requires AllOperands(st.nodes)
    ensures CloseParen(st, at).Success? ==> AllOperands(CloseParen(st, at).value.nodes)
    decreases |st.ops|
  {
    if |st.ops| > 0 && Top(st.ops) != "(" {
      ProcessOpKeepsOperands(st, at);
      if ProcessOp(st, at).Success? {
        CloseParenKeepsOperands(ProcessOp(st, at).value, at);
      }
    }
  }

  /** The `)` branch pops the operators above the nearest `(` and that `(`;
      with no `(` on the stack it fails. */
  lemma {:induction false} CloseParenPopsToParen(st: Stacks, at: string)
    ensures "(" !in st.ops ==> CloseParen(st, at).Failure?
    ensures CloseParen(st, at).Success? ==>
              var n := |CloseParen(st, at).value.ops|;
              n < |st.ops| && CloseParen(st, at).value.ops == st.ops[..n] &&
              st.ops[n] == "(" && "(" !in st.ops[n + 1..]
    decreases |st.ops|
  {
    if |st.ops| > 0 && Top(st.ops) != "(" && ProcessOp(st, at).Success? {
      var s1 := ProcessOp(st, at).value;
      CloseParenPopsToParen(s1, at);
      assert st.ops == s1.ops + [Top(st.ops)];
      if CloseParen(s1, at).Success? {
        var n := |CloseParen(s1, at).value.ops|;
        assert st.ops[n + 1..] == s1.ops[n + 1..] + [Top(st.ops)];
      }
    } else if |st.ops| > 0 && Top(st.ops) == "(" {
      assert st.ops == Pop(st.ops) + ["("];
    }
  }

  lemma {:induction false} ReduceWhileKeepsOperands(st: Stacks, p: int, at: string)
    requires AllOperands(st.nodes)
    ensures ReduceWhile(st, p, at).Success? ==> AllOperands(ReduceWhile(st, p, at).value.nodes)
    decreases |st.ops|
  {
    if |st.ops| > 0 && Top(st.ops) != "(" && Prec(Top(st.ops)) >= p {
      ProcessOpKeepsOperands(st, at);
      if ProcessOp(st, at).Success? {
        ReduceWhileKeepsOperands(ProcessOp(st, at).value, p, at);
      }
    }
  }

  /** Before an operator of precedence `p` is pushed, exactly the operators
      above the nearest `(` that bind at least as tightly are reduced. */
  lemma {:induction false} ReduceWhileStops(st: Stacks, p: int, at: string)
    ensures ReduceWhile(st, p, at).Success? ==>
              var ops := ReduceWhile(st, p, at).value.ops;
              |ops| <= |st.ops| && ops == st.ops[..|ops|] &&
              (|ops| == 0 || Top(ops) == "(" || Prec(Top(ops)) < p) &&
              forall k :: |ops| <= k < |st.ops| ==> st.ops[k] != "(" && Prec(st.ops[k]) >= p
    decreases |st.ops|
  {
    if |st.ops| > 0 && Top(st.ops) != "(" && Prec(Top(st.ops)) >= p && ProcessOp(st, at).Success? {
      var s1 := ProcessOp(st, at).value;
      ReduceWhileStops(s1, p, at);
      assert st.ops == s1.ops + [Top(st.ops)];
    }
  }

  lemma {:induction false} DrainKeepsOperands(st: Stacks, at: string)
    requires AllOperands(st.nodes)
    ensures Drain(st, at).Success? ==> AllOperands(Drain(st, at).value.nodes)
    decreases |st.ops|
  {
    if |st.ops| > 0 && Top(st.ops) != "(" {
      ProcessOpKeepsOperands(st, at);
      if ProcessOp(st, at).Success? {
        DrainKeepsOperands(ProcessOp(st, at).value, at);
      }
    }
  }

  /** The final reductions empty the operator stack, and fail on any `(`
      left on it. */
  lemma {:induction false} DrainEmpties(st: Stacks, at: string)
    ensures Drain(st, at).Success? ==> Drain(st, at).value.ops == []
    ensures "(" in st.ops ==> Drain(st, at).Failure?
    decreases |st.ops|
  {
    if |st.ops| > 0 && Top(st.ops) != "(" && ProcessOp(st, at).Success? {
      var s1 := ProcessOp(st, at).value;
      DrainEmpties(s1, at);
      assert st.ops == s1.ops + [Top(st.ops)];
    }
  }

  // ---------------------------------------------------------------------
  // Expressions

  /** The main loop keeps both stacks made of operand trees. */
  lemma {:induction false} ExprLoopKeepsOperands(ts: seq<Token>, c: nat, st: Stacks)
    requires c <= |ts| && AllOperands(st.nodes)
    ensures ExprLoop(ts, c, st).Success? ==> AllOperands(ExprLoop(ts, c, st).value.val.nodes)
    decreases |ts| - c
  {
    if ExprStops(ts, c) {
    } else if CheckValue(ts, c, TokenSep, "(") {
      ExprLoopKeepsOperands(ts, c + 1, Stacks(st.nodes, st.ops + ["("]));
    } else if CheckValue(ts, c, TokenSep, ")") {
      var at := Peek(ts, c + 1).value;
      CloseParenKeepsOperands(st, at);
      if CloseParen(st, at).Success? {
        ExprLoopKeepsOperands(ts, c + 1, CloseParen(st, at).value);
      }
    } else if Check(ts, c, TokenOp) {
      var op := Incoming(ts[c].value, st);
      var at := Peek(ts, c + 1).value;
      ReduceWhileKeepsOperands(st, Prec(op), at);
      if ReduceWhile(st, Prec(op), at).Success? {
        var s1 := ReduceWhile(st, Prec(op), at).value;
        ExprLoopKeepsOperands(ts, c + 1, Stacks(s1.nodes, s1.ops + [op]));
      }
    } else if OperandKind(Peek(ts, c).kind).Some? {
      var leaf := Node(OperandKind(ts[c].kind).value, ts[c].value, []);
      assert IsOperand(leaf);
      var nodes := st.nodes + [leaf];
      assert forall i :: 0 <= i < |nodes| ==> nodes[i] == if i < |st.nodes| then st.nodes[i] else leaf;
      ExprLoopKeepsOperands(ts, c + 1, Stacks(nodes, st.ops));
    }
  }

  /** The main loop ends only at one of its stop tokens; a `)` never ends
      it. */
  lemma {:induction false} ExprLoopStops(ts: seq<Token>, c: nat, st: Stacks)
    requires c <= |ts|
    ensures ExprLoop(ts, c, st).Success? ==> ExprStops(ts, ExprLoop(ts, c, st).value.next)
    decreases |ts| - c
  {
    if ExprStops(ts, c) {
    } else if CheckValue(ts, c, TokenSep, "(") {
      ExprLoopStops(ts, c + 1, Stacks(st.nodes, st.ops + ["("]));
    } else if CheckValue(ts, c, TokenSep, ")") {
      var at := Peek(ts, c + 1).value;
      if CloseParen(st, at).Success? {
        ExprLoopStops(ts, c + 1, CloseParen(st, at).value);
      }
    } else if Check(ts, c, TokenOp) {
      var op := Incoming(ts[c].value, st);
      var at := Peek(ts, c + 1).value;
      if ReduceWhile(st, Prec(op), at).Success? {
        var s1 := ReduceWhile(st, Prec(op), at).value;
        ExprLoopStops(ts, c + 1, Stacks(s1.nodes, s1.ops + [op]));
      }
    } else if OperandKind(Peek(ts, c).kind).Some? {
      var leaf := Node(OperandKind(ts[c].kind).value, ts[c].value, []);
      ExprLoopStops(ts, c + 1, Stacks(st.nodes + [leaf], st.ops));
    }
  }

  /** `parseArithmeticExpr` refuses a `;` outright; otherwise a result is
      an `EXPR` node over one operand tree, and the cursor is left on a
      stop token. */
  lemma ArithmeticExprShape(ts: seq<Token>, c: nat)
    requires c <= |ts|
    ensures CheckValue(ts, c, TokenSep, ";") ==> ParseArithmeticExpr(ts, c).Failure?
    ensures ParseArithmeticExpr(ts, c).Success? ==>
              IsExprNode(ParseArithmeticExpr(ts, c).value.val) &&
              ExprStops(ts, ParseArithmeticExpr(ts, c).value.next)
  {
    if !CheckValue(ts, c, TokenSep, ";") {
      ExprLoopStops(ts, c, Stacks([], []));
      ExprLoopKeepsOperands(ts, c, Stacks([], []));
      var loop := ExprLoop(ts, c, Stacks([], []));
      if loop.Success? {
        DrainKeepsOperands(loop.value.val, Peek(ts, loop.value.next).value);
      }
    }
  }

  /** A stop token is never a comparison operator. */
  lemma StopIsNoComparison(ts: seq<Token>, c: nat)
    requires ExprStops(ts, c)
    ensures !AtComparison(ts, c) && !CheckValue(ts, c, TokenSep, ")")
  {
  }

  /** The comparison branch of `parseBoolExpr` is unreachable: the
      arithmetic parser has already taken every comparison operator as a
      binary operator of precedence 3, so `parseBoolExpr` is
      `parseArithmeticExpr` and never builds a `BOOL_EXPR` node. */
  lemma BoolExprIsArithmetic(ts: seq<Token>, c: nat)
    requires c <= |ts|
    ensures ParseBoolExpr(ts, c) == ParseArithmeticExpr(ts, c)
    ensures ParseBoolExpr(ts, c).Success? ==>
              IsExprNode(ParseBoolExpr(ts, c).value.val) && ExprStops(ts, ParseBoolExpr(ts, c).value.next)
  {
    ArithmeticExprShape(ts, c);
    var left := ParseArithmeticExpr(ts, c);
    if left.Success? {
      StopIsNoComparison(ts, left.value.next);
    }
  }

  // ---------------------------------------------------------------------
  // The trees parseArithmeticExpr builds

  /** The leaf the main loop pushes for an operand token. */
  function OperandLeaf(t: Token): Tree
    requires OperandKind(t.kind).Some?
  {
    Node(OperandKind(t.kind).value, t.value, [])
  }

  /** An operand token pushes its leaf on the operand stack. */
  lemma OperandStep(ts: seq<Token>, c: nat, st: Stacks)
    requires c < |ts| && OperandKind(ts[c].kind).Some?
    ensures ExprLoop(ts, c, st) == ExprLoop(ts, c + 1, Stacks(st.nodes + [OperandLeaf(ts[c])], st.ops))
  {
    assert !ExprStops(ts, c) && !Check(ts, c, TokenOp);
  }

  /** An operator token reduces what binds at least as tightly and is
      pushed, as `neg` when it is a `-` with no operand before it. */
  lemma OperatorStep(ts: seq<Token>, c: nat, st: Stacks)
    requires c < |ts| && ts[c].kind == TokenOp
    ensures var op := Incoming(ts[c].value, st);
            var s1 := ReduceWhile(st, Prec(op), Peek(ts, c + 1).value);
            ExprLoop(ts, c, st) ==
              if s1.Success? then ExprLoop(ts, c + 1, Stacks(s1.value.nodes, s1.value.ops + [op]))
              else Failure(s1.error)
  {
    assert !ExprStops(ts, c) && !CheckValue(ts, c, TokenSep, "(") && !CheckValue(ts, c, TokenSep, ")");
  }

  /** A `(` is pushed on the operator stack. */
  lemma OpenParenStep(ts: seq<Token>, c: nat, st: Stacks)
    requires c < |ts| && ts[c] == Token(TokenSep, "(")
    ensures ExprLoop(ts, c, st) == ExprLoop(ts, c + 1, Stacks(st.nodes, st.ops + ["("]))
  {
    assert !ExprStops(ts, c) && CheckValue(ts, c, TokenSep, "(");
  }

  /** A `)` reduces down to its `(`. */
  lemma CloseParenStep(ts: seq<Token>, c: nat, st: Stacks)
    requires c < |ts| && ts[c] == Token(TokenSep, ")")
    ensures var s1 := CloseParen(st, Peek(ts, c + 1).value);
            ExprLoop(ts, c, st) == if s1.Success? then ExprLoop(ts, c + 1, s1.value) else Failure(s1.error)
  {
    assert !ExprStops(ts, c) && !CheckValue(ts, c, TokenSep, "(") && CheckValue(ts, c, TokenSep, ")");
  }

  /** With nothing on the operator stack, no reduction happens. */
  lemma ReduceWhileEmpty(nodes: seq<Tree>, p: int, at: string)
    ensures ReduceWhile(Stacks(nodes, []), p, at) == Success(Stacks(nodes, []))
  {
  }

  /** The tokens `a o1 b o2 d ;`. */
  function TwoOperatorTokens(a: Token, o1: string, b: Token, o2: string, d: Token): seq<Token> {
    [a, Token(TokenOp, o1), b, Token(TokenOp, o2), d, Token(TokenSep, ";")]
  }

  /** Up to `b`, the main loop holds `a` and `b` under `o1`. */
  lemma TwoOperatorsPrefix(a: Token, o1: string, b: Token, o2: string, d: Token)
    requires OperandKind(a.kind).Some? && OperandKind(b.kind).Some?
    ensures var ts := TwoOperatorTokens(a, o1, b, o2, d);
            ExprLoop(ts, 0, Stacks([], [])) == ExprLoop(ts, 3, Stacks([OperandLeaf(a), OperandLeaf(b)], [o1]))
  {
    var ts := TwoOperatorTokens(a, o1, b, o2, d);
    var la := OperandLeaf(a);
    OperandStep(ts, 0, Stacks([], []));
    assert [] + [la] == [la];
    assert Incoming(o1, Stacks([la], [])) == o1;
    ReduceWhileEmpty([la], Prec(o1), b.value);
    OperatorStep(ts, 1, Stacks([la], []));
    assert [] + [o1] == [o1];
    OperandStep(ts, 2, Stacks([la], [o1]));
    assert [la] + [OperandLeaf(b)] == [la, OperandLeaf(b)];
  }

  /** From `o2` on, the main loop reduces `a o1 b` first exactly when `o1`
      binds at least as tightly as `o2`. */
  lemma TwoOperatorsLoop(a: Token, o1: string, b: Token, o2: string, d: Token)
    requires OperandKind(a.kind).Some? && OperandKind(b.kind).Some? && OperandKind(d.kind).Some?
    requires o1 != "(" && !IsUnary(o1)
    ensures var ts := TwoOperatorTokens(a, o1, b, o2, d);
            var la, lb, ld := OperandLeaf(a), OperandLeaf(b), OperandLeaf(d);
            ExprLoop(ts, 3, Stacks([la, lb], [o1])) ==
              Success(Step(if Prec(o1) < Prec(o2) then Stacks([la, lb, ld], [o1, o2])
                           else Stacks([Node(Op, o1, [la, lb]), ld], [o2]), 5))
  {
    var ts := TwoOperatorTokens(a, o1, b, o2, d);
    var la, lb, ld := OperandLeaf(a), OperandLeaf(b), OperandLeaf(d);
    var s3 := Stacks([la, lb], [o1]);
    assert Incoming(o2, s3) == o2;
    OperatorStep(ts, 3, s3);
    var s4 := if Prec(o1) < Prec(o2) then s3 else Stacks([Node(Op, o1, [la, lb])], []);
    assert Top(s3.ops) == o1;
    if Prec(o1) >= Prec(o2) {
      ProcessOpReduces(s3, d.value);
      assert [la, lb][..0] == [] && [la, lb][0..] == [la, lb];
      assert [] + [Node(Op, o1, [la, lb])] == [Node(Op, o1, [la, lb])] && Pop(s3.ops) == [];
      assert ProcessOp(s3, d.value) == Success(s4);
      ReduceWhileEmpty(s4.nodes, Prec(o2), d.value);
    }
    assert ReduceWhile(s3, Prec(o2), d.value) == Success(s4);
    OperandStep(ts, 4, Stacks(s4.nodes, s4.ops + [o2]));
    assert s4.nodes + [ld] == if Prec(o1) < Prec(o2) then [la, lb, ld] else [Node(Op, o1, [la, lb]), ld];
    assert s4.ops + [o2] == if Prec(o1) < Prec(o2) then [o1, o2] else [o2];
    assert ExprStops(ts, 5);
  }

  /** The final reductions of one binary operator over two operands. */
  lemma DrainOneBinary(x: Tree, y: Tree, o: string, at: string)
    requires o != "(" && !IsUnary(o)
    ensures Drain(Stacks([x, y], [o]), at) == Success(Stacks([Node(Op, o, [x, y])], []))
  {
    var st := Stacks([x, y], [o]);
    ProcessOpReduces(st, at);
    assert [x, y][..0] == [] && [x, y][0..] == [x, y];
    assert [] + [Node(Op, o, [x, y])] == [Node(Op, o, [x, y])] && Pop(st.ops) == [];
    assert ProcessOp(st, at) == Success(Stacks([Node(Op, o, [x, y])], []));
  }

  /** The final reductions of two stacked binary operators over three
      operands: the upper one first. */
  lemma DrainTwoBinary(x: Tree, y: Tree, z: Tree, o1: string, o2: string, at: string)
    requires o1 != "(" && o2 != "(" && !IsUnary(o1) && !IsUnary(o2)
    ensures Drain(Stacks([x, y, z], [o1, o2]), at) == Success(Stacks([Node(Op, o1, [x, Node(Op, o2, [y, z])])], []))
  {
    var st := Stacks([x, y, z], [o1, o2]);
    var t := Node(Op, o2, [y, z]);
    ProcessOpReduces(st, at);
    assert st.nodes[..1] == [x] && st.nodes[1..] == [y, z];
    assert [x] + [t] == [x, t] && Pop(st.ops) == [o1];
    assert ProcessOp(st, at) == Success(Stacks([x, t], [o1]));
    DrainOneBinary(x, t, o1, at);
  }

  /** The two binary operators of `a o1 b o2 d ;`: the right one is reduced
      first when it binds more tightly, otherwise the left one is, so
      operators of one precedence associate to the left. */
  lemma TwoBinaryOperators(a: Token, o1: string, b: Token, o2: string, d: Token)
    requires OperandKind(a.kind).Some? && OperandKind(b.kind).Some? && OperandKind(d.kind).Some?
    requires o1 != "(" && o2 != "(" && !IsUnary(o1) && !IsUnary(o2)
    ensures var la, lb, ld := OperandLeaf(a), OperandLeaf(b), OperandLeaf(d);
            ParseArithmeticExpr(TwoOperatorTokens(a, o1, b, o2, d), 0) ==
              Success(Step(Node(Expr, "", [if Prec(o1) < Prec(o2) then Node(Op, o1, [la, Node(Op, o2, [lb, ld])])
                                           else Node(Op, o2, [Node(Op, o1, [la, lb]), ld])]), 5))
  {
    var ts := TwoOperatorTokens(a, o1, b, o2, d);
    var la, lb, ld := OperandLeaf(a), OperandLeaf(b), OperandLeaf(d);
    TwoOperatorsPrefix(a, o1, b, o2, d);
    TwoOperatorsLoop(a, o1, b, o2, d);
    assert !CheckValue(ts, 0, TokenSep, ";") && Peek(ts, 5).value == ";";
    if Prec(o1) < Prec(o2) {
      DrainTwoBinary(la, lb, ld, o1, o2, ";");
    } else {
      DrainOneBinary(Node(Op, o1, [la, lb]), ld, o2, ";");
    }
  }

  /** `x + y * z ;` is `x + (y * z)`: a product binds more tightly than a
      sum. */
  lemma ProductBindsTighter(x: string, y: string, z: string)
    ensures ParseArithmeticExpr([Token(TokenNum, x), Token(TokenOp, "+"), Token(TokenNum, y), Token(TokenOp, "*"),
                                 Token(TokenNum, z), Token(TokenSep, ";")], 0) ==
              Success(Step(Node(Expr, "", [Node(Op, "+", [Node(Num, x, []),
                                                         Node(Op, "*", [Node(Num, y, []), Node(Num, z, [])])])]), 5))
  {
    var plus, times := "+", "*";
    assert Prec(plus) == 4 && Prec(times) == 5 && !IsUnary(plus) && !IsUnary(times);
    TwoBinaryOperators(Token(TokenNum, x), plus, Token(TokenNum, y), times, Token(TokenNum, z));
  }

  /** `x - y - z ;` is `(x - y) - z`: subtraction associates to the left. */
  lemma SubtractionIsLeftAssociative(x: string, y: string, z: string)
    ensures ParseArithmeticExpr([Token(TokenNum, x), Token(TokenOp, "-"), Token(TokenNum, y), Token(TokenOp, "-"),
                                 Token(TokenNum, z), Token(TokenSep, ";")], 0) ==
              Success(Step(Node(Expr, "", [Node(Op, "-", [Node(Op, "-", [Node(Num, x, []), Node(Num, y, [])]),
                                                         Node(Num, z, [])])]), 5))
  {
    var minus := "-";
    assert !IsUnary(minus);
    TwoBinaryOperators(Token(TokenNum, x), minus, Token(TokenNum, y), minus, Token(TokenNum, z));
  }

  /** A leading `-` is pushed as `neg`, which `processOp` reduces as a
      binary operator of precedence 0: `- a ;` fails for want of a second
      operand, while `- a b ;` is accepted as `neg(a, b)`. */
  lemma {:induction false} NegIsBinary(a: Token, b: Token)
    requires OperandKind(a.kind).Some? && OperandKind(b.kind).Some?
    ensures ParseArithmeticExpr([Token(TokenOp, "-"), a, Token(TokenSep, ";")], 0) ==
              Failure(SyntaxError("Missing operands for binary operator", ";"))
    ensures ParseArithmeticExpr([Token(TokenOp, "-"), a, b, Token(TokenSep, ";")], 0) ==
              Success(Step(Node(Expr, "", [Node(Op, "neg", [OperandLeaf(a), OperandLeaf(b)])]), 3))
  {
    var la, lb := OperandLeaf(a), OperandLeaf(b);
    var ts1 := [Token(TokenOp, "-"), a, Token(TokenSep, ";")];
    assert Incoming("-", Stacks([], [])) == "neg";
    ReduceWhileEmpty([], Prec("neg"), a.value);
    OperatorStep(ts1, 0, Stacks([], []));
    assert [] + ["neg"] == ["neg"];
    OperandStep(ts1, 1, Stacks([], ["neg"]));
    assert [] + [la] == [la];
    assert ExprStops(ts1, 2);
    assert ProcessOp(Stacks([la], ["neg"]), ";").Failure?;
    var ts2 := [Token(TokenOp, "-"), a, b, Token(TokenSep, ";")];
    OperatorStep(ts2, 0, Stacks([], []));
    OperandStep(ts2, 1, Stacks([], ["neg"]));
    assert [] + [la] == [la];
    OperandStep(ts2, 2, Stacks([la], ["neg"]));
    assert [la] + [lb] == [la, lb];
    assert ExprStops(ts2, 3);
    DrainOneBinary(la, lb, "neg", ";");
  }

  /** An expression that starts on a stop token other than `;` is empty. */
  lemma EmptyExpression(ts: seq<Token>, c: nat)
    requires c <= |ts| && ExprStops(ts, c) && !CheckValue(ts, c, TokenSep, ";")
    ensures ParseArithmeticExpr(ts, c) == Failure(SyntaxError("Empty expression", Peek(ts, c).value))
  {
    assert ExprLoop(ts, c, Stacks([], [])) == Success(Step(Stacks([], []), c));
  }

  /** `( )` before a stop token leaves no operand once the parentheses are
      matched: it is an empty expression. */
  lemma EmptyParentheses(ts: seq<Token>, c: nat)
    requires c + 2 <= |ts| && ts[c] == Token(TokenSep, "(") && ts[c + 1] == Token(TokenSep, ")") && ExprStops(ts, c + 2)
    ensures ParseArithmeticExpr(ts, c) == Failure(SyntaxError("Empty expression", Peek(ts, c + 2).value))
  {
    EmptyGroupLoop(ts, c);
    assert !CheckValue(ts, c, TokenSep, ";");
    assert Drain(Stacks([], []), Peek(ts, c + 2).value) == Success(Stacks([], []));
  }

  /** The main loop over `( )` ends with both stacks empty. */
  lemma EmptyGroupLoop(ts: seq<Token>, c: nat)
    requires c + 2 <= |ts| && ts[c] == Token(TokenSep, "(") && ts[c + 1] == Token(TokenSep, ")") && ExprStops(ts, c + 2)
    ensures ExprLoop(ts, c, Stacks([], [])) == Success(Step(Stacks([], []), c + 2))
  {
    var empty, open := Stacks([], []), Stacks([], ["("]);
    assert ExprLoop(ts, c, empty) == ExprLoop(ts, c + 1, open) by {
      OpenParenStep(ts, c, empty);
      assert empty.ops + ["("] == ["("];
    }
    assert ExprLoop(ts, c + 1, open) == ExprLoop(ts, c + 2, empty) by {
      assert CloseParen(open, Peek(ts, c + 2).value) == Success(empty);
      CloseParenStep(ts, c + 1, open);
    }
    assert ExprLoop(ts, c + 2, empty) == Success(Step(empty, c + 2));
  }

  /** Two operands with no operator between them leave two trees on the
      stack: `a b ;` is a malformed expression. */
  lemma {:induction false} JuxtaposedOperands(a: Token, b: Token)
    requires OperandKind(a.kind).Some? && OperandKind(b.kind).Some?
    ensures ParseArithmeticExpr([a, b, Token(TokenSep, ";")], 0) == Failure(SyntaxError("Malformed expression", ";"))
  {
    var ts := [a, b, Token(TokenSep, ";")];
    OperandStep(ts, 0, Stacks([], []));
    OperandStep(ts, 1, Stacks([OperandLeaf(a)], []));
    assert ExprStops(ts, 2);
  }

  /** A token that is no stop token, no parenthesis, no operator and no
      operand (a keyword other than `then`, `do` and `else`, a separator
      other than those the loop knows, an error token with text) ends the
      main loop with an error, whatever is on the stacks. */
  lemma NotAnOperand(ts: seq<Token>, c: nat, st: Stacks)
    requires c < |ts| && !ExprStops(ts, c) && ts[c].kind != TokenOp && OperandKind(ts[c].kind).None?
    requires ts[c] != Token(TokenSep, "(") && ts[c] != Token(TokenSep, ")")
    ensures ExprLoop(ts, c, st) == Failure(SyntaxError("Expected operand in expression", ts[c].value))
    ensures ParseArithmeticExpr(ts, c) == Failure(SyntaxError("Expected operand in expression", ts[c].value))
  {
  }

  /** One operand before a stop token is an `EXPR` over its leaf. */
  lemma SingleOperand(ts: seq<Token>, c: nat)
    requires c < |ts| && OperandKind(ts[c].kind).Some? && ExprStops(ts, c + 1)
    ensures ParseArithmeticExpr(ts, c) == Success(Step(Node(Expr, "", [OperandLeaf(ts[c])]), c + 1))
  {
    OperandStep(ts, c, Stacks([], []));
    assert [] + [OperandLeaf(ts[c])] == [OperandLeaf(ts[c])];
  }

  /** The tokens `( a o1 b ) o2 d ;`. */
  function GroupTokens(a: Token, o1: string, b: Token, o2: string, d: Token): seq<Token> {
    [Token(TokenSep, "("), a, Token(TokenOp, o1), b, Token(TokenSep, ")"), Token(TokenOp, o2), d, Token(TokenSep, ";")]
  }

  /** Up to `)`, the main loop holds `a` and `b` under `(` and the operator
      pushed for `o1`, which is `neg` for a `-` since `(` is on top. */
  lemma GroupPrefix(a: Token, o1: string, b: Token, o2: string, d: Token)
    requires OperandKind(a.kind).Some? && OperandKind(b.kind).Some?
    ensures var ts := GroupTokens(a, o1, b, o2, d);
            var op1 := if o1 == "-" then "neg" else o1;
            ExprLoop(ts, 0, Stacks([], [])) == ExprLoop(ts, 4, Stacks([OperandLeaf(a), OperandLeaf(b)], ["(", op1]))
  {
    GroupOpen(a, o1, b, o2, d);
    GroupInner(a, o1, b, o2, d);
  }

  /** `( a` leaves `a` under `(`. */
  lemma GroupOpen(a: Token, o1: string, b: Token, o2: string, d: Token)
    requires OperandKind(a.kind).Some?
    ensures var ts := GroupTokens(a, o1, b, o2, d);
            ExprLoop(ts, 0, Stacks([], [])) == ExprLoop(ts, 2, Stacks([OperandLeaf(a)], ["("]))
  {
    var ts := GroupTokens(a, o1, b, o2, d);
    var la := OperandLeaf(a);
    var s1 := Stacks([], ["("]);
    assert ExprLoop(ts, 0, Stacks([], [])) == ExprLoop(ts, 1, s1) by {
      OpenParenStep(ts, 0, Stacks([], []));
      assert [] + ["("] == ["("];
    }
    OperandStep(ts, 1, s1);
    assert [] + [la] == [la];
  }

  /** Then `o1 b` pushes the operator for `o1` without reducing, and `b`. */
  lemma GroupInner(a: Token, o1: string, b: Token, o2: string, d: Token)
    requires OperandKind(a.kind).Some? && OperandKind(b.kind).Some?
    ensures var ts := GroupTokens(a, o1, b, o2, d);
            var op1 := if o1 == "-" then "neg" else o1;
            ExprLoop(ts, 2, Stacks([OperandLeaf(a)], ["("])) ==
              ExprLoop(ts, 4, Stacks([OperandLeaf(a), OperandLeaf(b)], ["(", op1]))
  {
    var ts := GroupTokens(a, o1, b, o2, d);
    var la, lb := OperandLeaf(a), OperandLeaf(b);
    var op1 := if o1 == "-" then "neg" else o1;
    var s2, s3 := Stacks([la], ["("]), Stacks([la], ["(", op1]);
    assert ExprLoop(ts, 2, s2) == ExprLoop(ts, 3, s3) by {
      assert Incoming(o1, s2) == op1;
      assert ReduceWhile(s2, Prec(op1), b.value) == Success(s2);
      OperatorStep(ts, 2, s2);
      assert ["("] + [op1] == ["(", op1];
    }
    OperandStep(ts, 3, s3);
    assert [la] + [lb] == [la, lb];
  }

  /** A `)` over one binary operator and its two operands reduces them to
      one tree and drops the `(`. */
  lemma CloseOneBinary(x: Tree, y: Tree, o: string, at: string)
    requires o != "(" && !IsUnary(o)
    ensures CloseParen(Stacks([x, y], ["(", o]), at) == Success(Stacks([Node(Op, o, [x, y])], []))
  {
    var st := Stacks([x, y], ["(", o]);
    var t := Node(Op, o, [x, y]);
    ProcessOpReduces(st, at);
    assert [x, y][..0] == [] && [x, y][0..] == [x, y];
    assert [] + [t] == [t] && Pop(st.ops) == ["("];
    assert ProcessOp(st, at) == Success(Stacks([t], ["("]));
    assert CloseParen(Stacks([t], ["("]), at) == Success(Stacks([t], []));
  }

  /** From `)` on: the group is reduced to one tree, then `o2 d` follows. */
  lemma GroupRest(a: Token, o1: string, b: Token, o2: string, d: Token)
    requires OperandKind(a.kind).Some? && OperandKind(b.kind).Some? && OperandKind(d.kind).Some?
    requires o1 != "(" && !IsUnary(o1)
    ensures var ts := GroupTokens(a, o1, b, o2, d);
            var op1 := if o1 == "-" then "neg" else o1;
            var t := Node(Op, op1, [OperandLeaf(a), OperandLeaf(b)]);
            ExprLoop(ts, 4, Stacks([OperandLeaf(a), OperandLeaf(b)], ["(", op1])) ==
              Success(Step(Stacks([t, OperandLeaf(d)], [o2]), 7))
  {
    var ts := GroupTokens(a, o1, b, o2, d);
    var la, lb, ld := OperandLeaf(a), OperandLeaf(b), OperandLeaf(d);
    var op1 := if o1 == "-" then "neg" else o1;
    var t := Node(Op, op1, [la, lb]);
    var s4 := Stacks([la, lb], ["(", op1]);
    assert ExprLoop(ts, 4, s4) == ExprLoop(ts, 5, Stacks([t], [])) by {
      CloseOneBinary(la, lb, op1, o2);
      CloseParenStep(ts, 4, s4);
    }
    assert ExprLoop(ts, 5, Stacks([t], [])) == ExprLoop(ts, 6, Stacks([t], [o2])) by {
      assert Incoming(o2, Stacks([t], [])) == o2;
      ReduceWhileEmpty([t], Prec(o2), d.value);
      OperatorStep(ts, 5, Stacks([t], []));
      assert [] + [o2] == [o2];
    }
    assert ExprLoop(ts, 6, Stacks([t], [o2])) == Success(Step(Stacks([t, ld], [o2]), 7)) by {
      OperandStep(ts, 6, Stacks([t], [o2]));
      assert [t] + [ld] == [t, ld];
      assert ExprStops(ts, 7);
    }
  }

  /** Parentheses group first whatever the precedences: `( a o1 b ) o2 d ;`
      reduces `o1` inside the group before `o2`. A `-` right after the
      group's first operand is still pushed as `neg`, because `(` is on top
      of the operator stack then. */
  lemma ParenthesesGroupFirst(a: Token, o1: string, b: Token, o2: string, d: Token)
    requires OperandKind(a.kind).Some? && OperandKind(b.kind).Some? && OperandKind(d.kind).Some?
    requires o1 != "(" && o2 != "(" && !IsUnary(o1) && !IsUnary(o2)
    ensures var op1 := if o1 == "-" then "neg" else o1;
            ParseArithmeticExpr(GroupTokens(a, o1, b, o2, d), 0) ==
              Success(Step(Node(Expr, "", [Node(Op, o2, [Node(Op, op1, [OperandLeaf(a), OperandLeaf(b)]),
                                                         OperandLeaf(d)])]), 7))
  {
    var ts := GroupTokens(a, o1, b, o2, d);
    var op1 := if o1 == "-" then "neg" else o1;
    GroupPrefix(a, o1, b, o2, d);
    GroupRest(a, o1, b, o2, d);
    assert !CheckValue(ts, 0, TokenSep, ";") && Peek(ts, 7).value == ";";
    DrainOneBinary(Node(Op, op1, [OperandLeaf(a), OperandLeaf(b)]), OperandLeaf(d), o2, ";");
  }

  /** `( x + y ) * z ;` is `(x + y) * z`: the parentheses override the
      higher precedence of `*`. */
  lemma ParenthesisedSum(x: string, y: string, z: string)
    ensures ParseArithmeticExpr([Token(TokenSep, "("), Token(TokenNum, x), Token(TokenOp, "+"), Token(TokenNum, y),
                                 Token(TokenSep, ")"), Token(TokenOp, "*"), Token(TokenNum, z), Token(TokenSep, ";")], 0) ==
              Success(Step(Node(Expr, "", [Node(Op, "*", [Node(Op, "+", [Node(Num, x, []), Node(Num, y, [])]),
                                                         Node(Num, z, [])])]), 7))
  {
    var plus, times := "+", "*";
    assert !IsUnary(plus) && !IsUnary(times) && plus != "-";
    ParenthesesGroupFirst(Token(TokenNum, x), plus, Token(TokenNum, y), times, Token(TokenNum, z));
  }

  // ---------------------------------------------------------------------
  // Declarations

  /** An initializer is present exactly when the lookahead is `=`, and is
      then one expression. */
  lemma InitializerShape(ts: seq<Token>, c: nat, ty: string)
    requires c <= |ts|
    ensures var r := Initializer(ts, c, ty);
            r.Success? ==>
              (r.value.val == [] && r.value.next == c && !CheckValue(ts, c, TokenOp, "=")) ||
              (|r.value.val| == 1 && IsExprNode(r.value.val[0]) && CheckValue(ts, c, TokenOp, "="))
  {
    if CheckValue(ts, c, TokenOp, "=") {
      BoolExprIsArithmetic(ts, c + 1);
      ArithmeticExprShape(ts, c + 1);
    }
  }

  /** The declared type does not change what an initializer accepts:
      `parseBoolExpr` parses exactly what `parseArithmeticExpr` does. */
  lemma InitializerIgnoresType(ts: seq<Token>, c: nat, ty: string)
    requires c <= |ts|
    ensures Initializer(ts, c, ty) == Initializer(ts, c, "int")
  {
    if CheckValue(ts, c, TokenOp, "=") {
      BoolExprIsArithmetic(ts, c + 1);
    }
  }

  /** A declarator is the identifier leaf of the name at `c`, then its
      initializer if any. */
  lemma DeclaratorShape(ts: seq<Token>, c: nat, ty: string, lenient: bool)
    requires c <= |ts|
    ensures Declarator(ts, c, ty, lenient).Success? ==>
              IsDeclarator(Declarator(ts, c, ty, lenient).value.val) &&
              ts[c].kind == TokenId && Declarator(ts, c, ty, lenient).value.val[0] == Node(Id, ts[c].value, [])
  {
    if Check(ts, c, TokenId) {
      var c1 := Consume(ts, c, TokenId, if lenient then "Expected variable name in declaration" else "Expected variable name").Extract();
      InitializerShape(ts, c1, ty);
    }
  }

  /** Appending a declarator keeps a declarator list well formed and
      leaves its front alone. */
  lemma AppendDeclarator(acc: seq<Tree>, d: seq<Tree>)
    requires IsDeclarators(acc) && IsDeclarator(d)
    ensures IsDeclarators(acc + d)
    ensures (acc + d)[..|acc|] == acc
  {
    var r := acc + d;
    if |d| == 2 {
      assert r[..|r| - 2] == acc && r[|r| - 2] == d[0] && Top(r) == d[1];
    } else {
      assert Pop(r) == acc && Top(r) == d[0];
    }
  }

  lemma PrefixTrans<T>(a: seq<T>, b: seq<T>, c: seq<T>)
    requires a <= b && b <= c
    ensures a <= c
  {
    assert forall i :: 0 <= i < |a| ==> a[i] == b[i] == c[i];
  }

  /** The declarator loop only appends to its list; a declaration outside
      `parseDecls` has at least one declarator. */
  lemma {:induction false} DeclaratorsExtend(ts: seq<Token>, c: nat, ty: string, acc: seq<Tree>, lenient: bool)
    requires c <= |ts|
    ensures var r := Declarators(ts, c, ty, acc, lenient);
            r.Success? ==> acc <= r.value.val && (!lenient ==> |r.value.val| > |acc|)
    decreases |ts| - c, 1
  {
    if !(lenient && CheckValue(ts, c, TokenSep, ";")) && Declarator(ts, c, ty, lenient).Success? {
      var d := Declarator(ts, c, ty, lenient).Extract();
      DeclaratorShape(ts, c, ty, lenient);
      MoreDeclaratorsExtend(ts, d.next, ty, acc + d.val, lenient);
      var r := Declarators(ts, c, ty, acc, lenient);
      if r.Success? {
        PrefixTrans(acc, acc + d.val, r.value.val);
      }
    }
  }

  lemma {:induction false} MoreDeclaratorsExtend(ts: seq<Token>, c: nat, ty: string, acc: seq<Tree>, lenient: bool)
    requires c <= |ts|
    ensures var r := MoreDeclarators(ts, c, ty, acc, lenient);
            r.Success? ==> acc <= r.value.val
    decreases |ts| - c, 0
  {
    if CheckValue(ts, c, TokenSep, ",") {
      DeclaratorsExtend(ts, c + 1, ty, acc, lenient);
    }
  }

  /** The declarator loop builds a well-formed declarator list. */
  lemma {:induction false} DeclaratorsShape(ts: seq<Token>, c: nat, ty: string, acc: seq<Tree>, lenient: bool)
    requires c <= |ts| && IsDeclarators(acc)
    ensures var r := Declarators(ts, c, ty, acc, lenient);
            r.Success? ==> IsDeclarators(r.value.val)
    decreases |ts| - c, 1
  {
    var r := Declarators(ts, c, ty, acc, lenient);
    if lenient && CheckValue(ts, c, TokenSep, ";") {
      assert r.value.val == acc;
    } else if Declarator(ts, c, ty, lenient).Success? {
      var d := Declarator(ts, c, ty, lenient).Extract();
      assert r == MoreDeclarators(ts, d.next, ty, acc + d.val, lenient);
      DeclaratorShape(ts, c, ty, lenient);
      AppendDeclarator(acc, d.val);
      MoreDeclaratorsShape(ts, d.next, ty, acc + d.val, lenient);
    } else {
      assert r.Failure?;
    }
  }

  lemma {:induction false} MoreDeclaratorsShape(ts: seq<Token>, c: nat, ty: string, acc: seq<Tree>, lenient: bool)
    requires c <= |ts| && IsDeclarators(acc)
    ensures var r := MoreDeclarators(ts, c, ty, acc, lenient);
            r.Success? ==> IsDeclarators(r.value.val)
    decreases |ts| - c, 0
  {
    if CheckValue(ts, c, TokenSep, ",") {
      DeclaratorsShape(ts, c + 1, ty, acc, lenient);
    }
  }

  /** A declaration needs its type keyword; it builds a `LIST` node of the
      `TYPE` leaf and the declarators, and ends after a `;`. */
  lemma ParseDeclShape(ts: seq<Token>, c: nat, lenient: bool)
    requires c <= |ts|
    ensures TypeKeyword(ts, c) == "" ==> ParseDecl(ts, c, lenient).Failure?
    ensures var r := ParseDecl(ts, c, lenient);
            r.Success? ==>
              IsDeclNode(r.value.val) && r.value.val.children[0].value == TypeKeyword(ts, c) &&
              ts[r.value.next - 1] == Token(TokenSep, ";")
  {
    var ty := TypeKeyword(ts, c);
    if ty != "" {
      DeclaratorsShape(ts, c + 1, ty, [], lenient);
      var items := Declarators(ts, c + 1, ty, [], lenient);
      if items.Success? {
        var node := Node(List, "", [Node(TypeName, ty, [])] + items.value.val);
        assert node.children[1..] == items.value.val;
      }
    }
  }

  /** Declarators without initializers, `id , id , ... , id`, followed by
      neither `=` nor `,`, are read as exactly the leaves they spell, in
      order. */
  lemma {:induction false} DeclaratorsAccepts(ts: seq<Token>, c: nat, e: nat, ids: seq<Tree>, ty: string, acc: seq<Tree>, lenient: bool)
    requires SpellsIds(ts, c, e, ids)
    requires !CheckValue(ts, e, TokenOp, "=") && !CheckValue(ts, e, TokenSep, ",")
    ensures Declarators(ts, c, ty, acc, lenient) == Success(Step(acc + ids, e))
    decreases ids
  {
    assert !CheckValue(ts, c, TokenSep, ";");
    assert Initializer(ts, c + 1, ty) == Success(Step([], c + 1));
    DeclaratorAfterName(ts, c, ty, lenient);
    assert [ids[0]] + [] == [ids[0]];
    assert Declarator(ts, c, ty, lenient) == Success(Step([ids[0]], c + 1));
    if |ids| == 1 {
      assert acc + ids == acc + [ids[0]];
    } else {
      DeclaratorsAccepts(ts, c + 2, e, ids[1..], ty, acc + [ids[0]], lenient);
      assert (acc + [ids[0]]) + ids[1..] == acc + ids;
    }
  }

  /** Conversely to ParseDeclShape, `type id , ... , id ;` is read as the
      `LIST` of the type leaf and exactly those identifier leaves, in order. */
  lemma ParseDeclAccepts(ts: seq<Token>, c: nat, e: nat, ids: seq<Tree>, lenient: bool)
    requires c <= |ts| && TypeKeyword(ts, c) != ""
    requires SpellsIds(ts, c + 1, e, ids) && e < |ts| && ts[e] == Token(TokenSep, ";")
    ensures ParseDecl(ts, c, lenient) ==
            Success(Step(Node(List, "", [Node(TypeName, TypeKeyword(ts, c), [])] + ids), e + 1))
  {
    var ty := TypeKeyword(ts, c);
    assert Declarators(ts, c + 1, ty, [], lenient) == Success(Step(ids, e)) by {
      DeclaratorsAccepts(ts, c + 1, e, ids, ty, [], lenient);
      assert [] + ids == ids;
    }
    assert ConsumeValue(ts, e, TokenSep, ";", "Expected ';' after declaration") == Success(e + 1);
  }

  /** A name followed by `=` is a declarator with the expression after `=`
      as its initializer, for every declared type. */
  lemma DeclaratorWithInitializer(ts: seq<Token>, c: nat, ty: string, lenient: bool)
    requires c + 2 <= |ts| && ts[c].kind == TokenId && ts[c + 1] == Token(TokenOp, "=")
    ensures Declarator(ts, c, ty, lenient) ==
            match ParseArithmeticExpr(ts, c + 2)
            case Failure(err) => Failure(err)
            case Success(x) => Success(Step([Node(Id, ts[c].value, []), x.val], x.next))
  {
    BoolExprIsArithmetic(ts, c + 2);
    assert CheckValue(ts, c + 1, TokenOp, "=");
    DeclaratorAfterName(ts, c, ty, lenient);
    var x := ParseArithmeticExpr(ts, c + 2);
    if x.Success? {
      assert Initializer(ts, c + 1, ty) == Success(Step([x.value.val], x.value.next));
      assert [Node(Id, ts[c].value, [])] + [x.value.val] == [Node(Id, ts[c].value, []), x.value.val];
    }
  }

  /** `int a , b = x ;` is `LIST[TYPE int, ID a, ID b, EXPR(NUM x)]`: the
      initializer follows the identifier it belongs to. */
  lemma DeclarationWithInitializer(a: string, b: string, x: string, lenient: bool)
    ensures ParseDecl([Token(TokenKeyword, "int"), Token(TokenId, a), Token(TokenSep, ","), Token(TokenId, b),
                       Token(TokenOp, "="), Token(TokenNum, x), Token(TokenSep, ";")], 0, lenient) ==
            Success(Step(Node(List, "", [Node(TypeName, "int", []), Node(Id, a, []), Node(Id, b, []),
                                         Node(Expr, "", [Node(Num, x, [])])]), 7))
  {
    var ts := [Token(TokenKeyword, "int"), Token(TokenId, a), Token(TokenSep, ","), Token(TokenId, b),
               Token(TokenOp, "="), Token(TokenNum, x), Token(TokenSep, ";")];
    var la, lb, ex := Node(Id, a, []), Node(Id, b, []), Node(Expr, "", [Node(Num, x, [])]);
    SecondDeclaratorInitialized(a, b, x, lenient);
    assert Declarator(ts, 1, "int", lenient) == Success(Step([la], 2)) by {
      assert Initializer(ts, 2, "int") == Success(Step([], 2));
      DeclaratorAfterName(ts, 1, "int", lenient);
      assert [la] + [] == [la];
    }
    assert Declarators(ts, 1, "int", [], lenient) == Success(Step([la, lb, ex], 6)) by {
      assert [] + [la] == [la];
    }
    assert TypeKeyword(ts, 0) == "int";
    assert [Node(TypeName, "int", [])] + [la, lb, ex] == [Node(TypeName, "int", []), la, lb, ex];
  }

  /** The declarator `b = x ;` after `int a ,` closes the declarator list. */
  lemma SecondDeclaratorInitialized(a: string, b: string, x: string, lenient: bool)
    ensures var ts := [Token(TokenKeyword, "int"), Token(TokenId, a), Token(TokenSep, ","), Token(TokenId, b),
                       Token(TokenOp, "="), Token(TokenNum, x), Token(TokenSep, ";")];
            Declarators(ts, 3, "int", [Node(Id, a, [])], lenient) ==
              Success(Step([Node(Id, a, []), Node(Id, b, []), Node(Expr, "", [Node(Num, x, [])])], 6))
  {
    var ts := [Token(TokenKeyword, "int"), Token(TokenId, a), Token(TokenSep, ","), Token(TokenId, b),
               Token(TokenOp, "="), Token(TokenNum, x), Token(TokenSep, ";")];
    var la, lb, ex := Node(Id, a, []), Node(Id, b, []), Node(Expr, "", [Node(Num, x, [])]);
    assert Declarator(ts, 3, "int", lenient) == Success(Step([lb, ex], 6)) by {
      SingleOperand(ts, 5);
      DeclaratorWithInitializer(ts, 3, "int", lenient);
    }
    assert MoreDeclarators(ts, 6, "int", [la] + [lb, ex], lenient) == Success(Step([la] + [lb, ex], 6));
    assert [la] + [lb, ex] == [la, lb, ex];
  }

  /** The loop of `parseDecls` collects `LIST` nodes. */
  lemma {:induction false} DeclsLoopShape(ts: seq<Token>, c: nat, acc: seq<Tree>)
    requires c <= |ts|
    requires forall i :: 0 <= i < |acc| ==> IsDeclNode(acc[i])
    ensures var r := DeclsLoop(ts, c, acc);
            r.Success? ==> forall i :: 0 <= i < |r.value.val| ==> IsDeclNode(r.value.val[i])
    decreases |ts| - c
  {
    if !IsAtEnd(ts, c) && TypeKeyword(ts, c) != "" {
      ParseDeclShape(ts, c, true);
      var d := ParseDecl(ts, c, true);
      if d.Success? {
        DeclsLoopShape(ts, d.value.next, acc + [d.value.val]);
      }
    }
  }

  /** `parseDecls` builds a `DECLS` node of `LIST` nodes and stops where no
      type keyword follows. */
  lemma ParseDeclsShape(ts: seq<Token>, c: nat)
    requires c <= |ts|
    ensures var r := ParseDecls(ts, c);
            r.Success? ==>
              r.value.val.Node? && r.value.val.kind == Decls &&
              (forall i :: 0 <= i < |r.value.val.children| ==> IsDeclNode(r.value.val.children[i])) &&
              TypeKeyword(ts, r.value.next) == ""
  {
    DeclsLoopShape(ts, c, []);
    if ParseDecls(ts, c).Success? {
      var d := DeclsLoop(ts, c, []).Extract();
      assert ParseDecls(ts, c).value.val.children == d.val;
    }
  }

  // ---------------------------------------------------------------------
  // Assignments, read and write

  /** After the identifier comes an operator token; `++` and `--` stand
      alone, any other operator is followed by one expression. */
  lemma AssignOperatorShape(ts: seq<Token>, c: nat)
    requires c <= |ts|
    ensures var r := AssignOperator(ts, c);
            r.Success? ==>
              ts[c].kind == TokenOp &&
              (IsIncDec(ts[c].value) ==> r.value.val == [] && r.value.next == c + 1) &&
              (!IsIncDec(ts[c].value) ==>
                 |r.value.val| == 1 && IsExprNode(r.value.val[0]) && ExprStops(ts, r.value.next))
  {
    if c < |ts| && ts[c].kind == TokenOp && !IsIncDec(ts[c].value) {
      BoolExprIsArithmetic(ts, c + 1);
      ArithmeticExprShape(ts, c + 1);
    }
  }

  /** An assignment is an `ASSIGN` node labelled with the operator token,
      over the target leaf and the right-hand side; outside a `for` header
      it ends after a `;`. */
  lemma ParseAssignShape(ts: seq<Token>, c: nat, inForLoop: bool)
    requires c <= |ts|
    ensures var r := ParseAssign(ts, c, inForLoop);
            r.Success? ==>
              IsAssignNode(r.value.val) && c + 2 <= r.value.next &&
              ts[c].kind == TokenId && r.value.val.children[0] == Node(Id, ts[c].value, []) &&
              ts[c + 1].kind == TokenOp && r.value.val.value == ts[c + 1].value
    ensures var r := ParseAssign(ts, c, inForLoop);
            r.Success? && !inForLoop ==> ts[r.value.next - 1] == Token(TokenSep, ";")
    ensures var r := ParseAssign(ts, c, inForLoop);
            r.Success? && inForLoop ==>
              (IsIncDec(r.value.val.value) ==> r.value.next == c + 2) &&
              (!IsIncDec(r.value.val.value) ==> ExprStops(ts, r.value.next))
  {
    if Check(ts, c, TokenId) {
      var c1 := Consume(ts, c, TokenId, "Expected identifier in assignment").Extract();
      AssignOperatorShape(ts, c1);
      var rhs := AssignOperator(ts, c1);
      if rhs.Success? {
        var node := Node(Assign, ts[c + 1].value, [Node(Id, ts[c].value, [])] + rhs.value.val);
        assert node.children[0] == Node(Id, ts[c].value, []);
        assert |rhs.value.val| == 1 ==> node.children[1] == rhs.value.val[0];
        assert IsAssignNode(node);
      }
    }
  }

  /** The tokens `ts[lo..hi]` are exactly `id , id , ... , id`, spelling
      the identifier leaves `ids` in order: one `TOKEN_ID` per leaf and a
      `,` between two. */
  predicate SpellsIds(ts: seq<Token>, lo: nat, hi: nat, ids: seq<Tree>)
    decreases ids
  {
    |ids| >= 1 && lo < hi <= |ts| && ts[lo].kind == TokenId && ids[0] == Node(Id, ts[lo].value, []) &&
    if |ids| == 1 then hi == lo + 1
    else lo + 2 < hi && ts[lo + 1] == Token(TokenSep, ",") && SpellsIds(ts, lo + 2, hi, ids[1..])
  }

  /** A spelled list has one token per leaf and one `,` between two, and
      its leaves are identifier leaves. */
  lemma {:induction false} SpellsIdsLength(ts: seq<Token>, lo: nat, hi: nat, ids: seq<Tree>)
    requires SpellsIds(ts, lo, hi, ids)
    ensures hi - lo == 2 * |ids| - 1
    ensures forall i :: 0 <= i < |ids| ==> IsIdLeaf(ids[i])
    decreases ids
  {
    if |ids| > 1 {
      SpellsIdsLength(ts, lo + 2, hi, ids[1..]);
      assert forall i :: 1 <= i < |ids| ==> ids[i] == ids[1..][i - 1];
    }
  }

  /** The identifier list reads `id , id , ... , id` from `c`, appends the
      leaves it spells to `acc` and leaves the cursor after the last
      identifier, where no `,` follows. */
  lemma {:induction false} IdListShape(ts: seq<Token>, c: nat, acc: seq<Tree>, message: string)
    requires c <= |ts|
    requires forall i :: 0 <= i < |acc| ==> IsIdLeaf(acc[i])
    ensures var r := IdList(ts, c, acc, message);
            r.Success? ==>
              |r.value.val| > |acc| && r.value.val[..|acc|] == acc &&
              SpellsIds(ts, c, r.value.next, r.value.val[|acc|..]) &&
              r.value.next == c + 2 * (|r.value.val| - |acc|) - 1 &&
              (forall i :: 0 <= i < |r.value.val| ==> IsIdLeaf(r.value.val[i])) &&
              !CheckValue(ts, r.value.next, TokenSep, ",")
    decreases |ts| - c
  {
    var r := IdList(ts, c, acc, message);
    if Check(ts, c, TokenId) {
      var leaf := Node(Id, ts[c].value, []);
      var items := acc + [leaf];
      if CheckValue(ts, c + 1, TokenSep, ",") {
        assert r == IdList(ts, c + 2, items, message);
        IdListShape(ts, c + 2, items, message);
        if r.Success? {
          var v := r.value.val;
          assert v[..|acc|] == v[..|items|][..|acc|];
          assert v[|acc|..][1..] == v[|items|..];
          assert v[|acc|..][0] == v[|acc|] == v[..|items|][|acc|] == leaf;
        }
      } else {
        assert r == Success(Step(items, c + 1));
        assert items[|acc|..] == [leaf];
      }
    }
  }

  /** Started on an empty list, the identifier list holds exactly the
      leaves it spells. */
  lemma IdListFromStart(ts: seq<Token>, c: nat, message: string)
    requires c <= |ts|
    ensures var r := IdList(ts, c, [], message);
            r.Success? ==> SpellsIds(ts, c, r.value.next, r.value.val) && !CheckValue(ts, r.value.next, TokenSep, ",")
  {
    IdListShape(ts, c, [], message);
    var r := IdList(ts, c, [], message);
    if r.Success? {
      assert r.value.val[0..] == r.value.val;
    }
  }

  /** Conversely, `id , id , ... , id` followed by anything but `,` is read
      as one identifier list. */
  lemma {:induction false} IdListAccepts(ts: seq<Token>, c: nat, e: nat, ids: seq<Tree>, acc: seq<Tree>, message: string)
    requires SpellsIds(ts, c, e, ids) && !CheckValue(ts, e, TokenSep, ",")
    ensures IdList(ts, c, acc, message) == Success(Step(acc + ids, e))
    decreases ids
  {
    if |ids| == 1 {
      assert ids == [Node(Id, ts[c].value, [])];
    } else {
      IdListAccepts(ts, c + 2, e, ids[1..], acc + [ids[0]], message);
      assert (acc + [ids[0]]) + ids[1..] == acc + ids;
    }
  }

  /** `read` succeeds only on `read ( id , ... , id ) ;`: its `READ` node
      holds the leaves the identifier list after `(` spells, in order, and
      the cursor ends after the `;` that follows its `)`. */
  lemma ReadShape(ts: seq<Token>, c: nat)
    requires c <= |ts|
    ensures var r := ParseRead(ts, c);
            r.Success? ==>
              c + 2 <= |ts| && ts[c] == Token(TokenKeyword, "read") && ts[c + 1] == Token(TokenSep, "(") &&
              var l := IdList(ts, c + 2, [], "Expected variable name in read statement");
              l.Success? && SpellsIds(ts, c + 2, l.value.next, l.value.val) && l.value.next + 2 <= |ts| &&
              ts[l.value.next] == Token(TokenSep, ")") && ts[l.value.next + 1] == Token(TokenSep, ";") &&
              r.value == Step(Node(Read, "", l.value.val), l.value.next + 2)
  {
    var r := ParseRead(ts, c);
    if r.Success? {
      var c1 := ConsumeValue(ts, c, TokenKeyword, "read", "Expected 'read'").Extract();
      var c2 := ConsumeValue(ts, c1, TokenSep, "(", "Expected '(' after 'read'").Extract();
      var l := IdList(ts, c2, [], "Expected variable name in read statement").Extract();
      var c3 := ConsumeValue(ts, l.next, TokenSep, ")", "Expected ')' after read arguments").Extract();
      var c4 := ConsumeValue(ts, c3, TokenSep, ";", "Expected ';' after read statement").Extract();
      assert r.value == Step(Node(Read, "", l.val), c4);
      IdListFromStart(ts, c2, "Expected variable name in read statement");
    }
  }

  /** `read` builds a `READ` statement of one or more identifier leaves. */
  lemma ReadIsStmt(ts: seq<Token>, c: nat)
    requires c <= |ts|
    ensures ParseRead(ts, c).Success? ==> IsStmt(ParseRead(ts, c).value.val)
  {
    if ParseRead(ts, c).Success? {
      ReadShape(ts, c);
      var l := IdList(ts, c + 2, [], "Expected variable name in read statement").value;
      IdStmtShape(ts, c + 2, l.next, l.val, Read);
    }
  }

  /** A `READ` or `WRITE` node over the leaves an identifier list spells is
      a statement. */
  lemma IdStmtShape(ts: seq<Token>, lo: nat, hi: nat, ids: seq<Tree>, kind: NodeKind)
    requires SpellsIds(ts, lo, hi, ids) && (kind == Read || kind == Write)
    ensures IsStmt(Node(kind, "", ids)) && lo < hi
  {
    SpellsIdsLength(ts, lo, hi, ids);
  }

  /** `write` succeeds only on `write ( id , ... , id ) ;` or `write id ;`:
      its `WRITE` node holds the leaves of the identifiers between the
      parentheses, or of the one identifier, in order, and the cursor ends
      after the `;`. */
  lemma WriteShape(ts: seq<Token>, c: nat)
    requires c <= |ts|
    ensures var r := ParseWrite(ts, c);
            r.Success? ==>
              c + 1 <= |ts| && ts[c] == Token(TokenKeyword, "write") &&
              var a := WriteArgs(ts, c + 1);
              a.Success? && a.value.next + 1 <= |ts| && ts[a.value.next] == Token(TokenSep, ";") &&
              r.value == Step(Node(Write, "", a.value.val), a.value.next + 1) &&
              ((CheckValue(ts, c + 1, TokenSep, "(") && c + 3 < a.value.next &&
                SpellsIds(ts, c + 2, a.value.next - 1, a.value.val) &&
                ts[a.value.next - 1] == Token(TokenSep, ")")) ||
               (!CheckValue(ts, c + 1, TokenSep, "(") && a.value.next == c + 2 &&
                ts[c + 1].kind == TokenId && a.value.val == [Node(Id, ts[c + 1].value, [])]))
  {
    if ParseWrite(ts, c).Success? {
      WriteSteps(ts, c);
      WriteArgsShape(ts, c + 1);
    }
  }

  /** `write` builds a `WRITE` statement of one or more identifier leaves. */
  lemma WriteIsStmt(ts: seq<Token>, c: nat)
    requires c <= |ts|
    ensures ParseWrite(ts, c).Success? ==> IsStmt(ParseWrite(ts, c).value.val)
  {
    if ParseWrite(ts, c).Success? {
      WriteSteps(ts, c);
      WriteArgsShape(ts, c + 1);
    }
  }

  /** The tokens a successful `write` went through, one by one. */
  lemma WriteSteps(ts: seq<Token>, c: nat)
    requires c <= |ts| && ParseWrite(ts, c).Success?
    ensures var l := WriteArgs(ts, c + 1);
            c + 1 <= |ts| && ts[c] == Token(TokenKeyword, "write") &&
            l.Success? && l.value.next + 1 <= |ts| && ts[l.value.next] == Token(TokenSep, ";") &&
            ParseWrite(ts, c).value == Step(Node(Write, "", l.value.val), l.value.next + 1)
  {
    var c1 := ConsumeValue(ts, c, TokenKeyword, "write", "Expected 'write'").Extract();
    var l := WriteArgs(ts, c1).Extract();
    var c3 := ConsumeValue(ts, l.next, TokenSep, ";", "Expected ';' after write statement").Extract();
    assert ParseWrite(ts, c).value == Step(Node(Write, "", l.val), c3);
  }

  /** The arguments of `write`: a parenthesised identifier list, or one
      identifier, as leaves in order. */
  lemma WriteArgsShape(ts: seq<Token>, c: nat)
    requires c <= |ts|
    ensures var r := WriteArgs(ts, c);
            r.Success? ==>
              |r.value.val| >= 1 && (forall i :: 0 <= i < |r.value.val| ==> IsIdLeaf(r.value.val[i])) &&
              ((CheckValue(ts, c, TokenSep, "(") && c + 3 <= r.value.next &&
                SpellsIds(ts, c + 1, r.value.next - 1, r.value.val) &&
                ts[r.value.next - 1] == Token(TokenSep, ")")) ||
               (!CheckValue(ts, c, TokenSep, "(") && r.value.next == c + 1 &&
                ts[c].kind == TokenId && r.value.val == [Node(Id, ts[c].value, [])]))
  {
    var r := WriteArgs(ts, c);
    if r.Success? && CheckValue(ts, c, TokenSep, "(") {
      var l := IdList(ts, c + 1, [], "Expected variable name in write statement").Extract();
      var c2 := ConsumeValue(ts, l.next, TokenSep, ")", "Expected ')' after write arguments").Extract();
      assert r.value == Step(l.val, c2);
      IdListFromStart(ts, c + 1, "Expected variable name in write statement");
      SpellsIdsLength(ts, c + 1, l.next, l.val);
    } else if r.Success? {
      assert r.value == Step([Node(Id, ts[c].value, [])], c + 1);
    }
  }

  /** Conversely to ReadShape, `read ( id , ... , id ) ;` is read as the
      `READ` node of exactly those identifier leaves, in order. */
  lemma ReadAccepts(ts: seq<Token>, c: nat, e: nat, ids: seq<Tree>)
    requires c + 2 <= |ts| && ts[c] == Token(TokenKeyword, "read") && ts[c + 1] == Token(TokenSep, "(")
    requires SpellsIds(ts, c + 2, e, ids) && e + 2 <= |ts|
    requires ts[e] == Token(TokenSep, ")") && ts[e + 1] == Token(TokenSep, ";")
    ensures ParseRead(ts, c) == Success(Step(Node(Read, "", ids), e + 2))
  {
    IdListAccepts(ts, c + 2, e, ids, [], "Expected variable name in read statement");
    assert [] + ids == ids;
  }

  /** Conversely to WriteShape, `write ( id , ... , id ) ;` is read as the
      `WRITE` node of exactly those identifier leaves, in order. */
  lemma WriteListAccepts(ts: seq<Token>, c: nat, e: nat, ids: seq<Tree>)
    requires c + 2 <= |ts| && ts[c] == Token(TokenKeyword, "write") && ts[c + 1] == Token(TokenSep, "(")
    requires SpellsIds(ts, c + 2, e, ids) && e + 2 <= |ts|
    requires ts[e] == Token(TokenSep, ")") && ts[e + 1] == Token(TokenSep, ";")
    ensures ParseWrite(ts, c) == Success(Step(Node(Write, "", ids), e + 2))
  {
    IdListAccepts(ts, c + 2, e, ids, [], "Expected variable name in write statement");
    assert [] + ids == ids;
    assert WriteArgs(ts, c + 1) == Success(Step(ids, e + 1));
  }

  /** `write id ;` is read as the `WRITE` node of that one identifier. */
  lemma BareWriteAccepts(ts: seq<Token>, c: nat)
    requires c + 3 <= |ts| && ts[c] == Token(TokenKeyword, "write") && ts[c + 1].kind == TokenId
    requires ts[c + 2] == Token(TokenSep, ";")
    ensures ParseWrite(ts, c) == Success(Step(Node(Write, "", [Node(Id, ts[c + 1].value, [])]), c + 3))
  {
    assert WriteArgs(ts, c + 1) == Success(Step([Node(Id, ts[c + 1].value, [])], c + 2));
  }

  // ---------------------------------------------------------------------
  // if, while and for

  /** After `if (` the condition ends at a stop token, never at `)`, so
      the `)` that `parseIfStmt` then demands is never there: no `if`
      statement is accepted. */
  lemma IfHeaderNeverParses(ts: seq<Token>, c: nat)
    requires c <= |ts|
    ensures IfHeader(ts, c).Failure?
  {
    if CheckValue(ts, c, TokenKeyword, "if") && CheckValue(ts, c + 1, TokenSep, "(") {
      BoolExprIsArithmetic(ts, c + 2);
      var cond := ParseBoolExpr(ts, c + 2);
      if cond.Success? {
        StopIsNoComparison(ts, cond.value.next);
      }
    }
  }

  lemma IfNeverParses(ts: seq<Token>, c: nat)
    requires c <= |ts|
    ensures ParseIf(ts, c).Failure?
  {
    IfHeaderNeverParses(ts, c);
  }

  /** The same holds for `while (condition)`. */
  lemma WhileNeverParses(ts: seq<Token>, c: nat)
    requires c <= |ts|
    ensures ParseWhile(ts, c).Failure?
  {
    if CheckValue(ts, c, TokenKeyword, "while") && CheckValue(ts, c + 1, TokenSep, "(") {
      BoolExprIsArithmetic(ts, c + 2);
      var cond := ParseBoolExpr(ts, c + 2);
      if cond.Success? {
        StopIsNoComparison(ts, cond.value.next);
      }
    }
  }

  /** A declaration as the initializer of `for` ends in its own `;`. */
  lemma ForInitDecl(ts: seq<Token>, c: nat)
    requires c <= |ts| && TypeKeyword(ts, c) != ""
    ensures var r := ForInit(ts, c);
            r.Success? ==> IsDeclNode(r.value.val) && ts[r.value.next - 1] == Token(TokenSep, ";")
  {
    assert !CheckValue(ts, c, TokenSep, ";");
    ParseDeclShape(ts, c, false);
  }

  /** An assignment as the initializer of `for` is parsed with its own
      `;`, and `for` then wants a second `;`: `for (i = 0;; ...)`. */
  lemma ForInitAssign(ts: seq<Token>, c: nat)
    requires c <= |ts| && TypeKeyword(ts, c) == "" && !CheckValue(ts, c, TokenSep, ";")
    ensures var r := ForInit(ts, c);
            r.Success? ==>
              IsAssignNode(r.value.val) && c + 2 < r.value.next &&
              ts[r.value.next - 2] == Token(TokenSep, ";") && ts[r.value.next - 1] == Token(TokenSep, ";")
  {
    ParseAssignShape(ts, c, false);
    var a := ParseAssign(ts, c, false);
    if a.Success? {
      assert ForInit(ts, c) ==
             (var c1 :- ConsumeValue(ts, a.value.next, TokenSep, ";", "Expected ';' after for initializer");
              Success(Step(a.value.val, c1)));
    }
  }

  /** The initializer of `for` is absent exactly when it is a bare `;`, and
      it always ends after a `;`. */
  lemma ForInitShape(ts: seq<Token>, c: nat)
    requires c <= |ts|
    ensures var r := ForInit(ts, c);
            r.Success? ==>
              (r.value.val == Null <==> CheckValue(ts, c, TokenSep, ";")) &&
              (r.value.val == Null || IsDeclNode(r.value.val) || IsAssignNode(r.value.val)) &&
              ts[r.value.next - 1] == Token(TokenSep, ";")
  {
    if TypeKeyword(ts, c) != "" {
      ForInitDecl(ts, c);
    } else if !CheckValue(ts, c, TokenSep, ";") {
      ForInitAssign(ts, c);
    }
  }

  /** The condition of `for` is absent or one expression, and is followed
      by `;`. */
  lemma ForCondShape(ts: seq<Token>, c: nat)
    requires c <= |ts|
    ensures var r := ForCond(ts, c);
            r.Success? ==>
              (r.value.val == Null <==> CheckValue(ts, c, TokenSep, ";")) &&
              (r.value.val != Null ==> IsExprNode(r.value.val)) &&
              ts[r.value.next - 1] == Token(TokenSep, ";")
  {
    if !CheckValue(ts, c, TokenSep, ";") {
      BoolExprIsArithmetic(ts, c);
    }
  }

  /** The update of `for` is absent or an assignment, and is followed by
      `)`. An update with a right-hand side ends at a stop token, never at
      `)`, so only `id++` and `id--` updates are accepted. */
  lemma ForUpdateShape(ts: seq<Token>, c: nat)
    requires c <= |ts|
    ensures var r := ForUpdate(ts, c);
            r.Success? ==>
              (r.value.val == Null <==> CheckValue(ts, c, TokenSep, ")")) &&
              (r.value.val != Null ==> IsAssignNode(r.value.val) && IsIncDec(r.value.val.value)) &&
              ts[r.value.next - 1] == Token(TokenSep, ")")
  {
    if !CheckValue(ts, c, TokenSep, ")") {
      ParseAssignShape(ts, c, true);
      var a := ParseAssign(ts, c, true);
      if a.Success? && !IsIncDec(a.value.val.value) {
        StopIsNoComparison(ts, a.value.next);
      }
    }
  }

  /** After the initializer, the header yields a well-formed condition and
      update. */
  lemma ForRestShape(ts: seq<Token>, init: Step<Tree>)
    requires init.next <= |ts|
    ensures var r := ForRest(ts, init);
            r.Success? ==>
              r.value.val.init == init.val &&
              (r.value.val.cond == Null || IsExprNode(r.value.val.cond)) &&
              (r.value.val.update == Null || IsAssignNode(r.value.val.update))
  {
    var cond := ForCond(ts, init.next);
    if cond.Success? {
      ForCondShape(ts, init.next);
      ForUpdateShape(ts, cond.value.next);
    }
  }

  /** The header of `for` yields three well-formed clauses. */
  lemma ForHeaderShape(ts: seq<Token>, c: nat)
    requires c <= |ts|
    ensures ForHeader(ts, c).Success? ==> IsForClauses(ForHeader(ts, c).value.val)
  {
    if ForHeader(ts, c).Success? {
      var c1 := ConsumeValue(ts, c, TokenKeyword, "for", "Expected 'for'").Extract();
      var c2 := ConsumeValue(ts, c1, TokenSep, "(", "Expected '(' after 'for'").Extract();
      ForInitShape(ts, c2);
      ForRestShape(ts, ForInit(ts, c2).Extract());
    }
  }

  // ---------------------------------------------------------------------
  // Statements and the program

  /** Every statement `parseStmt` accepts has one of the statement shapes. */
  lemma {:induction false} StmtShape(ts: seq<Token>, c: nat)
    requires c <= |ts|
    ensures ParseStmt(ts, c).Success? ==> IsStmt(ParseStmt(ts, c).value.val)
    decreases |ts| - c, 1
  {
    if CheckValue(ts, c, TokenSep, "{") {
      BlockShape(ts, c);
      if ParseBlock(ts, c).Success? {
        BlockIsStmt(ParseBlock(ts, c).value.val.children);
      }
    } else if CheckValue(ts, c, TokenKeyword, "if") {
      IfNeverParses(ts, c);
    } else if CheckValue(ts, c, TokenKeyword, "while") {
      WhileNeverParses(ts, c);
    } else if CheckValue(ts, c, TokenKeyword, "for") {
      ForShape(ts, c);
    } else if CheckValue(ts, c, TokenKeyword, "read") {
      ReadIsStmt(ts, c);
    } else if CheckValue(ts, c, TokenKeyword, "write") {
      WriteIsStmt(ts, c);
    } else if Check(ts, c, TokenId) {
      ParseAssignShape(ts, c, false);
    }
  }

  /** A block is a `BLOCK` node of statements, from its `{` to its `}`. */
  lemma {:induction false} BlockShape(ts: seq<Token>, c: nat)
    requires c <= |ts|
    ensures var r := ParseBlock(ts, c);
            r.Success? ==>
              r.value.val.Node? && r.value.val.kind == Block && r.value.val.value == "" &&
              (forall i :: 0 <= i < |r.value.val.children| ==> IsStmt(r.value.val.children[i])) &&
              ts[c] == Token(TokenSep, "{") && ts[r.value.next - 1] == Token(TokenSep, "}")
    decreases |ts| - c, 0
  {
    if ParseBlock(ts, c).Success? {
      BlockSteps(ts, c);
      StmtListShape(ts, c + 1, []);
    }
  }

  /** The tokens a successful block went through. */
  lemma BlockSteps(ts: seq<Token>, c: nat)
    requires c <= |ts| && ParseBlock(ts, c).Success?
    ensures var l := StmtList(ts, c + 1, []);
            c < |ts| && ts[c] == Token(TokenSep, "{") &&
            l.Success? && l.value.next < |ts| && ts[l.value.next] == Token(TokenSep, "}") &&
            ParseBlock(ts, c).value == Step(Node(Block, "", l.value.val), l.value.next + 1)
  {
    var c1 := ConsumeValue(ts, c, TokenSep, "{", "Expected '{' to start block").Extract();
    var l := StmtList(ts, c1, []).Extract();
    var c2 := ConsumeValue(ts, l.next, TokenSep, "}", "Expected '}' to end block").Extract();
    assert ParseBlock(ts, c).value == Step(Node(Block, "", l.val), c2);
  }

  /** A `BLOCK` node over statements is a statement. */
  lemma BlockIsStmt(items: seq<Tree>)
    requires forall i :: 0 <= i < |items| ==> IsStmt(items[i])
    ensures IsStmt(Node(Block, "", items))
  {
  }

  /** The statement loop collects statements and stops at the end or at a
      `}`. */
  lemma {:induction false} StmtListShape(ts: seq<Token>, c: nat, acc: seq<Tree>)
    requires c <= |ts|
    requires forall i :: 0 <= i < |acc| ==> IsStmt(acc[i])
    ensures var r := StmtList(ts, c, acc);
            r.Success? ==>
              (forall i :: 0 <= i < |r.value.val| ==> IsStmt(r.value.val[i])) &&
              (IsAtEnd(ts, r.value.next) || CheckValue(ts, r.value.next, TokenSep, "}"))
    decreases |ts| - c, 2
  {
    if !(IsAtEnd(ts, c) || CheckValue(ts, c, TokenSep, "}")) {
      StmtShape(ts, c);
      var s := ParseStmt(ts, c);
      if s.Success? {
        StmtListShape(ts, s.value.next, acc + [s.value.val]);
      }
    }
  }

  /** A `for` statement has its three clauses and a block body; a single
      statement body is wrapped in a block. */
  lemma {:induction false} ForShape(ts: seq<Token>, c: nat)
    requires c <= |ts|
    ensures ParseFor(ts, c).Success? ==> IsStmt(ParseFor(ts, c).value.val)
    decreases |ts| - c, 0
  {
    ForHeaderShape(ts, c);
    if ForHeader(ts, c).Success? {
      ForBodyShape(ts, ForHeader(ts, c).Extract().next);
    }
  }

  /** The body of `for` is a block: a block statement, or a single
      statement wrapped in one. */
  lemma {:induction false} ForBodyShape(ts: seq<Token>, c: nat)
    requires c <= |ts|
    ensures var r := ForBody(ts, c);
            r.Success? ==> IsStmt(r.value.val) && r.value.val.kind == Block
    decreases |ts| - c, 2
  {
    if CheckValue(ts, c, TokenSep, "{") {
      BlockShape(ts, c);
      if ParseBlock(ts, c).Success? {
        BlockIsStmt(ParseBlock(ts, c).value.val.children);
      }
    } else {
      StmtShape(ts, c);
    }
  }

  /** `for ( ; ; ) { }` is a `FOR` node with three absent clauses and an
      empty block. */
  lemma EmptyForLoop(ts: seq<Token>, c: nat)
    requires c + 7 <= |ts|
    requires ts[c..c + 7] == [Token(TokenKeyword, "for"), Token(TokenSep, "("), Token(TokenSep, ";"), Token(TokenSep, ";"),
                              Token(TokenSep, ")"), Token(TokenSep, "{"), Token(TokenSep, "}")]
    ensures ParseFor(ts, c) == Success(Step(Node(For, "", [Null, Null, Null, Node(Block, "", [])]), c + 7))
  {
    assert ts[c] == Token(TokenKeyword, "for") && ts[c + 1] == Token(TokenSep, "(");
    assert ts[c + 2] == Token(TokenSep, ";") && ts[c + 3] == Token(TokenSep, ";") && ts[c + 4] == Token(TokenSep, ")");
    assert ts[c + 5] == Token(TokenSep, "{") && ts[c + 6] == Token(TokenSep, "}");
    EmptyForHeader(ts, c);
    EmptyBlock(ts, c + 5);
    assert ForBody(ts, c + 5) == Success(Step(Node(Block, "", []), c + 7));
  }

  /** The header `for ( ; ; )` has three absent clauses. */
  lemma EmptyForHeader(ts: seq<Token>, c: nat)
    requires c + 5 <= |ts| && ts[c] == Token(TokenKeyword, "for") && ts[c + 1] == Token(TokenSep, "(")
    requires ts[c + 2] == Token(TokenSep, ";") && ts[c + 3] == Token(TokenSep, ";") && ts[c + 4] == Token(TokenSep, ")")
    ensures ForHeader(ts, c) == Success(Step(ForClauses(Null, Null, Null), c + 5))
  {
    assert ForInit(ts, c + 2) == Success(Step(Null, c + 3));
    assert ForCond(ts, c + 3) == Success(Step(Null, c + 4));
    assert ForUpdate(ts, c + 4) == Success(Step(Null, c + 5));
  }

  /** `{ }` is an empty `BLOCK`. */
  lemma EmptyBlock(ts: seq<Token>, c: nat)
    requires c + 2 <= |ts| && ts[c] == Token(TokenSep, "{") && ts[c + 1] == Token(TokenSep, "}")
    ensures ParseBlock(ts, c) == Success(Step(Node(Block, "", []), c + 2))
  {
    assert StmtList(ts, c + 1, []) == Success(Step([], c + 1));
  }

  /** `parse` builds a `BLOCK` root of the `DECLS` node and the `STMTS`
      node, and stops at the end or at a `}` without looking further. */
  lemma ParseShape(ts: seq<Token>)
    ensures var r := Parse(ts);
            r.Success? ==>
              r.value.val.Node? && r.value.val.kind == Block && |r.value.val.children| == 2 &&
              r.value.val.children[0].Node? && r.value.val.children[0].kind == Decls &&
              (forall i :: 0 <= i < |r.value.val.children[0].children| ==>
                 IsDeclNode(r.value.val.children[0].children[i])) &&
              r.value.val.children[1].Node? && r.value.val.children[1].kind == Stmts &&
              (forall i :: 0 <= i < |r.value.val.children[1].children| ==>
                 IsStmt(r.value.val.children[1].children[i])) &&
              (IsAtEnd(ts, r.value.next) || CheckValue(ts, r.value.next, TokenSep, "}"))
  {
    ParseDeclsShape(ts, 0);
    var d := ParseDecls(ts, 0);
    if d.Success? {
      StmtListShape(ts, d.value.next, []);
    }
  }
}
