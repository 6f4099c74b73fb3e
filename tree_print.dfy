/** `printTree` and `nodeTypeToString` of parse.cpp: the indented dump of a
    syntax tree that `outputTree` writes to its file, one line per node.
    A dump is modelled as its sequence of lines; each is followed by
    `endl` in the file. */
module TreePrint {
  import opened Wrappers
  import opened ParseSpec

  /** `nodeTypeToString`. Its `default` branch (`"UNKNOWN"`) is not
      reachable: every node type has its own case. */
  function NodeTypeName(k: NodeKind): string {
    match k
    case Expr => "EXPR"
    case BoolExpr => "BOOL"
    case Decls => "DECLS"
    case Stmts => "STMTS"
    case Assign => "ASSIGN"
    case If => "IF"
    case While => "WHILE"
    case For => "FOR"
    case Read => "READ"
    case Write => "WRITE"
    case Block => "BLOCK"
    case Op => "OP"
    case Id => "ID"
    case Num => "NUM"
    case Float => "FLOAT"
    case BoolVal => "BOOLVAL"
    case TypeName => "TYPE"
    case List => "LIST"
  }

  /** Reading a type name back, as a reader of the dump would. */
  function NodeTypeOfName(name: string): Option<NodeKind> {
    if name == "EXPR" then Some(Expr)
    else if name == "BOOL" then Some(BoolExpr)
    else if name == "DECLS" then Some(Decls)
    else if name == "STMTS" then Some(Stmts)
    else if name == "ASSIGN" then Some(Assign)
    else if name == "IF" then Some(If)
    else if name == "WHILE" then Some(While)
    else if name == "FOR" then Some(For)
    else if name == "READ" then Some(Read)
    else if name == "WRITE" then Some(Write)
    else if name == "BLOCK" then Some(Block)
    else if name == "OP" then Some(Op)
    else if name == "ID" then Some(Id)
    else if name == "NUM" then Some(Num)
    else if name == "FLOAT" then Some(Float)
    else if name == "BOOLVAL" then Some(BoolVal)
    else if name == "TYPE" then Some(TypeName)
    else if name == "LIST" then Some(List)
    else None
  }

  /** Every node type prints under a name of its own: the name gives the
      type back. */
  lemma NodeTypeNameRoundTrip(k: NodeKind)
    ensures NodeTypeOfName(NodeTypeName(k)) == Some(k)
  {
    match k
    case Expr =>
    case BoolExpr =>
    case Decls =>
    case Stmts =>
    case Assign =>
    case If =>
    case While =>
    case For =>
    case Read =>
    case Write =>
    case Block =>
    case Op =>
    case Id =>
    case Num =>
    case Float =>
    case BoolVal =>
    case TypeName =>
    case List =>
  }

  /** So no two node types share a name. */
  lemma NodeTypeNamesDistinct(a: NodeKind, b: NodeKind)
    ensures NodeTypeName(a) == NodeTypeName(b) ==> a == b
  {
    NodeTypeNameRoundTrip(a);
    NodeTypeNameRoundTrip(b);
  }

  /** The indentation loop: two spaces per level. */
  function Indent(depth: nat): (r: string)
    ensures |r| == 2 * depth
    ensures forall k :: 0 <= k < |r| ==> r[k] == ' '
  {
    if depth == 0 then "" else Indent(depth - 1) + "  "
  }

  /** What is written for a node after its indentation: `[TYPE]`, and
      ` value` when the value is not empty. */
  function NodeLabel(kind: NodeKind, value: string): string {
    "[" + NodeTypeName(kind) + "]" + (if value == "" then "" else " " + value)
  }

  /** The line written for a node at `depth`. */
  function NodeLine(kind: NodeKind, value: string, depth: nat): string {
    Indent(depth) + NodeLabel(kind, value)
  }

  /** `printTree(node, outFile, depth)`: nothing for a null node, otherwise
      the node's line and then the dumps of its children one level deeper. */
  function PrintTree(t: Tree, depth: nat): seq<string>
    decreases t, 1
  {
    match t
    case Null => []
    case Node(kind, value, children) => [NodeLine(kind, value, depth)] + PrintChildren(children, depth + 1)
  }

  /** The loop over the children of a node. */
  function PrintChildren(ts: seq<Tree>, depth: nat): seq<string>
    decreases ts, 0
  {
    if ts == [] then [] else PrintTree(ts[0], depth) + PrintChildren(ts[1..], depth)
  }

  /** The number of nodes of a tree; null children are not nodes. */
  function Size(t: Tree): nat
    decreases t, 1
  {
    match t
    case Null => 0
    case Node(_, _, children) => 1 + SizeAll(children)
  }

  function SizeAll(ts: seq<Tree>): nat
    decreases ts, 0
  {
    if ts == [] then 0 else Size(ts[0]) + SizeAll(ts[1..])
  }

  /** The dump has one line per node: null children print nothing. */
  lemma {:induction false} PrintTreeLines(t: Tree, depth: nat)
    ensures |PrintTree(t, depth)| == Size(t)
    decreases t, 1
  {
    if t.Node? {
      PrintChildrenLines(t.children, depth + 1);
    }
  }

  lemma {:induction false} PrintChildrenLines(ts: seq<Tree>, depth: nat)
    ensures |PrintChildren(ts, depth)| == SizeAll(ts)
    decreases ts, 0
  {
    if ts != [] {
      PrintTreeLines(ts[0], depth);
      PrintChildrenLines(ts[1..], depth);
    }
  }

  /** Depth only indents: the dump of a tree at depth `a + b` is its dump
      at depth `b` with every line indented `a` levels further. */
  lemma {:induction false} PrintTreeShift(t: Tree, a: nat, b: nat)
    ensures |PrintTree(t, a + b)| == |PrintTree(t, b)|
    ensures forall j :: 0 <= j < |PrintTree(t, b)| ==> PrintTree(t, a + b)[j] == Indent(a) + PrintTree(t, b)[j]
    decreases t, 1
  {
    if t.Node? {
      NodeLineShift(t.kind, t.value, a, b);
      PrintChildrenShift(t.children, a, b + 1);
      assert PrintTree(t, a + b) == [NodeLine(t.kind, t.value, a + b)] + PrintChildren(t.children, a + b + 1);
      assert PrintTree(t, b) == [NodeLine(t.kind, t.value, b)] + PrintChildren(t.children, b + 1);
    }
  }

  lemma NodeLineShift(kind: NodeKind, value: string, a: nat, b: nat)
    ensures NodeLine(kind, value, a + b) == Indent(a) + NodeLine(kind, value, b)
  {
    IndentAdd(a, b);
    assert Indent(a) + Indent(b) + NodeLabel(kind, value) == Indent(a) + (Indent(b) + NodeLabel(kind, value));
  }

  lemma {:induction false} PrintChildrenShift(ts: seq<Tree>, a: nat, b: nat)
    ensures |PrintChildren(ts, a + b)| == |PrintChildren(ts, b)|
    ensures forall j :: 0 <= j < |PrintChildren(ts, b)| ==> PrintChildren(ts, a + b)[j] == Indent(a) + PrintChildren(ts, b)[j]
    decreases ts, 0
  {
    if ts != [] {
      PrintTreeShift(ts[0], a, b);
      PrintChildrenShift(ts[1..], a, b);
    }
  }

  /** Indentations add up. */
  lemma IndentAdd(a: nat, b: nat)
    ensures Indent(a + b) == Indent(a) + Indent(b)
  {
    var l, r := Indent(a + b), Indent(a) + Indent(b);
    assert |l| == |r|;
    assert forall k :: 0 <= k < |l| ==> l[k] == ' ' == r[k];
  }
}
