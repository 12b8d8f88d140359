/** expr_eliminate_dups on the heap: the two slots that expr_eliminate_dups1 gets point into the same
    tree, and a join rewrites both of them in place. */
module ExprDupNodes {
  import opened Expressions
  import opened ExprEquality
  import opened ExprDuplicates
  import opened ExprNodes

  // ----- positions in a tree of nodes -----

  ghost function TreeAt(op: Op, t: Tree, p: Path): (r: Tree)
    requires OnLevel(op, Value(t), p)
    ensures Value(r) == At(op, Value(t), p)
    decreases p
  {
    if p == [] then t else TreeAt(op, if p[0] then t.r else t.l, p[1..])
  }

  ghost function TreePut(op: Op, t: Tree, p: Path, x: Tree): (r: Tree)
    requires OnLevel(op, Value(t), p)
    ensures Value(r) == Put(op, Value(t), p, Value(x))
    ensures p != [] || x.top == t.top ==> r.top == t.top
    decreases p
  {
    if p == [] then x
    else if p[0] then TBin(t.top, op, t.l, TreePut(op, t.r, p[1..], x))
    else TBin(t.top, op, TreePut(op, t.l, p[1..], x), t.r)
  }

  /** The nodes of a tree outside of the operand at a position. */
  ghost function Outside(op: Op, t: Tree, p: Path): set<ExprNode>
    requires OnLevel(op, Value(t), p)
    decreases p
  {
    if p == [] then {}
    else if p[0] then {t.top} + Nodes(t.l) + Outside(op, t.r, p[1..])
    else {t.top} + Outside(op, t.l, p[1..]) + Nodes(t.r)
  }

  /** The tree is represented apart from the operand at a position. */
  ghost predicate RepHole(op: Op, e: ExprNode, t: Tree, p: Path)
    requires OnLevel(op, Value(t), p)
    reads Outside(op, t, p)
    decreases p
  {
    e == t.top &&
    (p != [] ==>
      && e.kind == EOp(op) && e.left == Child(t.l.top) && e.right == Child(t.r.top)
      && var hole, other := if p[0] then t.r else t.l, if p[0] then t.l else t.r;
      && e !in Nodes(other) && e !in Outside(op, hole, p[1..]) && Nodes(other) !! Outside(op, hole, p[1..])
      && Rep(other.top, other) && RepHole(op, hole.top, hole, p[1..]))
  }

  lemma {:induction false} OpenHole(op: Op, e: ExprNode, t: Tree, p: Path)
    requires OnLevel(op, Value(t), p) && Rep(e, t)
    ensures RepHole(op, e, t, p) && Rep(TreeAt(op, t, p).top, TreeAt(op, t, p))
    ensures Outside(op, t, p) !! Nodes(TreeAt(op, t, p))
    ensures Outside(op, t, p) + Nodes(TreeAt(op, t, p)) == Nodes(t)
    decreases p
  {
    if p != [] {
      var hole := if p[0] then t.r else t.l;
      OpenHole(op, hole.top, hole, p[1..]);
    }
  }

  lemma {:induction false} CloseHole(op: Op, e: ExprNode, t: Tree, p: Path, x: Tree)
    requires OnLevel(op, Value(t), p) && RepHole(op, e, t, p)
    requires Rep(x.top, x) && x.top == TreeAt(op, t, p).top && Nodes(x) !! Outside(op, t, p)
    ensures Rep(e, TreePut(op, t, p, x)) && Nodes(TreePut(op, t, p, x)) == Outside(op, t, p) + Nodes(x)
    decreases p
  {
    if p != [] {
      var (hole, other) := if p[0] then (t.r, t.l) else (t.l, t.r);
      var inner := Outside(op, hole, p[1..]);
      assert Outside(op, t, p) == {e} + Nodes(other) + inner;
      CloseHole(op, hole.top, hole, p[1..], x);
      var put := TreePut(op, hole, p[1..], x);
      Beside(e, Nodes(other), inner, Nodes(x), Nodes(put));
      if p[0] {
        RepOperator(e, op, other, put);
      } else {
        RepOperator(e, op, put, other);
      }
    }
  }

  lemma Beside(e: ExprNode, other: set<ExprNode>, inner: set<ExprNode>, x: set<ExprNode>, put: set<ExprNode>)
    requires e !in other && e !in inner && other !! inner && x !! {e} + other + inner && put == inner + x
    ensures e !in put && other !! put && {e} + other + put == {e} + other + inner + x
    ensures {e} + put + other == {e} + other + inner + x
  {
  }

  lemma RepOperator(e: ExprNode, op: Op, l: Tree, r: Tree)
    requires e.kind == EOp(op) && e.left == Child(l.top) && e.right == Child(r.top)
    requires e !in Nodes(l) && e !in Nodes(r) && Nodes(l) !! Nodes(r) && Rep(l.top, l) && Rep(r.top, r)
    ensures Rep(e, TBin(e, op, l, r)) && Nodes(TBin(e, op, l, r)) == {e} + Nodes(l) + Nodes(r)
  {
  }

  /** The operator nodes of a level, and the roots of its operands, are the same objects. */
  ghost predicate SameTops(op: Op, a: Tree, b: Tree) {
    && a.top == b.top && IsTop(a, op) == IsTop(b, op)
    && (IsTop(a, op) ==> SameTops(op, a.l, b.l) && SameTops(op, a.r, b.r))
  }

  lemma {:induction false} SameTopsReflexive(op: Op, a: Tree)
    ensures SameTops(op, a, a)
  {
    if IsTop(a, op) {
      SameTopsReflexive(op, a.l);
      SameTopsReflexive(op, a.r);
    }
  }

  lemma {:induction false} SameTopsTransitive(op: Op, a: Tree, b: Tree, c: Tree)
    requires SameTops(op, a, b) && SameTops(op, b, c)
    ensures SameTops(op, a, c)
  {
    if IsTop(a, op) {
      SameTopsTransitive(op, a.l, b.l, c.l);
      SameTopsTransitive(op, a.r, b.r, c.r);
    }
  }

  lemma {:induction false} SameTopsAt(op: Op, a: Tree, b: Tree, p: Path)
    requires SameTops(op, a, b) && OnLevel(op, Value(a), p)
    ensures OnLevel(op, Value(b), p) && TreeAt(op, b, p).top == TreeAt(op, a, p).top
    decreases p
  {
    if p != [] {
      SameTopsAt(op, if p[0] then a.r else a.l, if p[0] then b.r else b.l, p[1..]);
    }
  }

  /** An operand is replaced by another one at the same node. */
  lemma {:induction false} PutTops(op: Op, t: Tree, p: Path, x: Tree)
    requires IsLeaf(op, Value(t), p) && !IsTop(x, op) && x.top == TreeAt(op, t, p).top
    ensures SameTops(op, t, TreePut(op, t, p, x))
    decreases p
  {
    if p != [] {
      PutTops(op, if p[0] then t.r else t.l, p[1..], x);
      SameTopsReflexive(op, if p[0] then t.l else t.r);
    }
  }

  /** The operands of a node at a position. */
  lemma {:induction false} TreeAtChild(op: Op, t: Tree, p: Path, right: bool)
    requires OnLevel(op, Value(t), p) && IsTop(TreeAt(op, t, p), op)
    ensures OnLevel(op, Value(t), p + [right])
    ensures TreeAt(op, t, p + [right]) == if right then TreeAt(op, t, p).r else TreeAt(op, t, p).l
    decreases p
  {
    if p != [] {
      assert (p + [right])[1..] == p[1..] + [right];
      TreeAtChild(op, if p[0] then t.r else t.l, p[1..], right);
    }
  }

  /** Different operands have no node in common. */
  lemma {:induction false} LeavesApart(op: Op, e: ExprNode, t: Tree, p: Path, q: Path)
    requires Rep(e, t) && IsLeaf(op, Value(t), p) && IsLeaf(op, Value(t), q) && p != q
    ensures Nodes(TreeAt(op, t, p)) !! Nodes(TreeAt(op, t, q))
    decreases p
  {
    assert p != [] && q != [];
    var a, b := if p[0] then t.r else t.l, if q[0] then t.r else t.l;
    if p[0] == q[0] {
      assert p == [p[0]] + p[1..] && q == [q[0]] + q[1..];
      LeavesApart(op, a.top, a, p[1..], q[1..]);
    } else {
      OpenHole(op, a.top, a, p[1..]);
      OpenHole(op, b.top, b, q[1..]);
    }
  }

  /** Replacing one operand leaves the others where they are. */
  lemma {:induction false} TreePutOther(op: Op, t: Tree, p: Path, x: Tree, q: Path)
    requires IsLeaf(op, Value(t), p) && IsLeaf(op, Value(t), q) && p != q && !IsTop(x, op)
    ensures IsLeaf(op, Value(TreePut(op, t, p, x)), q) && TreeAt(op, TreePut(op, t, p, x), q) == TreeAt(op, t, q)
    decreases p
  {
    assert p != [] && q != [];
    if p[0] == q[0] {
      assert p == [p[0]] + p[1..] && q == [q[0]] + q[1..];
      TreePutOther(op, if p[0] then t.r else t.l, p[1..], x, q[1..]);
    }
  }

  // ----- writing an operand -----

  ghost function Below(t: Tree): set<ExprNode> {
    match t
    case TSym(_, _) => {}
    case TCompare(_, _, _, _) => {}
    case TNot(_, a) => Nodes(a)
    case TBin(_, _, l, r) => Nodes(l) + Nodes(r)
  }

  /** What the fields of the root of a tree say. */
  ghost predicate Contents(kind: Kind, left: Data, right: Data, t: Tree)
    reads Below(t)
  {
    match t
    case TSym(_, s) => kind == ESymbol && left == Name(s)
    case TCompare(_, rel, l, r) => kind == ECompare(rel) && left == Name(l) && right == Name(r)
    case TNot(_, a) => kind == ENot && left == Child(a.top) && Rep(a.top, a)
    case TBin(_, op, l, r) =>
      && kind == EOp(op) && left == Child(l.top) && right == Child(r.top)
      && Nodes(l) !! Nodes(r) && Rep(l.top, l) && Rep(r.top, r)
  }

  lemma ContentsOf(e: ExprNode, t: Tree)
    requires Rep(e, t)
    ensures Contents(e.kind, e.left, e.right, t) && e !in Below(t) && Nodes(t) == {e} + Below(t)
  {
  }

  lemma ContentsMoved(e: ExprNode, t: Tree)
    requires Contents(e.kind, e.left, e.right, t) && e !in Below(t)
    ensures Rep(e, Moved(t, e)) && Nodes(Moved(t, e)) == {e} + Below(t)
  {
  }

  method WriteContents(op: Op, root: ExprNode, n: ExprNode, kind: Kind, left: Data, right: Data,
                       ghost x: Tree, ghost t: Tree, ghost p: Path)
    requires OnLevel(op, Value(t), p) && RepHole(op, root, t, p) && n !in Outside(op, t, p)
    requires Contents(kind, left, right, x) && n !in Below(x)
    modifies n
    ensures RepHole(op, root, t, p) && Rep(n, Moved(x, n)) && Nodes(Moved(x, n)) == {n} + Below(x)
  {
    n.kind, n.left, n.right := kind, left, right;
    ContentsMoved(n, x);
  }

  /** The operand at a position gets other contents, while its node stays in its slot. */
  method PutContents(op: Op, root: ExprNode, n: ExprNode, kind: Kind, left: Data, right: Data,
                     ghost x: Tree, ghost t: Tree, ghost p: Path)
    returns (ghost t': Tree)
    requires Rep(root, t) && IsLeaf(op, Value(t), p) && n == TreeAt(op, t, p).top
    requires Contents(kind, left, right, x) && Below(x) !! Outside(op, t, p) && n !in Below(x) && !IsTop(x, op)
    modifies n
    ensures t' == TreePut(op, t, p, Moved(x, n)) && Rep(root, t') && SameTops(op, t, t')
    ensures Nodes(t') == Outside(op, t, p) + {n} + Below(x)
  {
    OpenHole(op, root, t, p);
    WriteContents(op, root, n, kind, left, right, x, t, p);
    CloseHole(op, root, t, p, Moved(x, n));
    PutTops(op, t, p, Moved(x, n));
    t' := TreePut(op, t, p, Moved(x, n));
  }

  lemma JoinLeavesIs(op: Op, e: Expr, p: Path, q: Path)
    requires IsLeaf(op, e, p) && IsLeaf(op, e, q) && p != q
    ensures var j := Join(op, At(op, e, p), At(op, e, q));
      && (j.Null? ==> JoinLeaves(op, e, p, q) == Counted(e, 0))
      && (j.Ref? ==>
            && (j.expr == At(op, e, p) || j.expr.Sym? || j.expr.Compare?)
            && IsLeaf(op, Put(op, e, p, Sym(Identity(op))), q)
            && JoinLeaves(op, e, p, q) == Counted(Put(op, Put(op, e, p, Sym(Identity(op))), q, j.expr), 1))
  {
    if Join(op, At(op, e, p), At(op, e, q)).Ref? {
      JoinShape(op, At(op, e, p), At(op, e, q));
    }
    PutFacts(op, e, p, Sym(Identity(op)));
    PutOther(op, e, p, Sym(Identity(op)), q);
  }

  /** What expr_join_or and expr_join_and return: nothing, a copy of the first operand, or a new node. */
  datatype Joined = Apart | AsFirst | AsLeaf(leaf: Expr)

  predicate IsLeafNode(e: Expr) {
    e.Sym? || e.Compare?
  }

  ghost predicate Joins(j: Joined, first: Expr, r: Nullable) {
    match j
    case Apart => r.Null?
    case AsFirst => r == Ref(first)
    case AsLeaf(leaf) => r == Ref(leaf) && IsLeafNode(leaf)
  }

  /** What the rules look at in an operand: a symbol, a comparison, or the negation of one. */
  method Peek(e: ExprNode, ghost t: Tree) returns (v: Nullable)
    requires Rep(e, t)
    ensures v.Ref? ==> v.expr == Value(t)
    ensures v.Null? ==> FirstSymbol(Value(t)) == {} && SecondSymbol(Value(t)) == {}
  {
    match e.kind
    case ESymbol => v := Ref(Sym(e.left.sym));
    case ECompare(rel) => v := Ref(Compare(rel, e.left.sym, e.right.sym));
    case EOp(_) => v := Null;
    case ENot =>
      var a := e.left.node;
      match a.kind
      case ESymbol => v := Ref(Not(Sym(a.left.sym)));
      case ECompare(rel) => v := Ref(Not(Compare(rel, a.left.sym, a.right.sym)));
      case _ => v := Null;
  }

  /** expr_join_or and expr_join_and on nodes. */
  method JoinNodes(op: Op, e1: ExprNode, e2: ExprNode, ghost t1: Tree, ghost t2: Tree) returns (j: Joined)
    requires Rep(e1, t1) && Rep(e2, t2)
    ensures Joins(j, Value(t1), Join(op, Value(t1), Value(t2)))
  {
    NodesAllocated(t1);
    NodesAllocated(t2);
    var same := ExprEq(e1, e2, t1, t2);
    if same {
      return AsFirst;
    }
    var a := Peek(e1, t1);
    var b := Peek(e2, t2);
    if a.Null? || b.Null? {
      return Apart;
    }
    JoinOfLeaves(op, a.expr, b.expr);
    match Join(op, a.expr, b.expr)
    case Null => j := Apart;
    case Ref(leaf) => j := AsLeaf(leaf);
  }

  /** Operands that are not equal are joined to a single node. */
  lemma JoinOfLeaves(op: Op, a: Expr, b: Expr)
    requires !Same(a, b)
    ensures Join(op, a, b).Ref? ==> IsLeafNode(Join(op, a, b).expr)
  {
  }

  /** The end of expr_eliminate_dups1: two operands are joined if a rule applies. */
  method JoinTwo(op: Op, root: ExprNode, n1: ExprNode, n2: ExprNode, ghost t: Tree, ghost p: Path, ghost q: Path)
    returns (joins: nat, ghost t': Tree)
    requires Rep(root, t) && IsLeaf(op, Value(t), p) && IsLeaf(op, Value(t), q) && p != q
    requires n1 == TreeAt(op, t, p).top && n2 == TreeAt(op, t, q).top
    modifies Nodes(t)
    ensures Rep(root, t') && Counted(Value(t'), joins) == JoinLeaves(op, Value(t), p, q)
    ensures SameTops(op, t, t') && Nodes(t') <= Nodes(t)
  {
    var j := JoinSlots(op, root, n1, n2, t, p, q);
    JoinLeavesIs(op, Value(t), p, q);
    if j != Apart {
      joins := 1;
      t' := WriteJoin(op, root, n1, n2, j, Join(op, At(op, Value(t), p), At(op, Value(t), q)).expr, t, p, q);
    } else {
      joins, t' := 0, t;
      SameTopsReflexive(op, t);
    }
  }

  method JoinSlots(op: Op, root: ExprNode, n1: ExprNode, n2: ExprNode, ghost t: Tree, ghost p: Path, ghost q: Path)
    returns (j: Joined)
    requires Rep(root, t) && OnLevel(op, Value(t), p) && OnLevel(op, Value(t), q)
    requires n1 == TreeAt(op, t, p).top && n2 == TreeAt(op, t, q).top
    ensures Rep(root, t) && Joins(j, At(op, Value(t), p), Join(op, At(op, Value(t), p), At(op, Value(t), q)))
  {
    OpenHole(op, root, t, p);
    OpenHole(op, root, t, q);
    NodesAllocated(t);
    j := JoinNodes(op, n1, n2, TreeAt(op, t, p), TreeAt(op, t, q));
  }

  /** The first operand becomes a constant that is folded later; the second one becomes the joined
      operand, which is the first one itself or a single node. */
  method WriteJoin(op: Op, root: ExprNode, n1: ExprNode, n2: ExprNode, joined: Joined, ghost j: Expr,
                   ghost t: Tree, ghost p: Path, ghost q: Path)
    returns (ghost t': Tree)
    requires Rep(root, t) && IsLeaf(op, Value(t), p) && IsLeaf(op, Value(t), q) && p != q
    requires n1 == TreeAt(op, t, p).top && n2 == TreeAt(op, t, q).top
    requires joined != Apart && Joins(joined, At(op, Value(t), p), Ref(j))
    modifies Nodes(t)
    ensures Rep(root, t') && SameTops(op, t, t') && Nodes(t') <= Nodes(t)
    ensures IsLeaf(op, Put(op, Value(t), p, Sym(Identity(op))), q)
    ensures Value(t') == Put(op, Put(op, Value(t), p, Sym(Identity(op))), q, j)
  {
    var kind, left, right := n1.kind, n1.left, n1.right;
    ghost var a := TreeAt(op, t, p);
    OpenHole(op, root, t, p);
    OpenHole(op, root, t, q);
    ghost var t1 := FreeFirst(op, root, n1, n2, t, p, q);
    ghost var x := a;
    if joined.AsLeaf? {
      var leaf := joined.leaf;
      x := Leaf(n2, leaf);
      kind := if leaf.Sym? then ESymbol else ECompare(leaf.rel);
      left := Name(if leaf.Sym? then leaf.sym else leaf.lhs);
      right := if leaf.Sym? then NoData else Name(leaf.rhs);
    }
    OpenHole(op, root, t1, q);
    t' := PutContents(op, root, n2, kind, left, right, x, t1, q);
    SameTopsTransitive(op, t, t1, t');
  }

  method FreeFirst(op: Op, root: ExprNode, n1: ExprNode, n2: ExprNode, ghost t: Tree, ghost p: Path, ghost q: Path)
    returns (ghost t1: Tree)
    requires Rep(root, t) && IsLeaf(op, Value(t), p) && IsLeaf(op, Value(t), q) && p != q
    requires n1 == TreeAt(op, t, p).top && n2 == TreeAt(op, t, q).top
    modifies n1
    ensures t1 == TreePut(op, t, p, TSym(n1, Identity(op))) && Rep(root, t1) && SameTops(op, t, t1)
    ensures IsLeaf(op, Value(t1), q) && TreeAt(op, t1, q).top == n2 && Nodes(t1) <= Nodes(t)
    ensures var a := TreeAt(op, t, p);
      && Contents(old(n1.kind), old(n1.left), old(n1.right), a) && Below(a) !! Nodes(t1) && Below(a) <= Nodes(t)
  {
    ghost var first := TSym(n1, Identity(op));
    OpenHole(op, root, t, p);
    ContentsOf(n1, TreeAt(op, t, p));
    TreePutOther(op, t, p, first, q);
    NodesAllocated(t);
    t1 := PutContents(op, root, n1, ESymbol, Name(Identity(op)), NoData, first, t, p);
  }

  ghost function Leaf(n: ExprNode, j: Expr): (r: Tree)
    requires j.Sym? || j.Compare?
    ensures r.top == n && Value(r) == j && Below(r) == {}
  {
    if j.Sym? then TSym(n, j.sym) else TCompare(n, j.rel, j.lhs, j.rhs)
  }

  // ----- expr_eliminate_dups1 and expr_eliminate_dups -----

  /** The number of operator nodes that the two slots lead to. */
  ghost function Levels(op: Op, e: Expr, p: Path, q: Path): nat
    requires OnLevel(op, e, p) && OnLevel(op, e, q)
  {
    LevelSize(op, At(op, e, p)) + LevelSize(op, At(op, e, q))
  }

  /** expr_eliminate_dups1 on two slots of the tree at `root`, which hold the nodes `n1` and `n2`;
      `joins` is what it adds to trans_count. */
  method EliminateDups1(op: Op, root: ExprNode, n1: ExprNode, n2: ExprNode, ghost t: Tree, ghost p: Path, ghost q: Path)
    returns (joins: nat, ghost t': Tree)
    requires Rep(root, t) && OnLevel(op, Value(t), p) && OnLevel(op, Value(t), q)
    requires n1 == TreeAt(op, t, p).top && n2 == TreeAt(op, t, q).top
    modifies Nodes(t)
    ensures Rep(root, t') && Counted(Value(t'), joins) == JoinPairs(op, Value(t), p, q)
    ensures SameTops(op, t, t') && Nodes(t') <= Nodes(t)
    decreases Expressions.Size(Value(t)), Levels(op, Value(t), p, q), 2
  {
    OpenHole(op, root, t, p);
    OpenHole(op, root, t, q);
    if n1.kind == EOp(op) {
      joins, t' := DescendFirst(op, root, n1, n2, t, p, q);
    } else if n2.kind == EOp(op) {
      joins, t' := DescendSecond(op, root, n1, n2, t, p, q);
    } else {
      joins, t' := CompareOperands(op, root, n1, n2, t, p, q);
    }
  }

  /** Two operands, unless they are one and the same, are simplified and joined. */
  method CompareOperands(op: Op, root: ExprNode, n1: ExprNode, n2: ExprNode, ghost t: Tree, ghost p: Path,
                         ghost q: Path)
    returns (joins: nat, ghost t': Tree)
    requires Rep(root, t) && IsLeaf(op, Value(t), p) && IsLeaf(op, Value(t), q)
    requires n1 == TreeAt(op, t, p).top && n2 == TreeAt(op, t, q).top
    modifies Nodes(t)
    ensures Rep(root, t') && Counted(Value(t'), joins) == JoinPairs(op, Value(t), p, q)
    ensures SameTops(op, t, t') && Nodes(t') <= Nodes(t)
    decreases Expressions.Size(Value(t)), 0, 1
  {
    if p != q {
      LeavesApart(op, root, t, p, q);
    }
    if n1 == n2 {
      joins, t' := 0, t;
      SameTopsReflexive(op, t);
    } else {
      var inner, outer;
      ghost var u;
      inner, u := SimplifyFirst(op, root, n1, n2, t, p, q);
      outer, t' := JoinTwo(op, root, n1, n2, u, p, q);
      joins := inner + outer;
      SameTopsTransitive(op, t, u, t');
    }
  }

  /** The slots of an operator node lead one step further. */
  lemma ChildSlots(op: Op, root: ExprNode, t: Tree, p: Path, n: ExprNode)
    requires Rep(root, t) && OnLevel(op, Value(t), p) && IsTop(TreeAt(op, t, p), op) && n == TreeAt(op, t, p).top
    ensures OnLevel(op, Value(t), p + [false]) && OnLevel(op, Value(t), p + [true])
    ensures n in Nodes(t) && n.left == Child(TreeAt(op, t, p + [false]).top)
      && n.right == Child(TreeAt(op, t, p + [true]).top)
    ensures LevelSize(op, At(op, Value(t), p + [false])) < LevelSize(op, At(op, Value(t), p))
    ensures LevelSize(op, At(op, Value(t), p + [true])) < LevelSize(op, At(op, Value(t), p))
  {
    OpenHole(op, root, t, p);
    TreeAtChild(op, t, p, false);
    TreeAtChild(op, t, p, true);
  }

  /** The slots after a call are those from before. */
  lemma SlotsKept(op: Op, t: Tree, u: Tree, p: Path, q: Path)
    requires OnLevel(op, Value(t), p) && OnLevel(op, Value(t), q)
    requires SameTops(op, t, u) && SameLevel(op, Value(t), Value(u))
    ensures OnLevel(op, Value(u), p) && OnLevel(op, Value(u), q)
    ensures TreeAt(op, u, p).top == TreeAt(op, t, p).top && TreeAt(op, u, q).top == TreeAt(op, t, q).top
    ensures IsTop(TreeAt(op, u, p), op) == IsTop(TreeAt(op, t, p), op)
    ensures IsTop(TreeAt(op, u, q), op) == IsTop(TreeAt(op, t, q), op)
    ensures LevelSize(op, At(op, Value(u), p)) == LevelSize(op, At(op, Value(t), p))
    ensures LevelSize(op, At(op, Value(u), q)) == LevelSize(op, At(op, Value(t), q))
  {
    SameTopsAt(op, t, u, p);
    SameTopsAt(op, t, u, q);
    SameLevelAt(op, Value(t), Value(u), p);
    SameLevelAt(op, Value(t), Value(u), q);
    LevelKept(op, Value(t), Value(u), p, q);
  }

  method DescendFirst(op: Op, root: ExprNode, n1: ExprNode, n2: ExprNode, ghost t: Tree, ghost p: Path, ghost q: Path)
    returns (joins: nat, ghost t': Tree)
    requires Rep(root, t) && OnLevel(op, Value(t), p) && OnLevel(op, Value(t), q)
    requires n1 == TreeAt(op, t, p).top && n2 == TreeAt(op, t, q).top && IsTop(TreeAt(op, t, p), op)
    modifies Nodes(t)
    ensures Rep(root, t') && Counted(Value(t'), joins) == JoinPairs(op, Value(t), p, q)
    ensures SameTops(op, t, t') && Nodes(t') <= Nodes(t)
    decreases Expressions.Size(Value(t)), Levels(op, Value(t), p, q), 0
  {
    ChildSlots(op, root, t, p, n1);
    var first, second;
    ghost var u;
    first, u := EliminateDups1(op, root, n1.left.node, n2, t, p + [false], q);
    assert Counted(Value(u), first) == JoinPairs(op, Value(t), p + [false], q);
    SlotsKept(op, t, u, p, q);
    ChildSlots(op, root, u, p, n1);
    second, t' := EliminateDups1(op, root, n1.right.node, n2, u, p + [true], q);
    joins := first + second;
    SameTopsTransitive(op, t, u, t');
    JoinPairsFirst(op, Value(t), p, q);
  }

  /** The two recursive calls for the first slot. */
  lemma JoinPairsFirst(op: Op, e: Expr, p: Path, q: Path)
    requires OnLevel(op, e, p) && OnLevel(op, e, q) && IsOp(At(op, e, p), op)
    ensures OnLevel(op, e, p + [false])
    ensures var first := JoinPairs(op, e, p + [false], q);
      && OnLevel(op, first.expr, p + [true]) && OnLevel(op, first.expr, q)
      && var second := JoinPairs(op, first.expr, p + [true], q);
      JoinPairs(op, e, p, q) == Counted(second.expr, first.joins + second.joins)
  {
    ExtendPath(op, e, p, false);
    ExtendPath(op, e, p, true);
    LevelKept(op, e, JoinPairs(op, e, p + [false], q).expr, p + [true], q);
  }

  lemma JoinPairsSecond(op: Op, e: Expr, p: Path, q: Path)
    requires OnLevel(op, e, p) && OnLevel(op, e, q) && !IsOp(At(op, e, p), op) && IsOp(At(op, e, q), op)
    ensures OnLevel(op, e, q + [false])
    ensures var first := JoinPairs(op, e, p, q + [false]);
      && OnLevel(op, first.expr, p) && OnLevel(op, first.expr, q + [true])
      && var second := JoinPairs(op, first.expr, p, q + [true]);
      JoinPairs(op, e, p, q) == Counted(second.expr, first.joins + second.joins)
  {
    ExtendPath(op, e, q, false);
    ExtendPath(op, e, q, true);
    LevelKept(op, e, JoinPairs(op, e, p, q + [false]).expr, p, q + [true]);
  }

  method DescendSecond(op: Op, root: ExprNode, n1: ExprNode, n2: ExprNode, ghost t: Tree, ghost p: Path, ghost q: Path)
    returns (joins: nat, ghost t': Tree)
    requires Rep(root, t) && OnLevel(op, Value(t), p) && OnLevel(op, Value(t), q)
    requires n1 == TreeAt(op, t, p).top && n2 == TreeAt(op, t, q).top
    requires !IsTop(TreeAt(op, t, p), op) && IsTop(TreeAt(op, t, q), op)
    modifies Nodes(t)
    ensures Rep(root, t') && Counted(Value(t'), joins) == JoinPairs(op, Value(t), p, q)
    ensures SameTops(op, t, t') && Nodes(t') <= Nodes(t)
    decreases Expressions.Size(Value(t)), Levels(op, Value(t), p, q), 0
  {
    ChildSlots(op, root, t, q, n2);
    var first, second;
    ghost var u;
    first, u := EliminateDups1(op, root, n1, n2.left.node, t, p, q + [false]);
    assert Counted(Value(u), first) == JoinPairs(op, Value(t), p, q + [false]);
    SlotsKept(op, t, u, p, q);
    ChildSlots(op, root, u, q, n2);
    second, t' := EliminateDups1(op, root, n1, n2.right.node, u, p, q + [true]);
    joins := first + second;
    SameTopsTransitive(op, t, u, t');
    JoinPairsSecond(op, Value(t), p, q);
  }

  /** The first operand is simplified by itself. */
  method SimplifyFirst(op: Op, root: ExprNode, n1: ExprNode, n2: ExprNode, ghost t: Tree, ghost p: Path, ghost q: Path)
    returns (joins: nat, ghost t': Tree)
    requires Rep(root, t) && IsLeaf(op, Value(t), p) && IsLeaf(op, Value(t), q) && p != q
    requires n1 == TreeAt(op, t, p).top && n2 == TreeAt(op, t, q).top
    modifies Nodes(t)
    ensures Rep(root, t') && Counted(Value(t'), joins) == JoinInside(op, Value(t), p, q)
    ensures SameTops(op, t, t') && Nodes(t') <= Nodes(t)
    ensures IsLeaf(op, Value(t'), p) && IsLeaf(op, Value(t'), q)
    ensures n1 == TreeAt(op, t', p).top && n2 == TreeAt(op, t', q).top
    decreases Expressions.Size(Value(t)), 0, 0
  {
    joins, t' := 0, t;
    OpenHole(op, root, t, p);
    SameTopsReflexive(op, t);
    if n1.kind.EOp? {
      ghost var a := TreeAt(op, t, p);
      AtSize(op, Value(t), p);
      NodesAllocated(t);
      ghost var x;
      joins, x := EliminateDups1(n1.kind.op, n1, n1, n1, a, [], []);
      assert RepHole(op, root, t, p);
      CloseHole(op, root, t, p, x);
      PutFacts(op, Value(t), p, Value(x));
      PutOther(op, Value(t), p, Value(x), q);
      PutTops(op, t, p, x);
      t' := TreePut(op, t, p, x);
      SameTopsAt(op, t, t', p);
      SameTopsAt(op, t, t', q);
    }
  }

  /** expr_eliminate_dups: passes over all pairs of operands until a pass joins nothing. */
  method EliminateDups(e: ExprNode, ghost t: Tree) returns (ghost t': Tree)
    requires Rep(e, t)
    modifies Nodes(t)
    ensures Rep(e, t') && Value(t') == EliminateDuplicates(Value(t)) && Nodes(t') <= Nodes(t)
  {
    t' := t;
    NodesAllocated(t);
    while e.kind.EOp?
      invariant Rep(e, t') && Nodes(t') <= Nodes(t)
      invariant EliminateDuplicates(Value(t')) == EliminateDuplicates(Value(t))
      decreases Expressions.Size(Value(t'))
    {
      ghost var before := t';
      var count;
      count, t' := EliminateDups1(e.kind.op, e, e, e, t', [], []);
      if count == 0 {
        break;
      }
      JoinPairsCount(before.op, Value(before), [], []);
      FoldConstantsShrinks(Value(t'));
      t' := EliminateYn(e, t');
    }
  }
}
