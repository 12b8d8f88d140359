/** Expressions as struct expr nodes on the heap. The passes of expr.c rewrite the nodes in place; each
    of them is proved to do to the tree what the function on values says. Where the C code takes the
    address of a slot, the method here returns what the slot holds afterwards. */
module ExprNodes {
  import opened Expressions
  import opened ExprEquality
  import opened ExprTransform
  import opened ExprCompare

  datatype Kind = ESymbol | ECompare(rel: Relation) | ENot | EOp(op: Op)

  /** union expr_data */
  datatype Data = NoData | Child(node: ExprNode) | Name(sym: Symbol)

  class ExprNode {
    var kind: Kind
    var left: Data
    var right: Data

    constructor (kind: Kind, left: Data, right: Data)
      ensures this.kind == kind && this.left == left && this.right == right
    {
      this.kind, this.left, this.right := kind, left, right;
    }
  }

  /** An expression with the node that holds each part of it. */
  datatype Tree =
    | TSym(top: ExprNode, s: Symbol)
    | TCompare(top: ExprNode, rel: Relation, lhs: Symbol, rhs: Symbol)
    | TNot(top: ExprNode, arg: Tree)
    | TBin(top: ExprNode, op: Op, l: Tree, r: Tree)

  ghost function Value(t: Tree): Expr {
    match t
    case TSym(_, s) => Sym(s)
    case TCompare(_, rel, l, r) => Compare(rel, l, r)
    case TNot(_, a) => Not(Value(a))
    case TBin(_, op, l, r) => Bin(op, Value(l), Value(r))
  }

  ghost function Nodes(t: Tree): (s: set<ExprNode>)
    ensures t.top in s
  {
    match t
    case TSym(n, _) => {n}
    case TCompare(n, _, _, _) => {n}
    case TNot(n, a) => {n} + Nodes(a)
    case TBin(n, _, l, r) => {n} + Nodes(l) + Nodes(r)
  }

  /** The node `e` is the root of the tree; no node is shared. */
  ghost predicate Rep(e: ExprNode, t: Tree)
    reads Nodes(t)
  {
    e == t.top &&
    match t
    case TSym(_, s) => e.kind == ESymbol && e.left == Name(s)
    case TCompare(_, rel, l, r) => e.kind == ECompare(rel) && e.left == Name(l) && e.right == Name(r)
    case TNot(_, a) => e.kind == ENot && e.left == Child(a.top) && e !in Nodes(a) && Rep(a.top, a)
    case TBin(_, op, l, r) =>
      && e.kind == EOp(op) && e.left == Child(l.top) && e.right == Child(r.top)
      && e !in Nodes(l) && e !in Nodes(r) && Nodes(l) !! Nodes(r)
      && Rep(l.top, l) && Rep(r.top, r)
  }

  lemma {:induction false} NodesAllocated(t: Tree)
    ensures forall n :: n in Nodes(t) ==> allocated(n)
  {
    match t
    case TNot(_, a) => NodesAllocated(a);
    case TBin(_, _, l, r) =>
      NodesAllocated(l);
      NodesAllocated(r);
    case _ =>
  }

  /** The tree with another root node. */
  ghost function Moved(t: Tree, e: ExprNode): (r: Tree)
    ensures r.top == e && Value(r) == Value(t)
    ensures Nodes(r) <= Nodes(t) + {e}
  {
    t.(top := e)
  }

  /** A node takes over the contents of another one, which is freed. */
  method TakeOver(e: ExprNode, from: ExprNode, ghost t: Tree)
    requires Rep(from, t) && e !in Nodes(t)
    modifies e
    ensures Rep(e, Moved(t, e))
  {
    e.kind, e.left, e.right := from.kind, from.left, from.right;
  }

  /** A node becomes a symbol; what was below it is freed. */
  method BecomeSymbol(e: ExprNode, s: Symbol)
    modifies e
    ensures Rep(e, TSym(e, s))
  {
    e.kind, e.left, e.right := ESymbol, Name(s), NoData;
  }

  /** The operands of a node are stored again after they have been rewritten. */
  method StoreOperands(e: ExprNode, left: ExprNode, right: ExprNode, ghost op: Op, ghost l: Tree, ghost r: Tree)
    requires e.kind == EOp(op) && Rep(left, l) && Rep(right, r)
    requires e !in Nodes(l) && e !in Nodes(r) && Nodes(l) !! Nodes(r)
    modifies e
    ensures Rep(e, TBin(e, op, l, r))
  {
    e.left, e.right := Child(left), Child(right);
  }

  method StoreOperand(e: ExprNode, arg: ExprNode, ghost a: Tree)
    requires e.kind == ENot && Rep(arg, a) && e !in Nodes(a)
    modifies e
    ensures Rep(e, TNot(e, a))
  {
    e.left := Child(arg);
  }

  // ----- expr_eliminate_yn -----

  /** expr_eliminate_yn */
  method EliminateYn(e: ExprNode, ghost t: Tree) returns (ghost t': Tree)
    requires Rep(e, t)
    modifies Nodes(t)
    ensures Rep(e, t') && Value(t') == FoldConstants(Value(t)) && Nodes(t') <= Nodes(t)
    decreases t, 1
  {
    t' := t;
    if e.kind.EOp? {
      ghost var both := EliminateYnBelow(e, t);
      t' := FoldTop(e, both);
    }
  }

  method EliminateYnBelow(e: ExprNode, ghost t: Tree) returns (ghost t': Tree)
    requires Rep(e, t) && t.TBin?
    modifies Nodes(t)
    ensures Rep(e, t') && Nodes(t') <= Nodes(t) && t'.TBin? && t'.op == t.op
    ensures Value(t'.l) == FoldConstants(Value(t.l)) && Value(t'.r) == FoldConstants(Value(t.r))
    decreases t, 0
  {
    NodesAllocated(t);
    ghost var l := EliminateYn(e.left.node, t.l);
    ghost var r := EliminateYn(e.right.node, t.r);
    t' := TBin(e, t.op, l, r);
  }

  /** The cases of expr_eliminate_yn, once the operands have been simplified. */
  method FoldTop(e: ExprNode, ghost t: Tree) returns (ghost t': Tree)
    requires Rep(e, t) && t.TBin?
    modifies e
    ensures Rep(e, t') && Nodes(t') <= Nodes(t)
    ensures var l, r, op := Value(t.l), Value(t.r), t.op;
      Value(t') ==
        if l == Sym(Absorber(op)) then Sym(Absorber(op))
        else if l == Sym(Identity(op)) then r
        else if r == Sym(Absorber(op)) then Sym(Absorber(op))
        else if r == Sym(Identity(op)) then l
        else Bin(op, l, r)
  {
    var op, left, right := e.kind.op, e.left.node, e.right.node;
    if left.kind.ESymbol? {
      if left.left.sym == Absorber(op) {
        BecomeSymbol(e, Absorber(op));
        return TSym(e, Absorber(op));
      } else if left.left.sym == Identity(op) {
        TakeOver(e, right, t.r);
        return Moved(t.r, e);
      }
    }
    if right.kind.ESymbol? {
      if right.left.sym == Absorber(op) {
        BecomeSymbol(e, Absorber(op));
        return TSym(e, Absorber(op));
      } else if right.left.sym == Identity(op) {
        TakeOver(e, left, t.l);
        return Moved(t.l, e);
      }
    }
    t' := t;
  }

  // ----- expr_trans_bool -----

  /** expr_trans_bool */
  method TransBool(e: ExprNode, ghost t: Tree) returns (ghost t': Tree)
    requires Rep(e, t)
    modifies Nodes(t)
    ensures Rep(e, t') && Value(t') == DropUnequalNo(Value(t)) && Nodes(t') <= Nodes(t)
    decreases t
  {
    t' := t;
    match e.kind {
      case EOp(_) =>
        NodesAllocated(t);
        ghost var l := TransBool(e.left.node, t.l);
        ghost var r := TransBool(e.right.node, t.r);
        t' := TBin(e, t.op, l, r);
      case ENot =>
        NodesAllocated(t);
        ghost var a := TransBool(e.left.node, t.arg);
        t' := TNot(e, a);
      case ECompare(rel) =>
        if rel == Unequal && e.left.sym.typ == TristateType && e.right.sym == SYMBOL_NO {
          e.kind, e.right := ESymbol, NoData;
          t' := TSym(e, t.lhs);
        }
      case ESymbol =>
    }
  }

  // ----- expr_copy -----

  /** expr_copy: all nodes of the copy are new. */
  method Copy(e: ExprNode, ghost t: Tree) returns (r: ExprNode, ghost t': Tree)
    requires Rep(e, t)
    ensures Rep(r, t') && Value(t') == Value(t) && fresh(Nodes(t'))
    decreases t, 1
  {
    match e.kind {
      case ESymbol =>
        r := new ExprNode(ESymbol, e.left, NoData);
        t' := TSym(r, t.s);
      case ECompare(rel) =>
        r := new ExprNode(e.kind, e.left, e.right);
        t' := TCompare(r, rel, t.lhs, t.rhs);
      case ENot =>
        var a, ta := Copy(e.left.node, t.arg);
        NodesAllocated(ta);
        r := new ExprNode(ENot, Child(a), NoData);
        t' := TNot(r, ta);
      case EOp(op) =>
        r, t' := CopyBoth(e, t);
    }
  }

  method CopyBoth(e: ExprNode, ghost t: Tree) returns (r: ExprNode, ghost t': Tree)
    requires t.TBin? && Rep(e, t)
    ensures Rep(r, t') && Value(t') == Value(t) && fresh(Nodes(t'))
    decreases t, 0
  {
    var left, right := e.left.node, e.right.node;
    var op := e.kind.op;
    NodesAllocated(t.r);
    var l, tl := Copy(left, t.l);
    r, t' := CopySecond(op, right, t.r, l, tl);
    NodesAllocated(t');
  }

  method CopySecond(op: Op, right: ExprNode, ghost t: Tree, l: ExprNode, ghost tl: Tree)
    returns (r: ExprNode, ghost t': Tree)
    requires Rep(right, t) && Rep(l, tl)
    ensures Rep(r, t') && Value(t') == Bin(op, Value(tl), Value(t)) && fresh(Nodes(t') - Nodes(tl))
    decreases t, 2
  {
    NodesAllocated(tl);
    var q, tr := Copy(right, t);
    r, t' := NewOperator(op, l, q, tl, tr);
  }

  method NewOperator(op: Op, l: ExprNode, q: ExprNode, ghost tl: Tree, ghost tr: Tree)
    returns (r: ExprNode, ghost t': Tree)
    requires Rep(l, tl) && Rep(q, tr) && Nodes(tl) !! Nodes(tr)
    ensures Rep(r, t') && t' == TBin(r, op, tl, tr) && fresh(r)
  {
    NodesAllocated(tl);
    NodesAllocated(tr);
    r := new ExprNode(EOp(op), Child(l), Child(q));
    t' := TBin(r, op, tl, tr);
  }

  // ----- rewrite_m -----

  /** rewrite_m of menu.c */
  method RewriteM(e: ExprNode, modules: Symbol, ghost t: Tree) returns (r: ExprNode, ghost t': Tree)
    requires Rep(e, t)
    modifies Nodes(t)
    ensures Rep(r, t') && Value(t') == RewriteMod(Value(t), modules) && fresh(Nodes(t') - Nodes(t))
    decreases t, 1
  {
    r, t' := e, t;
    match e.kind {
      case EOp(op) =>
        t' := RewriteBoth(e, modules, t);
      case ENot =>
        NodesAllocated(t);
        var a, ta := RewriteM(e.left.node, modules, t.arg);
        NodesAllocated(ta);
        StoreOperand(e, a, ta);
        t' := TNot(e, ta);
      case ESymbol =>
        if e.left.sym == SYMBOL_MOD {
          var m := new ExprNode(ESymbol, Name(modules), NoData);
          r := new ExprNode(EOp(AndOp), Child(e), Child(m));
          t' := TBin(r, AndOp, t, TSym(m, modules));
        }
      case ECompare(_) =>
    }
  }

  method RewriteBoth(e: ExprNode, modules: Symbol, ghost t: Tree) returns (ghost t': Tree)
    requires t.TBin? && Rep(e, t)
    modifies Nodes(t)
    ensures Rep(e, t') && Value(t') == RewriteMod(Value(t), modules) && fresh(Nodes(t') - Nodes(t))
    decreases t, 0
  {
    NodesAllocated(t);
    var left, right := e.left.node, e.right.node;
    var l, tl := RewriteM(left, modules, t.l);
    NodesAllocated(tl);
    assert Rep(right, t.r) && e !in Nodes(tl) && Nodes(tl) !! Nodes(t.r);
    var r, tr := RewriteSecond(e, right, modules, t.r, l, tl);
    NodesAllocated(tr);
    StoreOperands(e, l, r, t.op, tl, tr);
    t' := TBin(e, t.op, tl, tr);
  }

  method RewriteSecond(ghost e: ExprNode, right: ExprNode, modules: Symbol, ghost t: Tree, ghost l: ExprNode,
                       ghost tl: Tree)
    returns (r: ExprNode, ghost tr: Tree)
    requires Rep(right, t) && Rep(l, tl) && e !in Nodes(tl) && e !in Nodes(t) && Nodes(tl) !! Nodes(t)
    modifies Nodes(t)
    ensures Rep(r, tr) && Value(tr) == RewriteMod(Value(t), modules) && fresh(Nodes(tr) - Nodes(t))
    ensures Rep(l, tl) && e !in Nodes(tr) && Nodes(tl) !! Nodes(tr)
    decreases t, 2
  {
    NodesAllocated(tl);
    r, tr := RewriteM(right, modules, t);
  }

  // ----- expr_transform -----

  /** The rules of expr_transform for comparisons of bool symbols. */
  method TransformComparison(e: ExprNode, ghost t: Tree) returns (ghost t': Tree)
    requires Rep(e, t) && t.TCompare?
    modifies e
    ensures Rep(e, t') && Value(t') == TransformCompare(t.rel, t.lhs, t.rhs) && fresh(Nodes(t') - Nodes(t))
  {
    t' := t;
    var rel, l, r := e.kind.rel, e.left.sym, e.right.sym;
    if l.typ != Boolean || (rel != Equal && rel != Unequal) {
      return;
    }
    if r == SYMBOL_MOD {
      var constant := if rel == Equal then SYMBOL_NO else SYMBOL_YES;
      BecomeSymbol(e, constant);
      t' := TSym(e, constant);
    } else if (rel == Equal && r == SYMBOL_NO) || (rel == Unequal && r == SYMBOL_YES) {
      var operand := new ExprNode(ESymbol, Name(l), NoData);
      e.kind, e.left, e.right := ENot, Child(operand), NoData;
      t' := TNot(e, TSym(operand, l));
    } else if r == SYMBOL_YES || r == SYMBOL_NO {
      e.kind, e.right := ESymbol, NoData;
      t' := TSym(e, l);
    }
  }

  /** De Morgan's laws: the node below the negation is reused, and another one is new. */
  method PushNegation(e: ExprNode, ghost t: Tree) returns (ghost t': Tree)
    requires Rep(e, t) && t.TNot? && t.arg.TBin?
    modifies Nodes(t)
    ensures Rep(e, t') && fresh(Nodes(t') - Nodes(t))
    ensures Value(t') == Bin(Dual(t.arg.op), Not(Value(t.arg.l)), Not(Value(t.arg.r)))
  {
    NodesAllocated(t);
    var tmp := e.left.node;
    e.kind := EOp(Dual(tmp.kind.op));
    var second := new ExprNode(ENot, tmp.right, NoData);
    e.right := Child(second);
    tmp.kind, tmp.right := ENot, NoData;
    t' := TBin(e, Dual(t.arg.op), TNot(tmp, t.arg.l), TNot(second, t.arg.r));
  }

  /** expr_transform */
  method TransformNode(e: ExprNode, ghost t: Tree) returns (r: ExprNode, ghost t': Tree)
    requires Rep(e, t)
    modifies Nodes(t)
    ensures Rep(r, t') && Value(t') == Transform(Value(t)) && fresh(Nodes(t') - Nodes(t))
    decreases Weight(Value(t)), 2
  {
    r, t' := e, t;
    match e.kind {
      case ESymbol =>
      case ECompare(_) =>
        t' := TransformComparison(e, t);
      case EOp(op) =>
        t' := TransformBoth(e, t);
      case ENot =>
        r, t' := TransformNegated(e, t);
    }
  }

  method TransformNegated(e: ExprNode, ghost t: Tree) returns (r: ExprNode, ghost t': Tree)
    requires t.TNot? && Rep(e, t)
    modifies Nodes(t)
    ensures Rep(r, t') && Value(t') == Transform(Value(t)) && fresh(Nodes(t') - Nodes(t))
    decreases Weight(Value(t)), 1, 1
  {
    ghost var u := TransformOperand(e, t);
    NodesAllocated(u);
    TransformNotValue(Value(t.arg));
    r, t' := TransformNegation(e, u);
  }

  method TransformBoth(e: ExprNode, ghost t: Tree) returns (ghost t': Tree)
    requires t.TBin? && Rep(e, t)
    modifies Nodes(t)
    ensures Rep(e, t') && Value(t') == Transform(Value(t)) && fresh(Nodes(t') - Nodes(t))
    decreases Weight(Value(t)), 1
  {
    NodesAllocated(t);
    var left, right := e.left.node, e.right.node;
    var l, tl := TransformNode(left, t.l);
    NodesAllocated(tl);
    assert Rep(right, t.r) && e !in Nodes(tl) && Nodes(tl) !! Nodes(t.r);
    var r, tr := TransformSecond(e, right, t.r, l, tl);
    NodesAllocated(tr);
    StoreOperands(e, l, r, t.op, tl, tr);
    t' := TBin(e, t.op, tl, tr);
  }

  method TransformSecond(ghost e: ExprNode, right: ExprNode, ghost t: Tree, ghost l: ExprNode, ghost tl: Tree)
    returns (r: ExprNode, ghost tr: Tree)
    requires Rep(right, t) && Rep(l, tl) && e !in Nodes(tl) && e !in Nodes(t) && Nodes(tl) !! Nodes(t)
    modifies Nodes(t)
    ensures Rep(r, tr) && Value(tr) == Transform(Value(t)) && fresh(Nodes(tr) - Nodes(t))
    ensures Rep(l, tl) && e !in Nodes(tr) && Nodes(tl) !! Nodes(tr)
    decreases Weight(Value(t)), 3
  {
    NodesAllocated(tl);
    r, tr := TransformNode(right, t);
  }

  method TransformOperand(e: ExprNode, ghost t: Tree) returns (ghost t': Tree)
    requires t.TNot? && Rep(e, t)
    modifies Nodes(t)
    ensures t'.TNot? && Rep(e, t') && Value(t'.arg) == Transform(Value(t.arg)) && fresh(Nodes(t') - Nodes(t))
    decreases Weight(Value(t)), 1, 0
  {
    NodesAllocated(t);
    var a, ta := TransformNode(e.left.node, t.arg);
    NodesAllocated(ta);
    StoreOperand(e, a, ta);
    t' := TNot(e, ta);
  }

  /** The rules of expr_transform for negations, once the operand has been transformed. */
  ghost function TransformNot(a: Expr): Expr {
    match a
    case Not(b) => Transform(b)
    case Compare(rel, l, r) => Compare(Opposite(rel), l, r)
    case Bin(op, l, r) => Transform(Bin(Dual(op), Not(l), Not(r)))
    case Sym(s) =>
      if s == SYMBOL_YES then Sym(SYMBOL_NO)
      else if s == SYMBOL_MOD then Sym(SYMBOL_MOD)
      else if s == SYMBOL_NO then Sym(SYMBOL_YES)
      else Not(Sym(s))
  }

  lemma TransformNotValue(a: Expr)
    ensures Transform(Not(a)) == TransformNot(Transform(a))
    ensures Weight(Not(Transform(a))) <= Weight(Not(a))
  {
  }

  method TransformNegation(e: ExprNode, ghost t: Tree) returns (r: ExprNode, ghost t': Tree)
    requires Rep(e, t) && t.TNot?
    modifies Nodes(t)
    ensures Rep(r, t') && Value(t') == TransformNot(Value(t.arg)) && fresh(Nodes(t') - Nodes(t))
    decreases Weight(Value(t)), 1, 0
  {
    r, t' := e, t;
    var tmp := e.left.node;
    match tmp.kind {
      case ENot =>
        assert Value(t) == Not(Value(t.arg)) && Value(t.arg) == Not(Value(t.arg.arg));
        assert Weight(Value(t)) == 2 * Weight(Value(t.arg)) && Weight(Value(t.arg)) == 2 * Weight(Value(t.arg.arg));
        r, t' := TransformNode(tmp.left.node, t.arg.arg);
        assert Value(t') == TransformNot(Value(t.arg));
      case ECompare(rel) =>
        tmp.kind := ECompare(Opposite(rel));
        r, t' := tmp, TCompare(tmp, Opposite(rel), t.arg.lhs, t.arg.rhs);
        assert Value(t') == TransformNot(Value(t.arg));
      case EOp(_) =>
        DeMorganWeight(t.arg.op, Value(t.arg.l), Value(t.arg.r));
        assert Value(t) == Not(Bin(t.arg.op, Value(t.arg.l), Value(t.arg.r)));
        ghost var pushed := PushNegation(e, t);
        NodesAllocated(pushed);
        r, t' := TransformNode(e, pushed);
        assert Value(t') == TransformNot(Value(t.arg));
      case ESymbol =>
        r, t' := NegateConstant(e, t);
    }
  }

  method NegateConstant(e: ExprNode, ghost t: Tree) returns (r: ExprNode, ghost t': Tree)
    requires Rep(e, t) && t.TNot? && t.arg.TSym?
    modifies Nodes(t)
    ensures Rep(r, t') && Value(t') == TransformNot(Value(t.arg)) && Nodes(t') <= Nodes(t)
  {
    r, t' := e, t;
    var tmp := e.left.node;
    var s := tmp.left.sym;
    if s == SYMBOL_YES || s == SYMBOL_MOD || s == SYMBOL_NO {
      var negated := if s == SYMBOL_YES then SYMBOL_NO else if s == SYMBOL_NO then SYMBOL_YES else SYMBOL_MOD;
      tmp.left := Name(negated);
      r, t' := tmp, TSym(tmp, negated);
    }
  }

  // ----- expr_eliminate_eq and expr_eq -----

  /** Two expressions without a common node. */
  ghost predicate Two(e1: ExprNode, t1: Tree, e2: ExprNode, t2: Tree)
    reads Nodes(t1), Nodes(t2)
  {
    Rep(e1, t1) && Rep(e2, t2) && Nodes(t1) !! Nodes(t2)
  }

  ghost predicate IsTop(t: Tree, op: Op) {
    t.TBin? && t.op == op
  }

  /** __expr_eliminate_eq: two equal leaves are freed and replaced by new ones. */
  method EliminateLeaves(op: Op, e1: ExprNode, e2: ExprNode, ghost t1: Tree, ghost t2: Tree)
    returns (r1: ExprNode, r2: ExprNode, ghost u1: Tree, ghost u2: Tree)
    requires Two(e1, t1, e2, t2)
    modifies Nodes(t1), Nodes(t2)
    ensures Two(r1, u1, r2, u2)
    ensures forall n :: n in Nodes(u1) ==> n in Nodes(t1) || fresh(n)
    ensures forall n :: n in Nodes(u2) ==> n in Nodes(t2) || fresh(n)
    ensures (Value(u1), Value(u2)) == CancelLeaves(op, Value(t1), Value(t2))
    decreases Expressions.Size(Value(t1)) + Expressions.Size(Value(t2)), if IsTop(t1, op) || IsTop(t2, op) then 1 else 4
  {
    r1, r2 := e1, e2;
    if e1.kind == EOp(op) {
      r2, u1, u2 := EliminateInFirst(op, e1, e2, t1, t2);
    } else if e2.kind == EOp(op) {
      r1, u1, u2 := EliminateInSecond(op, e1, e2, t1, t2);
    } else {
      r1, r2, u1, u2 := EliminateOperands(op, e1, e2, t1, t2);
    }
  }

  /** Two operands, neither of them of the given operator. */
  method EliminateOperands(op: Op, e1: ExprNode, e2: ExprNode, ghost t1: Tree, ghost t2: Tree)
    returns (r1: ExprNode, r2: ExprNode, ghost u1: Tree, ghost u2: Tree)
    requires Two(e1, t1, e2, t2) && e1.kind != EOp(op) && e2.kind != EOp(op)
    ensures Two(r1, u1, r2, u2)
    ensures forall n :: n in Nodes(u1) ==> n in Nodes(t1) || fresh(n)
    ensures forall n :: n in Nodes(u2) ==> n in Nodes(t2) || fresh(n)
    ensures (Value(u1), Value(u2)) == CancelLeaves(op, Value(t1), Value(t2))
    decreases Expressions.Size(Value(t1)) + Expressions.Size(Value(t2)), 4, 0
  {
    r1, r2, u1, u2 := e1, e2, t1, t2;
    if e1.kind.ESymbol? && e2.kind.ESymbol? && e1.left.sym == e2.left.sym
       && (e1.left.sym == SYMBOL_YES || e1.left.sym == SYMBOL_NO) {
      return;
    }
    NodesAllocated(t1);
    NodesAllocated(t2);
    var same := ExprEq(e1, e2, t1, t2);
    if same {
      r1 := new ExprNode(ESymbol, Name(Identity(op)), NoData);
      r2 := new ExprNode(ESymbol, Name(Identity(op)), NoData);
      u1, u2 := TSym(r1, Identity(op)), TSym(r2, Identity(op));
    }
  }

  lemma CancelInFirst(op: Op, a: Expr, b: Expr, e2: Expr, f: (Expr, Expr), g: (Expr, Expr))
    requires f == CancelLeaves(op, a, e2) && g == CancelLeaves(op, b, f.1)
    ensures CancelLeaves(op, Bin(op, a, b), e2) == (Bin(op, f.0, g.0), g.1)
  {
  }

  lemma CancelInSecond(op: Op, e1: Expr, a: Expr, b: Expr, f: (Expr, Expr), g: (Expr, Expr))
    requires !IsOp(e1, op) && f == CancelLeaves(op, e1, a) && g == CancelLeaves(op, f.0, b)
    ensures CancelLeaves(op, e1, Bin(op, a, b)) == (g.0, Bin(op, f.1, g.1))
  {
  }

  lemma CancelShrinks(op: Op, e1: Expr, e2: Expr, r1: Expr, r2: Expr)
    ensures (r1, r2) == CancelLeaves(op, e1, e2) ==>
      Expressions.Size(r1) <= Expressions.Size(e1) && Expressions.Size(r2) <= Expressions.Size(e2)
  {
  }

  /** A node and one of its operands, while the other one and another tree are rewritten. */
  ghost predicate Aside(e: ExprNode, l: ExprNode, tl: Tree, t1: Tree, t2: Tree)
    reads Nodes(tl)
  {
    && Rep(l, tl) && Nodes(tl) !! Nodes(t1) && Nodes(tl) !! Nodes(t2)
    && e !in Nodes(tl) && e !in Nodes(t1) && e !in Nodes(t2)
  }

  /** __expr_eliminate_eq on two trees, one of which is the other operand of `e`. */
  method EliminateBeside(op: Op, ghost e: ExprNode, e1: ExprNode, e2: ExprNode, ghost t1: Tree, ghost t2: Tree,
                         ghost l: ExprNode, ghost tl: Tree)
    returns (r1: ExprNode, r2: ExprNode, ghost u1: Tree, ghost u2: Tree)
    requires Two(e1, t1, e2, t2) && Aside(e, l, tl, t1, t2)
    modifies Nodes(t1), Nodes(t2)
    ensures Two(r1, u1, r2, u2)
    ensures forall n :: n in Nodes(u1) ==> n in Nodes(t1) || fresh(n)
    ensures forall n :: n in Nodes(u2) ==> n in Nodes(t2) || fresh(n)
    ensures (Value(u1), Value(u2)) == CancelLeaves(op, Value(t1), Value(t2)) && Aside(e, l, tl, u1, u2)
    decreases Expressions.Size(Value(t1)) + Expressions.Size(Value(t2)), 5
  {
    NodesAllocated(tl);
    r1, r2, u1, u2 := EliminateLeaves(op, e1, e2, t1, t2);
    NodesAllocated(u1);
    NodesAllocated(u2);
  }

  /** The operands are stored again, apart from the other tree. */
  method StoreApart(e: ExprNode, l: ExprNode, r: ExprNode, ghost e2: ExprNode, ghost op: Op, ghost tl: Tree,
                    ghost tr: Tree, ghost t2: Tree)
    requires e.kind == EOp(op) && Two(r, tr, e2, t2) && Aside(e, l, tl, tr, t2)
    modifies e
    ensures Two(e, TBin(e, op, tl, tr), e2, t2)
  {
    NodesAllocated(t2);
    StoreOperands(e, l, r, op, tl, tr);
  }

  /** The second operand of a node in the first tree, after its first one; then both are stored again. */
  method EliminateRestOfFirst(op: Op, e: ExprNode, l: ExprNode, right: ExprNode, e2: ExprNode, ghost tl: Tree,
                              ghost t: Tree, ghost t2: Tree)
    returns (r2: ExprNode, ghost tr: Tree, ghost u2: Tree)
    requires e.kind == EOp(op) && Two(l, tl, e2, t2) && Aside(e, right, t, tl, t2)
    modifies e, Nodes(t), Nodes(t2)
    ensures Two(e, TBin(e, op, tl, tr), r2, u2)
    ensures forall n :: n in Nodes(tr) ==> n in Nodes(t) || fresh(n)
    ensures forall n :: n in Nodes(u2) ==> n in Nodes(t2) || fresh(n)
    ensures (Value(tr), Value(u2)) == CancelLeaves(op, Value(t), Value(t2))
    decreases Expressions.Size(Value(t)) + Expressions.Size(Value(t2)), 6
  {
    var r;
    r, r2, tr, u2 := EliminateBeside(op, e, right, e2, t, t2, l, tl);
    StoreApart(e, l, r, r2, op, tl, tr, u2);
  }

  /** The two operands of a node, and another tree. */
  lemma PartsOf(op: Op, e: ExprNode, t: Tree, e2: ExprNode, t2: Tree)
    requires IsTop(t, op) && Rep(e, t) && Rep(e2, t2) && Nodes(t) !! Nodes(t2)
    ensures e.kind == EOp(op) && e.left == Child(t.l.top) && e.right == Child(t.r.top) && e in Nodes(t)
    ensures Two(t.l.top, t.l, e2, t2) && Aside(e, t.r.top, t.r, t.l, t2)
    ensures Nodes(t.l) <= Nodes(t) && Nodes(t.r) <= Nodes(t)
  {
  }

  /** Both operands of a node in the first tree. */
  method EliminateBothInFirst(op: Op, e: ExprNode, left: ExprNode, right: ExprNode, e2: ExprNode, ghost a: Tree,
                              ghost b: Tree, ghost t2: Tree)
    returns (r2: ExprNode, ghost tl: Tree, ghost tr: Tree, ghost f: Tree, ghost u2: Tree)
    requires e.kind == EOp(op) && Two(left, a, e2, t2) && Aside(e, right, b, a, t2)
    modifies e, Nodes(a), Nodes(b), Nodes(t2)
    ensures Two(e, TBin(e, op, tl, tr), r2, u2)
    ensures forall n :: n in Nodes(tl) ==> n in Nodes(a) || fresh(n)
    ensures forall n :: n in Nodes(tr) ==> n in Nodes(b) || fresh(n)
    ensures forall n :: n in Nodes(u2) ==> n in Nodes(t2) || fresh(n)
    ensures (Value(tl), Value(f)) == CancelLeaves(op, Value(a), Value(t2))
    ensures (Value(tr), Value(u2)) == CancelLeaves(op, Value(b), Value(f))
    decreases Expressions.Size(Value(a)) + Expressions.Size(Value(b)) + Expressions.Size(Value(t2)), 6
  {
    var l, f2;
    l, f2, tl, f := EliminateBeside(op, e, left, e2, a, t2, right, b);
    CancelShrinks(op, Value(a), Value(t2), Value(tl), Value(f));
    r2, tr, u2 := EliminateRestOfFirst(op, e, l, right, f2, tl, b, f);
    NodesAllocated(tr);
    NodesAllocated(u2);
  }

  method EliminateInFirst(op: Op, e1: ExprNode, e2: ExprNode, ghost t1: Tree, ghost t2: Tree)
    returns (r2: ExprNode, ghost u1: Tree, ghost u2: Tree)
    requires IsTop(t1, op) && Two(e1, t1, e2, t2)
    modifies Nodes(t1), Nodes(t2)
    ensures Two(e1, u1, r2, u2)
    ensures forall n :: n in Nodes(u1) ==> n in Nodes(t1) || fresh(n)
    ensures forall n :: n in Nodes(u2) ==> n in Nodes(t2) || fresh(n)
    ensures (Value(u1), Value(u2)) == CancelLeaves(op, Value(t1), Value(t2))
    decreases Expressions.Size(Value(t1)) + Expressions.Size(Value(t2)), 0
  {
    PartsOf(op, e1, t1, e2, t2);
    ghost var tl, tr, f;
    r2, tl, tr, f, u2 := EliminateBothInFirst(op, e1, e1.left.node, e1.right.node, e2, t1.l, t1.r, t2);
    u1 := TBin(e1, op, tl, tr);
    NodesAllocated(u1);
    CancelInFirst(op, Value(t1.l), Value(t1.r), Value(t2), (Value(tl), Value(f)), (Value(tr), Value(u2)));
  }

  /** The second operand of a node in the second tree. */
  method EliminateRestOfSecond(op: Op, e: ExprNode, e1: ExprNode, l: ExprNode, right: ExprNode, ghost tl: Tree,
                               ghost t1: Tree, ghost t: Tree)
    returns (r1: ExprNode, ghost u1: Tree, ghost tr: Tree)
    requires e.kind == EOp(op) && Two(e1, t1, l, tl) && Aside(e, right, t, t1, tl)
    modifies e, Nodes(t1), Nodes(t)
    ensures Two(r1, u1, e, TBin(e, op, tl, tr))
    ensures forall n :: n in Nodes(u1) ==> n in Nodes(t1) || fresh(n)
    ensures forall n :: n in Nodes(tr) ==> n in Nodes(t) || fresh(n)
    ensures (Value(u1), Value(tr)) == CancelLeaves(op, Value(t1), Value(t))
    decreases Expressions.Size(Value(t1)) + Expressions.Size(Value(t)), 6
  {
    var r;
    r1, r, u1, tr := EliminateBeside(op, e, e1, right, t1, t, l, tl);
    StoreApart(e, l, r, r1, op, tl, tr, u1);
  }

  /** Both operands of a node in the second tree. */
  method EliminateBothInSecond(op: Op, e: ExprNode, e1: ExprNode, left: ExprNode, right: ExprNode, ghost t1: Tree,
                               ghost a: Tree, ghost b: Tree)
    returns (r1: ExprNode, ghost f: Tree, ghost u1: Tree, ghost tl: Tree, ghost tr: Tree)
    requires e.kind == EOp(op) && !IsTop(t1, op) && Two(e1, t1, left, a) && Aside(e, right, b, t1, a)
    modifies e, Nodes(t1), Nodes(a), Nodes(b)
    ensures Two(r1, u1, e, TBin(e, op, tl, tr))
    ensures forall n :: n in Nodes(u1) ==> n in Nodes(t1) || fresh(n)
    ensures forall n :: n in Nodes(tl) ==> n in Nodes(a) || fresh(n)
    ensures forall n :: n in Nodes(tr) ==> n in Nodes(b) || fresh(n)
    ensures (Value(f), Value(tl)) == CancelLeaves(op, Value(t1), Value(a))
    ensures (Value(u1), Value(tr)) == CancelLeaves(op, Value(f), Value(b))
    decreases Expressions.Size(Value(t1)) + Expressions.Size(Value(a)) + Expressions.Size(Value(b)), 6
  {
    var f1, l;
    f1, l, f, tl := EliminateBeside(op, e, e1, left, t1, a, right, b);
    CancelShrinks(op, Value(t1), Value(a), Value(f), Value(tl));
    r1, u1, tr := EliminateRestOfSecond(op, e, f1, l, right, tl, f, b);
    NodesAllocated(tr);
    NodesAllocated(u1);
  }

  method EliminateInSecond(op: Op, e1: ExprNode, e2: ExprNode, ghost t1: Tree, ghost t2: Tree)
    returns (r1: ExprNode, ghost u1: Tree, ghost u2: Tree)
    requires !IsTop(t1, op) && IsTop(t2, op) && Two(e1, t1, e2, t2)
    modifies Nodes(t1), Nodes(t2)
    ensures Two(r1, u1, e2, u2)
    ensures forall n :: n in Nodes(u1) ==> n in Nodes(t1) || fresh(n)
    ensures forall n :: n in Nodes(u2) ==> n in Nodes(t2) || fresh(n)
    ensures (Value(u1), Value(u2)) == CancelLeaves(op, Value(t1), Value(t2))
    decreases Expressions.Size(Value(t1)) + Expressions.Size(Value(t2)), 0
  {
    PartsOf(op, e2, t2, e1, t1);
    ghost var tl, tr, f;
    r1, f, u1, tl, tr := EliminateBothInSecond(op, e2, e1, e2.left.node, e2.right.node, t1, t2.l, t2.r);
    u2 := TBin(e2, op, tl, tr);
    NodesAllocated(u2);
    CancelInSecond(op, Value(t1), Value(t2.l), Value(t2.r), (Value(f), Value(tl)), (Value(u1), Value(tr)));
  }

  /** The operator of the first expression is looked at, then that of the second one. */
  ghost function CancelFirst(e1: Expr, e2: Expr): (Expr, Expr) {
    if e1.Bin? then CancelLeaves(e1.op, e1, e2) else (e1, e2)
  }

  ghost function CancelSecond(f1: Expr, f2: Expr): (Expr, Expr) {
    if f2.Bin? && !IsOp(f1, f2.op) then CancelLeaves(f2.op, f1, f2) else (f1, f2)
  }

  lemma CancelInSteps(e1: Expr, e2: Expr)
    ensures var f := CancelFirst(e1, e2);
      var g := CancelSecond(f.0, f.1);
      && CancelCommon(e1, e2) == (FoldConstants(g.0), FoldConstants(g.1))
      && Expressions.Size(f.0) <= Expressions.Size(e1) && Expressions.Size(f.1) <= Expressions.Size(e2)
  {
  }

  /** expr_eliminate_eq on two expressions. */
  method EliminateEq(e1: ExprNode, e2: ExprNode, ghost t1: Tree, ghost t2: Tree)
    returns (r1: ExprNode, r2: ExprNode, ghost u1: Tree, ghost u2: Tree)
    requires Two(e1, t1, e2, t2)
    modifies Nodes(t1), Nodes(t2)
    ensures Two(r1, u1, r2, u2)
    ensures forall n :: n in Nodes(u1) ==> n in Nodes(t1) || fresh(n)
    ensures forall n :: n in Nodes(u2) ==> n in Nodes(t2) || fresh(n)
    ensures (Value(u1), Value(u2)) == CancelCommon(Value(t1), Value(t2))
    decreases Expressions.Size(Value(t1)) + Expressions.Size(Value(t2)), 2, 1
  {
    CancelInSteps(Value(t1), Value(t2));
    var f1, f2, v1, v2 := EliminateByFirst(e1, e2, t1, t2);
    NodesAllocated(v1);
    NodesAllocated(v2);
    r1, r2, u1, u2 := EliminateRemaining(f1, f2, v1, v2);
    NodesAllocated(u1);
    NodesAllocated(u2);
  }

  method EliminateByFirst(e1: ExprNode, e2: ExprNode, ghost t1: Tree, ghost t2: Tree)
    returns (r1: ExprNode, r2: ExprNode, ghost u1: Tree, ghost u2: Tree)
    requires Two(e1, t1, e2, t2)
    modifies Nodes(t1), Nodes(t2)
    ensures Two(r1, u1, r2, u2)
    ensures forall n :: n in Nodes(u1) ==> n in Nodes(t1) || fresh(n)
    ensures forall n :: n in Nodes(u2) ==> n in Nodes(t2) || fresh(n)
    ensures (Value(u1), Value(u2)) == CancelFirst(Value(t1), Value(t2))
    decreases Expressions.Size(Value(t1)) + Expressions.Size(Value(t2)), 2, 0
  {
    r1, r2, u1, u2 := e1, e2, t1, t2;
    if e1.kind.EOp? {
      r1, r2, u1, u2 := EliminateLeaves(e1.kind.op, e1, e2, t1, t2);
    }
  }

  method EliminateRemaining(e1: ExprNode, e2: ExprNode, ghost t1: Tree, ghost t2: Tree)
    returns (r1: ExprNode, r2: ExprNode, ghost u1: Tree, ghost u2: Tree)
    requires Two(e1, t1, e2, t2)
    modifies Nodes(t1), Nodes(t2)
    ensures Two(r1, u1, r2, u2)
    ensures forall n :: n in Nodes(u1) ==> n in Nodes(t1) || fresh(n)
    ensures forall n :: n in Nodes(u2) ==> n in Nodes(t2) || fresh(n)
    ensures var f := CancelSecond(Value(t1), Value(t2));
      Value(u1) == FoldConstants(f.0) && Value(u2) == FoldConstants(f.1)
    decreases Expressions.Size(Value(t1)) + Expressions.Size(Value(t2)), 2, 0, 1
  {
    ghost var v1, v2;
    r1, r2, v1, v2 := EliminateBySecond(e1, e2, t1, t2);
    NodesAllocated(v1);
    NodesAllocated(v2);
    u1, u2 := EliminateBoth(r1, r2, v1, v2);
  }

  method EliminateBySecond(e1: ExprNode, e2: ExprNode, ghost t1: Tree, ghost t2: Tree)
    returns (r1: ExprNode, r2: ExprNode, ghost u1: Tree, ghost u2: Tree)
    requires Two(e1, t1, e2, t2)
    modifies Nodes(t1), Nodes(t2)
    ensures Two(r1, u1, r2, u2)
    ensures forall n :: n in Nodes(u1) ==> n in Nodes(t1) || fresh(n)
    ensures forall n :: n in Nodes(u2) ==> n in Nodes(t2) || fresh(n)
    ensures (Value(u1), Value(u2)) == CancelSecond(Value(t1), Value(t2))
    decreases Expressions.Size(Value(t1)) + Expressions.Size(Value(t2)), 2, 0, 0
  {
    r1, r2, u1, u2 := e1, e2, t1, t2;
    if e1.kind != e2.kind && e2.kind.EOp? {
      r1, r2, u1, u2 := EliminateLeaves(e2.kind.op, e1, e2, t1, t2);
    }
  }

  method EliminateBoth(e1: ExprNode, e2: ExprNode, ghost t1: Tree, ghost t2: Tree)
    returns (ghost u1: Tree, ghost u2: Tree)
    requires Two(e1, t1, e2, t2)
    modifies Nodes(t1), Nodes(t2)
    ensures Two(e1, u1, e2, u2) && Nodes(u1) <= Nodes(t1) && Nodes(u2) <= Nodes(t2)
    ensures Value(u1) == FoldConstants(Value(t1)) && Value(u2) == FoldConstants(Value(t2))
  {
    NodesAllocated(t1);
    NodesAllocated(t2);
    u1 := EliminateYn(e1, t1);
    u2 := EliminateYn(e2, t2);
  }

  /** expr_eq, which works on copies and leaves its arguments alone. */
  method ExprEq(e1: ExprNode, e2: ExprNode, ghost t1: Tree, ghost t2: Tree) returns (same: bool)
    requires Rep(e1, t1) && Rep(e2, t2)
    ensures same == Same(Value(t1), Value(t2))
    decreases Expressions.Size(Value(t1)) + Expressions.Size(Value(t2)), 3
  {
    if e1.kind != e2.kind {
      return false;
    }
    match e1.kind {
      case ECompare(_) =>
        same := e1.left.sym == e2.left.sym && e1.right.sym == e2.right.sym;
      case ESymbol =>
        same := e1.left.sym == e2.left.sym;
      case ENot =>
        same := ExprEq(e1.left.node, e2.left.node, t1.arg, t2.arg);
      case EOp(_) =>
        var c1, c2, u1, u2 := CancelCopies(e1, e2, t1, t2);
        same := SameSymbol(c1, c2, u1, u2);
    }
  }

  /** What is left of copies of two trees. */
  method CancelCopies(e1: ExprNode, e2: ExprNode, ghost t1: Tree, ghost t2: Tree)
    returns (c1: ExprNode, c2: ExprNode, ghost u1: Tree, ghost u2: Tree)
    requires Rep(e1, t1) && Rep(e2, t2)
    ensures Rep(c1, u1) && Rep(c2, u2) && (Value(u1), Value(u2)) == CancelCommon(Value(t1), Value(t2))
    decreases Expressions.Size(Value(t1)) + Expressions.Size(Value(t2)), 3, 0
  {
    NodesAllocated(t2);
    c1, u1 := Copy(e1, t1);
    NodesAllocated(u1);
    c2, u2 := Copy(e2, t2);
    NodesAllocated(u2);
    c1, c2, u1, u2 := EliminateEq(c1, c2, u1, u2);
  }

  method SameSymbol(e1: ExprNode, e2: ExprNode, ghost t1: Tree, ghost t2: Tree) returns (same: bool)
    requires Rep(e1, t1) && Rep(e2, t2)
    ensures same == (Value(t1).Sym? && Value(t2).Sym? && Value(t1) == Value(t2))
  {
    same := e1.kind.ESymbol? && e2.kind.ESymbol? && e1.left.sym == e2.left.sym;
  }
}
