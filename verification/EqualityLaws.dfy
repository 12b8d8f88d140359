/** What expr_eq decides, independently of how it goes about it: two expressions are equal exactly if they
    have the same operands on each level, in whatever order and grouping. */
module EqualityLaws {
  import opened Expressions
  import opened ExprEquality
  import opened ExprDuplicates

  // ----- expressions up to order and grouping -----

  /** An expression as the collection of its operands, level by level. */
  datatype Canon =
    | CSym(sym: Symbol)
    | CCompare(rel: Relation, lhs: Symbol, rhs: Symbol)
    | CNot(arg: Canon)
    | CBin(op: Op, operands: multiset<Canon>)

  ghost function Canonical(e: Expr): Canon
    decreases Size(e), 1
  {
    match e
    case Sym(s) => CSym(s)
    case Compare(rel, l, r) => CCompare(rel, l, r)
    case Not(a) => CNot(Canonical(a))
    case Bin(op, l, r) => CBin(op, LevelOperands(op, l) + LevelOperands(op, r))
  }

  /** The operands of a level, without those that the operator ignores. */
  ghost function LevelOperands(op: Op, e: Expr): multiset<Canon>
    decreases Size(e), 2
  {
    if IsOp(e, op) then LevelOperands(op, e.left) + LevelOperands(op, e.right)
    else if e == Sym(Identity(op)) then multiset{}
    else multiset{Canonical(e)}
  }

  /** The constants y and n do not stand as operands. */
  predicate Unconditional(e: Expr) {
    match e
    case Sym(s) => s != SYMBOL_YES && s != SYMBOL_NO
    case Compare(_, _, _) => true
    case Not(a) => Unconditional(a)
    case Bin(_, l, r) => Unconditional(l) && Unconditional(r)
  }

  /** The operands of a level are free of constants, or have been taken out. */
  predicate Cancelled(op: Op, e: Expr) {
    if IsOp(e, op) then Cancelled(op, e.left) && Cancelled(op, e.right)
    else e == Sym(Identity(op)) || Unconditional(e)
  }

  lemma {:induction false} UnconditionalIsCancelled(op: Op, e: Expr)
    requires Unconditional(e)
    ensures Cancelled(op, e)
  {
    if IsOp(e, op) {
      UnconditionalIsCancelled(op, e.left);
      UnconditionalIsCancelled(op, e.right);
    }
  }

  // ----- what is taken out -----

  lemma DifferenceInFirst(a: multiset<Canon>, b: multiset<Canon>, e: multiset<Canon>)
    ensures (a - e) + (b - (e - a)) == (a + b) - e
    ensures (e - a) - b == e - (a + b)
  {
  }

  /** The operands of two levels, before and after. */
  ghost predicate Difference(op: Op, e1: Expr, e2: Expr, r1: Expr, r2: Expr) {
    && Cancelled(op, r1) && Cancelled(op, r2)
    && IsOp(r1, op) == IsOp(e1, op) && IsOp(r2, op) == IsOp(e2, op)
    && LevelOperands(op, r1) == LevelOperands(op, e1) - LevelOperands(op, e2)
    && LevelOperands(op, r2) == LevelOperands(op, e2) - LevelOperands(op, e1)
  }

  lemma DifferenceBelowFirst(op: Op, a: Expr, b: Expr, e2: Expr, l: Expr, f: Expr, r: Expr, g: Expr)
    requires Difference(op, a, e2, l, f) && Difference(op, b, f, r, g)
    ensures Difference(op, Bin(op, a, b), e2, Bin(op, l, r), g)
  {
    DifferenceInFirst(LevelOperands(op, a), LevelOperands(op, b), LevelOperands(op, e2));
  }

  lemma DifferenceBelowSecond(op: Op, e1: Expr, a: Expr, b: Expr, f: Expr, l: Expr, g: Expr, r: Expr)
    requires Difference(op, e1, a, f, l) && Difference(op, f, b, g, r)
    ensures Difference(op, e1, Bin(op, a, b), g, Bin(op, l, r))
  {
    DifferenceInFirst(LevelOperands(op, a), LevelOperands(op, b), LevelOperands(op, e1));
  }

  /** __expr_eliminate_eq takes out exactly what the two levels share, each operand as often as both have
      it. */
  lemma {:induction false} CancelLeavesExact(op: Op, e1: Expr, e2: Expr)
    requires Cancelled(op, e1) && Cancelled(op, e2)
    ensures Difference(op, e1, e2, CancelLeaves(op, e1, e2).0, CancelLeaves(op, e1, e2).1)
    decreases Size(e1) + Size(e2), if IsOp(e1, op) || IsOp(e2, op) then 0 else 4
  {
    if IsOp(e1, op) {
      var (l, f) := CancelLeaves(op, e1.left, e2);
      var (r, g) := CancelLeaves(op, e1.right, f);
      CancelLeavesExact(op, e1.left, e2);
      CancelLeavesExact(op, e1.right, f);
      DifferenceBelowFirst(op, e1.left, e1.right, e2, l, f, r, g);
    } else if IsOp(e2, op) {
      var (f, l) := CancelLeaves(op, e1, e2.left);
      var (g, r) := CancelLeaves(op, f, e2.right);
      CancelLeavesExact(op, e1, e2.left);
      CancelLeavesExact(op, f, e2.right);
      DifferenceBelowSecond(op, e1, e2.left, e2.right, f, l, g, r);
    } else if e1 == Sym(Identity(op)) || e2 == Sym(Identity(op)) {
      NothingToCancel(op, e1, e2);
    } else {
      SameExact(e1, e2);
      CancelOperand(op, e1, e2);
    }
  }

  lemma NothingToCancel(op: Op, e1: Expr, e2: Expr)
    requires Cancelled(op, e1) && Cancelled(op, e2) && !IsOp(e1, op) && !IsOp(e2, op)
    requires e1 == Sym(Identity(op)) || e2 == Sym(Identity(op))
    ensures Difference(op, e1, e2, CancelLeaves(op, e1, e2).0, CancelLeaves(op, e1, e2).1)
  {
    assert e1 != e2 ==> !Same(e1, e2);
    assert CancelLeaves(op, e1, e2) == (e1, e2);
  }

  lemma CancelOperand(op: Op, e1: Expr, e2: Expr)
    requires Unconditional(e1) && Unconditional(e2) && !IsOp(e1, op) && !IsOp(e2, op)
    requires Same(e1, e2) <==> Canonical(e1) == Canonical(e2)
    ensures Difference(op, e1, e2, CancelLeaves(op, e1, e2).0, CancelLeaves(op, e1, e2).1)
  {
    OneByOne(op, e1, e2);
    if Same(e1, e2) {
      BothTakenOut(op, e1, e2);
    } else {
      NothingTakenOut(op, e1, e2);
    }
  }

  lemma NothingTakenOut(op: Op, e1: Expr, e2: Expr)
    requires Unconditional(e1) && Unconditional(e2) && !IsOp(e1, op) && !IsOp(e2, op) && Canonical(e1) != Canonical(e2)
    ensures Difference(op, e1, e2, e1, e2)
  {
    UnconditionalIsCancelled(op, e1);
    UnconditionalIsCancelled(op, e2);
    OneOperand(Canonical(e1), Canonical(e2));
    assert LevelOperands(op, e1) == multiset{Canonical(e1)} && LevelOperands(op, e2) == multiset{Canonical(e2)};
  }

  lemma BothTakenOut(op: Op, e1: Expr, e2: Expr)
    requires Unconditional(e1) && Unconditional(e2) && !IsOp(e1, op) && !IsOp(e2, op) && Canonical(e1) == Canonical(e2)
    ensures Difference(op, e1, e2, Sym(Identity(op)), Sym(Identity(op)))
  {
    assert LevelOperands(op, e1) == multiset{Canonical(e1)} == LevelOperands(op, e2);
  }

  lemma OneOperand(a: Canon, b: Canon)
    ensures multiset{a} - multiset{b} == if a == b then multiset{} else multiset{a}
    ensures multiset{b} - multiset{a} == if a == b then multiset{} else multiset{b}
  {
  }

  /** A level after expr_eliminate_yn: it has these operands, and no constants unless nothing is left. */
  ghost predicate Folded(op: Op, operands: multiset<Canon>, r: Expr) {
    && LevelOperands(op, r) == operands
    && (if operands == multiset{} then r == Sym(Identity(op)) else Unconditional(r))
  }

  lemma FoldedIsNoAbsorber(op: Op, operands: multiset<Canon>, r: Expr)
    requires Folded(op, operands, r)
    ensures r != Sym(Absorber(op)) && (r == Sym(Identity(op)) <==> operands == multiset{})
  {
  }

  lemma FoldTwo(op: Op, l: Expr, r: Expr)
    requires FoldConstants(l) != Sym(Absorber(op)) && FoldConstants(r) != Sym(Absorber(op))
    ensures var x, y := FoldConstants(l), FoldConstants(r);
      FoldConstants(Bin(op, l, r)) ==
        if x == Sym(Identity(op)) then y else if y == Sym(Identity(op)) then x else Bin(op, x, y)
  {
  }

  lemma SumOfTwo(a: multiset<Canon>, b: multiset<Canon>)
    ensures a == multiset{} ==> a + b == b
    ensures b == multiset{} ==> a + b == a
    ensures a != multiset{} && b != multiset{} ==> a + b != multiset{}
  {
    if a != multiset{} {
      var c :| c in a;
      assert c in a + b;
    }
  }

  lemma FoldBelow(op: Op, l: Expr, r: Expr)
    requires Folded(op, LevelOperands(op, l), FoldConstants(l)) && Folded(op, LevelOperands(op, r), FoldConstants(r))
    ensures Folded(op, LevelOperands(op, l) + LevelOperands(op, r), FoldConstants(Bin(op, l, r)))
  {
    FoldedIsNoAbsorber(op, LevelOperands(op, l), FoldConstants(l));
    FoldedIsNoAbsorber(op, LevelOperands(op, r), FoldConstants(r));
    FoldTwo(op, l, r);
    SumOfTwo(LevelOperands(op, l), LevelOperands(op, r));
  }

  lemma {:induction false} FoldCancelled(op: Op, e: Expr)
    requires Cancelled(op, e)
    ensures Folded(op, LevelOperands(op, e), FoldConstants(e))
  {
    if IsOp(e, op) {
      FoldCancelled(op, e.left);
      FoldCancelled(op, e.right);
      FoldBelow(op, e.left, e.right);
    } else if e != Sym(Identity(op)) {
      FoldUnconditional(e);
      assert LevelOperands(op, e) == multiset{Canonical(e)};
    }
  }

  lemma {:induction false} FoldUnconditional(e: Expr)
    requires Unconditional(e)
    ensures FoldConstants(e) == e
  {
    match e
    case Bin(_, l, r) =>
      FoldUnconditional(l);
      FoldUnconditional(r);
    case _ =>
  }

  lemma OperandsOfBin(op: Op, l: Expr, r: Expr)
    requires Unconditional(Bin(op, l, r))
    ensures LevelOperands(op, Bin(op, l, r)) != multiset{}
    ensures Canonical(Bin(op, l, r)) == CBin(op, LevelOperands(op, Bin(op, l, r)))
  {
    OperandsExist(op, l);
  }

  lemma {:induction false} OperandsExist(op: Op, e: Expr)
    requires Unconditional(e)
    ensures LevelOperands(op, e) != multiset{}
  {
    if IsOp(e, op) {
      OperandsExist(op, e.left);
    }
  }

  /** expr_eliminate_eq on two levels of the same operator: each of them keeps the operands that the other
      one does not have, or does not have as often. */
  lemma {:induction false} CancelSameOp(e1: Expr, e2: Expr)
    requires e1.Bin? && e2.Bin? && e1.op == e2.op && Unconditional(e1) && Unconditional(e2)
    ensures var m1, m2 := LevelOperands(e1.op, e1), LevelOperands(e1.op, e2);
      Folded(e1.op, m1 - m2, CancelCommon(e1, e2).0) && Folded(e1.op, m2 - m1, CancelCommon(e1, e2).1)
    decreases Size(e1) + Size(e2), 1
  {
    UnconditionalIsCancelled(e1.op, e1);
    UnconditionalIsCancelled(e1.op, e2);
    CancelLeavesExact(e1.op, e1, e2);
    var (f1, f2) := CancelLeaves(e1.op, e1, e2);
    FoldCancelled(e1.op, f1);
    FoldCancelled(e1.op, f2);
  }

  /** expr_eq holds exactly for expressions that have the same operands on each level, in whatever order and
      grouping. */
  lemma {:induction false} SameExact(e1: Expr, e2: Expr)
    requires Unconditional(e1) && Unconditional(e2)
    ensures Same(e1, e2) <==> Canonical(e1) == Canonical(e2)
    decreases Size(e1) + Size(e2), 2
  {
    match (e1, e2)
    case (Not(a1), Not(a2)) => SameExact(a1, a2);
    case (Bin(op1, l1, r1), Bin(op2, l2, r2)) =>
      OperandsOfBin(op1, l1, r1);
      OperandsOfBin(op2, l2, r2);
      if op1 == op2 {
        CancelSameOp(e1, e2);
        SameOperands(LevelOperands(op1, e1), LevelOperands(op1, e2));
      }
    case _ =>
  }

  lemma SameOperands(m1: multiset<Canon>, m2: multiset<Canon>)
    ensures m1 == m2 <==> m1 - m2 == multiset{} && m2 - m1 == multiset{}
    ensures forall c :: !(c in m1 - m2 && c in m2 - m1)
  {
    if m1 - m2 == multiset{} && m2 - m1 == multiset{} {
      forall c
        ensures m1[c] == m2[c]
      {
        assert (m1 - m2)[c] == 0 && (m2 - m1)[c] == 0;
      }
    }
  }

  // ----- every expression equals itself, whatever constants it has -----

  predicate IsConstant(e: Expr) {
    e == Sym(SYMBOL_YES) || e == Sym(SYMBOL_NO)
  }

  /** All operands of the level are constants. */
  predicate AllConstant(op: Op, e: Expr) {
    if IsOp(e, op) then AllConstant(op, e.left) && AllConstant(op, e.right) else IsConstant(e)
  }

  /** The level with all other operands taken out. */
  function Blank(op: Op, e: Expr): (r: Expr)
    ensures AllConstant(op, r) && IsOp(r, op) == IsOp(e, op)
  {
    if IsOp(e, op) then Bin(op, Blank(op, e.left), Blank(op, e.right))
    else if IsConstant(e) then e
    else Sym(Identity(op))
  }

  /** All operands of the level that stand before the path are constants. */
  predicate ConstantBefore(op: Op, e: Expr, p: Path)
    requires OnLevel(op, e, p)
  {
    p == [] ||
    if p[0] then AllConstant(op, e.left) && ConstantBefore(op, e.right, p[1..])
    else ConstantBefore(op, e.left, p[1..])
  }

  lemma {:induction false} ConstantKeeps(op: Op, x: Expr, e: Expr)
    requires !IsOp(x, op) && (IsConstant(x) || AllConstant(op, e))
    ensures CancelLeaves(op, x, e) == (x, e)
  {
    if IsOp(e, op) {
      ConstantKeeps(op, x, e.left);
      ConstantKeeps(op, x, e.right);
    }
  }

  /** An operand meets itself before any other one that could be taken for it. */
  lemma {:induction false} OperandMeetsItself(op: Op, e: Expr, p: Path)
    requires IsLeaf(op, e, p) && ConstantBefore(op, e, p) && Same(At(op, e, p), At(op, e, p))
    ensures var x := At(op, e, p);
      CancelLeaves(op, x, e) == (Blank(op, x), Put(op, e, p, Blank(op, x)))
  {
    var x := At(op, e, p);
    if p != [] {
      if p[0] {
        ConstantKeeps(op, x, e.left);
        OperandMeetsItself(op, e.right, p[1..]);
      } else {
        OperandMeetsItself(op, e.left, p[1..]);
        ConstantKeeps(op, Blank(op, x), e.right);
      }
    }
  }

  lemma {:induction false} PutBefore(op: Op, e: Expr, p: Path, x: Expr)
    requires OnLevel(op, e, p + [false]) && OnLevel(op, e, p) && ConstantBefore(op, e, p) && AllConstant(op, x)
    requires IsOp(At(op, e, p), op)
    ensures var e' := Put(op, e, p + [false], x);
      && OnLevel(op, e', p + [true]) && ConstantBefore(op, e', p + [true])
      && At(op, e', p + [true]) == At(op, e, p).right
      && forall y :: Put(op, e', p + [true], y) == Put(op, e, p, Bin(op, x, y))
  {
    if p == [] {
      assert p + [false] == [false] && p + [true] == [true];
      assert Put(op, e, [false], x) == Bin(op, x, e.right);
      assert At(op, Bin(op, x, e.right), [true]) == At(op, e.right, []);
      assert forall y :: Put(op, Bin(op, x, e.right), [true], y) == Bin(op, x, Put(op, e.right, [], y));
    } else {
      assert (p + [false])[1..] == p[1..] + [false] && (p + [true])[1..] == p[1..] + [true];
      PutBefore(op, if p[0] then e.right else e.left, p[1..], x);
    }
  }

  lemma {:induction false} BeforeFirst(op: Op, e: Expr, p: Path)
    requires OnLevel(op, e, p + [false]) && OnLevel(op, e, p) && ConstantBefore(op, e, p)
    ensures ConstantBefore(op, e, p + [false])
  {
    if p != [] {
      assert (p + [false])[1..] == p[1..] + [false];
      BeforeFirst(op, if p[0] then e.right else e.left, p[1..]);
    }
  }

  /** All operands of a part of a level are taken out of it and out of the level. */
  lemma {:induction false} PartMeetsItself(op: Op, e: Expr, p: Path)
    requires OnLevel(op, e, p) && ConstantBefore(op, e, p)
    ensures var t := At(op, e, p);
      CancelLeaves(op, t, e) == (Blank(op, t), Put(op, e, p, Blank(op, t)))
    decreases Size(At(op, e, p)), if IsOp(At(op, e, p), op) then 0 else 3
  {
    var t := At(op, e, p);
    if IsOp(t, op) {
      ExtendPath(op, e, p, false);
      BeforeFirst(op, e, p);
      PartMeetsItself(op, e, p + [false]);
      PutBefore(op, e, p, Blank(op, t.left));
      PartMeetsItself(op, Put(op, e, p + [false], Blank(op, t.left)), p + [true]);
    } else {
      SameReflexive(t);
      OperandMeetsItself(op, e, p);
    }
  }

  lemma {:induction false} FoldConstant(op: Op, e: Expr)
    requires AllConstant(op, e)
    ensures IsConstant(FoldConstants(e))
  {
    if IsOp(e, op) {
      FoldConstant(op, e.left);
      FoldConstant(op, e.right);
    }
  }

  /** expr_eq holds of every expression and itself. */
  lemma {:induction false} SameReflexive(e: Expr)
    ensures Same(e, e)
    decreases Size(e), 2
  {
    match e
    case Not(a) => SameReflexive(a);
    case Bin(op, _, _) =>
      PartMeetsItself(op, e, []);
      FoldConstant(op, Blank(op, e));
      assert CancelLeaves(op, e, e) == (Blank(op, e), Blank(op, e));
    case _ =>
  }

  // ----- examples of the comment in front of expr_eliminate_eq -----

  /** An operand that is the whole of one expression is taken out of it if and only if it stands on the
      level of the other one. */
  lemma CancelSingle(op: Op, x: Expr, l: Expr, r: Expr)
    requires !x.Bin? && Unconditional(x) && Unconditional(Bin(op, l, r))
    ensures var e := Bin(op, l, r);
      && (CancelCommon(x, e).0 == Sym(Identity(op)) <==> Canonical(x) in LevelOperands(op, e))
      && (CancelCommon(e, x).1 == Sym(Identity(op)) <==> Canonical(x) in LevelOperands(op, e))
  {
    CancelFirst(op, x, Bin(op, l, r));
    CancelSecond(op, Bin(op, l, r), x);
  }

  lemma CancelFirst(op: Op, x: Expr, e: Expr)
    requires !x.Bin? && Unconditional(x) && Unconditional(e) && IsOp(e, op)
    ensures CancelCommon(x, e).0 == Sym(Identity(op)) <==> Canonical(x) in LevelOperands(op, e)
  {
    UnconditionalIsCancelled(op, x);
    UnconditionalIsCancelled(op, e);
    CancelLeavesExact(op, x, e);
    SecondPass(op, x, e);
    SingleLeft(op, x, e, CancelLeaves(op, x, e).0);
  }

  lemma SecondPass(op: Op, x: Expr, e: Expr)
    requires !x.Bin? && IsOp(e, op)
    ensures CancelCommon(x, e).0 == FoldConstants(CancelLeaves(op, x, e).0)
  {
  }

  lemma CancelSecond(op: Op, e: Expr, x: Expr)
    requires !x.Bin? && Unconditional(x) && Unconditional(e) && IsOp(e, op)
    ensures CancelCommon(e, x).1 == Sym(Identity(op)) <==> Canonical(x) in LevelOperands(op, e)
  {
    UnconditionalIsCancelled(op, x);
    UnconditionalIsCancelled(op, e);
    CancelLeavesExact(op, e, x);
    FirstPass(op, e, x);
    SingleLeft(op, x, e, CancelLeaves(op, e, x).1);
  }

  lemma FirstPass(op: Op, e: Expr, x: Expr)
    requires !x.Bin? && IsOp(e, op) && Unconditional(x)
    ensures CancelCommon(e, x).1 == FoldConstants(CancelLeaves(op, e, x).1)
  {
    UnconditionalIsCancelled(op, x);
    NoOperator(op, e, x);
  }

  /** A single operand stays one. */
  lemma {:induction false} NoOperator(op: Op, e: Expr, x: Expr)
    requires !x.Bin?
    ensures !CancelLeaves(op, e, x).1.Bin?
    decreases e
  {
    if IsOp(e, op) {
      NoOperator(op, e.left, x);
      NoOperator(op, e.right, CancelLeaves(op, e.left, x).1);
    }
  }

  lemma SingleLeft(op: Op, x: Expr, e: Expr, a: Expr)
    requires Cancelled(op, a) && LevelOperands(op, a) == multiset{Canonical(x)} - LevelOperands(op, e)
    ensures FoldConstants(a) == Sym(Identity(op)) <==> Canonical(x) in LevelOperands(op, e)
  {
    FoldCancelled(op, a);
    SingleIn(Canonical(x), LevelOperands(op, e));
  }

  lemma SingleIn(c: Canon, m: multiset<Canon>)
    ensures multiset{c} - m == multiset{} <==> c in m
  {
    if c !in m {
      assert c in multiset{c} - m;
    }
  }

  /** A && (B || C) and (C || B) && A cancel to y and y. */
  lemma CancelSwapped(a: Expr, b: Expr, c: Expr)
    requires Unconditional(a) && Unconditional(b) && Unconditional(c)
    ensures var e1, e2 := Bin(AndOp, a, Bin(OrOp, b, c)), Bin(AndOp, Bin(OrOp, c, b), a);
      CancelCommon(e1, e2) == (Sym(SYMBOL_YES), Sym(SYMBOL_YES)) && Same(e1, e2)
  {
    var e1, e2 := Bin(AndOp, a, Bin(OrOp, b, c)), Bin(AndOp, Bin(OrOp, c, b), a);
    SwapOperands(OrOp, b, c);
    assert LevelOperands(AndOp, Bin(OrOp, b, c)) == LevelOperands(AndOp, Bin(OrOp, c, b));
    assert LevelOperands(AndOp, e1) == LevelOperands(AndOp, e2);
    CancelEqual(e1, e2);
  }

  lemma SwapOperands(op: Op, a: Expr, b: Expr)
    ensures Canonical(Bin(op, a, b)) == Canonical(Bin(op, b, a))
  {
    assert LevelOperands(op, a) + LevelOperands(op, b) == LevelOperands(op, b) + LevelOperands(op, a);
  }

  /** Swapping the operands makes no difference to expr_eq. */
  lemma SameSwapped(op: Op, a: Expr, b: Expr)
    requires Unconditional(a) && Unconditional(b)
    ensures Same(Bin(op, a, b), Bin(op, b, a))
  {
    SwapOperands(op, a, b);
    SameExact(Bin(op, a, b), Bin(op, b, a));
  }

  /** Equal levels cancel completely. */
  lemma CancelEqual(e1: Expr, e2: Expr)
    requires e1.Bin? && e2.Bin? && e1.op == e2.op && Unconditional(e1) && Unconditional(e2)
    requires LevelOperands(e1.op, e1) == LevelOperands(e1.op, e2)
    ensures CancelCommon(e1, e2) == (Sym(Identity(e1.op)), Sym(Identity(e1.op))) && Same(e1, e2)
  {
    CancelSameOp(e1, e2);
    SameExact(e1, e2);
  }

  /** A && B && C keeps C beside A && B, which becomes y; A || B || C beside A || B likewise. */
  lemma CancelPart(op: Op, a: Symbol, b: Symbol, c: Symbol)
    requires Unconditional(Sym(a)) && Unconditional(Sym(b)) && Unconditional(Sym(c))
    ensures CancelCommon(Bin(op, Sym(a), Sym(b)), Bin(op, Bin(op, Sym(a), Sym(b)), Sym(c))) ==
      (Sym(Identity(op)), Sym(c))
  {
    var e1, e2 := Bin(op, Sym(a), Sym(b)), Bin(op, Bin(op, Sym(a), Sym(b)), Sym(c));
    SymbolOperand(op, c);
    PartLeft(LevelOperands(op, e1), CSym(c));
    CancelSameOp(e1, e2);
    OneLeft(op, CancelCommon(e1, e2).1, c);
  }

  lemma SymbolOperand(op: Op, s: Symbol)
    requires Unconditional(Sym(s))
    ensures LevelOperands(op, Sym(s)) == multiset{CSym(s)}
  {
  }

  lemma PartLeft(m: multiset<Canon>, c: Canon)
    ensures m - (m + multiset{c}) == multiset{} && (m + multiset{c}) - m == multiset{c}
  {
  }

  lemma OneLeft(op: Op, r: Expr, c: Symbol)
    requires Folded(op, multiset{CSym(c)}, r)
    ensures r == Sym(c)
  {
    if IsOp(r, op) {
      OperandsExist(op, r.left);
      OperandsExist(op, r.right);
      TwoOperands(LevelOperands(op, r.left), LevelOperands(op, r.right), CSym(c));
    } else {
      assert Canonical(r) in multiset{CSym(c)};
    }
  }

  lemma TwoOperands(a: multiset<Canon>, b: multiset<Canon>, c: Canon)
    requires a != multiset{} && b != multiset{}
    ensures a + b != multiset{c}
  {
    assert |a + b| == |a| + |b| && |a| > 0 && |b| > 0;
  }

  // ----- with constants -----

  /** Two operands on each level: at most the first of the one equals the first of the other, or the
      second the second. */
  lemma TwoByTwo(op: Op, a: Expr, b: Expr, c: Expr, d: Expr)
    requires !IsOp(a, op) && !IsOp(b, op) && !IsOp(c, op) && !IsOp(d, op)
    requires !IsConstant(a) && !IsConstant(b) && !IsConstant(c) && !IsConstant(d)
    requires !Same(a, d) && !Same(b, c)
    ensures var n := Sym(Identity(op));
      CancelLeaves(op, Bin(op, a, b), Bin(op, c, d)) ==
        (Bin(op, if Same(a, c) then n else a, if Same(b, d) then n else b),
         Bin(op, if Same(a, c) then n else c, if Same(b, d) then n else d))
  {
    var x := if Same(a, c) then Sym(Identity(op)) else a;
    var y := if Same(a, c) then Sym(Identity(op)) else c;
    FirstOfTwo(op, a, c, d);
    assert CancelLeaves(op, b, y) == (b, y);
    assert CancelLeaves(op, b, Bin(op, y, d)) ==
      (CancelLeaves(op, b, d).0, Bin(op, y, CancelLeaves(op, b, d).1));
    OneByOne(op, b, d);
  }

  lemma OneByOne(op: Op, a: Expr, c: Expr)
    requires !IsOp(a, op) && !IsOp(c, op) && !IsConstant(a)
    ensures CancelLeaves(op, a, c) == if Same(a, c) then (Sym(Identity(op)), Sym(Identity(op))) else (a, c)
  {
  }

  lemma FirstOfTwo(op: Op, a: Expr, c: Expr, d: Expr)
    requires !IsOp(a, op) && !IsOp(c, op) && !IsOp(d, op) && !IsConstant(a) && !IsConstant(d) && !Same(a, d)
    ensures var n := Sym(Identity(op));
      CancelLeaves(op, a, Bin(op, c, d)) ==
        (if Same(a, c) then n else a, Bin(op, if Same(a, c) then n else c, d))
  {
    var x := if Same(a, c) then Sym(Identity(op)) else a;
    OneByOne(op, a, c);
    assert CancelLeaves(op, x, d) == (x, d);
  }

  /** A || n */
  function OrNo(a: Symbol): Expr {
    Bin(OrOp, Sym(a), Sym(SYMBOL_NO))
  }

  lemma OrNoApart(a: Symbol, b: Symbol)
    requires a != b && Unconditional(Sym(a)) && Unconditional(Sym(b))
    ensures FoldConstants(OrNo(a)) == Sym(a) && !Same(OrNo(a), OrNo(b))
  {
    var n := Sym(SYMBOL_NO);
    assert a != SYMBOL_NO && b != SYMBOL_NO;
    assert !Same(Sym(a), n) && !Same(n, Sym(b)) && !Same(Sym(a), Sym(b));
    assert CancelLeaves(OrOp, Sym(a), Sym(b)) == (Sym(a), Sym(b)) && CancelLeaves(OrOp, Sym(a), n) == (Sym(a), n);
    assert CancelLeaves(OrOp, Sym(a), OrNo(b)) == (Sym(a), OrNo(b));
    assert CancelLeaves(OrOp, n, Sym(b)) == (n, Sym(b)) && CancelLeaves(OrOp, n, n) == (n, n);
    assert CancelLeaves(OrOp, n, OrNo(b)) == (n, OrNo(b));
    assert CancelLeaves(OrOp, OrNo(a), OrNo(b)) == (OrNo(a), OrNo(b));
    assert FoldConstants(OrNo(b)) == Sym(b);
  }

  /** With the constant n as an operand expr_eq is not even transitive: A && (B || n) and (A || n) && B
      both equal A && B, but not each other. */
  lemma ConstantsMatter(a: Symbol, b: Symbol)
    requires a != b && Unconditional(Sym(a)) && Unconditional(Sym(b))
    ensures var p, q, r := Bin(AndOp, Sym(a), Sym(b)), Bin(AndOp, Sym(a), OrNo(b)), Bin(AndOp, OrNo(a), Sym(b));
      Same(q, p) && Same(p, r) && !Same(q, r)
  {
    var p, q, r := Bin(AndOp, Sym(a), Sym(b)), Bin(AndOp, Sym(a), OrNo(b)), Bin(AndOp, OrNo(a), Sym(b));
    OrNoApart(a, b);
    OrNoApart(b, a);
    TwoByTwo(AndOp, Sym(a), OrNo(b), Sym(a), Sym(b));
    OneSymbolLeft(q, p, Sym(b));
    TwoByTwo(AndOp, Sym(a), Sym(b), OrNo(a), Sym(b));
    OneSymbolLeft(p, r, Sym(a));
    assert !Same(OrNo(b), OrNo(a));
    TwoOperandsLeft(a, b);
  }

  lemma OneSymbolLeft(e1: Expr, e2: Expr, s: Expr)
    requires IsOp(e1, AndOp) && IsOp(e2, AndOp) && s.Sym?
    requires var (f1, f2) := CancelLeaves(AndOp, e1, e2);
      FoldConstants(f1) == s && FoldConstants(f2) == s && IsOp(f1, AndOp) && IsOp(f2, AndOp)
    ensures Same(e1, e2)
  {
  }

  lemma TwoOperandsLeft(a: Symbol, b: Symbol)
    requires a != b && Unconditional(Sym(a)) && Unconditional(Sym(b)) && !Same(OrNo(b), OrNo(a))
    requires FoldConstants(OrNo(b)) == Sym(b)
    ensures !Same(Bin(AndOp, Sym(a), OrNo(b)), Bin(AndOp, OrNo(a), Sym(b)))
  {
    var q, r := Bin(AndOp, Sym(a), OrNo(b)), Bin(AndOp, OrNo(a), Sym(b));
    var x, y := Sym(a), Sym(b);
    assert !Same(x, OrNo(a)) && !Same(x, y) && !Same(OrNo(b), y) && !IsConstant(x);
    OneByOne(AndOp, x, OrNo(a));
    OneByOne(AndOp, x, y);
    assert CancelLeaves(AndOp, x, r) == (x, r);
    OneByOne(AndOp, OrNo(b), OrNo(a));
    OneByOne(AndOp, OrNo(b), y);
    assert CancelLeaves(AndOp, OrNo(b), r) == (OrNo(b), r);
    assert CancelLeaves(AndOp, q, r) == (q, r);
    assert FoldConstants(q) == Bin(AndOp, x, y);
  }
}
