/** Constant folding (expr_eliminate_yn), removal of common operands (expr_eliminate_eq) and the
    equality test built on it (expr_eq). The three are mutually recursive in expr.c. */
module ExprEquality {
  import opened Tristates
  import opened Expressions

  /** The operand that an operator ignores: y for &&, n for ||. */
  function Identity(op: Op): Symbol {
    if op == AndOp then SYMBOL_YES else SYMBOL_NO
  }

  /** The operand that decides an operator: n for &&, y for ||. */
  function Absorber(op: Op): Symbol {
    if op == AndOp then SYMBOL_NO else SYMBOL_YES
  }

  function FoldConstants(e: Expr): (r: Expr)
    ensures Size(r) <= Size(e)
  {
    match e
    case Bin(op, left, right) =>
      var l := FoldConstants(left);
      var r := FoldConstants(right);
      if l == Sym(Absorber(op)) then Sym(Absorber(op))
      else if l == Sym(Identity(op)) then r
      else if r == Sym(Absorber(op)) then Sym(Absorber(op))
      else if r == Sym(Identity(op)) then l
      else Bin(op, l, r)
    case _ => e
  }

  lemma {:induction false} FoldConstantsMeaning(e: Expr, env: Env)
    requires Typed(env)
    ensures Eval(FoldConstants(e), env) == Eval(e, env)
  {
    match e
    case Bin(op, l, r) =>
      FoldConstantsMeaning(l, env);
      FoldConstantsMeaning(r, env);
      ConstantValues(env);
    case _ =>
  }

  lemma ConstantValues(env: Env)
    requires Typed(env)
    ensures env.tri(SYMBOL_YES) == Yes && env.tri(SYMBOL_MOD) == Mod && env.tri(SYMBOL_NO) == No
    ensures env.val(SYMBOL_YES) == "y" && env.val(SYMBOL_MOD) == "m" && env.val(SYMBOL_NO) == "n"
  {
    assert TristateSymbol(Yes) == SYMBOL_YES && TristateSymbol(Mod) == SYMBOL_MOD && TristateSymbol(No) == SYMBOL_NO;
  }

  /** Some operand of an && or || outside every ! is the constant y or n. */
  predicate Foldable(e: Expr) {
    match e
    case Bin(_, l, r) =>
      l == Sym(SYMBOL_YES) || l == Sym(SYMBOL_NO) || r == Sym(SYMBOL_YES) || r == Sym(SYMBOL_NO)
      || Foldable(l) || Foldable(r)
    case _ => false
  }

  lemma {:induction false} FoldConstantsShrinks(e: Expr)
    ensures Foldable(e) ==> Size(FoldConstants(e)) < Size(e)
    ensures !Foldable(e) ==> FoldConstants(e) == e
  {
    match e
    case Bin(_, l, r) =>
      FoldConstantsShrinks(l);
      FoldConstantsShrinks(r);
    case _ =>
  }

  /** The operands of every && and || that are left over carry information. */
  lemma {:induction false} FoldConstantsFixed(e: Expr)
    ensures !Foldable(FoldConstants(e))
    ensures FoldConstants(FoldConstants(e)) == FoldConstants(e)
  {
    match e
    case Bin(_, l, r) =>
      FoldConstantsFixed(l);
      FoldConstantsFixed(r);
    case _ =>
  }

  /** __expr_eliminate_eq: below the operator `op`, equal leaves of the two trees become identities. */
  function CancelLeaves(op: Op, e1: Expr, e2: Expr): (r: (Expr, Expr))
    ensures Size(r.0) <= Size(e1) && Size(r.1) <= Size(e2)
    decreases Size(e1) + Size(e2), if IsOp(e1, op) || IsOp(e2, op) then 0 else 3
  {
    if IsOp(e1, op) then
      var (l, f) := CancelLeaves(op, e1.left, e2);
      var (r, g) := CancelLeaves(op, e1.right, f);
      (Bin(op, l, r), g)
    else if IsOp(e2, op) then
      var (f, l) := CancelLeaves(op, e1, e2.left);
      var (g, r) := CancelLeaves(op, f, e2.right);
      (g, Bin(op, l, r))
    else if e1.Sym? && e2.Sym? && e1.sym == e2.sym && (e1.sym == SYMBOL_YES || e1.sym == SYMBOL_NO) then
      (e1, e2)
    else if !Same(e1, e2) then
      (e1, e2)
    else
      (Sym(Identity(op)), Sym(Identity(op)))
  }

  /** expr_eliminate_eq on two non-NULL expressions. */
  function CancelCommon(e1: Expr, e2: Expr): (r: (Expr, Expr))
    ensures Size(r.0) <= Size(e1) && Size(r.1) <= Size(e2)
    decreases Size(e1) + Size(e2), 1
  {
    var (f1, f2) := if e1.Bin? then CancelLeaves(e1.op, e1, e2) else (e1, e2);
    var (g1, g2) := if f2.Bin? && !IsOp(f1, f2.op) then CancelLeaves(f2.op, f1, f2) else (f1, f2);
    (FoldConstants(g1), FoldConstants(g2))
  }

  /** expr_eq */
  function Same(e1: Expr, e2: Expr): bool
    decreases Size(e1) + Size(e2), 2
  {
    match (e1, e2)
    case (Sym(s1), Sym(s2)) => s1 == s2
    case (Compare(rel1, l1, r1), Compare(rel2, l2, r2)) => rel1 == rel2 && l1 == l2 && r1 == r2
    case (Not(a1), Not(a2)) => Same(a1, a2)
    case (Bin(op1, _, _), Bin(op2, _, _)) =>
      op1 == op2 &&
      var (f1, f2) := CancelCommon(e1, e2);
      f1.Sym? && f2.Sym? && f1.sym == f2.sym
    case _ => false
  }

  /** Two values of the old trees are the two values of the new trees with one and the same
      factor put back. */
  predicate CommonFactor(op: Op, old1: Tristate, new1: Tristate, old2: Tristate, new2: Tristate) {
    exists t :: old1 == Apply(op, t, new1) && old2 == Apply(op, t, new2)
  }

  /** Factors taken out of the two operands of one tree, one after the other, are one factor. */
  lemma CommonFactorCompose(op: Op, l: Tristate, l': Tristate, r: Tristate, r': Tristate,
                            a: Tristate, b: Tristate, c: Tristate)
    requires CommonFactor(op, l, l', a, b) && CommonFactor(op, r, r', b, c)
    ensures CommonFactor(op, Apply(op, l, r), Apply(op, l', r'), a, c)
  {
    var t :| l == Apply(op, t, l') && a == Apply(op, t, b);
    var u :| r == Apply(op, u, r') && b == Apply(op, u, c);
    ApplyInterchange(op, t, u, l', r', c);
    assert Apply(op, l, r) == Apply(op, Apply(op, t, u), Apply(op, l', r')) && a == Apply(op, Apply(op, t, u), c);
  }

  lemma ApplyInterchange(op: Op, t: Tristate, u: Tristate, l: Tristate, r: Tristate, c: Tristate)
    ensures Apply(op, Apply(op, t, l), Apply(op, u, r)) == Apply(op, Apply(op, t, u), Apply(op, l, r))
    ensures Apply(op, t, Apply(op, u, c)) == Apply(op, Apply(op, t, u), c)
  {
    ApplyAssociates(op, t, u, c);
    ApplySwaps(op, l, u, r);
    ApplyAssociates(op, t, l, Apply(op, u, r));
    ApplyAssociates(op, t, u, Apply(op, l, r));
  }

  lemma ApplySwaps(op: Op, a: Tristate, b: Tristate, c: Tristate)
    ensures Apply(op, a, Apply(op, b, c)) == Apply(op, b, Apply(op, a, c))
  {
  }

  lemma ApplyAssociates(op: Op, a: Tristate, b: Tristate, c: Tristate)
    ensures Apply(op, a, Apply(op, b, c)) == Apply(op, Apply(op, a, b), c)
  {
  }

  lemma {:induction false} CancelLeavesFactor(op: Op, e1: Expr, e2: Expr, env: Env)
    requires Typed(env)
    ensures var (r1, r2) := CancelLeaves(op, e1, e2);
      CommonFactor(op, Eval(e1, env), Eval(r1, env), Eval(e2, env), Eval(r2, env))
    decreases Size(e1) + Size(e2), if IsOp(e1, op) || IsOp(e2, op) then 0 else 3
  {
    if IsOp(e1, op) {
      var (l, f) := CancelLeaves(op, e1.left, e2);
      var (r, g) := CancelLeaves(op, e1.right, f);
      CancelLeavesFactor(op, e1.left, e2, env);
      CancelLeavesFactor(op, e1.right, f, env);
      CommonFactorCompose(op, Eval(e1.left, env), Eval(l, env), Eval(e1.right, env), Eval(r, env),
                          Eval(e2, env), Eval(f, env), Eval(g, env));
    } else if IsOp(e2, op) {
      var (f, l) := CancelLeaves(op, e1, e2.left);
      var (g, r) := CancelLeaves(op, f, e2.right);
      CancelLeavesFactor(op, e1, e2.left, env);
      CancelLeavesFactor(op, f, e2.right, env);
      Swap(op, Eval(e1, env), Eval(f, env), Eval(e2.left, env), Eval(l, env));
      Swap(op, Eval(f, env), Eval(g, env), Eval(e2.right, env), Eval(r, env));
      CommonFactorCompose(op, Eval(e2.left, env), Eval(l, env), Eval(e2.right, env), Eval(r, env),
                          Eval(e1, env), Eval(f, env), Eval(g, env));
      Swap(op, Eval(e2, env), Eval(Bin(op, l, r), env), Eval(e1, env), Eval(g, env));
    } else {
      if Same(e1, e2) {
        SameMeaning(e1, e2, env);
      }
      CancelLeafFactor(op, e1, e2, env);
    }
  }

  lemma CancelLeafFactor(op: Op, e1: Expr, e2: Expr, env: Env)
    requires Typed(env) && !IsOp(e1, op) && !IsOp(e2, op)
    requires Same(e1, e2) ==> Eval(e1, env) == Eval(e2, env)
    ensures var (r1, r2) := CancelLeaves(op, e1, e2);
      CommonFactor(op, Eval(e1, env), Eval(r1, env), Eval(e2, env), Eval(r2, env))
  {
    ConstantValues(env);
    var (r1, r2) := CancelLeaves(op, e1, e2);
    var t := if r1 == e1 && r2 == e2 then env.tri(Identity(op)) else Eval(e1, env);
    assert Eval(e1, env) == Apply(op, t, Eval(r1, env));
    assert Eval(e2, env) == Apply(op, t, Eval(r2, env));
  }

  lemma Swap(op: Op, a1: Tristate, b1: Tristate, a2: Tristate, b2: Tristate)
    requires CommonFactor(op, a1, b1, a2, b2)
    ensures CommonFactor(op, a2, b2, a1, b1)
  {
  }

  /** What a whole run of expr_eliminate_eq does to two values: at most one common factor of each
      operator is taken out. */
  predicate CommonFactors(old1: Tristate, new1: Tristate, old2: Tristate, new2: Tristate) {
    exists op1, op2, m1, m2 ::
      op1 != op2 && CommonFactor(op1, old1, m1, old2, m2) && CommonFactor(op2, m1, new1, m2, new2)
  }

  lemma NoFactor(op: Op, a: Tristate, b: Tristate)
    ensures CommonFactor(op, a, a, b, b)
  {
    var t := if op == AndOp then Yes else No;
    assert a == Apply(op, t, a) && b == Apply(op, t, b);
  }

  lemma {:induction false} CancelCommonFactors(e1: Expr, e2: Expr, env: Env)
    requires Typed(env)
    ensures var (r1, r2) := CancelCommon(e1, e2);
      CommonFactors(Eval(e1, env), Eval(r1, env), Eval(e2, env), Eval(r2, env))
    decreases Size(e1) + Size(e2), 1
  {
    var (f1, f2) := if e1.Bin? then CancelLeaves(e1.op, e1, e2) else (e1, e2);
    var second := f2.Bin? && !IsOp(f1, f2.op);
    var (g1, g2) := if second then CancelLeaves(f2.op, f1, f2) else (f1, f2);
    var op1, op2 := FactorOps(e1, f2, second);
    if e1.Bin? {
      CancelLeavesFactor(e1.op, e1, e2, env);
      assert IsOp(f1, e1.op);
    } else {
      NoFactor(op1, Eval(e1, env), Eval(e2, env));
    }
    if second {
      CancelLeavesFactor(f2.op, f1, f2, env);
    } else {
      NoFactor(op2, Eval(f1, env), Eval(f2, env));
    }
    FoldConstantsMeaning(g1, env);
    FoldConstantsMeaning(g2, env);
    assert CommonFactor(op1, Eval(e1, env), Eval(f1, env), Eval(e2, env), Eval(f2, env));
    assert CommonFactor(op2, Eval(f1, env), Eval(g1, env), Eval(f2, env), Eval(g2, env));
  }

  /** The operators of the two runs over the operands: they differ. */
  lemma FactorOps(e1: Expr, f2: Expr, second: bool) returns (op1: Op, op2: Op)
    requires second ==> f2.Bin? && !IsOp(e1, f2.op)
    ensures op1 != op2 && (e1.Bin? ==> op1 == e1.op) && (second ==> op2 == f2.op)
  {
    op1 := if e1.Bin? then e1.op else if second && f2.op == AndOp then OrOp else AndOp;
    op2 := if op1 == AndOp then OrOp else AndOp;
  }

  /** expr_eq is sound. */
  lemma {:induction false} SameMeaning(e1: Expr, e2: Expr, env: Env)
    requires Typed(env) && Same(e1, e2)
    ensures Eval(e1, env) == Eval(e2, env)
    decreases Size(e1) + Size(e2), 2
  {
    match (e1, e2)
    case (Not(a1), Not(a2)) =>
      SameMeaning(a1, a2, env);
    case (Bin(_, _, _), Bin(_, _, _)) =>
      CancelCommonFactors(e1, e2, env);
    case _ =>
  }

  lemma FactorMonotone(op: Op, old1: Tristate, new1: Tristate, old2: Tristate, new2: Tristate)
    requires CommonFactor(op, old1, new1, old2, new2) && Le(new1, new2)
    ensures Le(old1, old2)
  {
    var t :| old1 == Apply(op, t, new1) && old2 == Apply(op, t, new2);
  }

  lemma FactorsMonotone(old1: Tristate, new1: Tristate, old2: Tristate, new2: Tristate)
    requires CommonFactors(old1, new1, old2, new2) && Le(new1, new2)
    ensures Le(old1, old2)
  {
    var op1, op2, m1, m2 :|
      op1 != op2 && CommonFactor(op1, old1, m1, old2, m2) && CommonFactor(op2, m1, new1, m2, new2);
    FactorMonotone(op2, m1, new1, m2, new2);
    FactorMonotone(op1, old1, m1, old2, m2);
  }

  lemma FactorsToYes(old1: Tristate, r1: Expr, old2: Tristate, r2: Expr, env: Env)
    requires Typed(env) && r2 == Sym(SYMBOL_YES) && CommonFactors(old1, Eval(r1, env), old2, Eval(r2, env))
    ensures Le(old1, old2)
  {
    ConstantValues(env);
    FactorsMonotone(old1, Eval(r1, env), old2, Eval(r2, env));
  }

  /** If taking out what two expressions share leaves y of the second, the first implies it. */
  lemma CancelToYes(e1: Expr, e2: Expr, env: Env)
    requires Typed(env)
    requires CancelCommon(e1, e2).1 == Sym(SYMBOL_YES)
    ensures Le(Eval(e1, env), Eval(e2, env))
  {
    CancelCommonFactors(e1, e2, env);
    var (r1, r2) := CancelCommon(e1, e2);
    FactorsToYes(Eval(e1, env), r1, Eval(e2, env), r2, env);
  }

  /** The operands of a level. */
  function Leaves(op: Op, e: Expr): set<Expr> {
    if IsOp(e, op) then Leaves(op, e.left) + Leaves(op, e.right) else {e}
  }

  /** Two operands that expr_eliminate_eq need not take out. */
  predicate Distinct(a: Expr, b: Expr) {
    !Same(a, b) || (a == b && (a == Sym(SYMBOL_YES) || a == Sym(SYMBOL_NO)))
  }

  ghost predicate Separate(xs: set<Expr>, ys: set<Expr>) {
    forall a, b :: a in xs && b in ys ==> Distinct(a, b)
  }

  lemma IdentityDistinct(op: Op, a: Expr)
    ensures Distinct(a, Sym(Identity(op))) && Distinct(Sym(Identity(op)), a)
  {
  }

  /** Operands stay apart when some of them are replaced by the constant. */
  lemma StaySeparate(op: Op, xs: set<Expr>, ys: set<Expr>, zs: set<Expr>)
    requires zs <= ys + {Sym(Identity(op))}
    ensures Separate(xs, ys) ==> Separate(xs, zs)
    ensures Separate(ys, xs) ==> Separate(zs, xs)
  {
    forall a | a in xs
      ensures Distinct(a, Sym(Identity(op))) && Distinct(Sym(Identity(op)), a)
    {
      IdentityDistinct(op, a);
    }
  }

  /** Nothing that two trees share is left on the level, and no operand is invented. */
  ghost predicate Complete(op: Op, e1: Expr, e2: Expr, r1: Expr, r2: Expr) {
    && Leaves(op, r1) <= Leaves(op, e1) + {Sym(Identity(op))}
    && Leaves(op, r2) <= Leaves(op, e2) + {Sym(Identity(op))}
    && Separate(Leaves(op, r1), Leaves(op, r2))
  }

  lemma CompleteInFirst(op: Op, a: Expr, b: Expr, e2: Expr, l: Expr, f: Expr, r: Expr, g: Expr)
    requires Complete(op, a, e2, l, f) && Complete(op, b, f, r, g)
    ensures Complete(op, Bin(op, a, b), e2, Bin(op, l, r), g)
  {
    StaySeparate(op, Leaves(op, l), Leaves(op, f), Leaves(op, g));
  }

  lemma CompleteInSecond(op: Op, e1: Expr, a: Expr, b: Expr, f: Expr, l: Expr, g: Expr, r: Expr)
    requires Complete(op, e1, a, f, l) && Complete(op, f, b, g, r)
    ensures Complete(op, e1, Bin(op, a, b), g, Bin(op, l, r))
  {
    StaySeparate(op, Leaves(op, l), Leaves(op, f), Leaves(op, g));
  }

  lemma {:induction false} CancelLeavesComplete(op: Op, e1: Expr, e2: Expr)
    ensures Complete(op, e1, e2, CancelLeaves(op, e1, e2).0, CancelLeaves(op, e1, e2).1)
    decreases Size(e1) + Size(e2), if IsOp(e1, op) || IsOp(e2, op) then 0 else 3
  {
    if IsOp(e1, op) {
      var (l, f) := CancelLeaves(op, e1.left, e2);
      var (r, g) := CancelLeaves(op, e1.right, f);
      CancelLeavesComplete(op, e1.left, e2);
      CancelLeavesComplete(op, e1.right, f);
      CompleteInFirst(op, e1.left, e1.right, e2, l, f, r, g);
    } else if IsOp(e2, op) {
      var (f, l) := CancelLeaves(op, e1, e2.left);
      var (g, r) := CancelLeaves(op, f, e2.right);
      CancelLeavesComplete(op, e1, e2.left);
      CancelLeavesComplete(op, f, e2.right);
      CompleteInSecond(op, e1, e2.left, e2.right, f, l, g, r);
    } else {
      CancelLeafComplete(op, e1, e2);
    }
  }

  lemma CancelLeafComplete(op: Op, e1: Expr, e2: Expr)
    requires !IsOp(e1, op) && !IsOp(e2, op)
    ensures Complete(op, e1, e2, CancelLeaves(op, e1, e2).0, CancelLeaves(op, e1, e2).1)
  {
  }
}
