/** The passes that menu.c adds to the simplifier: expr_trans_bool, rewrite_m, expr_trans_compare,
    the propagation of dependencies, and the test that puts an entry into an automatic submenu. */
module ExprCompare {
  import opened Tristates
  import opened Expressions
  import opened ExprEquality
  import opened ExprTransform
  import opened ExprDuplicates

  /** expr_trans_bool: FOO!=n becomes FOO. */
  function DropUnequalNo(e: Expr): Expr {
    match e
    case Bin(op, l, r) => Bin(op, DropUnequalNo(l), DropUnequalNo(r))
    case Not(a) => Not(DropUnequalNo(a))
    case Compare(rel, l, r) =>
      if rel == Unequal && l.typ == TristateType && r == SYMBOL_NO then Sym(l) else e
    case Sym(_) => e
  }

  /** On negation normal forms the pass may turn y into m, and nothing else. */
  lemma {:induction false} DropUnequalNoMeaning(e: Expr, env: Env)
    requires Typed(env) && NegationNormal(e)
    ensures Eval(DropUnequalNo(e), env) == No <==> Eval(e, env) == No
    ensures Le(Eval(DropUnequalNo(e), env), Eval(e, env))
    ensures NegationNormal(DropUnequalNo(e))
  {
    match e
    case Bin(_, l, r) =>
      DropUnequalNoMeaning(l, env);
      DropUnequalNoMeaning(r, env);
    case Compare(rel, l, r) =>
      if rel == Unequal && l.typ == TristateType && r == SYMBOL_NO {
        CompareWithConstant(rel, l, No, env);
      }
    case Not(a) =>
    case Sym(_) =>
  }

  /** A comparison that the pass is there for. */
  predicate NoUnequalNo(e: Expr) {
    e.Compare? ==> !(e.rel == Unequal && e.lhs.typ == TristateType && e.rhs == SYMBOL_NO)
  }

  /** None of them is left, and a second pass changes nothing. */
  lemma {:induction false} DropUnequalNoComplete(e: Expr)
    ensures AllNodes(DropUnequalNo(e), NoUnequalNo)
    ensures DropUnequalNo(DropUnequalNo(e)) == DropUnequalNo(e)
  {
    match e
    case Bin(_, l, r) =>
      DropUnequalNoComplete(l);
      DropUnequalNoComplete(r);
    case Not(a) => DropUnequalNoComplete(a);
    case _ =>
  }

  /** Below a negation the pass does change n: the negation normal form is needed. */
  lemma DropUnequalNoBelowNot(foo: Symbol, env: Env)
    requires Typed(env) && foo.typ == TristateType && env.tri(foo) == Mod
    ensures var e := Not(Compare(Unequal, foo, SYMBOL_NO));
      Eval(e, env) == No && Eval(DropUnequalNo(e), env) == Mod
  {
    CompareWithConstant(Unequal, foo, No, env);
  }

  /** rewrite_m: 'm' becomes 'm' && MODULES. */
  function RewriteMod(e: Expr, modules: Symbol): Expr {
    match e
    case Sym(s) => if s == SYMBOL_MOD then Bin(AndOp, e, Sym(modules)) else e
    case Compare(_, _, _) => e
    case Not(a) => Not(RewriteMod(a, modules))
    case Bin(op, l, r) => Bin(op, RewriteMod(l, modules), RewriteMod(r, modules))
  }

  /** The valuation in which the operand 'm' has the value `t`. */
  function WithMod(env: Env, t: Tristate): Env {
    env.(tri := (s: Symbol) => if s == SYMBOL_MOD then t else env.tri(s))
  }

  /** After the rewriting 'm' is worth no more than MODULES; comparisons with m are not affected. */
  lemma {:induction false} RewriteModMeaning(e: Expr, modules: Symbol, env: Env)
    requires Typed(env)
    ensures Eval(RewriteMod(e, modules), env) == Eval(e, WithMod(env, Min(Mod, env.tri(modules))))
  {
    match e
    case Sym(s) =>
      ConstantValues(env);
    case Compare(rel, l, r) =>
      assert StringValue(l, env) == StringValue(l, WithMod(env, Min(Mod, env.tri(modules))));
      assert StringValue(r, env) == StringValue(r, WithMod(env, Min(Mod, env.tri(modules))));
    case Not(a) =>
      RewriteModMeaning(a, modules, env);
    case Bin(_, l, r) =>
      RewriteModMeaning(l, modules, env);
      RewriteModMeaning(r, modules, env);
  }

  lemma {:induction false} RewriteModWellTyped(e: Expr, modules: Symbol)
    requires WellTyped(e)
    ensures WellTyped(RewriteMod(e, modules))
  {
    match e
    case Not(a) => RewriteModWellTyped(a, modules);
    case Bin(_, l, r) =>
      RewriteModWellTyped(l, modules);
      RewriteModWellTyped(r, modules);
    case _ =>
  }

  /** expr_alloc_and */
  function Conjoin(a: Nullable, b: Nullable): Nullable {
    if a.Null? then b else if b.Null? then a else Ref(Bin(AndOp, a.expr, b.expr))
  }

  predicate WellTypedNullable(p: Nullable) {
    p.Ref? ==> WellTyped(p.expr)
  }

  predicate NormalNullable(p: Nullable) {
    p.Ref? ==> NegationNormal(p.expr)
  }

  function RewriteModNullable(p: Nullable, modules: Symbol): Nullable {
    if p.Null? then Null else Ref(RewriteMod(p.expr, modules))
  }

  /** How menu_finalize conjoins an entry's own condition with the one inherited from above. */
  function Propagate(inherited: Nullable, own: Nullable, modules: Symbol): Nullable {
    EliminateDuplicatesNullable(Conjoin(inherited, TransformNullable(RewriteModNullable(own, modules))))
  }

  /** The condition that a property of a symbol that is not tristate ends up with. */
  function DropUnequalNoNullable(p: Nullable): Nullable {
    if p.Null? then Null else Ref(DropUnequalNo(p.expr))
  }

  /** The propagated condition is the minimum of the inherited one and the entry's own, and both
      premises of the later passes are established. */
  lemma PropagateMeaning(inherited: Nullable, own: Nullable, modules: Symbol, env: Env)
    requires Typed(env) && WellTypedNullable(inherited) && WellTypedNullable(own)
    requires NormalNullable(inherited)
    ensures EvalNullable(Propagate(inherited, own, modules), env) ==
      Min(EvalNullable(inherited, env), EvalNullable(own, WithMod(env, Min(Mod, env.tri(modules)))))
    ensures NormalNullable(Propagate(inherited, own, modules))
    ensures WellTypedNullable(Propagate(inherited, own, modules))
  {
    if own.Ref? {
      var m := RewriteMod(own.expr, modules);
      RewriteModMeaning(own.expr, modules, env);
      RewriteModWellTyped(own.expr, modules);
      TransformMeaning(m, env);
      TransformNormalises(m);
      TransformWellTyped(m);
    }
    var c := Conjoin(inherited, TransformNullable(RewriteModNullable(own, modules)));
    if c.Ref? {
      EliminateDuplicatesMeaning(c.expr, env);
      EliminateDuplicatesForm(c.expr);
    }
  }

  lemma {:induction false} DropUnequalNoWellTyped(e: Expr)
    requires WellTyped(e)
    ensures WellTyped(DropUnequalNo(e))
  {
    match e
    case Not(a) => DropUnequalNoWellTyped(a);
    case Bin(_, l, r) =>
      DropUnequalNoWellTyped(l);
      DropUnequalNoWellTyped(r);
    case _ =>
  }

  /** Visibility as sym_calc_visibility sees it: a symbol that is not tristate has no m. */
  function Promote(t: Tristate): Tristate {
    if t == Mod then Yes else t
  }

  /** Dropping "!=n" from the propagated condition does not change the visibility of a symbol
      that is not tristate. */
  lemma PropagatedVisibility(inherited: Nullable, own: Nullable, modules: Symbol, env: Env)
    requires Typed(env) && WellTypedNullable(inherited) && WellTypedNullable(own)
    requires NormalNullable(inherited)
    ensures Promote(EvalNullable(DropUnequalNoNullable(Propagate(inherited, own, modules)), env)) ==
      Promote(Min(EvalNullable(inherited, env), EvalNullable(own, WithMod(env, Min(Mod, env.tri(modules))))))
  {
    PropagateMeaning(inherited, own, modules, env);
    var p := Propagate(inherited, own, modules);
    if p.Ref? {
      DropUnequalNoMeaning(p.expr, env);
    }
  }

  /** expr_trans_compare: `equal` tells E_EQUAL from E_UNEQUAL, and the symbol is y, m or n. */
  function TransCompare(e: Expr, equal: bool, t: Tristate): Expr {
    match e
    case Bin(op, l, r) =>
      var e1 := TransCompare(l, true, t);
      var e2 := TransCompare(r, true, t);
      var both := match t
        case Yes => Bin(op, e1, e2)
        case No => Bin(Dual(op), e1, e2)
        case Mod => e;
      if equal then both else Not(both)
    case Not(a) => TransCompare(a, !equal, t)
    case Compare(_, _, _) =>
      (match t
       case Yes => if equal then e else Not(e)
       case Mod => Sym(if equal then SYMBOL_NO else SYMBOL_YES)
       case No => if equal then Not(e) else e)
    case Sym(s) => Compare(if equal then Equal else Unequal, s, TristateSymbol(t))
  }

  function TransCompareNullable(p: Nullable, equal: bool, t: Tristate): Expr {
    match p
    case Null => if equal then Sym(TristateSymbol(t)) else Not(Sym(TristateSymbol(t)))
    case Ref(e) => TransCompare(e, equal, t)
  }

  /** Plain operands are bool or tristate symbols, or y, m or n. */
  predicate TristateOperand(e: Expr) {
    e.Sym? ==> e.sym.typ == Boolean || e.sym.typ == TristateType || IsTristateConstant(e.sym)
  }

  /** No negated symbol is m. */
  ghost predicate NegatedNotMod(e: Expr, env: Env) {
    match e
    case Not(a) => Eval(a, env) != Mod && NegatedNotMod(a, env)
    case Bin(_, l, r) => NegatedNotMod(l, env) && NegatedNotMod(r, env)
    case _ => true
  }

  lemma PlainCompareMeaning(s: Symbol, t: Tristate, env: Env)
    requires Typed(env) && TristateOperand(Sym(s))
    ensures Eval(Compare(Equal, s, TristateSymbol(t)), env) == FromBool(env.tri(s) == t)
    ensures Eval(Compare(Unequal, s, TristateSymbol(t)), env) == FromBool(env.tri(s) != t)
  {
    ConstantValues(env);
    if IsTristateConstant(s) {
      ConstantOperand(env.tri(s));
      ConstantOperand(t);
      CNumbers.StringCompareZero(env.val(s), TristateName(t));
    } else {
      CompareWithConstant(Equal, s, t, env);
      CompareWithConstant(Unequal, s, t, env);
    }
  }

  /** If no negated subexpression is m, comparing with y or n is exact. */
  lemma {:induction false} TransCompareExact(e: Expr, equal: bool, t: Tristate, env: Env)
    requires Typed(env) && AllNodes(e, TristateOperand) && t != Mod
    requires NegatedNotMod(e, env)
    ensures Eval(TransCompare(e, equal, t), env) == FromBool(equal == (Eval(e, env) == t))
  {
    match e
    case Bin(op, l, r) =>
      TransCompareExact(l, true, t, env);
      TransCompareExact(r, true, t, env);
    case Not(a) =>
      TransCompareExact(a, !equal, t, env);
    case Compare(rel, l, r) =>
      assert Eval(e, env) != Mod;
    case Sym(s) =>
      PlainCompareMeaning(s, t, env);
  }

  /** On a negated symbol, comparing with y or n is exact if and only if the symbol is not m. */
  lemma TransCompareOfNegated(s: Symbol, equal: bool, t: Tristate, env: Env)
    requires Typed(env) && TristateOperand(Sym(s)) && t != Mod
    ensures Eval(TransCompare(Not(Sym(s)), equal, t), env) == FromBool(equal == (Eval(Not(Sym(s)), env) == t)) <==>
      env.tri(s) != Mod
  {
    PlainCompareMeaning(s, t, env);
    assert TransCompare(Not(Sym(s)), equal, t) == TransCompare(Sym(s), !equal, t);
  }

  /** On a negation normal form the comparison with n errs on one side only, whatever is m. */
  lemma {:induction false} TransCompareSound(e: Expr, env: Env)
    requires Typed(env) && AllNodes(e, TristateOperand) && NegationNormal(e)
    ensures Eval(e, env) == No ==> Eval(TransCompare(e, true, No), env) == Yes
    ensures Eval(TransCompare(e, true, No), env) != Mod
    ensures Eval(TransCompare(e, false, No), env) == Negate(Eval(TransCompare(e, true, No), env))
  {
    match e
    case Bin(op, l, r) =>
      TransCompareSound(l, env);
      TransCompareSound(r, env);
    case Not(a) =>
      PlainCompareMeaning(a.sym, No, env);
      assert a == Sym(a.sym) && Eval(a, env) == env.tri(a.sym);
      assert TransCompare(e, true, No) == TransCompare(a, false, No) == Compare(Unequal, a.sym, TristateSymbol(No));
      assert TransCompare(e, false, No) == TransCompare(a, true, No) == Compare(Equal, a.sym, TristateSymbol(No));
    case Compare(rel, l, r) =>
    case Sym(s) =>
      PlainCompareMeaning(s, No, env);
  }

  lemma {:induction false} TransCompareWellTyped(e: Expr, equal: bool, t: Tristate)
    requires WellTyped(e)
    ensures WellTyped(TransCompare(e, equal, t))
  {
    match e
    case Bin(_, l, r) =>
      TransCompareWellTyped(l, true, t);
      TransCompareWellTyped(r, true, t);
    case Not(a) =>
      TransCompareWellTyped(a, !equal, t);
    case _ =>
  }

  /** expr_contains_symbol */
  predicate Contains(e: Expr, s: Symbol) {
    match e
    case Bin(_, l, r) => Contains(l, s) || Contains(r, s)
    case Sym(x) => x == s
    case Compare(_, l, r) => l == s || r == s
    case Not(a) => Contains(a, s)
  }

  /** expr_depends_symbol */
  predicate DependsOn(e: Expr, s: Symbol) {
    match e
    case Bin(op, l, r) => op == AndOp && (DependsOn(l, s) || DependsOn(r, s))
    case Sym(x) => x == s
    case Compare(rel, l, r) =>
      l == s && ((rel == Equal && (r == SYMBOL_YES || r == SYMBOL_MOD)) || (rel == Unequal && r == SYMBOL_NO))
    case Not(_) => false
  }

  /** A condition with an absolute dependency on `s` can only hold while `s` is not n. */
  lemma {:induction false} DependsOnMeaning(e: Expr, s: Symbol, env: Env)
    requires Typed(env) && TristateOperand(Sym(s)) && DependsOn(e, s)
    ensures Eval(e, env) != No ==> env.tri(s) != No
  {
    match e
    case Bin(_, l, r) =>
      if DependsOn(l, s) {
        DependsOnMeaning(l, s, env);
      } else {
        DependsOnMeaning(r, s, env);
      }
    case Compare(rel, l, r) =>
      PlainCompareMeaning(s, Yes, env);
      PlainCompareMeaning(s, Mod, env);
      PlainCompareMeaning(s, No, env);
    case _ =>
  }

  /** The operand that the submenu test compares: "condition != n", simplified. */
  function Simplified(p: Nullable): Expr {
    EliminateDuplicates(Transform(TransCompareNullable(p, false, No)))
  }

  /** menu_finalize puts the following entry, with the condition `dep`, into the submenu of the
      symbol `s`, whose prompt has the condition `base`. */
  predicate JoinsSubmenu(s: Symbol, base: Nullable, dep: Nullable) {
    dep.Ref? && Contains(dep.expr, s) &&
    (DependsOn(dep.expr, s) || CancelCommon(Simplified(dep), Simplified(base)).1 == Sym(SYMBOL_YES))
  }

  predicate TristateNullable(p: Nullable) {
    p.Ref? ==> AllNodes(p.expr, TristateOperand)
  }

  lemma SimplifiedMeaning(p: Nullable, env: Env)
    requires Typed(env) && WellTypedNullable(p)
    ensures Eval(Simplified(p), env) == Eval(TransCompareNullable(p, false, No), env)
  {
    var c := TransCompareNullable(p, false, No);
    if p.Ref? {
      TransCompareWellTyped(p.expr, false, No);
    }
    TransformMeaning(c, env);
    TransformWellTyped(c);
    EliminateDuplicatesMeaning(Transform(c), env);
  }

  /** The submenu test is sound: an entry that is put below `s` without an absolute dependency on
      it can be visible only while the prompt of `s` is. What is premised of the entry's condition
      is that none of the symbols it negates is m; nothing of the kind is needed of `base`. */
  lemma SubmenuSound(s: Symbol, base: Nullable, dep: Nullable, env: Env)
    requires Typed(env) && WellTypedNullable(base) && WellTypedNullable(dep)
    requires TristateNullable(base) && TristateNullable(dep)
    requires NormalNullable(base) && NormalNullable(dep)
    requires dep.Ref? ==> NegatedNotMod(dep.expr, env)
    requires JoinsSubmenu(s, base, dep) && !DependsOn(dep.expr, s)
    ensures EvalNullable(dep, env) != No ==> EvalNullable(base, env) != No
  {
    CancelToYes(Simplified(dep), Simplified(base), env);
    SimplifiedMeaning(dep, env);
    SimplifiedMeaning(base, env);
    TransCompareExact(dep.expr, false, No, env);
    ConstantValues(env);
    if base.Ref? {
      TransCompareSound(base.expr, env);
    }
  }
}
