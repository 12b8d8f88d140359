/** Exactly when expr_trans_compare and the test for automatic submenus can be trusted: an entry that
    negates a symbol which is m can be visible while the prompt of the symbol that it is put below is
    not. */
module SubmenuLimit {
  import opened Tristates
  import opened Expressions
  import opened ExprEquality
  import opened ExprTransform
  import opened ExprDuplicates
  import opened ExprCompare

  function Has(s: Symbol, t: Tristate): Expr {
    Compare(Equal, s, TristateSymbol(t))
  }

  function HasNot(s: Symbol, t: Tristate): Expr {
    Compare(Unequal, s, TristateSymbol(t))
  }

  /** Something that a condition can say of a symbol that is not tristate. */
  function Mention(s: Symbol): Expr {
    if s.typ == Boolean then Sym(s) else Compare(Equal, s, SYMBOL_YES)
  }

  /** "S || S=n" for a tristate symbol; for others, with A or without is the same. */
  function Either(s: Symbol, a: Symbol): Expr {
    if s.typ == TristateType then Bin(OrOp, Sym(s), Has(s, No)) else Bin(OrOp, Mention(s), Sym(a))
  }

  /** The entry "depends on (S || S=n) && !A", or "depends on (S || A) && !A". */
  function EntryCondition(s: Symbol, a: Symbol): Expr {
    Bin(AndOp, Either(s, a), Not(Sym(a)))
  }

  /** What the comparison with n makes of the first half. */
  function EitherSimplified(s: Symbol, a: Symbol): Expr {
    if s.typ == TristateType then Bin(OrOp, HasNot(s, No), Has(s, No)) else Bin(OrOp, Mention(s), HasNot(a, No))
  }

  /** The prompt of S has the condition "if A=n". */
  function PromptCondition(a: Symbol): Expr {
    Has(a, No)
  }

  // ----- passes that change nothing -----

  lemma LeafPairKept(op: Op, t: Expr, p: Path, q: Path)
    requires IsLeaf(op, t, p) && IsLeaf(op, t, q)
    requires p != q ==> Join(op, At(op, t, p), At(op, t, q)).Null?
    requires At(op, t, p).Bin? ==> JoinPairs(At(op, t, p).op, At(op, t, p), [], []) == Counted(At(op, t, p), 0)
    ensures JoinPairs(op, t, p, q) == Counted(t, 0)
  {
    if p != q {
      PutSame(op, t, p);
      assert JoinInside(op, t, p, q) == Counted(t, 0);
      assert JoinLeaves(op, t, p, q) == Counted(t, 0);
    }
  }

  lemma OneSideKept(op: Op, t: Expr, p: Path)
    requires IsOp(t, op) && IsLeaf(op, t, p)
    requires JoinPairs(op, t, p, [false]) == Counted(t, 0)
    requires IsOp(t, op) && OnLevel(op, t, [true]) && JoinPairs(op, t, p, [true]) == Counted(t, 0)
    ensures JoinPairs(op, t, p, []) == Counted(t, 0)
  {
    assert At(op, t, []) == t && [] + [false] == [false] && [] + [true] == [true];
  }

  /** Two operands that no rule joins. */
  lemma TwoKept(op: Op, x: Expr, y: Expr)
    requires !IsOp(x, op) && !IsOp(y, op) && Join(op, x, y).Null? && Join(op, y, x).Null?
    requires x.Bin? ==> JoinPairs(x.op, x, [], []) == Counted(x, 0)
    requires !y.Bin?
    ensures JoinPairs(op, Bin(op, x, y), [], []) == Counted(Bin(op, x, y), 0)
  {
    var t := Bin(op, x, y);
    assert At(op, t, [false]) == x && At(op, t, [true]) == y;
    LeafPairKept(op, t, [false], [false]);
    LeafPairKept(op, t, [false], [true]);
    LeafPairKept(op, t, [true], [false]);
    LeafPairKept(op, t, [true], [true]);
    OneSideKept(op, t, [false]);
    OneSideKept(op, t, [true]);
    assert At(op, t, []) == t && [] + [false] == [false] && [] + [true] == [true];
  }

  // ----- the test -----

  lemma TransformedEntry(x: Expr, y: Expr, x': Expr, y': Expr, a: Symbol)
    requires a.typ == TristateType
    requires Transform(Transform(x)) == Transform(x) && Transform(Transform(y)) == Transform(y)
    requires Transform(Not(Transform(x))) == x' && Transform(Not(Transform(y))) == y'
    ensures Transform(Not(Bin(OrOp, Bin(AndOp, x, y), HasNot(a, No)))) == Bin(AndOp, Bin(OrOp, x', y'), Has(a, No))
  {
    var pair, z := Bin(AndOp, Transform(x), Transform(y)), HasNot(a, No);
    assert Transform(z) == z && Transform(Not(z)) == Has(a, No);
    assert Transform(Bin(AndOp, x, y)) == pair && Transform(pair) == pair;
    assert Transform(Bin(OrOp, Bin(AndOp, x, y), z)) == Bin(OrOp, pair, z);
    assert Transform(Bin(OrOp, Not(Transform(x)), Not(Transform(y)))) == Bin(OrOp, x', y');
    assert Transform(Not(pair)) == Bin(OrOp, x', y');
  }

  lemma TransformedTristate(s: Symbol)
    requires s.typ == TristateType
    ensures var x, y := Has(s, No), Not(Has(s, No));
      && Transform(Transform(x)) == Transform(x) && Transform(Transform(y)) == Transform(y)
      && Transform(Not(Transform(x))) == HasNot(s, No) && Transform(Not(Transform(y))) == Has(s, No)
  {
    assert Transform(Has(s, No)) == Has(s, No) && Transform(HasNot(s, No)) == HasNot(s, No);
    assert Transform(Not(Has(s, No))) == HasNot(s, No) && Transform(Not(HasNot(s, No))) == Has(s, No);
  }

  /** The comparison of a mention with n. */
  lemma TransformedMention(s: Symbol, a: Symbol)
    requires s.typ != TristateType && a.typ == TristateType
    ensures var x, y := TransCompare(Mention(s), true, No), Has(a, No);
      && Transform(Transform(x)) == Transform(x) && Transform(Transform(y)) == Transform(y)
      && Transform(Not(Transform(x))) == Mention(s) && Transform(Not(Transform(y))) == HasNot(a, No)
  {
    if s.typ == Boolean {
      assert Transform(Has(s, No)) == Not(Sym(s)) && Transform(Sym(s)) == Sym(s);
      assert Transform(Not(Sym(s))) == Not(Sym(s)) && Transform(Not(Not(Sym(s)))) == Sym(s);
    } else {
      assert Transform(Has(s, Yes)) == Has(s, Yes) && Transform(HasNot(s, Yes)) == HasNot(s, Yes);
      assert Transform(Not(Has(s, Yes))) == HasNot(s, Yes) && Transform(Not(HasNot(s, Yes))) == Has(s, Yes);
    }
    assert Transform(Has(a, No)) == Has(a, No) && Transform(Not(Has(a, No))) == HasNot(a, No);
  }

  lemma ComparedEntry(s: Symbol, a: Symbol)
    requires a.typ == TristateType
    ensures Transform(TransCompare(EntryCondition(s, a), false, No)) == Bin(AndOp, EitherSimplified(s, a), Has(a, No))
  {
    assert TransCompare(Not(Sym(a)), true, No) == HasNot(a, No);
    if s.typ == TristateType {
      assert TransCompare(Either(s, a), true, No) == Bin(AndOp, Has(s, No), Not(Has(s, No)));
      TransformedTristate(s);
      TransformedEntry(Has(s, No), Not(Has(s, No)), HasNot(s, No), Has(s, No), a);
    } else {
      var x := TransCompare(Mention(s), true, No);
      assert TransCompare(Either(s, a), true, No) == Bin(AndOp, x, Has(a, No));
      TransformedMention(s, a);
      TransformedEntry(x, Has(a, No), Mention(s), HasNot(a, No), a);
    }
  }

  lemma SimplifiedEntry(s: Symbol, a: Symbol)
    requires a.typ == TristateType
    ensures Simplified(Ref(EntryCondition(s, a))) == Bin(AndOp, EitherSimplified(s, a), Has(a, No))
  {
    var either := EitherSimplified(s, a);
    ComparedEntry(s, a);
    TwoKept(OrOp, either.left, either.right);
    TwoKept(AndOp, either, Has(a, No));
  }

  /** What is left of the prompt's condition is y. */
  lemma PromptCancels(either: Expr, atom: Expr)
    requires IsOp(either, OrOp) && atom.Compare?
    ensures CancelCommon(Bin(AndOp, either, atom), atom).1 == Sym(SYMBOL_YES)
  {
    assert !Same(either, atom) && Same(atom, atom);
    assert CancelLeaves(AndOp, either, atom) == (either, atom);
    assert CancelLeaves(AndOp, atom, atom) == (Sym(SYMBOL_YES), Sym(SYMBOL_YES));
    assert CancelLeaves(AndOp, Bin(AndOp, either, atom), atom) ==
      (Bin(AndOp, either, Sym(SYMBOL_YES)), Sym(SYMBOL_YES));
  }

  lemma EntryNodes(s: Symbol, a: Symbol, good: Expr -> bool)
    requires good(Either(s, a)) && good(Either(s, a).left) && good(Either(s, a).right)
    requires good(Not(Sym(a))) && good(Sym(a)) && good(EntryCondition(s, a))
    ensures AllNodes(EntryCondition(s, a), good)
  {
    assert AllNodes(Either(s, a).left, good) && AllNodes(Either(s, a).right, good);
    assert AllNodes(Either(s, a), good) && AllNodes(Not(Sym(a)), good);
  }

  lemma EntryDepends(s: Symbol, a: Symbol)
    ensures Contains(EntryCondition(s, a), s) && !DependsOn(EntryCondition(s, a), s)
  {
    var either, negated: Expr := Either(s, a), Not(Sym(a));
    assert either.op == OrOp;
    assert Contains(either.left, s);
    assert !DependsOn(either, s);
    assert !DependsOn(negated, s);
  }

  lemma EntryForm(s: Symbol, a: Symbol)
    requires a.typ == TristateType
    ensures var e := EntryCondition(s, a);
      && WellTyped(e) && AllNodes(e, TristateOperand) && NegationNormal(e)
      && Contains(e, s) && !DependsOn(e, s) && NegatedSymbols(e) == {a}
  {
    EntryNodes(s, a, OrderedOperands);
    EntryNodes(s, a, TristateConstants);
    EntryNodes(s, a, TristateOperand);
    EntryNodes(s, a, SymbolNegated);
    EntryDepends(s, a);
    assert NegatedSymbols(Not(Sym(a))) == {a} && NegatedSymbols(Either(s, a)) == {};
  }

  lemma EntryJoins(s: Symbol, a: Symbol)
    requires a.typ == TristateType
    ensures JoinsSubmenu(s, Ref(PromptCondition(a)), Ref(EntryCondition(s, a)))
  {
    EntryForm(s, a);
    SimplifiedEntry(s, a);
    assert Simplified(Ref(PromptCondition(a))) == Has(a, No);
    PromptCancels(EitherSimplified(s, a), Has(a, No));
  }

  lemma EntryValue(s: Symbol, a: Symbol, env: Env)
    requires a.typ == TristateType && Typed(env) && env.tri(a) == Mod
    ensures Eval(EntryCondition(s, a), env) == Mod && Eval(PromptCondition(a), env) == No
  {
    CompareWithConstant(Equal, a, No, env);
    if s.typ == TristateType {
      CompareWithConstant(Equal, s, No, env);
    }
    assert Eval(Either(s, a), env) != No && Eval(Not(Sym(a)), env) == Mod;
  }

  /** With A = m the entry is put into the submenu of S, without an absolute dependency on S; it is
      visible as m, and the prompt of S is not visible. */
  lemma SubmenuUnsound(s: Symbol, a: Symbol, env: Env)
    requires a.typ == TristateType && Typed(env) && env.tri(a) == Mod
    ensures var base, dep := Ref(PromptCondition(a)), Ref(EntryCondition(s, a));
      && SubmenuConditions(s, base, dep) && NegatedSymbols(dep.expr) == {a}
      && EvalNullable(dep, env) == Mod && EvalNullable(base, env) == No
  {
    EntryForm(s, a);
    EntryJoins(s, a);
    EntryValue(s, a, env);
    assert AllNodes(PromptCondition(a), TristateOperand) && NegationNormal(PromptCondition(a));
  }

  // ----- exactly when the test can be trusted -----

  function NegatedSymbols(e: Expr): set<Symbol> {
    match e
    case Not(Sym(a)) => {a}
    case Not(a) => NegatedSymbols(a)
    case Bin(_, l, r) => NegatedSymbols(l) + NegatedSymbols(r)
    case _ => {}
  }

  /** Conditions as menu_finalize compares them, of a prompt and of an entry that joins the submenu of
      `s` without an absolute dependency on it. */
  predicate SubmenuConditions(s: Symbol, base: Nullable, dep: Nullable) {
    && WellTypedNullable(base) && WellTypedNullable(dep) && TristateNullable(base) && TristateNullable(dep)
    && NormalNullable(base) && NormalNullable(dep)
    && JoinsSubmenu(s, base, dep) && !DependsOn(dep.expr, s)
  }

  /** An entry that is visible, while the prompt is not. */
  predicate Sticks(s: Symbol, base: Nullable, dep: Nullable, negated: set<Symbol>, env: Env) {
    && SubmenuConditions(s, base, dep) && NegatedSymbols(dep.expr) <= negated
    && EvalNullable(dep, env) != No && EvalNullable(base, env) == No
  }

  /** None of the symbols is m. */
  predicate NoneIsMod(symbols: set<Symbol>, env: Env) {
    forall a :: a in symbols && a.typ == TristateType ==> env.tri(a) != Mod
  }

  lemma {:induction false} NegatedAreNotMod(e: Expr, negated: set<Symbol>, env: Env)
    requires Typed(env) && NegationNormal(e) && AllNodes(e, TristateOperand) && NegatedSymbols(e) <= negated
    requires NoneIsMod(negated, env)
    ensures NegatedNotMod(e, env)
  {
    match e
    case Not(a) =>
      assert SymbolNegated(e) && AllNodes(a, TristateOperand);
    case Bin(_, l, r) =>
      NegatedAreNotMod(l, negated, env);
      NegatedAreNotMod(r, negated, env);
    case _ =>
  }

  /** The comparison of `e` with y and n tells whether it has that value. */
  predicate ComparesRight(e: Expr, env: Env) {
    forall equal, t: Tristate :: t != Mod ==>
      Eval(TransCompare(e, equal, t), env) == FromBool(equal == (Eval(e, env) == t))
  }

  /** With m the comparison is right for symbols and comparisons, whatever their values. */
  lemma TransCompareWithMod(e: Expr, equal: bool, env: Env)
    requires Typed(env) && TristateOperand(e) && (e.Sym? || e.Compare?)
    ensures Eval(TransCompare(e, equal, Mod), env) == FromBool(equal == (Eval(e, env) == Mod))
  {
    ConstantValues(env);
    if e.Sym? {
      PlainCompareMeaning(e.sym, Mod, env);
    }
  }

  /** A condition in the form that expr_trans_compare gets, which negates no other symbols than these. */
  predicate Negates(e: Expr, negated: set<Symbol>) {
    AllNodes(e, TristateOperand) && NegationNormal(e) && NegatedSymbols(e) <= negated
  }

  /** expr_trans_compare is right for all conditions that negate no other symbols than these, if and only
      if none of them is m. */
  lemma TransCompareExactFor(negated: set<Symbol>, env: Env)
    requires Typed(env)
    ensures (forall e {:trigger ComparesRight(e, env)} :: Negates(e, negated) ==> ComparesRight(e, env)) <==>
      NoneIsMod(negated, env)
  {
    if a :| a in negated && a.typ == TristateType && env.tri(a) == Mod {
      TransCompareOfNegated(a, true, Yes, env);
      var e: Expr := Not(Sym(a));
      assert AllNodes(Sym(a), TristateOperand) && AllNodes(Sym(a), SymbolNegated) && SymbolNegated(e);
      assert AllNodes(e, TristateOperand) && NegationNormal(e) && NegatedSymbols(e) == {a};
      assert Negates(e, negated);
      assert !ComparesRight(e, env);
    } else {
      forall e | Negates(e, negated)
        ensures ComparesRight(e, env)
      {
        NegatedAreNotMod(e, negated, env);
        forall equal, t: Tristate | t != Mod
          ensures Eval(TransCompare(e, equal, t), env) == FromBool(equal == (Eval(e, env) == t))
        {
          TransCompareExact(e, equal, t, env);
        }
      }
    }
  }

  /** The submenu test can be trusted for all entries that negate no other symbols than these, if and
      only if none of them is m. */
  lemma SubmenuExact(s: Symbol, negated: set<Symbol>, env: Env)
    requires Typed(env)
    ensures (forall base, dep :: !Sticks(s, base, dep, negated, env)) <==> NoneIsMod(negated, env)
  {
    if a :| a in negated && a.typ == TristateType && env.tri(a) == Mod {
      SubmenuUnsound(s, a, env);
      assert Sticks(s, Ref(PromptCondition(a)), Ref(EntryCondition(s, a)), negated, env);
    } else {
      forall base, dep
        ensures !Sticks(s, base, dep, negated, env)
      {
        if SubmenuConditions(s, base, dep) && NegatedSymbols(dep.expr) <= negated {
          NegatedAreNotMod(dep.expr, negated, env);
          SubmenuSound(s, base, dep, env);
        }
      }
    }
  }
}
