/** Which entries join an automatic submenu: those that depend on its symbol absolutely, and those that
    mention the symbol and are at least as restricted as its prompt. */
module SubmenuLaws {
  import opened Tristates
  import opened Expressions
  import opened ExprEquality
  import opened ExprTransform
  import opened ExprDuplicates
  import opened ExprCompare
  import opened EqualityLaws
  import opened SymbolGraph
  import opened MenuTree

  // ----- mentioning and depending -----

  lemma {:induction false} ContainsExact(e: Expr, s: Symbol)
    ensures Contains(e, s) <==> s in SymbolsOf(e)
  {
    match e
    case Not(a) => ContainsExact(a, s);
    case Bin(_, l, r) =>
      ContainsExact(l, s);
      ContainsExact(r, s);
    case _ =>
  }

  /** An operand that cannot hold while the symbol is n: the symbol itself, or a comparison of it with y, m or
      n that is false for n. */
  predicate NeedsSymbol(e: Expr, s: Symbol) {
    match e
    case Sym(x) => x == s
    case Compare(rel, l, r) =>
      l == s && (rel == Equal || rel == Unequal) && IsTristateConstant(r) && (rel == Equal) != (r == SYMBOL_NO)
      && (rel == Unequal ==> r == SYMBOL_NO)
    case _ => false
  }

  /** expr_depends_symbol finds an absolute dependency if and only if one of the operands that && joins needs
      the symbol. */
  lemma {:induction false} DependsExact(e: Expr, s: Symbol)
    ensures DependsOn(e, s) <==> exists a :: a in Leaves(AndOp, e) && NeedsSymbol(a, s)
  {
    if IsOp(e, AndOp) {
      DependsExact(e.left, s);
      DependsExact(e.right, s);
      assert forall a :: a in Leaves(AndOp, e) <==> a in Leaves(AndOp, e.left) || a in Leaves(AndOp, e.right);
    } else {
      assert e in Leaves(AndOp, e) && forall a :: a in Leaves(AndOp, e) ==> a == e;
    }
  }

  /** Of the comparisons of a tristate symbol with y, m and n, these are the ones that are n while the symbol
      is n. */
  lemma NeedsExact(s: Symbol, rel: Relation, t: Tristate)
    requires s.typ == TristateType && (rel == Equal || rel == Unequal)
    ensures NeedsSymbol(Compare(rel, s, TristateSymbol(t)), s) <==>
      forall env: Env :: Typed(env) && env.tri(s) == No ==> Eval(Compare(rel, s, TristateSymbol(t)), env) == No
  {
    forall env: Env | Typed(env)
      ensures env.tri(s) == No ==>
        Eval(Compare(rel, s, TristateSymbol(t)), env) == FromBool((rel == Equal) == (t == No))
    {
      CompareWithConstant(rel, s, t, env);
    }
    assert Typed(AllNo()) && AllNo().tri(s) == No;
  }

  function AllNo(): (env: Env)
    ensures Typed(env)
  {
    var tri := (z: Symbol) => if z == SYMBOL_YES then Yes else if z == SYMBOL_MOD then Mod else No;
    Env(tri, (z: Symbol) => TristateName(tri(z)), Yes)
  }

  // ----- joining -----

  /** The condition that the test looks at: that of the prompt, or else the dependency of the node. */
  predicate TestedBy(j: Item, dep: Nullable) {
    (j.prompted ==> dep == j.visible) && (!j.prompted ==> dep == j.dep)
  }

  /** An entry with an absolute dependency on the symbol joins. */
  lemma DependentJoins(i: Item, j: Item, dep: Expr)
    requires i.sym.Some? && TestedBy(j, Ref(dep)) && DependsOn(dep, i.sym.value)
    ensures Joins(i, j)
  {
    DependsContains(dep, i.sym.value);
  }

  lemma {:induction false} DependsContains(e: Expr, s: Symbol)
    requires DependsOn(e, s)
    ensures Contains(e, s)
  {
    match e
    case Bin(_, l, r) =>
      if DependsOn(l, s) {
        DependsContains(l, s);
      } else {
        DependsContains(r, s);
      }
    case _ =>
  }

  /** An entry that does not mention the symbol does not join. */
  lemma StrangerStays(i: Item, j: Item, dep: Nullable)
    requires i.sym.Some? && TestedBy(j, dep)
    requires dep.Ref? ==> i.sym.value !in SymbolsOf(dep.expr)
    ensures !Joins(i, j)
  {
    if dep.Ref? {
      ContainsExact(dep.expr, i.sym.value);
    }
  }

  /** An entry that mentions the symbol joins if the prompt of the symbol has no condition, or no prompt. */
  lemma FreeSymbolTakes(i: Item, j: Item, dep: Expr)
    requires i.sym.Some? && TestedBy(j, Ref(dep)) && i.sym.value in SymbolsOf(dep)
    requires !i.prompted || i.visible.Null?
    ensures Joins(i, j)
  {
    ContainsExact(dep, i.sym.value);
    assert Transform(Not(Sym(SYMBOL_NO))) == Sym(SYMBOL_YES);
    assert Simplified(Null) == Sym(SYMBOL_YES);
    CancelYes(Simplified(Ref(dep)));
  }

  lemma CancelYes(e: Expr)
    ensures CancelCommon(e, Sym(SYMBOL_YES)).1 == Sym(SYMBOL_YES)
  {
    var y := Sym(SYMBOL_YES);
    if e.Bin? {
      YesStays(e.op, e);
    }
  }

  lemma {:induction false} YesStays(op: Op, e: Expr)
    ensures CancelLeaves(op, e, Sym(SYMBOL_YES)).1 == Sym(SYMBOL_YES)
  {
    if IsOp(e, op) {
      YesStays(op, e.left);
      YesStays(op, e.right);
    } else {
      assert !Same(e, Sym(SYMBOL_YES)) || e == Sym(SYMBOL_YES);
    }
  }

  /** Otherwise, if the condition of the prompt, compared with n, is a single operand: an entry without an
      absolute dependency joins if and only if that operand is one of those that && joins in its own
      condition. */
  lemma SupersetJoins(i: Item, j: Item, dep: Expr)
    requires i.sym.Some? && TestedBy(j, Ref(dep)) && i.sym.value in SymbolsOf(dep) && !DependsOn(dep, i.sym.value)
    requires i.prompted && i.visible.Ref?
    requires var base, own := Simplified(i.visible), Simplified(Ref(dep));
      !base.Bin? && Unconditional(base) && IsOp(own, AndOp) && Unconditional(own)
    ensures Joins(i, j) <==> Canonical(Simplified(i.visible)) in LevelOperands(AndOp, Simplified(Ref(dep)))
  {
    ContainsExact(dep, i.sym.value);
    CancelSecond(AndOp, Simplified(Ref(dep)), Simplified(i.visible));
  }

  // ----- the submenu -----

  /** A symbol without children takes in the entry behind it if and only if that joins; the entry is its
      first child then, unless it has no text and is replaced by its own children. */
  lemma NextIsTaken(f: Forest, modules: Symbol)
    requires f.Node? && f.kids.Nil? && f.item.sym.Some? && f.rest.Node?
    ensures var g := FinalizeFirst(f, modules);
      && (Joins(f.item, f.rest.item) ==> g.kids.Node? && g.kids.menu == f.rest.menu)
      && (!Joins(f.item, f.rest.item) ==> g.kids.Nil? && g.rest == f.rest)
  {
  }
}
