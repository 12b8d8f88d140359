/** Which two operands expr_join_or and expr_join_and join: the rules, told by what the operands say. */
module JoinLaws {
  import opened Tristates
  import opened Expressions
  import opened ExprEquality
  import opened ExprDuplicates

  /** What `s` compared with y, m or n says when `s` has the value `t`. */
  predicate Says(rel: Relation, constant: Tristate, t: Tristate) {
    (rel == Equal) == (constant == t)
  }

  predicate EqualOrNot(rel: Relation) {
    rel == Equal || rel == Unequal
  }

  /** Comparisons of one tristate symbol with y, m and n. Below || two different ones are joined if and only
      if each holds for one value only; below && unless each holds for one value only. */
  lemma CompareJoined(s: Symbol, rel1: Relation, t1: Tristate, rel2: Relation, t2: Tristate)
    requires s.typ == TristateType && EqualOrNot(rel1) && EqualOrNot(rel2)
    ensures var c1, c2 := Compare(rel1, s, TristateSymbol(t1)), Compare(rel2, s, TristateSymbol(t2));
      var single := forall t, t' :: (Says(rel1, t1, t) && Says(rel1, t1, t') ==> t == t')
                                    && (Says(rel2, t2, t) && Says(rel2, t2, t') ==> t == t');
      && (Join(OrOp, c1, c2).Ref? <==> c1 == c2 || single)
      && (Join(AndOp, c1, c2).Ref? <==> c1 == c2 || !single)
  {
    Single(rel1, t1);
    Single(rel2, t2);
  }

  lemma Single(rel: Relation, constant: Tristate)
    requires EqualOrNot(rel)
    ensures (forall t, t' :: Says(rel, constant, t) && Says(rel, constant, t') ==> t == t') <==> rel == Equal
  {
    if rel == Unequal {
      var t, t' := if constant == No then Mod else No, if constant == Yes then Mod else Yes;
      assert Says(rel, constant, t) && Says(rel, constant, t') && t != t';
    }
  }

  /** A bool or tristate symbol and a comparison of it: below && they are joined if and only if the
      comparison holds when the symbol is y, in either order; below || never. */
  lemma SymbolJoined(s: Symbol, rel: Relation, t: Tristate)
    requires (s.typ == Boolean || s.typ == TristateType) && EqualOrNot(rel)
    ensures var c := Compare(rel, s, TristateSymbol(t));
      && (Join(AndOp, Sym(s), c).Ref? <==> Says(rel, t, Yes))
      && (Join(AndOp, c, Sym(s)).Ref? <==> Says(rel, t, Yes))
      && Join(OrOp, Sym(s), c).Null? && Join(OrOp, c, Sym(s)).Null?
  {
  }

  /** A symbol and its negation: joined below || if the symbol is bool, and then to y. */
  lemma NegationJoined(s: Symbol)
    requires s.typ == Boolean || s.typ == TristateType
    ensures Join(OrOp, Not(Sym(s)), Sym(s)) == (if s.typ == Boolean then Ref(Sym(SYMBOL_YES)) else Null)
    ensures Join(OrOp, Sym(s), Not(Sym(s))) == (if s.typ == Boolean then Ref(Sym(SYMBOL_YES)) else Null)
    ensures Join(AndOp, Not(Sym(s)), Sym(s)).Null? && Join(AndOp, Sym(s), Not(Sym(s))).Null?
  {
  }

  /** Comparisons of a tristate symbol with any two different constants: s='b' and s!='c' are joined. */
  lemma ConstantsJoinedAny(s: Symbol, b: Symbol, c: Symbol)
    requires s.typ == TristateType && b.isConst && c.isConst
    ensures Join(AndOp, Compare(Equal, s, b), Compare(Unequal, s, c)).Ref?
    ensures Join(AndOp, Compare(Unequal, s, c), Compare(Equal, s, b)).Ref?
  {
  }

  /** Equal operands are joined to one of them, whatever they are. */
  lemma EqualJoined(op: Op, e1: Expr, e2: Expr)
    requires Same(e1, e2)
    ensures Join(op, e1, e2) == Ref(e1)
  {
  }

  /** Operands about different symbols are not joined. */
  lemma OthersNotJoined(op: Op, e1: Expr, e2: Expr)
    requires !Same(e1, e2) && SymbolsOf(e1) !! SymbolsOf(e2)
    ensures Join(op, e1, e2).Null?
  {
  }

  /** Where two operands are joined: the first of the two slots gets the neutral constant, to be folded
      later, the second one gets the joined operand, and all others stay. */
  lemma JoinPlace(op: Op, t: Expr, p: Path, q: Path, o: Path)
    requires IsLeaf(op, t, p) && IsLeaf(op, t, q) && IsLeaf(op, t, o) && p != q
    requires Join(op, At(op, t, p), At(op, t, q)).Ref?
    ensures var r := JoinLeaves(op, t, p, q).expr;
      && IsLeaf(op, r, o)
      && At(op, r, o) ==
         if o == p then Sym(Identity(op))
         else if o == q then Join(op, At(op, t, p), At(op, t, q)).expr
         else At(op, t, o)
  {
    var j := Join(op, At(op, t, p), At(op, t, q)).expr;
    var one := Put(op, t, p, Sym(Identity(op)));
    JoinShape(op, At(op, t, p), At(op, t, q));
    PutFacts(op, t, p, Sym(Identity(op)));
    PutOther(op, t, p, Sym(Identity(op)), q);
    PutFacts(op, one, q, j);
    if o != p {
      PutOther(op, t, p, Sym(Identity(op)), o);
    }
    if o != q {
      PutOther(op, one, q, j, o);
    }
  }
}
