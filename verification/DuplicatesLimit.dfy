/** Exactly when the joining of operands can be trusted: not if a tristate symbol compares equal to two
    different constants, which can only happen with other constants than y, m and n. */
module DuplicatesLimit {
  import opened Tristates
  import opened Expressions
  import opened ExprEquality
  import opened ExprDuplicates

  /** (s='b') && (s!='c') */
  function Both(s: Symbol, b: Symbol, c: Symbol): Expr {
    Bin(AndOp, Compare(Equal, s, b), Compare(Unequal, s, c))
  }

  /** The two slots of a node. */
  lemma Slots(x: Expr, y: Expr, z: Expr)
    requires !IsOp(x, AndOp) && !IsOp(y, AndOp)
    ensures var t := Bin(AndOp, x, y);
      && IsLeaf(AndOp, t, [false]) && At(AndOp, t, [false]) == x
      && IsLeaf(AndOp, t, [true]) && At(AndOp, t, [true]) == y
      && Put(AndOp, t, [false], z) == Bin(AndOp, z, y) && Put(AndOp, t, [true], z) == Bin(AndOp, x, z)
  {
    var t := Bin(AndOp, x, y);
    assert At(AndOp, t, [false]) == At(AndOp, x, []) && At(AndOp, t, [true]) == At(AndOp, y, []);
    assert Put(AndOp, t, [false], z) == Bin(AndOp, Put(AndOp, x, [], z), y);
    assert Put(AndOp, t, [true], z) == Bin(AndOp, x, Put(AndOp, y, [], z));
  }

  /** The first operand becomes y, and the second one s='b'. */
  lemma FirstJoined(s: Symbol, b: Symbol, c: Symbol)
    requires s.typ == TristateType && b.isConst && c.isConst && b != c
    ensures IsLeaf(AndOp, Both(s, b, c), [false]) && OnLevel(AndOp, Both(s, b, c), [])
    ensures JoinPairs(AndOp, Both(s, b, c), [false], []) ==
      Counted(Bin(AndOp, Sym(SYMBOL_YES), Compare(Equal, s, b)), 1)
  {
    var e, j, k := Both(s, b, c), Compare(Equal, s, b), Compare(Unequal, s, c);
    var r := Bin(AndOp, Sym(SYMBOL_YES), j);
    Slots(j, k, Sym(SYMBOL_YES));
    Slots(Sym(SYMBOL_YES), k, j);
    assert [] + [false] == [false] && [] + [true] == [true];
    assert JoinPairs(AndOp, e, [false], [false]) == Counted(e, 0);
    assert Join(AndOp, j, k) == Ref(j);
    assert JoinInside(AndOp, e, [false], [true]) == Counted(e, 0);
    assert JoinLeaves(AndOp, e, [false], [true]) == Counted(r, 1);
    assert JoinPairs(AndOp, e, [false], [true]) == Counted(r, 1);
    assert At(AndOp, e, []) == e;
  }

  /** Then nothing is left to join. */
  lemma NothingJoined(s: Symbol, b: Symbol)
    requires s.typ == TristateType
    ensures var r := Bin(AndOp, Sym(SYMBOL_YES), Compare(Equal, s, b));
      IsLeaf(AndOp, r, [true]) && OnLevel(AndOp, r, []) && JoinPairs(AndOp, r, [true], []) == Counted(r, 0)
  {
    var j := Compare(Equal, s, b);
    var r := Bin(AndOp, Sym(SYMBOL_YES), j);
    Slots(Sym(SYMBOL_YES), j, j);
    assert [] + [false] == [false] && [] + [true] == [true];
    assert Join(AndOp, j, Sym(SYMBOL_YES)).Null?;
    assert JoinInside(AndOp, r, [true], [false]) == Counted(r, 0);
    assert JoinLeaves(AndOp, r, [true], [false]) == Counted(r, 0);
    assert JoinPairs(AndOp, r, [true], [false]) == Counted(r, 0);
    assert JoinPairs(AndOp, r, [true], [true]) == Counted(r, 0);
    assert At(AndOp, r, []) == r;
  }

  lemma BothEliminated(s: Symbol, b: Symbol, c: Symbol)
    requires s.typ == TristateType && b.isConst && c.isConst && b != c
    ensures EliminateDuplicates(Both(s, b, c)) == Compare(Equal, s, b)
  {
    var e, r := Both(s, b, c), Bin(AndOp, Sym(SYMBOL_YES), Compare(Equal, s, b));
    FirstJoined(s, b, c);
    NothingJoined(s, b);
    assert [] + [false] == [false] && [] + [true] == [true] && At(AndOp, e, []) == e;
    assert JoinPairs(AndOp, e, [], []) == Counted(r, 1);
    assert FoldConstants(r) == Compare(Equal, s, b);
  }

  /** expr_eliminate_dups does not change the value of this expression. */
  predicate KeepsValue(e: Expr, env: Env) {
    Eval(EliminateDuplicates(e), env) == Eval(e, env)
  }

  /** n becomes y. */
  lemma BothFails(s: Symbol, b: Symbol, c: Symbol, cs: set<Symbol>, env: Env)
    requires Typed(env) && OneOf(cs, b) && OneOf(cs, c) && Confused(s, b, c, env)
    ensures AllNodes(Both(s, b, c), UsesOnly(cs)) && !KeepsValue(Both(s, b, c), env)
    ensures Eval(Both(s, b, c), env) == No && Eval(EliminateDuplicates(Both(s, b, c)), env) == Yes
  {
    BothEliminated(s, b, c);
    var x, y := Compare(Equal, s, b), Compare(Unequal, s, c);
    assert AllNodes(x, UsesOnly(cs)) && AllNodes(y, UsesOnly(cs)) && UsesOnly(cs)(Both(s, b, c));
    assert Eval(y, env) == No;
  }

  /** For any set of constants: expr_eliminate_dups keeps the values of all expressions that compare
      tristate symbols only with these, or with y, m and n, exactly if no symbol compares equal to two of
      them. */
  lemma EliminateDuplicatesExact(cs: set<Symbol>, env: Env)
    requires Typed(env)
    ensures (forall e {:trigger KeepsValue(e, env)} :: AllNodes(e, UsesOnly(cs)) ==> KeepsValue(e, env)) <==>
      Distinguished(cs, env)
  {
    if Distinguished(cs, env) {
      forall e | AllNodes(e, UsesOnly(cs))
        ensures KeepsValue(e, env)
      {
        EliminateDuplicatesSafe(e, cs, env);
      }
    } else {
      var s, b, c :| OneOf(cs, b) && OneOf(cs, c) && Confused(s, b, c, env);
      BothFails(s, b, c, cs, env);
    }
  }
}
