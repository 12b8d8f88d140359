/** Joining of redundant operands: expr_join_or, expr_join_and and expr_eliminate_dups. */
module ExprDuplicates {
  import opened Tristates
  import opened CNumbers
  import opened Expressions
  import opened ExprEquality
  import opened ExprTransform

  /** The symbol that the first operand of a join talks about. */
  function FirstSymbol(e: Expr): set<Symbol> {
    match e
    case Sym(s) => {s}
    case Compare(rel, l, _) => if rel == Equal || rel == Unequal then {l} else {}
    case Not(Sym(s)) => {s}
    case Not(Compare(rel, l, _)) => if rel == Equal || rel == Unequal then {l} else {}
    case _ => {}
  }

  function SecondSymbol(e: Expr): set<Symbol> {
    match e
    case Sym(s) => {s}
    case Compare(rel, l, _) => if rel == Equal || rel == Unequal then {l} else {}
    case Not(Sym(s)) => {s}
    case _ => {}
  }

  /** Both operands are about the bool or tristate symbol `s`. */
  predicate Joinable(e1: Expr, e2: Expr, s: Symbol) {
    s in FirstSymbol(e1) && s in SecondSymbol(e2) && (s.typ == Boolean || s.typ == TristateType)
  }

  /** The symbol that a joinable operand is about; meaningless otherwise. */
  function SubjectOf(e: Expr): Symbol {
    match e
    case Sym(s) => s
    case Compare(_, l, _) => l
    case Not(Sym(s)) => s
    case Not(Compare(_, l, _)) => l
    case _ => SYMBOL_NO
  }

  /** The two operands are `a` and `b` in either order. */
  predicate Are(e1: Expr, e2: Expr, a: Expr, b: Expr) {
    (e1 == a && e2 == b) || (e1 == b && e2 == a)
  }

  /** expr_join_or */
  function JoinOr(e1: Expr, e2: Expr): Nullable {
    var s := SubjectOf(e1);
    if Same(e1, e2) then Ref(e1)
    else if !Joinable(e1, e2, s) then Null
    else if s.typ == TristateType then
      if Are(e1, e2, Compare(Equal, s, SYMBOL_YES), Compare(Equal, s, SYMBOL_MOD)) then
        Ref(Compare(Unequal, s, SYMBOL_NO))
      else if Are(e1, e2, Compare(Equal, s, SYMBOL_YES), Compare(Equal, s, SYMBOL_NO)) then
        Ref(Compare(Unequal, s, SYMBOL_MOD))
      else if Are(e1, e2, Compare(Equal, s, SYMBOL_MOD), Compare(Equal, s, SYMBOL_NO)) then
        Ref(Compare(Unequal, s, SYMBOL_YES))
      else Null
    else if Are(e1, e2, Not(Sym(s)), Sym(s)) then Ref(Sym(SYMBOL_YES))
    else Null
  }

  /** The rule for (s='b') && (s!='c') with constants b and c. */
  predicate EqualAndUnequal(e1: Expr, e2: Expr) {
    && e1.Compare? && e1.rel == Equal && e2.Compare? && e2.rel == Unequal
    && e1.rhs.isConst && e2.rhs.isConst
  }

  function JoinEqualUnequal(e1: Expr, e2: Expr): Expr
    requires EqualAndUnequal(e1, e2)
  {
    if e1.rhs != e2.rhs then Compare(Equal, e1.lhs, e1.rhs) else Sym(SYMBOL_NO)
  }

  /** expr_join_and */
  function JoinAnd(e1: Expr, e2: Expr): Nullable {
    var s := SubjectOf(e1);
    if Same(e1, e2) then Ref(e1)
    else if !Joinable(e1, e2, s) then Null
    else if Are(e1, e2, Sym(s), Compare(Equal, s, SYMBOL_YES)) then Ref(Compare(Equal, s, SYMBOL_YES))
    else if Are(e1, e2, Sym(s), Compare(Unequal, s, SYMBOL_NO)) then Ref(Sym(s))
    else if Are(e1, e2, Sym(s), Compare(Unequal, s, SYMBOL_MOD)) then Ref(Compare(Equal, s, SYMBOL_YES))
    else if s.typ == TristateType then
      if EqualAndUnequal(e1, e2) then Ref(JoinEqualUnequal(e1, e2))
      else if EqualAndUnequal(e2, e1) then Ref(JoinEqualUnequal(e2, e1))
      else if Are(e1, e2, Compare(Unequal, s, SYMBOL_YES), Compare(Unequal, s, SYMBOL_NO)) then
        Ref(Compare(Equal, s, SYMBOL_MOD))
      else if Are(e1, e2, Compare(Unequal, s, SYMBOL_YES), Compare(Unequal, s, SYMBOL_MOD)) then
        Ref(Compare(Equal, s, SYMBOL_NO))
      else if Are(e1, e2, Compare(Unequal, s, SYMBOL_MOD), Compare(Unequal, s, SYMBOL_NO)) then
        Ref(Compare(Equal, s, SYMBOL_YES))
      else Null
    else Null
  }

  function Join(op: Op, e1: Expr, e2: Expr): Nullable {
    if op == AndOp then JoinAnd(e1, e2) else JoinOr(e1, e2)
  }

  /** A joined operand is the first operand itself or a single node, so joining never makes the
      two operands larger. */
  lemma JoinShape(op: Op, e1: Expr, e2: Expr)
    requires Join(op, e1, e2).Ref?
    ensures var j := Join(op, e1, e2).expr; j == e1 || (!j.Not? && !j.Bin?)
  {
  }

  /** An operand that one of the join rules takes or yields: `s`, !`s`, `s` compared with y, m or
      n, or the constant y or n. */
  predicate About(e: Expr, s: Symbol) {
    match e
    case Sym(x) => x == s || x == SYMBOL_YES || x == SYMBOL_NO
    case Compare(rel, l, r) => l == s && (rel == Equal || rel == Unequal) && IsTristateConstant(r)
    case Not(a) => a == Sym(s)
    case Bin(_, _, _) => false
  }

  /** The value of such an operand when `s` has the value `t`. */
  function ValueAbout(e: Expr, s: Symbol, t: Tristate): Tristate
    requires About(e, s)
  {
    match e
    case Sym(x) => if x == s then t else if x == SYMBOL_YES then Yes else No
    case Compare(rel, _, r) => FromBool((rel == Equal) == (r == TristateSymbol(t)))
    case Not(_) => Negate(t)
  }

  lemma AboutMeaning(e: Expr, s: Symbol, env: Env)
    requires Typed(env) && (s.typ == Boolean || s.typ == TristateType) && About(e, s)
    ensures Eval(e, env) == ValueAbout(e, s, env.tri(s))
  {
    ConstantValues(env);
    match e
    case Compare(rel, _, r) =>
      var t := env.tri(r);
      assert r == TristateSymbol(t);
      CompareWithConstant(rel, s, t, env);
    case _ =>
  }

  /** The rules of expr_join_or, as a truth table. */
  lemma JoinOrTable(e1: Expr, e2: Expr, t: Tristate)
    requires !Same(e1, e2) && JoinOr(e1, e2).Ref?
    requires SubjectOf(e1).typ == Boolean ==> t != Mod
    ensures var s, j := SubjectOf(e1), JoinOr(e1, e2).expr;
      && (s.typ == Boolean || s.typ == TristateType) && About(e1, s) && About(e2, s) && About(j, s)
      && ValueAbout(j, s, t) == Max(ValueAbout(e1, s, t), ValueAbout(e2, s, t))
  {
  }

  /** The rule for constants applies, with the operands in either order. */
  predicate JoinsConstants(e1: Expr, e2: Expr) {
    SubjectOf(e1).typ == TristateType && (EqualAndUnequal(e1, e2) || EqualAndUnequal(e2, e1))
  }

  /** The other rules of expr_join_and, as a truth table. */
  lemma JoinAndTable(e1: Expr, e2: Expr, t: Tristate)
    requires !Same(e1, e2) && JoinAnd(e1, e2).Ref?
    requires SubjectOf(e1).typ == Boolean ==> t != Mod
    requires !JoinsConstants(e1, e2)
    ensures var s, j := SubjectOf(e1), JoinAnd(e1, e2).expr;
      && (s.typ == Boolean || s.typ == TristateType) && About(e1, s) && About(e2, s) && About(j, s)
      && ValueAbout(j, s, t) == Min(ValueAbout(e1, s, t), ValueAbout(e2, s, t))
  {
  }

  /** A constant that expressions may compare tristate symbols with: y, m, n, or one of `cs`. */
  predicate OneOf(cs: set<Symbol>, b: Symbol) {
    b.isConst && (IsTristateConstant(b) || b in cs)
  }

  /** Tristate symbols are compared with no other constants than y, m, n and `cs`. */
  function UsesOnly(cs: set<Symbol>): Expr -> bool {
    (e: Expr) => e.Compare? && e.lhs.typ.TristateType? && e.rhs.isConst ==> OneOf(cs, e.rhs)
  }

  /** The tristate symbol `s` compares equal to two different constants. */
  predicate Confused(s: Symbol, b: Symbol, c: Symbol, env: Env) {
    s.typ == TristateType && b != c && EvalCompare(Equal, s, b, env) == Yes && EvalCompare(Equal, s, c, env) == Yes
  }

  /** No tristate symbol compares equal to two of the constants. */
  ghost predicate Distinguished(cs: set<Symbol>, env: Env) {
    forall s, b, c {:trigger Confused(s, b, c, env)} :: OneOf(cs, b) && OneOf(cs, c) ==> !Confused(s, b, c, env)
  }

  lemma ConstantsJoined(e1: Expr, e2: Expr, cs: set<Symbol>, env: Env)
    requires EqualAndUnequal(e1, e2) && e1.lhs == e2.lhs && e1.lhs.typ == TristateType
    requires UsesOnly(cs)(e1) && UsesOnly(cs)(e2) && Distinguished(cs, env) && Typed(env)
    ensures Eval(JoinEqualUnequal(e1, e2), env) == Min(Eval(e1, env), Eval(e2, env))
  {
    ConstantValues(env);
    assert e1.rhs != e2.rhs ==> !Confused(e1.lhs, e1.rhs, e2.rhs, env);
  }

  lemma JoinAndConstants(e1: Expr, e2: Expr, cs: set<Symbol>, env: Env)
    requires !Same(e1, e2) && JoinAnd(e1, e2).Ref? && JoinsConstants(e1, e2)
    requires UsesOnly(cs)(e1) && UsesOnly(cs)(e2) && Distinguished(cs, env) && Typed(env)
    ensures Eval(JoinAnd(e1, e2).expr, env) == Min(Eval(e1, env), Eval(e2, env))
  {
    if EqualAndUnequal(e1, e2) {
      ConstantsJoined(e1, e2, cs, env);
    } else {
      ConstantsJoined(e2, e1, cs, env);
    }
  }

  lemma JoinMeaning(op: Op, e1: Expr, e2: Expr, cs: set<Symbol>, env: Env)
    requires Typed(env) && UsesOnly(cs)(e1) && UsesOnly(cs)(e2) && Distinguished(cs, env)
    requires Join(op, e1, e2).Ref?
    ensures Eval(Join(op, e1, e2).expr, env) == Apply(op, Eval(e1, env), Eval(e2, env))
  {
    if Same(e1, e2) {
      SameMeaning(e1, e2, env);
    } else if op == AndOp && JoinsConstants(e1, e2) {
      JoinAndConstants(e1, e2, cs, env);
    } else {
      var s, j := SubjectOf(e1), Join(op, e1, e2).expr;
      if op == OrOp {
        JoinOrTable(e1, e2, env.tri(s));
      } else {
        JoinAndTable(e1, e2, env.tri(s));
      }
      AboutMeaning(e1, s, env);
      AboutMeaning(e2, s, env);
      AboutMeaning(j, s, env);
    }
  }

  // ----- constants other than y, m and n -----

  /** A tristate symbol with the value `t` compares equal to a constant with this text. */
  predicate ComparesEqual(t: Tristate, text: string) {
    CompareStrings(TristateName(t), TristateType, text, UnknownType) == 0
  }

  /** No tristate value compares equal to both texts. */
  predicate NeverBoth(b: string, c: string) {
    forall t :: !(ComparesEqual(t, b) && ComparesEqual(t, c))
  }

  /** `text` is what the constant `b` is called. */
  predicate Called(b: Symbol, text: string) {
    b.typ == UnknownType && b.isConst && forall t :: b == TristateSymbol(t) ==> text == TristateName(t)
  }

  ghost predicate JoinIsExact(s: Symbol, b: Symbol, c: Symbol, env: Env)
    requires b.isConst && c.isConst
  {
    Eval(JoinEqualUnequal(Compare(Equal, s, b), Compare(Unequal, s, c)), env)
    == Min(EvalCompare(Equal, s, b, env), EvalCompare(Unequal, s, c, env))
  }

  lemma JoinConstantsAt(s: Symbol, b: Symbol, c: Symbol, env: Env)
    requires s.typ == TristateType && b.isConst && c.isConst && b != c && b.typ == c.typ == UnknownType && Typed(env)
    ensures JoinIsExact(s, b, c, env) <==>
      !(ComparesEqual(env.tri(s), env.val(b)) && ComparesEqual(env.tri(s), env.val(c)))
  {
    assert StringValue(s, env) == TristateName(env.tri(s));
    assert StringValue(b, env) == env.val(b) && StringValue(c, env) == env.val(c);
  }

  /** A valuation in which `s` has the value `t`, and two constants have their texts. */
  ghost function Witness(s: Symbol, t: Tristate, b: Symbol, x: string, c: Symbol, y: string): (env: Env)
    requires s.typ == TristateType && b != c && Called(b, x) && Called(c, y)
    ensures Typed(env) && env.tri(s) == t && env.val(b) == x && env.val(c) == y
  {
    Env((z: Symbol) => if z == s then t else if z == SYMBOL_YES then Yes else if z == SYMBOL_MOD then Mod else No,
        (z: Symbol) => if z == b then x else if z == c then y
                       else if z == SYMBOL_YES then "y" else if z == SYMBOL_MOD then "m" else "n",
        Yes)
  }

  /** The rule for (s='b') && (s!='c') is right in every valuation exactly if no tristate value
      compares equal to both constants. */
  lemma JoinConstantsExact(s: Symbol, b: Symbol, c: Symbol, x: string, y: string)
    requires s.typ == TristateType && b != c && Called(b, x) && Called(c, y)
    ensures NeverBoth(x, y) <==>
      forall env: Env :: Typed(env) && env.val(b) == x && env.val(c) == y ==> JoinIsExact(s, b, c, env)
  {
    forall env: Env | Typed(env) && env.val(b) == x && env.val(c) == y
      ensures JoinIsExact(s, b, c, env) <==> !(ComparesEqual(env.tri(s), x) && ComparesEqual(env.tri(s), y))
    {
      JoinConstantsAt(s, b, c, env);
    }
    if t :| ComparesEqual(t, x) && ComparesEqual(t, y) {
      assert !JoinIsExact(s, b, c, Witness(s, t, b, x, c, y));
    }
  }

  /** Compared with "0", the value n is equal by number: with (s='n') && (s!='0') the rule turns n
      into y. */
  lemma JoinNumberFails(s: Symbol, zero: Symbol, env: Env)
    requires Typed(env) && s.typ == TristateType && env.tri(s) == No
    requires zero.isConst && zero.typ == UnknownType && zero != SYMBOL_NO && env.val(zero) == "0"
    ensures Apply(AndOp, EvalCompare(Equal, s, SYMBOL_NO, env), EvalCompare(Unequal, s, zero, env)) == No
    ensures Join(AndOp, Compare(Equal, s, SYMBOL_NO), Compare(Unequal, s, zero)) == Ref(Compare(Equal, s, SYMBOL_NO))
    ensures EvalCompare(Equal, s, SYMBOL_NO, env) == Yes
  {
    CompareWithConstant(Equal, s, No, env);
    ZeroIsNumber();
    assert StringValue(s, env) == "n" && StringValue(zero, env) == "0";
  }

  lemma ZeroIsNumber()
    ensures ParseOperand("0", UnknownType) == Parsed(KindSigned, 0)
  {
    assert SkipSpaces("0", 0) == 0 && DigitsEnd("0", 8, 0) == 1;
    assert "0"[0..1] == "0" && DigitsValue("0", 8) == 0;
    assert ScanNumber("0", 0) == Scan(0, false, 1);
  }

  /** A position in a tree: false goes left and true goes right. expr_eliminate_dups1 gets two
      pointers into one and the same tree; two paths from its root say where they point. */
  type Path = seq<bool>

  /** The path stays inside the && (or ||) nodes that hang together with the root. */
  predicate OnLevel(op: Op, t: Expr, p: Path) {
    p == [] || (IsOp(t, op) && OnLevel(op, if p[0] then t.right else t.left, p[1..]))
  }

  function At(op: Op, t: Expr, p: Path): Expr
    requires OnLevel(op, t, p)
  {
    if p == [] then t else At(op, if p[0] then t.right else t.left, p[1..])
  }

  function Put(op: Op, t: Expr, p: Path, x: Expr): Expr
    requires OnLevel(op, t, p)
  {
    if p == [] then x
    else if p[0] then Bin(op, t.left, Put(op, t.right, p[1..], x))
    else Bin(op, Put(op, t.left, p[1..], x), t.right)
  }

  /** The path leads to an operand of the level. */
  predicate IsLeaf(op: Op, t: Expr, p: Path) {
    OnLevel(op, t, p) && !IsOp(At(op, t, p), op)
  }

  /** The number of operator nodes of a level. */
  function LevelSize(op: Op, t: Expr): nat {
    if IsOp(t, op) then 1 + LevelSize(op, t.left) + LevelSize(op, t.right) else 0
  }

  /** Two trees with the same operator nodes on the level of `op`. */
  predicate SameLevel(op: Op, a: Expr, b: Expr) {
    && IsOp(a, op) == IsOp(b, op)
    && (IsOp(a, op) ==> SameLevel(op, a.left, b.left) && SameLevel(op, a.right, b.right))
  }

  lemma {:induction false} SameLevelReflexive(op: Op, a: Expr)
    ensures SameLevel(op, a, a)
  {
    if IsOp(a, op) {
      SameLevelReflexive(op, a.left);
      SameLevelReflexive(op, a.right);
    }
  }

  lemma {:induction false} SameLevelTransitive(op: Op, a: Expr, b: Expr, c: Expr)
    requires SameLevel(op, a, b) && SameLevel(op, b, c)
    ensures SameLevel(op, a, c)
  {
    if IsOp(a, op) {
      SameLevelTransitive(op, a.left, b.left, c.left);
      SameLevelTransitive(op, a.right, b.right, c.right);
    }
  }

  lemma {:induction false} SameLevelAt(op: Op, a: Expr, b: Expr, p: Path)
    requires SameLevel(op, a, b) && OnLevel(op, a, p)
    ensures OnLevel(op, b, p) && SameLevel(op, At(op, a, p), At(op, b, p))
  {
    if p != [] {
      SameLevelAt(op, if p[0] then a.right else a.left, if p[0] then b.right else b.left, p[1..]);
    }
  }

  lemma {:induction false} SameLevelSize(op: Op, a: Expr, b: Expr)
    requires SameLevel(op, a, b)
    ensures LevelSize(op, a) == LevelSize(op, b)
  {
    if IsOp(a, op) {
      SameLevelSize(op, a.left, b.left);
      SameLevelSize(op, a.right, b.right);
    }
  }

  lemma {:induction false} ExtendPath(op: Op, t: Expr, p: Path, right: bool)
    requires OnLevel(op, t, p) && IsOp(At(op, t, p), op)
    ensures OnLevel(op, t, p + [right])
    ensures At(op, t, p + [right]) == if right then At(op, t, p).right else At(op, t, p).left
  {
    if p != [] {
      assert (p + [right])[1..] == p[1..] + [right];
      ExtendPath(op, if p[0] then t.right else t.left, p[1..], right);
    }
  }

  lemma {:induction false} AtSize(op: Op, t: Expr, p: Path)
    requires OnLevel(op, t, p)
    ensures Size(At(op, t, p)) <= Size(t)
    ensures p != [] ==> Size(At(op, t, p)) < Size(t)
  {
    if p != [] {
      AtSize(op, if p[0] then t.right else t.left, p[1..]);
    }
  }

  /** Replacing one operand. */
  lemma {:induction false} PutFacts(op: Op, t: Expr, p: Path, x: Expr)
    requires IsLeaf(op, t, p) && !IsOp(x, op)
    ensures var u := Put(op, t, p, x);
      && SameLevel(op, t, u) && IsLeaf(op, u, p) && At(op, u, p) == x
      && Size(u) + Size(At(op, t, p)) == Size(t) + Size(x)
  {
    if p != [] {
      var child := if p[0] then t.right else t.left;
      PutFacts(op, child, p[1..], x);
      SameLevelReflexive(op, if p[0] then t.left else t.right);
    }
  }

  /** Replacing one operand leaves the others alone. */
  lemma {:induction false} PutOther(op: Op, t: Expr, p: Path, x: Expr, q: Path)
    requires IsLeaf(op, t, p) && IsLeaf(op, t, q) && p != q && !IsOp(x, op)
    ensures IsLeaf(op, Put(op, t, p, x), q) && At(op, Put(op, t, p, x), q) == At(op, t, q)
  {
    assert p != [] && q != [];
    if p[0] == q[0] {
      assert p[1..] != q[1..] by {
        assert p == [p[0]] + p[1..] && q == [q[0]] + q[1..];
      }
      PutOther(op, if p[0] then t.right else t.left, p[1..], x, q[1..]);
    }
  }

  /** A step of the simplifier and how often it joined two operands. */
  datatype Counted = Counted(expr: Expr, joins: nat)

  /** The two operands at `p` and `q` are joined if a rule applies. */
  function JoinLeaves(op: Op, t: Expr, p: Path, q: Path): (r: Counted)
    requires IsLeaf(op, t, p) && IsLeaf(op, t, q) && p != q
    ensures Size(r.expr) <= Size(t) && SameLevel(op, t, r.expr)
  {
    var j := Join(op, At(op, t, p), At(op, t, q));
    SameLevelReflexive(op, t);
    if j.Null? then Counted(t, 0)
    else
      var one := Put(op, t, p, Sym(Identity(op)));
      JoinShape(op, At(op, t, p), At(op, t, q));
      PutFacts(op, t, p, Sym(Identity(op)));
      PutOther(op, t, p, Sym(Identity(op)), q);
      PutFacts(op, one, q, j.expr);
      SameLevelTransitive(op, t, one, Put(op, one, q, j.expr));
      Counted(Put(op, one, q, j.expr), 1)
  }

  /** expr_eliminate_dups1(op, ep1, ep2) on the tree `t`, where ep1 points at `p` and ep2 at `q`. */
  function JoinPairs(op: Op, t: Expr, p: Path, q: Path): (r: Counted)
    requires OnLevel(op, t, p) && OnLevel(op, t, q)
    ensures Size(r.expr) <= Size(t) && SameLevel(op, t, r.expr)
    decreases Size(t), LevelSize(op, At(op, t, p)) + LevelSize(op, At(op, t, q)), 1
  {
    SameLevelReflexive(op, t);
    if IsOp(At(op, t, p), op) then
      ExtendPath(op, t, p, false);
      ExtendPath(op, t, p, true);
      var first := JoinPairs(op, t, p + [false], q);
      LevelKept(op, t, first.expr, p + [true], q);
      var second := JoinPairs(op, first.expr, p + [true], q);
      SameLevelTransitive(op, t, first.expr, second.expr);
      Counted(second.expr, first.joins + second.joins)
    else if IsOp(At(op, t, q), op) then
      ExtendPath(op, t, q, false);
      ExtendPath(op, t, q, true);
      var first := JoinPairs(op, t, p, q + [false]);
      LevelKept(op, t, first.expr, p, q + [true]);
      var second := JoinPairs(op, first.expr, p, q + [true]);
      SameLevelTransitive(op, t, first.expr, second.expr);
      Counted(second.expr, first.joins + second.joins)
    else if p == q then Counted(t, 0)
    else
      var inner := JoinInside(op, t, p, q);
      var outer := JoinLeaves(op, inner.expr, p, q);
      SameLevelTransitive(op, t, inner.expr, outer.expr);
      Counted(outer.expr, inner.joins + outer.joins)
  }

  /** The operand at `p` is simplified by itself before it is compared with the one at `q`. */
  function JoinInside(op: Op, t: Expr, p: Path, q: Path): (r: Counted)
    requires IsLeaf(op, t, p) && IsLeaf(op, t, q) && p != q
    ensures Size(r.expr) <= Size(t) && SameLevel(op, t, r.expr)
    ensures IsLeaf(op, r.expr, p) && IsLeaf(op, r.expr, q)
    decreases Size(t), 0, 0
  {
    var x := At(op, t, p);
    SameLevelReflexive(op, t);
    if x.Bin? then
      AtSize(op, t, p);
      var y := JoinPairs(x.op, x, [], []);
      PutFacts(op, t, p, y.expr);
      PutOther(op, t, p, y.expr, q);
      Counted(Put(op, t, p, y.expr), y.joins)
    else Counted(t, 0)
  }

  lemma LevelKept(op: Op, t: Expr, u: Expr, p: Path, q: Path)
    requires OnLevel(op, t, p) && OnLevel(op, t, q) && SameLevel(op, t, u)
    ensures OnLevel(op, u, p) && OnLevel(op, u, q)
    ensures LevelSize(op, At(op, u, p)) == LevelSize(op, At(op, t, p))
    ensures LevelSize(op, At(op, u, q)) == LevelSize(op, At(op, t, q))
  {
    SameLevelAt(op, t, u, p);
    SameLevelAt(op, t, u, q);
    SameLevelSize(op, At(op, t, p), At(op, u, p));
    SameLevelSize(op, At(op, t, q), At(op, u, q));
  }

  lemma {:induction false} FoldableAt(op: Op, t: Expr, p: Path)
    requires OnLevel(op, t, p)
    requires Foldable(At(op, t, p)) || (p != [] && (At(op, t, p) == Sym(SYMBOL_YES) || At(op, t, p) == Sym(SYMBOL_NO)))
    ensures Foldable(t)
  {
    if |p| > 1 || (p != [] && Foldable(At(op, t, p))) {
      FoldableAt(op, if p[0] then t.right else t.left, p[1..]);
    }
  }

  lemma JoinLeavesCount(op: Op, t: Expr, p: Path, q: Path)
    requires IsLeaf(op, t, p) && IsLeaf(op, t, q) && p != q
    ensures var r := JoinLeaves(op, t, p, q);
      if r.joins == 0 then r.expr == t else Foldable(r.expr)
  {
    var j := Join(op, At(op, t, p), At(op, t, q));
    if j.Ref? {
      var one := Put(op, t, p, Sym(Identity(op)));
      JoinShape(op, At(op, t, p), At(op, t, q));
      PutFacts(op, t, p, Sym(Identity(op)));
      PutOther(op, t, p, Sym(Identity(op)), q);
      PutOther(op, one, q, j.expr, p);
      FoldableAt(op, Put(op, one, q, j.expr), p);
    }
  }

  /** A pass without a join changes nothing; a pass with one leaves a constant to fold. */
  predicate CountsRight(t: Expr, r: Counted) {
    if r.joins == 0 then r.expr == t else Foldable(r.expr)
  }

  lemma CountsOn(t: Expr, first: Counted, second: Counted)
    requires CountsRight(t, first) && CountsRight(first.expr, second)
    ensures CountsRight(t, Counted(second.expr, first.joins + second.joins))
  {
  }

  lemma {:induction false} JoinPairsCount(op: Op, t: Expr, p: Path, q: Path)
    requires OnLevel(op, t, p) && OnLevel(op, t, q)
    ensures CountsRight(t, JoinPairs(op, t, p, q))
    decreases Size(t), LevelSize(op, At(op, t, p)) + LevelSize(op, At(op, t, q)), 1
  {
    if IsOp(At(op, t, p), op) {
      ExtendPath(op, t, p, false);
      ExtendPath(op, t, p, true);
      var first := JoinPairs(op, t, p + [false], q);
      LevelKept(op, t, first.expr, p + [true], q);
      JoinPairsCount(op, t, p + [false], q);
      JoinPairsCount(op, first.expr, p + [true], q);
      CountsOn(t, first, JoinPairs(op, first.expr, p + [true], q));
    } else if IsOp(At(op, t, q), op) {
      ExtendPath(op, t, q, false);
      ExtendPath(op, t, q, true);
      var first := JoinPairs(op, t, p, q + [false]);
      LevelKept(op, t, first.expr, p, q + [true]);
      JoinPairsCount(op, t, p, q + [false]);
      JoinPairsCount(op, first.expr, p, q + [true]);
      CountsOn(t, first, JoinPairs(op, first.expr, p, q + [true]));
    } else if p != q {
      JoinInsideCount(op, t, p, q);
      JoinLeavesCount(op, JoinInside(op, t, p, q).expr, p, q);
    }
  }

  lemma {:induction false} JoinInsideCount(op: Op, t: Expr, p: Path, q: Path)
    requires IsLeaf(op, t, p) && IsLeaf(op, t, q) && p != q
    ensures var r := JoinInside(op, t, p, q);
      if r.joins == 0 then r.expr == t else Foldable(r.expr)
    decreases Size(t), 0, 0
  {
    var x := At(op, t, p);
    if x.Bin? {
      AtSize(op, t, p);
      var y := JoinPairs(x.op, x, [], []);
      JoinPairsCount(x.op, x, [], []);
      PutFacts(op, t, p, y.expr);
      PutSame(op, t, p);
      if y.joins > 0 {
        FoldableAt(op, Put(op, t, p, y.expr), p);
      }
    }
  }

  lemma {:induction false} PutSame(op: Op, t: Expr, p: Path)
    requires OnLevel(op, t, p)
    ensures Put(op, t, p, At(op, t, p)) == t
  {
    if p != [] {
      PutSame(op, if p[0] then t.right else t.left, p[1..]);
    }
  }

  /** expr_eliminate_dups on a non-NULL expression: passes over all pairs of operands, with
      constants folded after each pass, until a pass joins nothing. */
  function EliminateDuplicates(e: Expr): (r: Expr)
    ensures Size(r) <= Size(e)
    decreases Size(e)
  {
    if !e.Bin? then e
    else
      var pass := JoinPairs(e.op, e, [], []);
      if pass.joins == 0 then pass.expr
      else
        JoinPairsCount(e.op, e, [], []);
        FoldConstantsShrinks(pass.expr);
        EliminateDuplicates(FoldConstants(pass.expr))
  }

  function EliminateDuplicatesNullable(p: Nullable): Nullable {
    match p
    case Null => Null
    case Ref(e) => Ref(EliminateDuplicates(e))
  }

  /** Predicates on nodes that every node made by the simplifier satisfies: it makes constants, and
      comparisons of symbols that occur already. */
  ghost predicate Closed(good: Expr -> bool) {
    && (forall t :: good(Sym(TristateSymbol(t))))
    && (forall rel, s: Symbol, t :: (rel == Equal || rel == Unequal) && good(Sym(s)) ==>
          good(Compare(rel, s, TristateSymbol(t))))
    && (forall rel, s: Symbol, t, other, x: Symbol :: (rel == Equal || rel == Unequal) && good(Compare(other, s, x)) ==>
          good(Compare(rel, s, TristateSymbol(t))))
    && (forall op, l, r, l', r' :: good(Bin(op, l, r)) ==> good(Bin(op, l', r')))
  }

  lemma {:induction false} FoldConstantsKeeps(e: Expr, good: Expr -> bool)
    requires Closed(good) && AllNodes(e, good)
    ensures AllNodes(FoldConstants(e), good)
  {
    match e
    case Bin(op, l, r) =>
      FoldConstantsKeeps(l, good);
      FoldConstantsKeeps(r, good);
      assert good(Bin(op, FoldConstants(l), FoldConstants(r)));
    case _ =>
  }

  lemma JoinKeeps(op: Op, e1: Expr, e2: Expr, good: Expr -> bool)
    requires Closed(good) && AllNodes(e1, good) && AllNodes(e2, good)
    requires Join(op, e1, e2).Ref?
    ensures AllNodes(Join(op, e1, e2).expr, good)
  {
    assert TristateSymbol(Yes) == SYMBOL_YES && TristateSymbol(Mod) == SYMBOL_MOD && TristateSymbol(No) == SYMBOL_NO;
  }

  lemma {:induction false} AtKeeps(op: Op, t: Expr, p: Path, good: Expr -> bool)
    requires OnLevel(op, t, p) && AllNodes(t, good)
    ensures AllNodes(At(op, t, p), good)
  {
    if p != [] {
      AtKeeps(op, if p[0] then t.right else t.left, p[1..], good);
    }
  }

  lemma {:induction false} PutKeeps(op: Op, t: Expr, p: Path, x: Expr, good: Expr -> bool)
    requires Closed(good) && OnLevel(op, t, p) && AllNodes(t, good) && AllNodes(x, good)
    ensures AllNodes(Put(op, t, p, x), good)
  {
    if p != [] {
      PutKeeps(op, if p[0] then t.right else t.left, p[1..], x, good);
      assert good(Bin(op, t.left, t.right));
      assert good(Put(op, t, p, x));
    }
  }

  lemma JoinLeavesKeeps(op: Op, t: Expr, p: Path, q: Path, good: Expr -> bool)
    requires IsLeaf(op, t, p) && IsLeaf(op, t, q) && p != q && Closed(good) && AllNodes(t, good)
    ensures AllNodes(JoinLeaves(op, t, p, q).expr, good)
  {
    var x, y := At(op, t, p), At(op, t, q);
    if Join(op, x, y).Ref? {
      AtKeeps(op, t, p, good);
      AtKeeps(op, t, q, good);
      JoinKeeps(op, x, y, good);
      assert Identity(op) == TristateSymbol(if op == AndOp then Yes else No);
      var one := Put(op, t, p, Sym(Identity(op)));
      PutKeeps(op, t, p, Sym(Identity(op)), good);
      PutFacts(op, t, p, Sym(Identity(op)));
      PutOther(op, t, p, Sym(Identity(op)), q);
      PutKeeps(op, one, q, Join(op, x, y).expr, good);
    }
  }

  lemma {:induction false} JoinPairsKeeps(op: Op, t: Expr, p: Path, q: Path, good: Expr -> bool)
    requires OnLevel(op, t, p) && OnLevel(op, t, q) && Closed(good) && AllNodes(t, good)
    ensures AllNodes(JoinPairs(op, t, p, q).expr, good)
    decreases Size(t), LevelSize(op, At(op, t, p)) + LevelSize(op, At(op, t, q)), 1
  {
    if IsOp(At(op, t, p), op) {
      ExtendPath(op, t, p, false);
      ExtendPath(op, t, p, true);
      var first := JoinPairs(op, t, p + [false], q);
      LevelKept(op, t, first.expr, p + [true], q);
      JoinPairsKeeps(op, t, p + [false], q, good);
      JoinPairsKeeps(op, first.expr, p + [true], q, good);
    } else if IsOp(At(op, t, q), op) {
      ExtendPath(op, t, q, false);
      ExtendPath(op, t, q, true);
      var first := JoinPairs(op, t, p, q + [false]);
      LevelKept(op, t, first.expr, p, q + [true]);
      JoinPairsKeeps(op, t, p, q + [false], good);
      JoinPairsKeeps(op, first.expr, p, q + [true], good);
    } else if p != q {
      JoinInsideKeeps(op, t, p, q, good);
      JoinLeavesKeeps(op, JoinInside(op, t, p, q).expr, p, q, good);
    }
  }

  lemma {:induction false} JoinInsideKeeps(op: Op, t: Expr, p: Path, q: Path, good: Expr -> bool)
    requires IsLeaf(op, t, p) && IsLeaf(op, t, q) && p != q && Closed(good) && AllNodes(t, good)
    ensures AllNodes(JoinInside(op, t, p, q).expr, good)
    decreases Size(t), 0, 0
  {
    var x := At(op, t, p);
    if x.Bin? {
      AtSize(op, t, p);
      AtKeeps(op, t, p, good);
      JoinPairsKeeps(x.op, x, [], [], good);
      PutKeeps(op, t, p, JoinPairs(x.op, x, [], []).expr, good);
    }
  }

  /** Whatever holds of all nodes, and of the nodes that the rules make, holds afterwards. */
  lemma {:induction false} EliminateDuplicatesKeeps(e: Expr, good: Expr -> bool)
    requires Closed(good) && AllNodes(e, good)
    ensures AllNodes(EliminateDuplicates(e), good)
    decreases Size(e)
  {
    if e.Bin? {
      var pass := JoinPairs(e.op, e, [], []);
      JoinPairsKeeps(e.op, e, [], [], good);
      if pass.joins > 0 {
        JoinPairsCount(e.op, e, [], []);
        FoldConstantsShrinks(pass.expr);
        FoldConstantsKeeps(pass.expr, good);
        EliminateDuplicatesKeeps(FoldConstants(pass.expr), good);
      }
    }
  }

  /** Negation normal form and the typing premises survive. */
  lemma EliminateDuplicatesForm(e: Expr)
    ensures NegationNormal(e) ==> NegationNormal(EliminateDuplicates(e))
    ensures WellTyped(e) ==> WellTyped(EliminateDuplicates(e))
  {
    if NegationNormal(e) {
      EliminateDuplicatesKeeps(e, SymbolNegated);
    }
    if WellTyped(e) {
      EliminateDuplicatesKeeps(e, OrderedOperands);
      EliminateDuplicatesKeeps(e, TristateConstants);
    }
  }

  /** Replacing one operand by something that combines with `c` to the same value. */
  lemma {:induction false} PutMeaning(op: Op, t: Expr, p: Path, x: Expr, c: Tristate, d: Tristate, env: Env)
    requires IsLeaf(op, t, p)
    requires Apply(op, Eval(At(op, t, p), env), c) == Apply(op, Eval(x, env), d)
    ensures Apply(op, Eval(t, env), c) == Apply(op, Eval(Put(op, t, p, x), env), d)
  {
    if p != [] {
      var (a, b) := if p[0] then (t.right, t.left) else (t.left, t.right);
      PutMeaning(op, a, p[1..], x, c, d, env);
      ApplyBeside(op, Eval(a, env), Eval(Put(op, a, p[1..], x), env), Eval(b, env), c, d);
    }
  }

  /** A third value beside two that combine to the same changes nothing. */
  lemma ApplyBeside(op: Op, a: Tristate, a': Tristate, b: Tristate, c: Tristate, d: Tristate)
    requires Apply(op, a, c) == Apply(op, a', d)
    ensures Apply(op, Apply(op, a, b), c) == Apply(op, Apply(op, a', b), d)
    ensures Apply(op, Apply(op, b, a), c) == Apply(op, Apply(op, b, a'), d)
  {
  }

  /** The same, with one operand on either side of the root. */
  lemma PutTwoSides(op: Op, t: Expr, p: Path, x: Expr, q: Path, y: Expr, env: Env)
    requires IsLeaf(op, t, p) && IsLeaf(op, t, q) && p != [] && q != [] && p[0] != q[0]
    requires Apply(op, Eval(At(op, t, p), env), Eval(At(op, t, q), env)) == Apply(op, Eval(x, env), Eval(y, env))
    requires IsLeaf(op, Put(op, t, p, x), q)
    ensures Eval(Put(op, Put(op, t, p, x), q, y), env) == Eval(t, env)
  {
    var (a, b) := if p[0] then (t.right, t.left) else (t.left, t.right);
    var x', y' := Put(op, a, p[1..], x), Put(op, b, q[1..], y);
    var vq, vy := Eval(At(op, t, q), env), Eval(y, env);
    PutMeaning(op, a, p[1..], x, vq, vy, env);
    assert Apply(op, Eval(a, env), vq) == Apply(op, Eval(x', env), vy);
    ApplyCommutes(op, Eval(a, env), vq);
    ApplyCommutes(op, Eval(x', env), vy);
    PutMeaning(op, b, q[1..], y, Eval(a, env), Eval(x', env), env);
    assert Apply(op, Eval(b, env), Eval(a, env)) == Apply(op, Eval(y', env), Eval(x', env));
    ApplyCommutes(op, Eval(b, env), Eval(a, env));
    ApplyCommutes(op, Eval(y', env), Eval(x', env));
    assert Put(op, Put(op, t, p, x), q, y) == if p[0] then Bin(op, y', x') else Bin(op, x', y');
  }

  lemma ApplyCommutes(op: Op, a: Tristate, b: Tristate)
    ensures Apply(op, a, b) == Apply(op, b, a)
  {
  }

  /** Replacing two operands by two with the same combined value. */
  lemma {:induction false} PutTwoMeaning(op: Op, t: Expr, p: Path, x: Expr, q: Path, y: Expr, env: Env)
    requires IsLeaf(op, t, p) && IsLeaf(op, t, q) && p != q && !IsOp(x, op)
    requires Apply(op, Eval(At(op, t, p), env), Eval(At(op, t, q), env)) == Apply(op, Eval(x, env), Eval(y, env))
    ensures IsLeaf(op, Put(op, t, p, x), q)
    ensures Eval(Put(op, Put(op, t, p, x), q, y), env) == Eval(t, env)
  {
    PutOther(op, t, p, x, q);
    assert p != [] && q != [];
    if p[0] == q[0] {
      assert p[1..] != q[1..] by {
        assert p == [p[0]] + p[1..] && q == [q[0]] + q[1..];
      }
      PutTwoMeaning(op, if p[0] then t.right else t.left, p[1..], x, q[1..], y, env);
    } else {
      PutTwoSides(op, t, p, x, q, y, env);
    }
  }

  lemma UsesOnlyIsClosed(cs: set<Symbol>)
    ensures Closed(UsesOnly(cs))
  {
  }

  lemma JoinLeavesMeaning(op: Op, t: Expr, p: Path, q: Path, cs: set<Symbol>, env: Env)
    requires IsLeaf(op, t, p) && IsLeaf(op, t, q) && p != q
    requires Typed(env) && AllNodes(t, UsesOnly(cs)) && Distinguished(cs, env)
    ensures Eval(JoinLeaves(op, t, p, q).expr, env) == Eval(t, env)
  {
    var x, y := At(op, t, p), At(op, t, q);
    var j := Join(op, x, y);
    if j.Ref? {
      AtKeeps(op, t, p, UsesOnly(cs));
      AtKeeps(op, t, q, UsesOnly(cs));
      JoinMeaning(op, x, y, cs, env);
      ConstantValues(env);
      assert Apply(op, Eval(Sym(Identity(op)), env), Eval(j.expr, env)) == Eval(j.expr, env);
      PutTwoMeaning(op, t, p, Sym(Identity(op)), q, j.expr, env);
    }
  }

  lemma {:induction false} JoinPairsMeaning(op: Op, t: Expr, p: Path, q: Path, cs: set<Symbol>, env: Env)
    requires OnLevel(op, t, p) && OnLevel(op, t, q)
    requires Typed(env) && AllNodes(t, UsesOnly(cs)) && Distinguished(cs, env)
    ensures Eval(JoinPairs(op, t, p, q).expr, env) == Eval(t, env)
    decreases Size(t), LevelSize(op, At(op, t, p)) + LevelSize(op, At(op, t, q)), 1
  {
    var bound := LevelSize(op, At(op, t, p)) + LevelSize(op, At(op, t, q));
    if IsOp(At(op, t, p), op) {
      ExtendPath(op, t, p, false);
      ExtendPath(op, t, p, true);
      TwoPairsMeaning(op, t, p + [false], q, p + [true], q, bound, cs, env);
    } else if IsOp(At(op, t, q), op) {
      ExtendPath(op, t, q, false);
      ExtendPath(op, t, q, true);
      TwoPairsMeaning(op, t, p, q + [false], p, q + [true], bound, cs, env);
    } else if p != q {
      JoinInsideMeaning(op, t, p, q, cs, env);
      UsesOnlyIsClosed(cs);
      JoinInsideKeeps(op, t, p, q, UsesOnly(cs));
      JoinLeavesMeaning(op, JoinInside(op, t, p, q).expr, p, q, cs, env);
    }
  }

  /** Two rounds, the second one on the outcome of the first. */
  lemma {:induction false} TwoPairsMeaning(op: Op, t: Expr, p: Path, q: Path, p': Path, q': Path, bound: nat,
                                           cs: set<Symbol>, env: Env)
    requires OnLevel(op, t, p) && OnLevel(op, t, q) && OnLevel(op, t, p') && OnLevel(op, t, q')
    requires LevelSize(op, At(op, t, p)) + LevelSize(op, At(op, t, q)) < bound
    requires LevelSize(op, At(op, t, p')) + LevelSize(op, At(op, t, q')) < bound
    requires Typed(env) && AllNodes(t, UsesOnly(cs)) && Distinguished(cs, env)
    ensures var first := JoinPairs(op, t, p, q);
      && OnLevel(op, first.expr, p') && OnLevel(op, first.expr, q')
      && Eval(JoinPairs(op, first.expr, p', q').expr, env) == Eval(t, env)
    decreases Size(t), bound, 0
  {
    var first := JoinPairs(op, t, p, q);
    LevelKept(op, t, first.expr, p', q');
    UsesOnlyIsClosed(cs);
    JoinPairsKeeps(op, t, p, q, UsesOnly(cs));
    JoinPairsMeaning(op, t, p, q, cs, env);
    JoinPairsMeaning(op, first.expr, p', q', cs, env);
  }

  lemma {:induction false} JoinInsideMeaning(op: Op, t: Expr, p: Path, q: Path, cs: set<Symbol>, env: Env)
    requires IsLeaf(op, t, p) && IsLeaf(op, t, q) && p != q
    requires Typed(env) && AllNodes(t, UsesOnly(cs)) && Distinguished(cs, env)
    ensures Eval(JoinInside(op, t, p, q).expr, env) == Eval(t, env)
    decreases Size(t), 0, 0
  {
    var x := At(op, t, p);
    if x.Bin? {
      AtSize(op, t, p);
      AtKeeps(op, t, p, UsesOnly(cs));
      JoinPairsMeaning(x.op, x, [], [], cs, env);
      var y := JoinPairs(x.op, x, [], []).expr;
      PutMeaning(op, t, p, y, Eval(Sym(Identity(op)), env), Eval(Sym(Identity(op)), env), env);
      ConstantValues(env);
    }
  }

  /** expr_eliminate_dups preserves the value of every expression whose constants can be told apart. */
  lemma {:induction false} EliminateDuplicatesSafe(e: Expr, cs: set<Symbol>, env: Env)
    requires Typed(env) && AllNodes(e, UsesOnly(cs)) && Distinguished(cs, env)
    ensures Eval(EliminateDuplicates(e), env) == Eval(e, env)
    decreases Size(e)
  {
    if e.Bin? {
      UsesOnlyIsClosed(cs);
      var pass := JoinPairs(e.op, e, [], []);
      JoinPairsMeaning(e.op, e, [], [], cs, env);
      if pass.joins > 0 {
        JoinPairsCount(e.op, e, [], []);
        JoinPairsKeeps(e.op, e, [], [], UsesOnly(cs));
        FoldConstantsShrinks(pass.expr);
        FoldConstantsKeeps(pass.expr, UsesOnly(cs));
        FoldConstantsMeaning(pass.expr, env);
        EliminateDuplicatesSafe(FoldConstants(pass.expr), cs, env);
      }
    }
  }

  /** The constants y, m and n can always be told apart. */
  lemma TristatesDistinguished(env: Env)
    requires Typed(env)
    ensures Distinguished({}, env)
  {
    forall s, b, c | OneOf({}, b) && OneOf({}, c)
      ensures !Confused(s, b, c, env)
    {
      if s.typ == TristateType {
        ConstantValues(env);
        assert b == TristateSymbol(env.tri(b)) && c == TristateSymbol(env.tri(c));
        CompareWithConstant(Equal, s, env.tri(b), env);
        CompareWithConstant(Equal, s, env.tri(c), env);
      }
    }
  }

  lemma {:induction false} NoOtherConstants(e: Expr)
    requires AllNodes(e, TristateConstants)
    ensures AllNodes(e, UsesOnly({}))
  {
    match e
    case Not(a) => NoOtherConstants(a);
    case Bin(_, l, r) =>
      NoOtherConstants(l);
      NoOtherConstants(r);
    case _ =>
  }

  /** In particular that of every expression with no other constants. */
  lemma EliminateDuplicatesMeaning(e: Expr, env: Env)
    requires Typed(env) && AllNodes(e, TristateConstants)
    ensures Eval(EliminateDuplicates(e), env) == Eval(e, env)
  {
    NoOtherConstants(e);
    TristatesDistinguished(env);
    EliminateDuplicatesSafe(e, {}, env);
  }

  /** A pass without a join has compared every two operands it was given. */
  lemma {:induction false} NoJoinsLeft(op: Op, t: Expr, p: Path, q: Path, a: Path, b: Path)
    requires OnLevel(op, t, p) && OnLevel(op, t, q) && JoinPairs(op, t, p, q).joins == 0
    requires IsLeaf(op, t, a) && IsLeaf(op, t, b) && p <= a && q <= b && a != b
    ensures Join(op, At(op, t, a), At(op, t, b)).Null?
    decreases LevelSize(op, At(op, t, p)) + LevelSize(op, At(op, t, q))
  {
    if IsOp(At(op, t, p), op) {
      ExtendPath(op, t, p, false);
      ExtendPath(op, t, p, true);
      JoinPairsCount(op, t, p + [false], q);
      LeafBelow(op, t, p, a);
      if a[|p|] {
        NoJoinsLeft(op, t, p + [true], q, a, b);
      } else {
        NoJoinsLeft(op, t, p + [false], q, a, b);
      }
    } else if IsOp(At(op, t, q), op) {
      ExtendPath(op, t, q, false);
      ExtendPath(op, t, q, true);
      JoinPairsCount(op, t, p, q + [false]);
      LeafBelow(op, t, q, b);
      if b[|q|] {
        NoJoinsLeft(op, t, p, q + [true], a, b);
      } else {
        NoJoinsLeft(op, t, p, q + [false], a, b);
      }
    } else {
      LeafEnds(op, t, p, a);
      LeafEnds(op, t, q, b);
      JoinInsideCount(op, t, p, q);
    }
  }

  /** Below an operator node a path to an operand goes on. */
  lemma {:induction false} LeafBelow(op: Op, t: Expr, p: Path, a: Path)
    requires OnLevel(op, t, p) && IsOp(At(op, t, p), op) && IsLeaf(op, t, a) && p <= a
    ensures |p| < |a| && p + [a[|p|]] <= a
  {
    if p != [] {
      LeafBelow(op, if p[0] then t.right else t.left, p[1..], a[1..]);
    }
  }

  /** Below an operand no path goes on. */
  lemma {:induction false} LeafEnds(op: Op, t: Expr, p: Path, a: Path)
    requires IsLeaf(op, t, p) && IsLeaf(op, t, a) && p <= a
    ensures p == a
  {
    if p != [] {
      LeafEnds(op, if p[0] then t.right else t.left, p[1..], a[1..]);
      assert p == [p[0]] + p[1..] && a == [a[0]] + a[1..];
    }
  }

  /** The result is a fixpoint: no rule applies to any two of its operands. */
  lemma {:induction false} NoDuplicates(e: Expr, a: Path, b: Path)
    requires var r := EliminateDuplicates(e);
      r.Bin? && IsLeaf(r.op, r, a) && IsLeaf(r.op, r, b) && a != b
    ensures var r := EliminateDuplicates(e);
      Join(r.op, At(r.op, r, a), At(r.op, r, b)).Null? && EliminateDuplicates(r) == r
    decreases Size(e)
  {
    var pass := JoinPairs(e.op, e, [], []);
    JoinPairsCount(e.op, e, [], []);
    if pass.joins == 0 {
      NoJoinsLeft(e.op, e, [], [], a, b);
    } else {
      FoldConstantsShrinks(pass.expr);
      NoDuplicates(FoldConstants(pass.expr), a, b);
    }
  }
}
