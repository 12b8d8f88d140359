/** expr_transform: boolean comparisons become plain symbols, and negations move inwards. */
module ExprTransform {
  import opened Tristates
  import opened CNumbers
  import opened Expressions
  import opened ExprEquality

  /** A measure that De Morgan's laws and the comparison rules decrease. */
  function Weight(e: Expr): nat
    ensures Weight(e) >= 1
  {
    match e
    case Sym(_) => 1
    case Compare(_, _, _) => 2
    case Not(a) => 2 * Weight(a)
    case Bin(_, l, r) => Weight(l) + Weight(r) + 1
  }

  function Dual(op: Op): Op {
    if op == AndOp then OrOp else AndOp
  }

  function Opposite(rel: Relation): Relation {
    match rel
    case Equal => Unequal
    case Unequal => Equal
    case LessEq => Greater
    case GreaterEq => Less
    case Less => GreaterEq
    case Greater => LessEq
  }

  lemma DeMorganWeight(op: Op, l: Expr, r: Expr)
    ensures Weight(Bin(Dual(op), Not(l), Not(r))) < Weight(Not(Bin(op, l, r)))
  {
    assert Weight(Not(l)) == 2 * Weight(l) && Weight(Not(r)) == 2 * Weight(r);
  }

  /** The rules for a bool symbol compared with y, m or n. */
  function TransformCompare(rel: Relation, l: Symbol, r: Symbol): (e: Expr)
    ensures Weight(e) <= 2
  {
    if l.typ != Boolean then Compare(rel, l, r)
    else if rel == Equal then
      if r == SYMBOL_NO then Not(Sym(l))
      else if r == SYMBOL_MOD then Sym(SYMBOL_NO)
      else if r == SYMBOL_YES then Sym(l)
      else Compare(rel, l, r)
    else if rel == Unequal then
      if r == SYMBOL_NO then Sym(l)
      else if r == SYMBOL_MOD then Sym(SYMBOL_YES)
      else if r == SYMBOL_YES then Not(Sym(l))
      else Compare(rel, l, r)
    else Compare(rel, l, r)
  }

  function Transform(e: Expr): (r: Expr)
    ensures Weight(r) <= Weight(e)
    decreases Weight(e)
  {
    match e
    case Sym(_) => e
    case Compare(rel, l, r) => TransformCompare(rel, l, r)
    case Bin(op, l, r) => Bin(op, Transform(l), Transform(r))
    case Not(a) =>
      match Transform(a)
      case Not(b) => Transform(b)
      case Compare(rel, l, r) => Compare(Opposite(rel), l, r)
      case Bin(op, l, r) => DeMorganWeight(op, l, r); Transform(Bin(Dual(op), Not(l), Not(r)))
      case Sym(s) =>
        if s == SYMBOL_YES then Sym(SYMBOL_NO)
        else if s == SYMBOL_MOD then Sym(SYMBOL_MOD)
        else if s == SYMBOL_NO then Sym(SYMBOL_YES)
        else Not(Sym(s))
  }

  function TransformNullable(p: Nullable): Nullable {
    match p
    case Null => Null
    case Ref(e) => Ref(Transform(e))
  }

  /** A comparison that none of the rules for bool symbols applies to. */
  predicate PlainCompare(rel: Relation, l: Symbol, r: Symbol) {
    l.typ == Boolean && (rel == Equal || rel == Unequal) ==> !IsTristateConstant(r)
  }

  /** No comparison is left that a rule for bool symbols applies to. */
  predicate PlainCompares(e: Expr) {
    match e
    case Sym(_) => true
    case Compare(rel, l, r) => PlainCompare(rel, l, r)
    case Not(a) => PlainCompares(a)
    case Bin(_, l, r) => PlainCompares(l) && PlainCompares(r)
  }

  lemma {:induction false} TransformNormalises(e: Expr)
    ensures NegationNormal(Transform(e)) && PlainCompares(Transform(e))
    decreases Weight(e)
  {
    match e
    case Sym(_) =>
    case Compare(_, _, _) =>
    case Bin(op, l, r) =>
      TransformNormalises(l);
      TransformNormalises(r);
    case Not(a) =>
      TransformNormalises(a);
      match Transform(a)
      case Bin(op, l, r) => DeMorganWeight(op, l, r); TransformNormalises(Bin(Dual(op), Not(l), Not(r)));
      case Not(b) => TransformNormalises(b);
      case _ =>
  }

  /** Expressions in normal form are left alone. */
  lemma {:induction false} TransformFixed(e: Expr)
    requires NegationNormal(e) && PlainCompares(e)
    ensures Transform(e) == e
  {
    match e
    case Bin(op, l, r) =>
      TransformFixed(l);
      TransformFixed(r);
    case _ =>
  }

  lemma TransformIdempotent(e: Expr)
    ensures Transform(Transform(e)) == Transform(e)
  {
    TransformNormalises(e);
    TransformFixed(Transform(e));
  }

  /** Exchanging a relation for its opposite negates the result except in an ordered comparison
      of operands that cannot be compared. */
  lemma OppositeMeaning(rel: Relation, l: Symbol, r: Symbol, env: Env)
    ensures EvalCompare(Opposite(rel), l, r, env) == Negate(EvalCompare(rel, l, r, env)) <==>
      rel.Equal? || rel.Unequal? || !Incomparable(StringValue(l, env), l.typ, StringValue(r, env), r.typ)
  {
    var sign := CompareStrings(StringValue(l, env), l.typ, StringValue(r, env), r.typ);
    assert Holds(Opposite(rel), sign) == !Holds(rel, sign);
  }

  /** A symbol of type S_OTHER is neither less than a bool symbol nor greater or equal, so that
      !(l<r) and the comparison it becomes differ. */
  lemma OppositeOfOther(l: Symbol, r: Symbol, env: Env)
    requires l.typ == OtherType && r.typ == Boolean
    ensures Eval(Not(Compare(Less, l, r)), env) == Yes
    ensures Eval(Transform(Not(Compare(Less, l, r))), env) == No
  {
    assert Transform(Compare(Less, l, r)) == Compare(Less, l, r);
  }

  lemma ValidOperands(l: Symbol, r: Symbol, env: Env)
    requires !l.typ.OtherType? && !r.typ.OtherType?
    ensures !Incomparable(StringValue(l, env), l.typ, StringValue(r, env), r.typ)
  {
    ValidKind(StringValue(l, env), l.typ);
    ValidKind(StringValue(r, env), r.typ);
  }

  lemma ValidKind(str: string, typ: SymbolType)
    requires !typ.OtherType?
    ensures !ParseOperand(str, typ).kind.KindInvalid?
  {
  }

  /** A bool or tristate symbol compared with y, m or n is compared by its tristate value. */
  lemma CompareWithConstant(rel: Relation, l: Symbol, t: Tristate, env: Env)
    requires Typed(env)
    requires l.typ == Boolean || l.typ == TristateType
    requires rel == Equal || rel == Unequal
    ensures EvalCompare(rel, l, TristateSymbol(t), env) == FromBool((rel == Equal) == (env.tri(l) == t))
  {
    ConstantValues(env);
    var s := TristateSymbol(t);
    assert env.val(s) == TristateName(t);
    ConstantOperand(t);
    StringCompareZero(StringValue(l, env), TristateName(t));
    assert env.tri(l) == Mod ==> env.modules != No;
  }

  /** The text of a tristate constant is never taken for a number. */
  lemma ConstantOperand(t: Tristate)
    ensures ParseOperand(TristateName(t), UnknownType).kind == KindString
  {
    var s := TristateName(t);
    assert SkipSpaces(s, 0) == 0;
    assert DigitsEnd(s, 10, 0) == 0;
  }

  lemma TransformCompareMeaning(rel: Relation, l: Symbol, r: Symbol, env: Env)
    requires Typed(env)
    ensures Eval(TransformCompare(rel, l, r), env) == EvalCompare(rel, l, r, env)
  {
    ConstantValues(env);
    if l.typ == Boolean && (rel == Equal || rel == Unequal) && IsTristateConstant(r) {
      var t := env.tri(r);
      assert r == TristateSymbol(t);
      CompareWithConstant(rel, l, t, env);
    }
  }

  lemma DualNodes(op: Op, l: Expr, r: Expr, good: Expr -> bool)
    requires good(Not(l)) && good(Not(r)) && good(Bin(Dual(op), Not(l), Not(r)))
    requires AllNodes(Bin(op, l, r), good)
    ensures AllNodes(Bin(Dual(op), Not(l), Not(r)), good)
  {
    assert AllNodes(Not(l), good) && AllNodes(Not(r), good);
  }

  lemma {:induction false} TransformWellTyped(e: Expr)
    ensures AllNodes(e, OrderedOperands) ==> AllNodes(Transform(e), OrderedOperands)
    ensures AllNodes(e, TristateConstants) ==> AllNodes(Transform(e), TristateConstants)
    decreases Weight(e)
  {
    match e
    case Bin(op, l, r) =>
      TransformWellTyped(l);
      TransformWellTyped(r);
    case Not(a) =>
      TransformWellTyped(a);
      match Transform(a) {
        case Bin(op, l, r) =>
          DeMorganWeight(op, l, r);
          if AllNodes(Bin(op, l, r), OrderedOperands) {
            DualNodes(op, l, r, OrderedOperands);
          }
          if AllNodes(Bin(op, l, r), TristateConstants) {
            DualNodes(op, l, r, TristateConstants);
          }
          TransformWellTyped(Bin(Dual(op), Not(l), Not(r)));
        case Not(b) => TransformWellTyped(b);
        case _ =>
      }
    case _ =>
  }

  /** expr_transform preserves the value of every expression. */
  lemma {:induction false} TransformMeaning(e: Expr, env: Env)
    requires Typed(env) && AllNodes(e, OrderedOperands)
    ensures Eval(Transform(e), env) == Eval(e, env)
    decreases Weight(e), 1
  {
    match e
    case Sym(_) =>
    case Compare(rel, l, r) =>
      TransformCompareMeaning(rel, l, r, env);
    case Bin(op, l, r) =>
      TransformMeaning(l, env);
      TransformMeaning(r, env);
    case Not(a) =>
      TransformNotMeaning(a, env);
  }

  lemma DeMorganMeaning(op: Op, l: Expr, r: Expr, env: Env)
    ensures Eval(Bin(Dual(op), Not(l), Not(r)), env) == Negate(Eval(Bin(op, l, r), env))
  {
  }

  lemma {:induction false} TransformNotMeaning(a: Expr, env: Env)
    requires Typed(env) && AllNodes(Not(a), OrderedOperands)
    ensures Eval(Transform(Not(a)), env) == Negate(Eval(a, env))
    decreases Weight(Not(a)), 0
  {
    TransformMeaning(a, env);
    TransformWellTyped(a);
    match Transform(a)
    case Bin(op, l, r) =>
      DeMorganWeight(op, l, r);
      TransformMeaning(Bin(Dual(op), Not(l), Not(r)), env);
      DeMorganMeaning(op, l, r, env);
    case Not(b) =>
      TransformMeaning(b, env);
    case Compare(rel, l, r) =>
      NotCompareMeaning(rel, l, r, env);
    case Sym(s) =>
      ConstantValues(env);
  }

  lemma NotCompareMeaning(rel: Relation, l: Symbol, r: Symbol, env: Env)
    requires Typed(env) && OrderedOperands(Compare(rel, l, r))
    ensures EvalCompare(Opposite(rel), l, r, env) == Negate(EvalCompare(rel, l, r, env))
  {
    if !rel.Equal? && !rel.Unequal? {
      ValidOperands(l, r, env);
    }
    OppositeMeaning(rel, l, r, env);
  }
}
