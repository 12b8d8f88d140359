/** Dependency expressions (struct expr of expr.h) and their meaning (expr_calc_value of expr.c). */
module Expressions {
  import opened Tristates
  import opened CNumbers

  datatype SymbolType = UnknownType | Boolean | TristateType | Integer | Hex | StringType | OtherType

  /** What never changes in a struct symbol once the Kconfig files are parsed. Two symbols are
      the same object exactly when these handles are equal. */
  datatype Symbol = Symbol(id: nat, typ: SymbolType, isConst: bool)

  const SYMBOL_YES := Symbol(0, UnknownType, true)
  const SYMBOL_MOD := Symbol(1, UnknownType, true)
  const SYMBOL_NO := Symbol(2, UnknownType, true)

  predicate IsTristateConstant(s: Symbol) {
    s == SYMBOL_YES || s == SYMBOL_MOD || s == SYMBOL_NO
  }

  datatype Relation = Equal | Unequal | Less | LessEq | Greater | GreaterEq

  datatype Op = AndOp | OrOp

  datatype Expr =
    | Sym(sym: Symbol)
    | Compare(rel: Relation, lhs: Symbol, rhs: Symbol)
    | Not(arg: Expr)
    | Bin(op: Op, left: Expr, right: Expr)

  /** A pointer to an expression; NULL stands for y. */
  datatype Nullable = Null | Ref(expr: Expr)

  function Size(e: Expr): nat
    ensures Size(e) >= 1
  {
    match e
    case Sym(_) => 1
    case Compare(_, _, _) => 1
    case Not(a) => 1 + Size(a)
    case Bin(_, l, r) => 1 + Size(l) + Size(r)
  }

  predicate IsOp(e: Expr, op: Op) {
    e.Bin? && e.op == op
  }

  /** The calculated values of all symbols: `tri` is curr.tri, `val` is curr.val, and
      `modules` is the value of the symbol declared with "option modules". */
  datatype Env = Env(tri: Symbol -> Tristate, val: Symbol -> string, modules: Tristate)

  function TristateName(t: Tristate): string {
    match t
    case No => "n"
    case Mod => "m"
    case Yes => "y"
  }

  /** sym_get_string_value, from the two halves of curr. */
  function ValueText(typ: SymbolType, tri: Tristate, val: string, modules: Tristate): string {
    if typ.Boolean? || typ.TristateType? then
      if tri == Mod && modules == No then "n" else TristateName(tri)
    else val
  }

  function StringValue(s: Symbol, env: Env): string {
    ValueText(s.typ, env.tri(s), env.val(s), env.modules)
  }

  datatype ValueKind = KindString | KindSigned | KindUnsigned | KindInvalid

  /** A parsed operand. `num` is the 64-bit word read as signed for KindSigned and as unsigned
      for KindUnsigned. */
  datatype Parsed = Parsed(kind: ValueKind, num: int)

  function WholeNumber(str: string, c: Conversion, kind: ValueKind): Parsed {
    if !c.range && c.tail == |str| && c.tail > 0 && IsXDigit(str[c.tail - 1])
    then Parsed(kind, c.value) else Parsed(KindString, c.value)
  }

  /** expr_parse_string */
  function ParseOperand(str: string, typ: SymbolType): Parsed {
    match typ
    case Boolean | TristateType =>
      Parsed(KindSigned, if str == "n" then 0 else if str == "m" then 1 else if str == "y" then 2 else -1)
    case Integer => WholeNumber(str, Strtoll(str, 10), KindSigned)
    case Hex => WholeNumber(str, Strtoull(str, 16), KindUnsigned)
    case StringType | UnknownType => WholeNumber(str, Strtoll(str, 0), KindSigned)
    case OtherType => Parsed(KindInvalid, 0)
  }

  function Sign(a: int, b: int): int {
    if a > b then 1 else if a < b then -1 else 0
  }

  function AsUnsigned(n: int): int {
    if n < 0 then n + TWO_TO_64 else n
  }

  /** The sign that a comparison looks at. */
  function CompareStrings(str1: string, type1: SymbolType, str2: string, type2: SymbolType): int {
    if type1.StringType? && type2.StringType? then StringCompare(str1, str2)
    else
      var p1 := ParseOperand(str1, type1);
      var p2 := ParseOperand(str2, type2);
      if p1.kind.KindString? || p2.kind.KindString? then StringCompare(str1, str2)
      else if p1.kind.KindInvalid? || p2.kind.KindInvalid? then StringCompare(str1, str2)
      else if p1.kind.KindUnsigned? || p2.kind.KindUnsigned? then Sign(AsUnsigned(p1.num), AsUnsigned(p2.num))
      else Sign(p1.num, p2.num)
  }

  /** An ordered comparison in which one operand has no usable type yields n. */
  predicate Incomparable(str1: string, type1: SymbolType, str2: string, type2: SymbolType) {
    var p1 := ParseOperand(str1, type1);
    var p2 := ParseOperand(str2, type2);
    && !p1.kind.KindString? && !p2.kind.KindString?
    && (p1.kind.KindInvalid? || p2.kind.KindInvalid?)
  }

  predicate Holds(rel: Relation, sign: int) {
    match rel
    case Equal => sign == 0
    case Unequal => sign != 0
    case Less => sign < 0
    case LessEq => sign <= 0
    case Greater => sign > 0
    case GreaterEq => sign >= 0
  }

  function CompareTexts(rel: Relation, str1: string, type1: SymbolType, str2: string, type2: SymbolType): Tristate {
    if !rel.Equal? && !rel.Unequal? && Incomparable(str1, type1, str2, type2) then No
    else FromBool(Holds(rel, CompareStrings(str1, type1, str2, type2)))
  }

  function EvalCompare(rel: Relation, l: Symbol, r: Symbol, env: Env): Tristate {
    CompareTexts(rel, StringValue(l, env), l.typ, StringValue(r, env), r.typ)
  }

  function Apply(op: Op, a: Tristate, b: Tristate): Tristate {
    if op == AndOp then Min(a, b) else Max(a, b)
  }

  /** expr_calc_value on a graph whose symbols already have their values. */
  function Eval(e: Expr, env: Env): Tristate {
    match e
    case Sym(s) => env.tri(s)
    case Compare(rel, l, r) => EvalCompare(rel, l, r, env)
    case Not(a) => Negate(Eval(a, env))
    case Bin(op, l, r) => Apply(op, Eval(l, env), Eval(r, env))
  }

  function EvalNullable(p: Nullable, env: Env): Tristate {
    match p
    case Null => Yes
    case Ref(e) => Eval(e, env)
  }

  /** What the evaluator guarantees about every set of calculated values: the constants mean
      themselves, bool symbols are never m, and no symbol is m while modules are off. */
  ghost predicate Typed(env: Env) {
    && (forall t :: env.tri(TristateSymbol(t)) == t && env.val(TristateSymbol(t)) == TristateName(t))
    && (forall s: Symbol :: s.typ.Boolean? ==> env.tri(s) != Mod)
    && (forall s: Symbol :: s.typ.TristateType? && env.modules == No ==> env.tri(s) != Mod)
  }

  function TristateSymbol(t: Tristate): Symbol {
    match t
    case No => SYMBOL_NO
    case Mod => SYMBOL_MOD
    case Yes => SYMBOL_YES
  }

  /** Every node of the tree satisfies `good`. */
  predicate AllNodes(e: Expr, good: Expr -> bool) {
    && good(e)
    && match e
       case Not(a) => AllNodes(a, good)
       case Bin(_, l, r) => AllNodes(l, good) && AllNodes(r, good)
       case _ => true
  }

  /** Ordered comparisons have no operand of type S_OTHER: on those, a relation and its opposite
      can both be n. */
  predicate OrderedOperands(e: Expr) {
    e.Compare? && !e.rel.Equal? && !e.rel.Unequal? ==> !e.lhs.typ.OtherType? && !e.rhs.typ.OtherType?
  }

  /** A tristate symbol is compared only with y, m or n if it is compared with a constant. */
  predicate TristateConstants(e: Expr) {
    e.Compare? && e.lhs.typ.TristateType? && e.rhs.isConst ==> IsTristateConstant(e.rhs)
  }

  /** ! stands only above symbols other than y, m and n. */
  predicate SymbolNegated(e: Expr) {
    e.Not? ==> e.arg.Sym? && !IsTristateConstant(e.arg.sym)
  }

  predicate WellTyped(e: Expr) {
    AllNodes(e, OrderedOperands) && AllNodes(e, TristateConstants)
  }

  /** Negation normal form. */
  predicate NegationNormal(e: Expr) {
    AllNodes(e, SymbolNegated)
  }

  function SymbolsOf(e: Expr): set<Symbol> {
    match e
    case Sym(s) => {s}
    case Compare(_, l, r) => {l, r}
    case Not(a) => SymbolsOf(a)
    case Bin(_, l, r) => SymbolsOf(l) + SymbolsOf(r)
  }

  function SymbolsOfNullable(p: Nullable): set<Symbol> {
    if p.Null? then {} else SymbolsOf(p.expr)
  }

  /** Two valuations that agree on the symbols in `xs`. */
  ghost predicate Agree(a: Env, b: Env, xs: set<Symbol>) {
    a.modules == b.modules && forall x :: x in xs ==> a.tri(x) == b.tri(x) && a.val(x) == b.val(x)
  }

  lemma {:induction false} EvalAgree(e: Expr, a: Env, b: Env)
    requires Agree(a, b, SymbolsOf(e))
    ensures Eval(e, a) == Eval(e, b)
  {
    match e
    case Sym(s) =>
    case Compare(_, l, r) =>
      assert l in SymbolsOf(e) && r in SymbolsOf(e);
    case Not(x) => EvalAgree(x, a, b);
    case Bin(_, l, r) =>
      EvalAgree(l, a, b);
      EvalAgree(r, a, b);
  }
}
