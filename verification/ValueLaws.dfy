/** What sym_calc_value promises of each value and flag, without reference to how it is calculated. */
module ValueLaws {
  import opened Tristates
  import opened CNumbers
  import opened Expressions
  import opened SymbolGraph
  import opened SymbolValues
  import opened Ranges

  // ----- conditions -----

  /** The first property whose condition is not n. */
  predicate FirstOn(conditions: seq<Nullable>, k: int, env: Env) {
    && 0 <= k < |conditions| && EvalNullable(conditions[k], env) != No
    && forall j :: 0 <= j < k ==> EvalNullable(conditions[j], env) == No
  }

  predicate NoneOn(conditions: seq<Nullable>, env: Env) {
    forall k :: 0 <= k < |conditions| ==> EvalNullable(conditions[k], env) == No
  }

  lemma FirstOnIsActive(conditions: seq<Nullable>, k: nat, env: Env)
    requires FirstOn(conditions, k, env)
    ensures FirstActive(conditions, env) == k
  {
  }

  lemma NoneIsActive(conditions: seq<Nullable>, env: Env)
    requires NoneOn(conditions, env)
    ensures FirstActive(conditions, env) == |conditions|
  {
  }

  /** The first default in force counts, limited by its condition. */
  lemma DefaultOfFirst(i: Info, k: nat, env: Env)
    requires FirstOn(DefaultConditions(i.defaults), k, env)
    ensures DefaultTristate(i, env) == Min(Eval(i.defaults[k].value, env), EvalNullable(i.defaults[k].condition, env))
    ensures i.defaults[k].value.Sym? ==> DefaultSource(i, env) == Some(i.defaults[k].value.sym)
    ensures !i.defaults[k].value.Sym? ==> DefaultSource(i, env) == None
  {
    FirstOnIsActive(DefaultConditions(i.defaults), k, env);
  }

  lemma DefaultOfNone(i: Info, env: Env)
    requires NoneOn(DefaultConditions(i.defaults), env)
    ensures DefaultTristate(i, env) == No && DefaultSource(i, env) == None
  {
    NoneIsActive(DefaultConditions(i.defaults), env);
  }

  lemma {:induction false} PromptsExact(ps: seq<Nullable>, env: Env, t: Tristate)
    ensures Le(PromptsValue(ps, env), t) <==> forall p :: p in ps ==> Le(EvalNullable(p, env), t)
  {
    if ps != [] {
      var front, last := ps[..|ps| - 1], ps[|ps| - 1];
      PromptsExact(front, env, t);
      assert last in ps && forall p :: p in ps <==> p in front || p == last;
    }
  }

  /** A symbol that can be m. */
  predicate CanBeMod(g: Graph, s: Symbol) {
    s.typ == TristateType && g.modules != No
  }

  /** A symbol is visible as far as the strongest of its prompts, where m counts as y unless the symbol can
      be m. */
  lemma VisibleExact(w: World, s: Symbol)
    requires GoodWorld(w) && s in w.g.info && w.g.info[s].kind.Plain?
    requires !IsTristateConstant(s) && s.typ != UnknownType && s.typ != OtherType
    ensures var v, ps, env := w.plain[s].visible, w.g.info[s].prompts, EnvOf(w);
      && (v == No <==> forall p :: p in ps ==> EvalNullable(p, env) == No)
      && (v == Mod <==> CanBeMod(w.g, s) && (exists p :: p in ps && EvalNullable(p, env) == Mod)
                        && forall p :: p in ps ==> EvalNullable(p, env) != Yes)
  {
    var env, ps := EnvOf(w), w.g.info[s].prompts;
    PlainEquation(w, s);
    PromptsExact(ps, env, No);
    PromptsExact(ps, env, Mod);
    assert forall p :: Le(EvalNullable(p, env), No) <==> EvalNullable(p, env) == No;
  }

  /** It depends and is selected as its expressions say, with m for y in the same way, and is implied only
      while its direct dependency is not n. */
  lemma DependenciesOfSymbol(w: World, s: Symbol)
    requires GoodWorld(w) && s in w.g.info && w.g.info[s].kind.Plain? && IsTristate(s)
    ensures var r, i, env := w.plain[s], w.g.info[s], EnvOf(w);
      && (r.dirDep == No <==> EvalNullable(i.dirDep, env) == No)
      && (r.dirDep == Mod <==> CanBeMod(w.g, s) && EvalNullable(i.dirDep, env) == Mod)
      && (r.revDep == No <==> ReverseValue(i.revDep, env) == No)
      && (r.revDep == Mod <==> CanBeMod(w.g, s) && ReverseValue(i.revDep, env) == Mod)
      && (r.implied == No <==> ReverseValue(i.implied, env) == No || r.dirDep == No)
      && (r.implied == Mod <==> CanBeMod(w.g, s) && ReverseValue(i.implied, env) == Mod && r.dirDep != No)
  {
    PlainEquation(w, s);
  }

  // ----- the value of a bool or tristate symbol -----

  /** What a value must not fall short of: what selects the symbol, and the user's value as far as the
      symbol is visible, or else its default and what implies it. Bool symbols, and those that are implied
      by y, cannot be m. */
  predicate Enough(s: Symbol, i: Info, user: UserValue, r: Calculated, g: Graph, env: Env, t: Tristate) {
    && Le(r.revDep, t)
    && (if r.visible != No && user.given then Le(Min(user.tri, r.visible), t)
        else Le(DefaultTristate(i, env), t) && Le(r.implied, t))
    && (t == Mod ==> CanBeMod(g, s) && r.implied != Yes)
  }

  /** The value of a symbol outside of choices is the least one that is enough. */
  lemma LeastValue(w: World, s: Symbol)
    requires GoodWorld(w) && s in w.g.info && w.g.info[s].kind.Plain? && IsTristate(s)
    ensures var r, i, env := w.plain[s], w.g.info[s], EnvOf(w);
      && Enough(s, i, w.u[s], r, w.g, env, r.tri)
      && forall t :: Enough(s, i, w.u[s], r, w.g, env, t) ==> Le(r.tri, t)
  {
    PlainEquation(w, s);
  }

  // ----- which symbols are written -----

  /** A bool or tristate symbol outside of choices is written if and only if it is visible, or not n. */
  lemma WrittenExact(w: World, s: Symbol)
    requires GoodWorld(w) && s in w.g.info && w.g.info[s].kind.Plain? && IsTristate(s)
    ensures var r := w.plain[s];
      r.write <==> !w.g.info[s].auto && (r.visible != No || r.tri != No)
  {
    PlainEquation(w, s);
  }

  /** The same for a member of a choice. */
  lemma WrittenMember(w: World, s: Symbol)
    requires GoodWorld(w) && s in w.g.info && w.g.info[s].kind.Member?
    ensures w.plain[s].write <==> w.plain[s].visible != No || w.plain[s].tri != No
  {
    MemberEquation(w, s);
  }

  /** The first default in force names a symbol. */
  ghost predicate CopiesDefault(i: Info, env: Env) {
    exists k :: FirstOn(DefaultConditions(i.defaults), k, env) && i.defaults[k].value.Sym?
  }

  lemma CopiesExact(i: Info, env: Env)
    ensures DefaultSource(i, env).Some? <==> CopiesDefault(i, env)
  {
    var cs := DefaultConditions(i.defaults);
    var a := FirstActive(cs, env);
    if a < |cs| {
      assert FirstOn(cs, a, env);
    }
    forall k | FirstOn(cs, k, env)
      ensures k == a
    {
      FirstOnIsActive(cs, k, env);
    }
  }

  /** An int, hex or string symbol is written if and only if it is visible, or its first default in force
      names a symbol. */
  lemma WrittenText(w: World, s: Symbol)
    requires GoodWorld(w) && s in w.g.info && w.g.info[s].kind.Plain?
    requires s.typ == Integer || s.typ == Hex || s.typ == StringType
    ensures var r, i := w.plain[s], w.g.info[s];
      r.write <==> !i.auto && (r.visible != No || CopiesDefault(i, EnvOf(w)))
  {
    PlainEquation(w, s);
    CopiesExact(w.g.info[s], EnvOf(w));
  }

  // ----- the value of an int, hex or string symbol -----

  /** A text is the user's while it is visible and set, and otherwise that of the symbol that its first
      default in force names; for a number this is so if no range is in force. */
  lemma TextValueExact(w: World, s: Symbol)
    requires GoodWorld(w) && s in w.g.info && w.g.info[s].kind.Plain?
    requires
      || s.typ == StringType
      || ((s.typ == Integer || s.typ == Hex) && NoneOn(RangeConditions(w.g.info[s].ranges), EnvOf(w)))
    ensures var r, i, env := w.plain[s], w.g.info[s], EnvOf(w);
      && (r.visible != No && w.u[s].given ==> r.val == w.u[s].val)
      && (!(r.visible != No && w.u[s].given) ==>
            && (forall k :: FirstOn(DefaultConditions(i.defaults), k, env) && i.defaults[k].value.Sym? ==>
                  r.val == env.val(i.defaults[k].value.sym))
            && (NoneOn(DefaultConditions(i.defaults), env) ==> r.val == ""))
  {
    PlainEquation(w, s);
    var i, env := w.g.info[s], EnvOf(w);
    forall k | FirstOn(DefaultConditions(i.defaults), k, env)
      ensures i.defaults[k].value.Sym? ==> DefaultSource(i, env) == Some(i.defaults[k].value.sym)
    {
      DefaultOfFirst(i, k, env);
    }
    if NoneOn(DefaultConditions(i.defaults), env) {
      DefaultOfNone(i, env);
    }
    if s.typ != StringType {
      NoneIsActive(RangeConditions(i.ranges), env);
    }
  }

  /** The number of an int or hex symbol lies in its first range in force, if the bounds are in order. */
  lemma ValueInRange(w: World, s: Symbol, k: nat)
    requires GoodWorld(w) && s in w.g.info && w.g.info[s].kind.Plain? && (s.typ == Integer || s.typ == Hex)
    requires FirstOn(RangeConditions(w.g.info[s].ranges), k, EnvOf(w))
    requires var r, base, env := w.g.info[s].ranges[k], RangeBase(s.typ), EnvOf(w);
      && BoundValue(r.low, base, env) <= BoundValue(r.high, base, env)
      && (s.typ == Hex ==> 0 <= BoundValue(r.low, base, env))
    ensures var r, base, env := w.g.info[s].ranges[k], RangeBase(s.typ), EnvOf(w);
      BoundValue(r.low, base, env) <= Strtoll(w.plain[s].val, base).value <= BoundValue(r.high, base, env)
  {
    var i, env := w.g.info[s], EnvOf(w);
    var r, base := i.ranges[k], RangeBase(s.typ);
    PlainEquation(w, s);
    FirstOnIsActive(RangeConditions(i.ranges), k, env);
    var raw := RawString(w.g, s, i, w.u[s], env);
    var low, high := BoundValue(r.low, base, env), BoundValue(r.high, base, env);
    assert w.plain[s].val == Clamp(s.typ, raw, low, high);
    ClampNearest(s.typ, raw, low, high);
  }

  /** A bound is read as the number that it prints: in decimal if it is an int symbol, or a constant of
      the range of an int symbol, and in hex if it is a hex symbol, or a constant of the range of one. */
  lemma BoundOfNumber(x: Symbol, base: nat, n: int, env: Env)
    requires LLONG_MIN <= n <= LLONG_MAX && (base == 10 || base == 16)
    ensures var effective := if x.typ == Integer then 10 else if x.typ == Hex then 16 else base;
      && (effective == 10 && env.val(x) == FormatDecimal(n) ==> BoundValue(x, base, env) == n)
      && (effective == 16 && n >= 0 && env.val(x) == FormatHex(n) ==> BoundValue(x, base, env) == n)
  {
    ParseFormatDecimal(n);
    ParseFormatHex(n);
  }

  // ----- comparisons -----

  predicate Relates(rel: Relation, a: int, b: int) {
    match rel
    case Equal => a == b
    case Unequal => a != b
    case Less => a < b
    case LessEq => a <= b
    case Greater => a > b
    case GreaterEq => a >= b
  }

  /** int symbols are compared as numbers. */
  lemma CompareNumbers(rel: Relation, l: Symbol, r: Symbol, a: int, b: int, env: Env)
    requires l.typ == Integer && r.typ == Integer
    requires LLONG_MIN <= a <= LLONG_MAX && LLONG_MIN <= b <= LLONG_MAX
    requires env.val(l) == FormatDecimal(a) && env.val(r) == FormatDecimal(b)
    ensures EvalCompare(rel, l, r, env) == FromBool(Relates(rel, a, b))
  {
    OperandOfDecimal(a);
    OperandOfDecimal(b);
  }

  lemma OperandOfDecimal(n: int)
    requires LLONG_MIN <= n <= LLONG_MAX
    ensures ParseOperand(FormatDecimal(n), Integer) == Parsed(KindSigned, n)
  {
    ParseFormatDecimal(n);
    LastDigit(n);
  }

  lemma LastDigit(n: int)
    ensures FormatDecimal(n) != [] && IsXDigit(FormatDecimal(n)[|FormatDecimal(n)| - 1])
  {
    var m: nat := if n < 0 then -n else n;
    LastDigitOf(m);
    assert FormatDecimal(n)[|FormatDecimal(n)| - 1] == FormatNat(m, 10)[|FormatNat(m, 10)| - 1];
  }

  lemma LastDigitOf(m: nat)
    ensures IsXDigit(FormatNat(m, 10)[|FormatNat(m, 10)| - 1])
  {
    DigitOfValue(m % 10);
    if m < 10 {
      DigitOfValue(m);
    }
  }

  /** The tristate values are in the order n, m, y. */
  lemma CompareTristates(rel: Relation, l: Symbol, r: Symbol, env: Env)
    requires IsTristate(l) && IsTristate(r) && Typed(env)
    ensures EvalCompare(rel, l, r, env) == FromBool(Relates(rel, Rank(env.tri(l)), Rank(env.tri(r))))
  {
  }

  /** The first difference decides, or the length. */
  predicate Before(a: string, b: string) {
    exists k :: 0 <= k <= |a| && k <= |b| && a[..k] == b[..k] && (if k == |a| then k < |b| else k < |b| && a[k] < b[k])
  }

  lemma {:induction false} CompareBefore(a: string, b: string)
    ensures StringCompare(a, b) < 0 <==> Before(a, b)
    ensures StringCompare(a, b) > 0 <==> Before(b, a)
  {
    if a == [] {
      assert b != [] ==> a[..0] == b[..0] && Before(a, b);
    } else if b == [] {
      assert a[..0] == b[..0] && Before(b, a);
    } else if a[0] < b[0] {
      assert a[..0] == b[..0] && Before(a, b);
    } else if a[0] > b[0] {
      assert a[..0] == b[..0] && Before(b, a);
    } else {
      CompareBefore(a[1..], b[1..]);
      BeforeTail(a, b);
      BeforeTail(b, a);
    }
  }

  lemma BeforeTail(a: string, b: string)
    requires a != [] && b != [] && a[0] == b[0]
    ensures Before(a, b) <==> Before(a[1..], b[1..])
  {
    if k :| 0 <= k <= |a| && k <= |b| && a[..k] == b[..k] && (if k == |a| then k < |b| else k < |b| && a[k] < b[k]) {
      assert k > 0 && a[1..][..k - 1] == a[..k][1..] == b[1..][..k - 1];
      assert Before(a[1..], b[1..]);
    }
    if k :| 0 <= k <= |a[1..]| && k <= |b[1..]| && a[1..][..k] == b[1..][..k]
            && (if k == |a[1..]| then k < |b[1..]| else k < |b[1..]| && a[1..][k] < b[1..][k]) {
      assert a[..k + 1] == [a[0]] + a[1..][..k] == b[..k + 1];
      assert Before(a, b);
    }
  }

  /** strings are compared as strcmp does. */
  lemma CompareStringsExact(l: Symbol, r: Symbol, env: Env)
    requires l.typ == StringType && r.typ == StringType
    ensures EvalCompare(Equal, l, r, env) == FromBool(env.val(l) == env.val(r))
    ensures EvalCompare(Less, l, r, env) == FromBool(Before(env.val(l), env.val(r)))
    ensures EvalCompare(Greater, l, r, env) == FromBool(Before(env.val(r), env.val(l)))
  {
    StringCompareZero(env.val(l), env.val(r));
    CompareBefore(env.val(l), env.val(r));
  }
}
