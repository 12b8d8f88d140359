/** Properties of the plain recursive values: they depend on nothing but the operands, they are
    well typed, and a choice and its members agree on what is visible. */
module SymbolValues {
  import opened Tristates
  import opened Expressions
  import opened ExprEquality
  import opened SymbolGraph

  lemma {:induction false} PromptsAgree(ps: seq<Nullable>, a: Env, b: Env)
    requires Agree(a, b, PromptSymbols(ps))
    ensures PromptsValue(ps, a) == PromptsValue(ps, b)
  {
    if ps != [] {
      var front, last := ps[..|ps| - 1], ps[|ps| - 1];
      assert PromptSymbols(front) <= PromptSymbols(ps);
      PromptsAgree(front, a, b);
      assert last in ps && SymbolsOfNullable(last) <= PromptSymbols(ps);
      NullableAgree(last, a, b);
    }
  }

  lemma NullableAgree(p: Nullable, a: Env, b: Env)
    requires Agree(a, b, SymbolsOfNullable(p))
    ensures EvalNullable(p, a) == EvalNullable(p, b)
  {
    if p.Ref? {
      EvalAgree(p.expr, a, b);
    }
  }

  lemma {:induction false} FirstActiveAgree(cs: seq<Nullable>, a: Env, b: Env)
    requires forall c :: c in cs ==> Agree(a, b, SymbolsOfNullable(c))
    ensures FirstActive(cs, a) == FirstActive(cs, b)
  {
    if cs != [] {
      NullableAgree(cs[0], a, b);
      FirstActiveAgree(cs[1..], a, b);
    }
  }

  lemma ActiveDefaultAgree(ds: seq<Default>, a: Env, b: Env)
    requires Agree(a, b, DefaultConditionSymbols(ds))
    ensures ActiveDefault(ds, a) == ActiveDefault(ds, b)
  {
    var cs := DefaultConditions(ds);
    forall c | c in cs
      ensures Agree(a, b, SymbolsOfNullable(c))
    {
      var k :| 0 <= k < |cs| && cs[k] == c;
      assert ds[k] in ds;
    }
    FirstActiveAgree(cs, a, b);
  }

  lemma DefaultsAgree(i: Info, a: Env, b: Env)
    requires Agree(a, b, DefaultConditionSymbols(i.defaults)) && Agree(a, b, DefaultValueSymbols(i.defaults))
    ensures ActiveDefault(i.defaults, a) == ActiveDefault(i.defaults, b)
    ensures DefaultTristate(i, a) == DefaultTristate(i, b)
    ensures DefaultSource(i, a) == DefaultSource(i, b)
    ensures DefaultSource(i, a).Some? ==> DefaultSource(i, a).value in DefaultValueSymbols(i.defaults)
  {
    ActiveDefaultAgree(i.defaults, a, b);
    match ActiveDefault(i.defaults, a)
    case None =>
    case Some(d) =>
      assert d in i.defaults;
      assert SymbolsOf(d.value) <= DefaultValueSymbols(i.defaults);
      assert SymbolsOfNullable(d.condition) <= DefaultConditionSymbols(i.defaults);
      EvalAgree(d.value, a, b);
      NullableAgree(d.condition, a, b);
  }

  lemma ValidatedAgree(s: Symbol, i: Info, val: string, a: Env, b: Env)
    requires Agree(a, b, RangeConditionSymbols(i.ranges)) && Agree(a, b, RangeBounds(i.ranges))
    ensures Validated(s, i, val, a) == Validated(s, i, val, b)
  {
    var cs := RangeConditions(i.ranges);
    forall c | c in cs
      ensures Agree(a, b, SymbolsOfNullable(c))
    {
      var k :| 0 <= k < |cs| && cs[k] == c;
      assert i.ranges[k] in i.ranges;
    }
    FirstActiveAgree(cs, a, b);
    match ActiveRange(i.ranges, a)
    case None =>
    case Some(r) =>
      assert r in i.ranges;
      assert r.low in RangeBounds(i.ranges) && r.high in RangeBounds(i.ranges);
  }

  lemma DependenciesAgree(g: Graph, s: Symbol, i: Info, a: Env, b: Env)
    requires Agree(a, b, DependencySymbols(i))
    ensures DirectDependency(g, s, i, a) == DirectDependency(g, s, i, b)
    ensures ReverseDependency(g, s, i, a) == ReverseDependency(g, s, i, b)
    ensures ImpliedValue(g, s, i, a) == ImpliedValue(g, s, i, b)
  {
    NullableAgree(i.dirDep, a, b);
    NullableAgree(i.revDep, a, b);
    NullableAgree(i.implied, a, b);
  }

  lemma {:induction false} ChoiceDefaultAgree(g: Graph, ds: seq<Default>, a: Env, b: Env, ms: seq<Symbol>)
    requires Agree(a, b, DefaultConditionSymbols(ds))
    requires forall d :: d in ds ==> d.value.Sym? && d.value.sym in ms
    requires forall m :: m in ms ==> MemberVisible(g, m, a) == MemberVisible(g, m, b)
    ensures FirstVisibleDefault(g, ds, a) == FirstVisibleDefault(g, ds, b)
  {
    if ds != [] {
      assert ds[0] in ds && SymbolsOfNullable(ds[0].condition) <= DefaultConditionSymbols(ds);
      NullableAgree(ds[0].condition, a, b);
      assert DefaultConditionSymbols(ds[1..]) <= DefaultConditionSymbols(ds);
      ChoiceDefaultAgree(g, ds[1..], a, b, ms);
    }
  }

  lemma {:induction false} FirstVisibleAgree(g: Graph, ms: seq<Symbol>, a: Env, b: Env)
    requires forall m :: m in ms ==> MemberVisible(g, m, a) == MemberVisible(g, m, b)
    ensures FirstVisible(g, ms, a) == FirstVisible(g, ms, b)
  {
    if ms != [] {
      FirstVisibleAgree(g, ms[1..], a, b);
    }
  }

  ghost predicate AgreeUpTo(g: Graph, c: Symbol, a: Env, b: Env)
    requires g.info.Keys == g.rank.Keys && c in g.info
  {
    && a.modules == b.modules
    && forall x :: x in g.info && (x == c || g.rank[x] < g.rank[c]) ==> a.tri(x) == b.tri(x) && a.val(x) == b.val(x)
  }

  /** What a choice picks depends on its operands and on what makes its members visible. */
  lemma ChoicePickAgree(g: Graph, c: Symbol, user: UserValue, a: Env, b: Env)
    requires g.info.Keys == g.rank.Keys && c in g.info && g.info[c].kind.Choice? && GoodChoice(g, c)
    requires forall m :: m in g.info[c].kind.members ==> m in g.info && g.info[m].kind == Member(c) && GoodMember(g, m)
    requires user.pick.Some? ==> user.pick.value in g.info[c].kind.members
    requires Agree(a, b, DefaultConditionSymbols(g.info[c].defaults))
    requires AgreeUpTo(g, c, a, b)
    ensures ChoicePick(g, g.info[c], user, a) == ChoicePick(g, g.info[c], user, b)
  {
    var ms := g.info[c].kind.members;
    forall m | m in ms
      ensures MemberVisible(g, m, a) == MemberVisible(g, m, b)
    {
      PromptsAgree(g.info[m].prompts, a, b);
    }
    ChoiceDefaultAgree(g, g.info[c].defaults, a, b, ms);
    FirstVisibleAgree(g, ms, a, b);
  }

  lemma OperandsAgreeParts(i: Info, a: Env, b: Env)
    requires Agree(a, b, Operands(i))
    ensures Agree(a, b, PromptSymbols(i.prompts)) && Agree(a, b, DependencySymbols(i))
    ensures Agree(a, b, DefaultConditionSymbols(i.defaults))
    ensures !i.kind.Choice? ==> Agree(a, b, DefaultValueSymbols(i.defaults))
    ensures Agree(a, b, RangeConditionSymbols(i.ranges)) && Agree(a, b, RangeBounds(i.ranges))
  {
  }

  lemma TristateResultAgree(g: Graph, s: Symbol, i: Info, user: UserValue, a: Env, b: Env)
    requires Agree(a, b, Operands(i))
    ensures TristateResult(g, s, i, user, a) == TristateResult(g, s, i, user, b)
    ensures Visibility(g, s, i, a) == Visibility(g, s, i, b)
  {
    OperandsAgreeParts(i, a, b);
    PromptsAgree(i.prompts, a, b);
    DependenciesAgree(g, s, i, a, b);
    if !i.kind.Choice? {
      DefaultsAgree(i, a, b);
    }
    TristateResultCongruent(g, s, i, user, a, b);
  }

  lemma TristateResultCongruent(g: Graph, s: Symbol, i: Info, user: UserValue, a: Env, b: Env)
    requires Visibility(g, s, i, a) == Visibility(g, s, i, b)
    requires ReverseDependency(g, s, i, a) == ReverseDependency(g, s, i, b)
    requires ImpliedValue(g, s, i, a) == ImpliedValue(g, s, i, b)
    requires !i.kind.Choice? ==> DefaultTristate(i, a) == DefaultTristate(i, b)
    ensures TristateResult(g, s, i, user, a) == TristateResult(g, s, i, user, b)
  {
  }

  lemma WrittenAgree(g: Graph, s: Symbol, i: Info, a: Env, b: Env)
    requires Agree(a, b, Operands(i))
    ensures Written(g, s, i, a) == Written(g, s, i, b)
  {
    OperandsAgreeParts(i, a, b);
    PromptsAgree(i.prompts, a, b);
    DependenciesAgree(g, s, i, a, b);
    ActiveDefaultAgree(i.defaults, a, b);
    DefaultSourceAgree(i, a, b);
    if !i.kind.Choice? {
      DefaultsAgree(i, a, b);
    }
  }

  lemma DefaultSourceAgree(i: Info, a: Env, b: Env)
    requires ActiveDefault(i.defaults, a) == ActiveDefault(i.defaults, b)
    ensures DefaultSource(i, a) == DefaultSource(i, b)
  {
  }

  lemma StringResultAgree(g: Graph, s: Symbol, i: Info, user: UserValue, a: Env, b: Env)
    requires Agree(a, b, Operands(i)) && !i.kind.Choice?
    ensures StringResult(g, s, i, user, a) == StringResult(g, s, i, user, b)
  {
    OperandsAgreeParts(i, a, b);
    PromptsAgree(i.prompts, a, b);
    DefaultsAgree(i, a, b);
    ValidatedAgree(s, i, RawString(g, s, i, user, a), a, b);
  }

  /** Everything that the calculation puts together is the same in two environments. */
  ghost predicate SameParts(g: Graph, user: UserValue, s: Symbol, i: Info, a: Env, b: Env) {
    && Visibility(g, s, i, a) == Visibility(g, s, i, b) && Written(g, s, i, a) == Written(g, s, i, b)
    && DirectDependency(g, s, i, a) == DirectDependency(g, s, i, b)
    && ReverseDependency(g, s, i, a) == ReverseDependency(g, s, i, b)
    && ImpliedValue(g, s, i, a) == ImpliedValue(g, s, i, b)
    && TristateResult(g, s, i, user, a) == TristateResult(g, s, i, user, b)
    && (!i.kind.Choice? ==> StringResult(g, s, i, user, a) == StringResult(g, s, i, user, b))
    && (i.kind.Choice? ==> ChoicePick(g, i, user, ChoiceIsYes(s, a)) == ChoicePick(g, i, user, ChoiceIsYes(s, b)))
  }

  lemma SamePartsSuffice(g: Graph, user: UserValue, s: Symbol, i: Info, a: Env, b: Env, pick: Option<Symbol>)
    requires SameParts(g, user, s, i, a, b)
    ensures CalculateWith(g, user, s, i, a, pick) == CalculateWith(g, user, s, i, b, pick)
  {
  }

  /** The calculation looks at the operands only; a choice also looks at what it picks. */
  lemma CalculateWithSame(g: Graph, user: UserValue, s: Symbol, i: Info, a: Env, b: Env, pick: Option<Symbol>)
    requires Agree(a, b, Operands(i))
    requires i.kind.Choice? ==>
      ChoicePick(g, i, user, ChoiceIsYes(s, a)) == ChoicePick(g, i, user, ChoiceIsYes(s, b))
    ensures CalculateWith(g, user, s, i, a, pick) == CalculateWith(g, user, s, i, b, pick)
  {
    assert SameParts(g, user, s, i, a, b) by {
      TristateResultAgree(g, s, i, user, a, b);
      WrittenAgree(g, s, i, a, b);
      OperandsAgreeParts(i, a, b);
      PromptsAgree(i.prompts, a, b);
      DependenciesAgree(g, s, i, a, b);
      if !i.kind.Choice? {
        StringResultAgree(g, s, i, user, a, b);
      }
    }
    SamePartsSuffice(g, user, s, i, a, b, pick);
  }

  ghost predicate AgreeBelow(g: Graph, bound: nat, a: Env, b: Env)
    requires g.info.Keys == g.rank.Keys
  {
    && a.modules == b.modules
    && forall x :: x in g.info && g.rank[x] < bound ==> a.tri(x) == b.tri(x) && a.val(x) == b.val(x)
  }

  /** The calculation looks at symbols of lower rank only. */
  lemma CalculateWithAgree(g: Graph, user: UserValue, s: Symbol, a: Env, b: Env, pick: Option<Symbol>)
    requires WellFounded(g) && s in g.info
    requires PicksMember(g.info[s], user)
    requires AgreeBelow(g, g.rank[s], a, b)
    ensures CalculateWith(g, user, s, g.info[s], a, pick) == CalculateWith(g, user, s, g.info[s], b, pick)
  {
    OperandsAgree(g, s, a, b);
    if g.info[s].kind.Choice? {
      PickAgree(g, s, user, a, b);
    }
    CalculateWithSame(g, user, s, g.info[s], a, b, pick);
  }

  lemma OperandsAgree(g: Graph, s: Symbol, a: Env, b: Env)
    requires WellFounded(g) && s in g.info && AgreeBelow(g, g.rank[s], a, b)
    ensures Agree(a, b, Operands(g.info[s]))
  {
    assert GoodSymbol(g, s);
  }

  lemma YesKeepsAgree(c: Symbol, a: Env, b: Env, xs: set<Symbol>)
    requires Agree(a, b, xs)
    ensures Agree(ChoiceIsYes(c, a), ChoiceIsYes(c, b), xs)
  {
  }

  lemma YesAgreesUpTo(g: Graph, c: Symbol, a: Env, b: Env)
    requires g.info.Keys == g.rank.Keys && c in g.info && AgreeBelow(g, g.rank[c], a, b)
    ensures AgreeUpTo(g, c, ChoiceIsYes(c, a), ChoiceIsYes(c, b))
  {
  }

  lemma PickAgree(g: Graph, s: Symbol, user: UserValue, a: Env, b: Env)
    requires WellFounded(g) && s in g.info && g.info[s].kind.Choice? && AgreeBelow(g, g.rank[s], a, b)
    requires user.pick.Some? ==> user.pick.value in g.info[s].kind.members
    ensures ChoicePick(g, g.info[s], user, ChoiceIsYes(s, a)) == ChoicePick(g, g.info[s], user, ChoiceIsYes(s, b))
  {
    assert GoodSymbol(g, s);
    OperandsAgree(g, s, a, b);
    OperandsAgreeParts(g.info[s], a, b);
    YesKeepsAgree(s, a, b, DefaultConditionSymbols(g.info[s].defaults));
    MembersAreGood(g, s);
    YesAgreesUpTo(g, s, a, b);
    ChoicePickAgree(g, s, user, ChoiceIsYes(s, a), ChoiceIsYes(s, b));
  }

  lemma MembersAreGood(g: Graph, c: Symbol)
    requires WellFounded(g) && c in g.info && g.info[c].kind.Choice?
    ensures forall m :: m in g.info[c].kind.members ==> m in g.info && g.info[m].kind == Member(c) && GoodMember(g, m)
  {
    assert GoodSymbol(g, c);
    forall m | m in g.info[c].kind.members
      ensures m in g.info && g.info[m].kind == Member(c) && GoodMember(g, m)
    {
      assert GoodSymbol(g, m);
    }
  }

  lemma BelowAgrees(w: World, bound: nat)
    requires GoodWorld(w)
    ensures AgreeBelow(w.g, bound, EnvBelow(w.g, w.u, bound), EnvOf(w))
  {
    forall x | x in w.g.info && w.g.rank[x] < bound
      ensures EnvBelow(w.g, w.u, bound).tri(x) == EnvOf(w).tri(x) && EnvBelow(w.g, w.u, bound).val(x) == EnvOf(w).val(x)
    {
      assert w.plain[x] == Calculate(w.g, w.u, x);
    }
  }

  /** The value of a symbol as a function of the values of all symbols. */
  lemma CalculateEquation(w: World, s: Symbol)
    requires GoodWorld(w) && s in w.g.info
    ensures w.g.info[s].kind.Member? ==> GoodMember(w.g, s)
    ensures w.plain[s] ==
      CalculateWith(w.g, w.u[s], s, w.g.info[s], EnvOf(w),
                    if w.g.info[s].kind.Member? then w.plain[w.g.info[s].kind.choice].pick else None)
  {
    assert GoodSymbol(w.g, s) && PicksMember(w.g.info[s], w.u[s]);
    var pick := if w.g.info[s].kind.Member? then w.plain[w.g.info[s].kind.choice].pick else None;
    assert w.plain[s] == Calculate(w.g, w.u, s);
    if w.g.info[s].kind.Member? {
      assert w.plain[w.g.info[s].kind.choice] == Calculate(w.g, w.u, w.g.info[s].kind.choice);
    }
    BelowAgrees(w, w.g.rank[s]);
    CalculateWithAgree(w.g, w.u[s], s, EnvBelow(w.g, w.u, w.g.rank[s]), EnvOf(w), pick);
  }

  lemma NeverMod(g: Graph, user: UserValue, s: Symbol, i: Info, env: Env, pick: Option<Symbol>)
    requires s.typ.Boolean? || (s.typ.TristateType? && g.modules == No)
    ensures CalculateWith(g, user, s, i, env, pick).tri != Mod
  {
    assert TristateResult(g, s, i, user, env) != Mod;
  }

  lemma CalculateNeverMod(w: World, s: Symbol)
    requires GoodWorld(w) && s in w.g.info
    requires s.typ.Boolean? || (s.typ.TristateType? && w.g.modules == No)
    ensures w.plain[s].tri != Mod
  {
    CalculateEquation(w, s);
    var i := w.g.info[s];
    NeverMod(w.g, w.u[s], s, i, EnvOf(w), if i.kind.Member? then w.plain[i.kind.choice].pick else None);
  }

  lemma CalculateConstant(w: World, t: Tristate)
    requires GoodWorld(w)
    ensures TristateSymbol(t) in w.g.info
    ensures w.plain[TristateSymbol(t)].tri == t && w.plain[TristateSymbol(t)].val == TristateName(t)
  {
    CalculateEquation(w, TristateSymbol(t));
  }

  /** The calculated values are what the simplifier's correctness relies on: bool symbols are
      never m, and nothing is m while modules are off. */
  lemma EnvOfTyped(w: World)
    requires GoodWorld(w)
    ensures Typed(EnvOf(w))
  {
    var env := EnvOf(w);
    forall t: Tristate
      ensures env.tri(TristateSymbol(t)) == t && env.val(TristateSymbol(t)) == TristateName(t)
    {
      CalculateConstant(w, t);
    }
    forall s: Symbol | s.typ.Boolean? || (s.typ.TristateType? && env.modules == No)
      ensures env.tri(s) != Mod
    {
      if s in w.g.info {
        CalculateNeverMod(w, s);
      }
    }
  }

  lemma {:induction false} ChoicePromptsBound(c: Symbol, ps: seq<Nullable>, env: Env)
    requires Typed(env) && forall p :: p in ps ==> ChoicePrompt(c, p)
    ensures Le(PromptsValue(ps, env), env.tri(c))
  {
    if ps != [] {
      var last := ps[|ps| - 1];
      assert last in ps && ChoicePrompt(c, last);
      ChoicePromptsBound(c, ps[..|ps| - 1], env);
    }
  }

  /** A mandatory choice is y exactly when it is visible, whatever the user has set. */
  lemma MandatoryMode(g: Graph, s: Symbol, i: Info, user: UserValue, env: Env)
    requires i.kind.Choice? && MandatoryChoice(s, i) && Typed(env)
    ensures Visibility(g, s, i, env) != Mod && ReverseDependency(g, s, i, env) == Visibility(g, s, i, env)
    ensures TristateResult(g, s, i, user, env) == Visibility(g, s, i, env)
    ensures TristateWritten(g, s, i, env) <==> Visibility(g, s, i, env) == Yes
    ensures Written(g, s, i, env) <==> !i.auto && Visibility(g, s, i, env) == Yes
  {
    assert ReverseValue(i.revDep, env) == Min(PromptsValue(i.prompts, env), Mod);
  }

  /** A mandatory choice by the values of all symbols. */
  lemma ChoiceEquation(w: World, c: Symbol)
    requires GoodWorld(w) && c in w.g.info && w.g.info[c].kind.Choice?
    ensures var i, env, r := w.g.info[c], EnvOf(w), w.plain[c];
      && r.visible == Visibility(w.g, c, i, env) && r.visible != Mod
      && r.pick == (if r.visible == Yes then ChoicePick(w.g, i, w.u[c], ChoiceIsYes(c, env)) else None)
      && r.tri == (if r.pick.Some? then Yes else No)
      && r.val == "n" && r.revDep == r.visible && (r.write <==> !i.auto && r.visible == Yes)
      && r.dirDep == DirectDependency(w.g, c, i, env) && r.revDep == ReverseDependency(w.g, c, i, env)
      && r.implied == ImpliedValue(w.g, c, i, env)
  {
    var i, env := w.g.info[c], EnvOf(w);
    CalculateEquation(w, c);
    EnvOfTyped(w);
    ConstantValues(env);
    assert GoodSymbol(w.g, c);
    MandatoryMode(w.g, c, i, w.u[c], env);
    ChoiceCalculation(w.g, w.u[c], c, i, env);
  }

  lemma ChoiceCalculation(g: Graph, user: UserValue, c: Symbol, i: Info, env: Env)
    requires i.kind.Choice? && c.typ == Boolean && MandatoryChoice(c, i) && Typed(env)
    ensures var r := CalculateWith(g, user, c, i, env, None);
      && r.visible == Visibility(g, c, i, env)
      && r.pick == (if r.visible == Yes then ChoicePick(g, i, user, ChoiceIsYes(c, env)) else None)
      && r.tri == (if r.pick.Some? then Yes else No)
      && r.val == "n" && r.revDep == r.visible && (r.write <==> !i.auto && r.visible == Yes)
      && r.dirDep == DirectDependency(g, c, i, env) && r.revDep == ReverseDependency(g, c, i, env)
      && r.implied == ImpliedValue(g, c, i, env)
  {
    MandatoryMode(g, c, i, user, env);
  }

  /** A symbol outside of choices by the values of all symbols. */
  lemma PlainEquation(w: World, s: Symbol)
    requires GoodWorld(w) && s in w.g.info && w.g.info[s].kind.Plain?
    requires !IsTristateConstant(s) && s.typ != UnknownType && s.typ != OtherType
    ensures var i, env, r := w.g.info[s], EnvOf(w), w.plain[s];
      && r.visible == Visibility(w.g, s, i, env) && r.dirDep == DirectDependency(w.g, s, i, env)
      && r.revDep == ReverseDependency(w.g, s, i, env) && r.implied == ImpliedValue(w.g, s, i, env)
      && (if s.typ == Boolean || s.typ == TristateType
          then r.tri == TristateResult(w.g, s, i, w.u[s], env) && r.val == "n"
          else r.tri == No && r.val == StringResult(w.g, s, i, w.u[s], env))
      && r.pick == None && r.write == Written(w.g, s, i, env)
  {
    CalculateEquation(w, s);
    PlainCalculation(w.g, w.u[s], s, w.g.info[s], EnvOf(w));
  }

  lemma PlainCalculation(g: Graph, user: UserValue, s: Symbol, i: Info, env: Env)
    requires i.kind.Plain?
    requires !IsTristateConstant(s) && s.typ != UnknownType && s.typ != OtherType
    ensures var r := CalculateWith(g, user, s, i, env, None);
      && r.visible == Visibility(g, s, i, env) && r.dirDep == DirectDependency(g, s, i, env)
      && r.revDep == ReverseDependency(g, s, i, env) && r.implied == ImpliedValue(g, s, i, env)
      && (if s.typ == Boolean || s.typ == TristateType then r.tri == TristateResult(g, s, i, user, env) && r.val == "n"
          else r.tri == No && r.val == StringResult(g, s, i, user, env))
      && r.pick == None && r.write == Written(g, s, i, env)
  {
  }

  /** A symbol without a type has its name for a value. */
  lemma UntypedEquation(w: World, s: Symbol)
    requires GoodWorld(w) && s in w.g.info
    requires !IsTristateConstant(s) && (s.typ == UnknownType || s.typ == OtherType)
    ensures w.plain[s] == Calculated(No, w.g.info[s].name, None, No, No, No, No, false)
    ensures w.g.info[s].kind.Plain?
  {
    assert GoodSymbol(w.g, s);
    CalculateEquation(w, s);
  }

  /** A member of a choice by the values of all symbols. */
  lemma MemberEquation(w: World, m: Symbol)
    requires GoodWorld(w) && m in w.g.info && w.g.info[m].kind.Member?
    ensures GoodMember(w.g, m)
    ensures var i, env, r := w.g.info[m], EnvOf(w), w.plain[m];
      && r.visible == Visibility(w.g, m, i, env) && r.visible != Mod
      && (r.visible == Yes ==> r.tri == FromBool(w.plain[i.kind.choice].pick == Some(m)))
      && (r.visible == No ==> r.tri == PromoteIf(true, DefaultTristate(i, env)))
      && r.dirDep == No && r.revDep == No && r.implied == No && r.pick == None && r.val == "n"
      && r.write == (r.visible == Yes || DefaultTristate(i, env) != No)
  {
    CalculateEquation(w, m);
    MemberCalculation(w.g, w.u[m], m, w.g.info[m], EnvOf(w), w.plain[w.g.info[m].kind.choice].pick);
  }

  lemma MemberCalculation(g: Graph, user: UserValue, m: Symbol, i: Info, env: Env, pick: Option<Symbol>)
    requires i.kind.Member? && m.typ == Boolean && !i.auto
    ensures var r := CalculateWith(g, user, m, i, env, pick);
      && r.visible == Visibility(g, m, i, env) && r.visible != Mod
      && (r.visible == Yes ==> r.tri == FromBool(pick == Some(m)))
      && (r.visible == No ==> r.tri == PromoteIf(true, DefaultTristate(i, env)))
      && r.dirDep == No && r.revDep == No && r.implied == No && r.pick == None && r.val == "n"
      && r.write == (r.visible == Yes || DefaultTristate(i, env) != No)
  {
  }

  /** A visible symbol has a prompt that is visible. */
  lemma {:induction false} VisiblePrompt(ps: seq<Nullable>, env: Env) returns (p: Nullable)
    requires PromptsValue(ps, env) != No
    ensures p in ps && EvalNullable(p, env) != No
  {
    p := ps[|ps| - 1];
    if EvalNullable(p, env) == No {
      p := VisiblePrompt(ps[..|ps| - 1], env);
    }
  }

  /** While a choice that is y looks at its members, it sees the visibility that they end up with. */
  lemma MemberSeen(w: World, c: Symbol, m: Symbol)
    requires GoodWorld(w) && c in w.g.info && w.g.info[c].kind.Choice? && m in w.g.info[c].kind.members
    requires w.plain[c].visible == Yes
    ensures m in w.g.info && w.g.info[m].kind == Member(c)
    ensures Visibility(w.g, m, w.g.info[m], ChoiceIsYes(c, EnvOf(w))) == w.plain[m].visible
  {
    MembersAreGood(w.g, c);
    ChoiceEquation(w, c);
    MemberEquation(w, m);
    var env, ps := EnvOf(w), w.g.info[m].prompts;
    if w.plain[c].pick.Some? {
      assert env.tri(c) == Yes && env.val(c) == "n";
      PromptsAgree(ps, env, ChoiceIsYes(c, env));
    } else {
      NothingPicked(w.g, w.g.info[c], w.u[c], ChoiceIsYes(c, env), m);
      EnvOfTyped(w);
      ChoicePromptsBound(c, ps, env);
    }
  }

  /** If a choice picks nothing, none of its members is visible. */
  lemma NothingPicked(g: Graph, i: Info, user: UserValue, env: Env, m: Symbol)
    requires i.kind.Choice? && ChoicePick(g, i, user, env).None? && m in i.kind.members
    ensures !MemberVisible(g, m, env)
  {
    FirstVisibleNone(g, i.kind.members, env, m);
  }

  lemma {:induction false} FirstVisibleNone(g: Graph, ms: seq<Symbol>, env: Env, m: Symbol)
    requires FirstVisible(g, ms, env).None? && m in ms
    ensures !MemberVisible(g, m, env)
  {
    if m != ms[0] {
      FirstVisibleNone(g, ms[1..], env, m);
    }
  }

  lemma OnlyPrompt(ps: seq<Nullable>, env: Env)
    requires |ps| == 1
    ensures PromptsValue(ps, env) == EvalNullable(ps[0], env)
  {
    assert ps[..0] == [] && PromptsValue(ps[..0], env) == No;
  }
}
