/** The symbols of a configuration with their properties, and the value that each one has: the
    plain recursive reading of symbol.c, without any caching. */
module SymbolGraph {
  import opened Tristates
  import opened CNumbers
  import opened Expressions

  datatype Option<+T> = None | Some(value: T)

  /** def[S_DEF_USER] and SYMBOL_DEF_USER. For a choice `pick` is the member the user chose. */
  datatype UserValue = UserValue(given: bool, tri: Tristate, val: string, pick: Option<Symbol>)

  type Users = map<Symbol, UserValue>

  /** A P_DEFAULT property: `condition` is its visible.expr, `value` its expr. */
  datatype Default = Default(condition: Nullable, value: Expr)

  /** A P_RANGE property. */
  datatype Range = Range(condition: Nullable, low: Symbol, high: Symbol)

  datatype Kind = Plain | Choice(members: seq<Symbol>) | Member(choice: Symbol)

  /** The properties of a symbol after menu_finalize. `prompts` are the conditions of the
      properties that have a text. */
  datatype Info = Info(name: string, prompts: seq<Nullable>, defaults: seq<Default>, ranges: seq<Range>,
                       dirDep: Nullable, revDep: Nullable, implied: Nullable, kind: Kind, auto: bool)

  /** `rank` orders the symbols so that each depends on symbols of lower rank only; `modules` is
      the fixed value of modules_val. */
  datatype Graph = Graph(info: map<Symbol, Info>, rank: map<Symbol, nat>, modules: Tristate)

  /** What sym_calc_value leaves in a symbol. */
  datatype Calculated = Calculated(tri: Tristate, val: string, pick: Option<Symbol>,
                                   visible: Tristate, dirDep: Tristate, revDep: Tristate, implied: Tristate,
                                   write: bool)

  // ----- the symbols that the calculation of a symbol looks at -----

  function PromptSymbols(ps: seq<Nullable>): set<Symbol> {
    set p, x | p in ps && x in SymbolsOfNullable(p) :: x
  }

  function DefaultConditionSymbols(ds: seq<Default>): set<Symbol> {
    set d, x | d in ds && x in SymbolsOfNullable(d.condition) :: x
  }

  function DefaultValueSymbols(ds: seq<Default>): set<Symbol> {
    set d, x | d in ds && x in SymbolsOf(d.value) :: x
  }

  function RangeConditionSymbols(rs: seq<Range>): set<Symbol> {
    set r, x | r in rs && x in SymbolsOfNullable(r.condition) :: x
  }

  function RangeBounds(rs: seq<Range>): set<Symbol> {
    (set r | r in rs :: r.low) + (set r | r in rs :: r.high)
  }

  function DependencySymbols(i: Info): set<Symbol> {
    SymbolsOfNullable(i.dirDep) + SymbolsOfNullable(i.revDep) + SymbolsOfNullable(i.implied)
  }

  /** The default values of a choice name its members, which come after it. */
  function Operands(i: Info): set<Symbol> {
    PromptSymbols(i.prompts)
    + DefaultConditionSymbols(i.defaults) + (if i.kind.Choice? then {} else DefaultValueSymbols(i.defaults))
    + RangeConditionSymbols(i.ranges) + RangeBounds(i.ranges) + DependencySymbols(i)
  }

  ghost predicate Below(g: Graph, xs: set<Symbol>, bound: nat)
    requires g.info.Keys == g.rank.Keys
  {
    forall x :: x in xs ==> x in g.info && g.rank[x] < bound
  }

  /** The value of all prompts together. */
  function PromptsValue(ps: seq<Nullable>, env: Env): Tristate {
    if ps == [] then No
    else Max(PromptsValue(ps[..|ps| - 1], env), EvalNullable(ps[|ps| - 1], env))
  }

  /** What selects or implies a symbol; without anything it is n. */
  function ReverseValue(p: Nullable, env: Env): Tristate {
    if p.Null? then No else Eval(p.expr, env)
  }

  /** A mandatory bool choice as menu_finalize leaves it: it is selected by "m" wherever it is visible. */
  ghost predicate MandatoryChoice(s: Symbol, i: Info) {
    && s.typ == Boolean
    && forall env {:trigger ReverseValue(i.revDep, env)} :: Typed(env) ==>
         ReverseValue(i.revDep, env) == Min(PromptsValue(i.prompts, env), Mod)
  }

  /** A member's prompt is visible only as far as the choice is set: menu_finalize conjoins its condition
      with the choice. */
  ghost predicate ChoicePrompt(choice: Symbol, p: Nullable) {
    forall env {:trigger EvalNullable(p, env)} :: Typed(env) ==> Le(EvalNullable(p, env), env.tri(choice))
  }

  ghost predicate GoodMember(g: Graph, s: Symbol)
    requires g.info.Keys == g.rank.Keys && s in g.info && g.info[s].kind.Member?
  {
    var i := g.info[s];
    var c := i.kind.choice;
    && s.typ == Boolean && !i.auto
    && c in g.info && g.info[c].kind.Choice? && s in g.info[c].kind.members
    && g.rank[c] < g.rank[s]
    && (forall p :: p in i.prompts ==> ChoicePrompt(c, p))
    && Below(g, PromptSymbols(i.prompts) - {c}, g.rank[c])
  }

  ghost predicate GoodChoice(g: Graph, s: Symbol)
    requires g.info.Keys == g.rank.Keys && s in g.info && g.info[s].kind.Choice?
  {
    && MandatoryChoice(s, g.info[s])
    && (forall d :: d in g.info[s].defaults ==> d.value.Sym? && d.value.sym in g.info[s].kind.members)
    && forall m :: m in g.info[s].kind.members ==> m in g.info && g.info[m].kind == Member(s)
  }

  ghost predicate GoodSymbol(g: Graph, s: Symbol)
    requires g.info.Keys == g.rank.Keys && s in g.info
  {
    && Below(g, Operands(g.info[s]), g.rank[s])
    && (g.info[s].kind.Member? ==> GoodMember(g, s))
    && (g.info[s].kind.Choice? ==> GoodChoice(g, s))
  }

  /** The graph is closed and acyclic, and its choices are mandatory bool choices. */
  ghost predicate WellFounded(g: Graph) {
    && g.info.Keys == g.rank.Keys
    && (forall t {:trigger TristateSymbol(t)} ::
          TristateSymbol(t) in g.info && g.info[TristateSymbol(t)].kind == Plain)
    && (forall s {:trigger GoodSymbol(g, s)} :: s in g.info ==> GoodSymbol(g, s))
  }

  // ----- the calculation, given the values of the operands -----

  predicate IsTristate(s: Symbol) {
    s.typ == Boolean || s.typ == TristateType
  }

  /** sym_get_type yields S_BOOLEAN. */
  predicate ActsBoolean(g: Graph, s: Symbol) {
    s.typ == Boolean || (s.typ == TristateType && g.modules == No)
  }

  function PromoteIf(b: bool, t: Tristate): Tristate {
    if b && t == Mod then Yes else t
  }

  function Visibility(g: Graph, s: Symbol, i: Info, env: Env): Tristate {
    PromoteIf(s.typ != TristateType || g.modules == No, PromptsValue(i.prompts, env))
  }

  function DirectDependency(g: Graph, s: Symbol, i: Info, env: Env): Tristate {
    PromoteIf(ActsBoolean(g, s), EvalNullable(i.dirDep, env))
  }

  function ReverseDependency(g: Graph, s: Symbol, i: Info, env: Env): Tristate {
    PromoteIf(ActsBoolean(g, s), ReverseValue(i.revDep, env))
  }

  function ImpliedValue(g: Graph, s: Symbol, i: Info, env: Env): Tristate {
    PromoteIf(ActsBoolean(g, s),
              if i.implied.Ref? && DirectDependency(g, s, i, env) != No then Eval(i.implied.expr, env) else No)
  }

  /** The position of the first property whose condition is not n. */
  function FirstActive(conditions: seq<Nullable>, env: Env): (k: nat)
    ensures k <= |conditions|
    ensures k < |conditions| ==> EvalNullable(conditions[k], env) != No
    ensures forall j :: 0 <= j < k ==> EvalNullable(conditions[j], env) == No
  {
    if conditions == [] || EvalNullable(conditions[0], env) != No then 0
    else
      var k := FirstActive(conditions[1..], env);
      assert forall j :: 0 < j < k + 1 ==> conditions[j] == conditions[1..][j - 1];
      k + 1
  }

  function DefaultConditions(ds: seq<Default>): (cs: seq<Nullable>)
    ensures |cs| == |ds| && forall k :: 0 <= k < |ds| ==> cs[k] == ds[k].condition
  {
    seq(|ds|, k requires 0 <= k < |ds| => ds[k].condition)
  }

  function RangeConditions(rs: seq<Range>): (cs: seq<Nullable>)
    ensures |cs| == |rs| && forall k :: 0 <= k < |rs| ==> cs[k] == rs[k].condition
  {
    seq(|rs|, k requires 0 <= k < |rs| => rs[k].condition)
  }

  /** sym_get_default_prop */
  function ActiveDefault(ds: seq<Default>, env: Env): Option<Default> {
    var k := FirstActive(DefaultConditions(ds), env);
    if k < |ds| then Some(ds[k]) else None
  }

  /** sym_get_range_prop */
  function ActiveRange(rs: seq<Range>, env: Env): Option<Range> {
    var k := FirstActive(RangeConditions(rs), env);
    if k < |rs| then Some(rs[k]) else None
  }

  function DefaultTristate(i: Info, env: Env): Tristate {
    match ActiveDefault(i.defaults, env)
    case None => No
    case Some(d) => Min(Eval(d.value, env), EvalNullable(d.condition, env))
  }

  /** The symbol whose value an int, hex or string default copies. */
  function DefaultSource(i: Info, env: Env): Option<Symbol> {
    match ActiveDefault(i.defaults, env)
    case Some(Default(_, Sym(x))) => Some(x)
    case _ => None
  }

  function RangeBase(typ: SymbolType): nat {
    if typ == Hex then 16 else 10
  }

  /** sym_get_range_val */
  function BoundValue(x: Symbol, base: nat, env: Env): int {
    Strtoll(env.val(x), if x.typ == Integer || x.typ == Hex then RangeBase(x.typ) else base).value
  }

  /** The clamping step of sym_validate_range. */
  function Clamp(typ: SymbolType, val: string, low: int, high: int): string
    requires LLONG_MIN <= low <= LLONG_MAX && LLONG_MIN <= high <= LLONG_MAX
  {
    var v := Strtoll(val, RangeBase(typ)).value;
    if low <= v <= high then val
    else
      var bound := if v >= low then high else low;
      if typ == Integer then FormatDecimal(bound) else FormatHex(bound)
  }

  /** sym_validate_range */
  function Validated(s: Symbol, i: Info, val: string, env: Env): string {
    if s.typ != Integer && s.typ != Hex then val
    else match ActiveRange(i.ranges, env)
      case None => val
      case Some(r) =>
        Clamp(s.typ, val, BoundValue(r.low, RangeBase(s.typ), env), BoundValue(r.high, RangeBase(s.typ), env))
  }

  /** The value of a bool or tristate symbol that is not a visible member of a choice. */
  function TristateResult(g: Graph, s: Symbol, i: Info, user: UserValue, env: Env): Tristate {
    var visible := Visibility(g, s, i, env);
    var dependent := !i.kind.Member?;
    var rev := if dependent then ReverseDependency(g, s, i, env) else No;
    var implied := if dependent then ImpliedValue(g, s, i, env) else No;
    var own :=
      if visible != No && user.given then Min(user.tri, visible)
      else if i.kind.Choice? then No
      else Max(DefaultTristate(i, env), implied);
    PromoteIf(ActsBoolean(g, s) || implied == Yes, Max(own, rev))
  }

  /** The value of an int, hex or string symbol before its range is applied. */
  function RawString(g: Graph, s: Symbol, i: Info, user: UserValue, env: Env): string {
    if Visibility(g, s, i, env) != No && user.given then user.val
    else match DefaultSource(i, env)
      case None => ""
      case Some(x) => env.val(x)
  }

  function StringResult(g: Graph, s: Symbol, i: Info, user: UserValue, env: Env): string {
    Validated(s, i, RawString(g, s, i, user, env), env)
  }

  /** Whether a bool or tristate symbol gets SYMBOL_WRITE, SYMBOL_AUTO aside. */
  function TristateWritten(g: Graph, s: Symbol, i: Info, env: Env): bool {
    || Visibility(g, s, i, env) != No
    || (!i.kind.Member? && ReverseDependency(g, s, i, env) != No)
    || (!i.kind.Choice? && DefaultTristate(i, env) != No)
    || (i.kind.Plain? && ImpliedValue(g, s, i, env) != No)
  }

  /** Whether the symbol gets SYMBOL_WRITE. */
  function Written(g: Graph, s: Symbol, i: Info, env: Env): bool {
    !i.auto &&
    if s.typ == Boolean || s.typ == TristateType then TristateWritten(g, s, i, env)
    else Visibility(g, s, i, env) != No || DefaultSource(i, env).Some?
  }

  /** The members of a choice that are visible, as the choice sees them. */
  predicate MemberVisible(g: Graph, m: Symbol, env: Env)
  {
    m in g.info && Visibility(g, m, g.info[m], env) != No
  }

  /** The first default of a choice that is active and names a visible member. */
  function FirstVisibleDefault(g: Graph, ds: seq<Default>, env: Env): Option<Symbol> {
    if ds == [] then None
    else if EvalNullable(ds[0].condition, env) != No && ds[0].value.Sym? && MemberVisible(g, ds[0].value.sym, env)
    then Some(ds[0].value.sym)
    else FirstVisibleDefault(g, ds[1..], env)
  }

  function FirstVisible(g: Graph, ms: seq<Symbol>, env: Env): Option<Symbol> {
    if ms == [] then None
    else if MemberVisible(g, ms[0], env) then Some(ms[0])
    else FirstVisible(g, ms[1..], env)
  }

  /** sym_choice_default */
  function ChoiceDefault(g: Graph, i: Info, env: Env): Option<Symbol>
    requires i.kind.Choice?
  {
    var d := FirstVisibleDefault(g, i.defaults, env);
    if d.Some? then d else FirstVisible(g, i.kind.members, env)
  }

  /** sym_calc_choice */
  function ChoicePick(g: Graph, i: Info, user: UserValue, env: Env): Option<Symbol>
    requires i.kind.Choice?
  {
    if user.pick.Some? && MemberVisible(g, user.pick.value, env) then user.pick
    else ChoiceDefault(g, i, env)
  }

  /** The valuation while a choice that is y looks at its members. */
  function ChoiceIsYes(c: Symbol, env: Env): Env {
    env.(tri := (x: Symbol) => if x == c then Yes else env.tri(x),
         val := (x: Symbol) => if x == c then "n" else env.val(x))
  }

  /** Everything sym_calc_value leaves in `s`, from the values of the operands of `s`; `pick` is
      the picked member of the choice that `s` belongs to, if any. */
  function CalculateWith(g: Graph, user: UserValue, s: Symbol, i: Info, env: Env, pick: Option<Symbol>): Calculated {
    if IsTristateConstant(s) then
      var t := if s == SYMBOL_YES then Yes else if s == SYMBOL_MOD then Mod else No;
      Calculated(t, TristateName(t), None, No, No, No, No, false)
    else if s.typ == UnknownType || s.typ == OtherType then
      Calculated(No, i.name, None, No, No, No, No, false)
    else
      var visible := Visibility(g, s, i, env);
      var write := Written(g, s, i, env);
      if i.kind.Member? then
        var tri := if visible == Yes then (if pick == Some(s) then Yes else No) else TristateResult(g, s, i, user, env);
        Calculated(tri, "n", None, visible, No, No, No, write)
      else
        var dir, rev, implied :=
          DirectDependency(g, s, i, env), ReverseDependency(g, s, i, env), ImpliedValue(g, s, i, env);
        if i.kind.Choice? then
          var mode := TristateResult(g, s, i, user, env);
          var picked := if mode == Yes then ChoicePick(g, i, user, ChoiceIsYes(s, env)) else None;
          Calculated(if mode == Yes && picked.None? then No else mode, "n", picked, visible, dir, rev, implied, write)
        else if s.typ == Boolean || s.typ == TristateType then
          Calculated(TristateResult(g, s, i, user, env), "n", None, visible, dir, rev, implied, write)
        else
          Calculated(No, StringResult(g, s, i, user, env), None, visible, dir, rev, implied, write)
  }

  predicate PicksMember(i: Info, user: UserValue) {
    i.kind.Choice? && user.pick.Some? ==> user.pick.value in i.kind.members
  }

  /** A graph and the user's values for its symbols; what the user picked for a choice is one of
      its members. */
  ghost predicate Setting(g: Graph, u: Users) {
    && WellFounded(g) && u.Keys == g.info.Keys
    && forall s {:trigger PicksMember(g.info[s], u[s])} :: s in g.info ==> PicksMember(g.info[s], u[s])
  }

  /** The plain recursive value of a symbol. */
  ghost function Calculate(g: Graph, u: Users, s: Symbol): Calculated
    requires Setting(g, u) && s in g.info
    decreases g.rank[s], 1
  {
    var i := g.info[s];
    assert GoodSymbol(g, s);
    var pick := if i.kind.Member? then Calculate(g, u, i.kind.choice).pick else None;
    CalculateWith(g, u[s], s, i, EnvBelow(g, u, g.rank[s]), pick)
  }

  /** The values of all symbols of a rank below `bound`. */
  ghost function EnvBelow(g: Graph, u: Users, bound: nat): Env
    requires Setting(g, u)
    decreases bound, 0
  {
    Env((x: Symbol) => if x in g.info && g.rank[x] < bound then Calculate(g, u, x).tri else No,
        (x: Symbol) => if x in g.info && g.rank[x] < bound then Calculate(g, u, x).val else "",
        g.modules)
  }

  /** A graph, the user's values, and the plain value of every symbol. */
  datatype World = World(g: Graph, u: Users, plain: map<Symbol, Calculated>)

  ghost predicate GoodWorld(w: World) {
    && Setting(w.g, w.u) && w.plain.Keys == w.g.info.Keys
    && forall s {:trigger Calculate(w.g, w.u, s)} :: s in w.g.info ==> w.plain[s] == Calculate(w.g, w.u, s)
  }

  ghost function WorldOf(g: Graph, u: Users): (w: World)
    requires Setting(g, u)
    ensures GoodWorld(w) && w.g == g && w.u == u
  {
    World(g, u, map s | s in g.info :: Calculate(g, u, s))
  }

  /** The values of all symbols. */
  ghost function EnvOf(w: World): Env {
    Env((x: Symbol) => if x in w.plain then w.plain[x].tri else No,
        (x: Symbol) => if x in w.plain then w.plain[x].val else "",
        w.g.modules)
  }
}
