/** sym_calc_value and its helpers as they run: every symbol caches its value, SYMBOL_VALID says
    that the cache is up to date, and a calculation starts others as it needs them. */
module CachedEvaluator {
  import opened Tristates
  import opened CNumbers
  import opened Expressions
  import opened ExprEquality
  import opened SymbolGraph
  import opened SymbolValues
  import opened EvaluatorState

  /** The symbols before anything has been calculated. The constants y, m and n are never invalid. */
  function InitialCell(s: Symbol, user: UserValue): Cell {
    var tri := if s == SYMBOL_YES then Yes else if s == SYMBOL_MOD then Mod else No;
    Cell(IsTristateConstant(s), false, tri, if IsTristateConstant(s) then TristateName(tri) else "", None,
         No, No, No, No, user)
  }

  function InitialState(g: Graph, u: Users): State
    requires u.Keys == g.info.Keys
  {
    map s | s in g.info :: InitialCell(s, u[s])
  }

  lemma InitialConsistent(w: World)
    requires GoodWorld(w)
    ensures Consistent(w, InitialState(w.g, w.u), {})
  {
    var st := InitialState(w.g, w.u);
    forall t | t in w.g.info
      ensures Fine(w, st, {}, t)
    {
      if IsTristateConstant(t) {
        CalculateEquation(w, t);
        assert GoodSymbol(w.g, t) && TristateSymbol(w.plain[t].tri) == t;
      }
    }
  }

  /** The symbol table. `modules` is modules_sym, and `changed` tells whether the change counter is
      not zero. */
  class SymbolTable {
    const graph: Graph
    const modules: Symbol
    var state: State
    var changed: bool
    ghost var world: World

    constructor (graph: Graph, modules: Symbol, users: Users)
      requires Setting(graph, users) && modules in graph.info
      ensures this.graph == graph && this.modules == modules && !changed
      ensures Valid({}) && world.u == users && state == InitialState(graph, users)
    {
      this.graph, this.modules := graph, modules;
      state, changed := InitialState(graph, users), false;
      world := WorldOf(graph, users);
      InitialConsistent(WorldOf(graph, users));
    }

    ghost predicate Valid(busy: set<Symbol>)
      reads this
    {
      world.g == graph && modules in graph.info && Consistent(world, state, busy)
    }

    /** expr_calc_value */
    method ExprValue(e: Expr, ghost busy: set<Symbol>, ghost env: Env, ghost bound: nat) returns (r: Tristate)
      requires Valid(busy) && Readable(world, state, busy, env, bound, SymbolsOf(e))
      modifies this`state
      ensures Valid(busy) && Frame(world, old(state), state, busy, bound, {})
      ensures r == Eval(e, env) && Evaluated(state, SymbolsOf(e))
      decreases 2 * bound + 1, 0, Size(e)
    {
      match e
      case Sym(s) =>
        r := SymbolTristate(s, busy, env, bound);
      case Compare(rel, left, right) =>
        r := CompareValue(rel, left, right, busy, env, bound);
      case Not(a) =>
        var v := ExprValue(a, busy, env, bound);
        r := Negate(v);
      case Bin(op, left, right) =>
        ghost var was := state;
        ReadableSubset(world, state, busy, env, bound, SymbolsOf(e), SymbolsOf(left));
        var v1 := ExprValue(left, busy, env, bound);
        ghost var mid := state;
        ReadableKept(world, was, mid, busy, env, bound, SymbolsOf(e), SymbolsOf(right));
        var v2 := ExprValue(right, busy, env, bound);
        FrameTransitive(world, was, mid, state, busy, bound, {});
        EvaluatedKept(world, mid, state, busy, bound, SymbolsOf(left));
        r := Apply(op, v1, v2);
    }

    method SymbolTristate(s: Symbol, ghost busy: set<Symbol>, ghost env: Env, ghost bound: nat) returns (r: Tristate)
      requires Valid(busy) && Readable(world, state, busy, env, bound, {s})
      modifies this`state
      ensures Valid(busy) && Frame(world, old(state), state, busy, bound, {})
      ensures r == env.tri(s) && Evaluated(state, {s})
      decreases 2 * bound + 1, 0, 0
    {
      ghost var was := state;
      assert CanRead(world, state, busy, env, bound, s);
      CalcValue(s, busy, bound);
      assert KeptAt(world, was, state, busy, bound, s) && Fine(world, state, busy, s);
      r := state[s].tri;
    }

    method CompareValue(rel: Relation, l: Symbol, r: Symbol, ghost busy: set<Symbol>, ghost env: Env, ghost bound: nat)
      returns (v: Tristate)
      requires Valid(busy) && Readable(world, state, busy, env, bound, {l, r})
      modifies this`state
      ensures Valid(busy) && Frame(world, old(state), state, busy, bound, {})
      ensures v == EvalCompare(rel, l, r, env) && Evaluated(state, {l, r})
      decreases 2 * bound + 1, 0, 0
    {
      ghost var w, was := world, state;
      assert CanRead(w, was, busy, env, bound, l) && CanRead(w, was, busy, env, bound, r);
      CalcValue(l, busy, bound);
      ghost var mid := state;
      assert world == w;
      KeptValue(w, was, mid, busy, env, bound, l);
      KeptValue(w, was, mid, busy, env, bound, r);
      CalcValue(r, busy, bound);
      ghost var done := state;
      assert world == w;
      KeptValue(w, mid, done, busy, env, bound, l);
      KeptValue(w, mid, done, busy, env, bound, r);
      FrameTransitive(w, was, mid, done, busy, bound, {});
      var str1 := ValueText(l.typ, state[l].tri, state[l].val, graph.modules);
      var str2 := ValueText(r.typ, state[r].tri, state[r].val, graph.modules);
      v := CompareTexts(rel, str1, l.typ, str2, r.typ);
    }

    method NullableValue(p: Nullable, ghost busy: set<Symbol>, ghost env: Env, ghost bound: nat) returns (r: Tristate)
      requires Valid(busy) && Readable(world, state, busy, env, bound, SymbolsOfNullable(p))
      modifies this`state
      ensures Valid(busy) && Frame(world, old(state), state, busy, bound, {})
      ensures r == EvalNullable(p, env) && Evaluated(state, SymbolsOfNullable(p))
      decreases 2 * bound + 1, 1, 0
    {
      match p
      case Null =>
        FrameReflexive(world, state, busy, bound);
        r := Yes;
      case Ref(e) =>
        r := ExprValue(e, busy, env, bound);
    }

    /** The search of sym_get_default_prop and sym_get_range_prop: the first condition that is
        not n, and its value. */
    method ActiveProperty(conditions: seq<Nullable>, ghost busy: set<Symbol>, ghost env: Env, ghost bound: nat,
                          ghost xs: set<Symbol>) returns (k: nat, tri: Tristate)
      requires Valid(busy) && Readable(world, state, busy, env, bound, xs)
      requires forall c :: c in conditions ==> SymbolsOfNullable(c) <= xs
      modifies this`state
      ensures Valid(busy) && Frame(world, old(state), state, busy, bound, {})
      ensures k == FirstActive(conditions, env)
      ensures k < |conditions| ==> tri == EvalNullable(conditions[k], env)
      decreases 2 * bound + 1, 2, 0
    {
      ghost var was := state;
      FrameReflexive(world, state, busy, bound);
      k, tri := 0, No;
      while k < |conditions|
        invariant k <= |conditions|
        invariant Valid(busy) && Frame(world, was, state, busy, bound, {})
        invariant FirstActive(conditions, env) == k + FirstActive(conditions[k..], env)
      {
        ghost var mid := state;
        ReadableKept(world, was, mid, busy, env, bound, xs, SymbolsOfNullable(conditions[k]));
        tri := NullableValue(conditions[k], busy, env, bound);
        FrameTransitive(world, was, mid, state, busy, bound, {});
        if tri != No {
          return;
        }
        assert conditions[k..][1..] == conditions[k + 1..];
        k := k + 1;
      }
    }

    /** The first part of sym_calc_visibility: is any prompt visible? */
    method PromptVisibility(s: Symbol, ghost busy: set<Symbol>, ghost env: Env, ghost bound: nat)
      returns (visible: Tristate)
      requires Valid(busy) && s in graph.info
      requires Readable(world, state, busy, env, bound, PromptSymbols(graph.info[s].prompts))
      modifies this`state
      ensures Valid(busy) && Frame(world, old(state), state, busy, bound, {})
      ensures visible == Visibility(graph, s, graph.info[s], env)
      ensures Evaluated(state, PromptSymbols(graph.info[s].prompts))
      decreases 2 * bound + 1, 2, 0
    {
      var prompts := graph.info[s].prompts;
      ghost var w, was, xs := world, state, PromptSymbols(graph.info[s].prompts);
      FrameReflexive(w, was, busy, bound);
      var tri := No;
      for k := 0 to |prompts|
        invariant Valid(busy) && world == w && Frame(w, was, state, busy, bound, {})
        invariant tri == PromptsValue(prompts[..k], env)
        invariant Evaluated(state, PromptSymbols(prompts[..k]))
      {
        ghost var mid := state;
        PromptSymbolsGrow(prompts, k);
        ReadableKept(w, was, mid, busy, env, bound, xs, SymbolsOfNullable(prompts[k]));
        var v := NullableValue(prompts[k], busy, env, bound);
        assert world == w;
        FrameTransitive(w, was, mid, state, busy, bound, {});
        EvaluatedKept(w, mid, state, busy, bound, PromptSymbols(prompts[..k]));
        PromptsValueGrows(prompts, k, env);
        tri := Max(tri, v);
      }
      assert prompts[..|prompts|] == prompts;
      visible := if tri == Mod && (s.typ != TristateType || graph.modules == No) then Yes else tri;
    }

    /** sym_calc_visibility. A symbol that is already finished is left as it is. */
    method CalcVisibility(s: Symbol, ghost busy: set<Symbol>, ghost env: Env, ghost bound: nat)
      requires Valid(busy) && s in graph.info && !Untyped(s)
      requires Readable(world, state, busy, env, bound, PromptSymbols(graph.info[s].prompts))
      requires Visibility(graph, s, graph.info[s], env) == world.plain[s].visible
      requires !graph.info[s].kind.Member? ==>
        && state[s].valid && Readable(world, state, busy, env, bound, DependencySymbols(graph.info[s]))
        && DependenciesArePlain(world, s, env)
      requires s !in busy ==> bound <= graph.rank[s]
      modifies this`state
      ensures Valid(busy) && Frame(world, old(state), state, busy, bound, {s})
      ensures state[s].valid == old(state)[s].valid && state[s].visible == world.plain[s].visible
      ensures s in busy || old(state)[s].valid ==> Recalculated(old(state)[s], state[s], world.plain[s], s in busy)
      ensures !graph.info[s].kind.Member? ==> SameDependencies(state[s], world.plain[s])
      ensures graph.info[s].kind.Member? ==> Evaluated(state, PromptSymbols(graph.info[s].prompts))
      decreases 2 * bound + 1, 4, 0
    {
      ghost var w := world;
      var i := graph.info[s];
      ghost var was := state;
      var tri := PromptVisibility(s, busy, env, bound);
      assert world == w;
      ghost var mid := state;
      assert Fine(w, was, busy, s);
      assert KeptAt(w, was, mid, busy, bound, s);
      assert Fine(w, mid, busy, s);
      Touch(w, mid, busy, s, mid[s].(visible := tri));
      state := state[s := state[s].(visible := tri)];
      FrameWeaken(w, was, mid, busy, bound, bound, {}, {s});
      FrameOfTouch(w, was, mid, state, busy, bound, s);
      if !i.kind.Member? {
        ghost var seen := state;
        ReadableKept(w, was, mid, busy, env, bound, DependencySymbols(i), DependencySymbols(i));
        ReadableTouched(w, mid, seen, busy, env, bound, DependencySymbols(i), s);
        CalcDependencies(s, busy, env, bound);
        assert world == w;
        FrameTransitive(w, was, seen, state, busy, bound, {s});
      }
    }

    /** The second part of sym_calc_visibility. */
    method CalcDependencies(s: Symbol, ghost busy: set<Symbol>, ghost env: Env, ghost bound: nat)
      requires Valid(busy) && s in graph.info && !Untyped(s) && !graph.info[s].kind.Member?
      requires state[s].valid && state[s].visible == world.plain[s].visible
      requires Readable(world, state, busy, env, bound, DependencySymbols(graph.info[s]))
      requires DependenciesArePlain(world, s, env)
      modifies this`state
      ensures Valid(busy) && Frame(world, old(state), state, busy, bound, {s})
      ensures state[s].visible == world.plain[s].visible
      ensures Recalculated(old(state)[s], state[s], world.plain[s], s in busy)
      ensures SameDependencies(state[s], world.plain[s])
      decreases 2 * bound + 1, 3, 0
    {
      ghost var a := state;
      CalcDirDep(s, busy, env, bound);
      ghost var b := state;
      CalcRevDep(s, busy, env, bound);
      ghost var c := state;
      CalcImplied(s, busy, env, bound);
      FrameTransitive(world, a, b, c, busy, bound, {s});
      FrameTransitive(world, a, c, state, busy, bound, {s});
    }

    method CalcDirDep(s: Symbol, ghost busy: set<Symbol>, ghost env: Env, ghost bound: nat)
      requires Valid(busy) && s in graph.info && !Untyped(s) && !graph.info[s].kind.Member?
      requires state[s].valid && state[s].visible == world.plain[s].visible
      requires Readable(world, state, busy, env, bound, DependencySymbols(graph.info[s]))
      requires DependenciesArePlain(world, s, env)
      modifies this`state
      ensures Valid(busy) && Frame(world, old(state), state, busy, bound, {s})
      ensures state[s].visible == world.plain[s].visible
      ensures Recalculated(old(state)[s], state[s], world.plain[s], s in busy)
      ensures Readable(world, state, busy, env, bound, DependencySymbols(graph.info[s]))
      ensures state[s].dirDep == world.plain[s].dirDep
      decreases 2 * bound + 1, 2, 0
    {
      ghost var w := world;
      ghost var xs := DependencySymbols(graph.info[s]);
      ghost var a := state;
      ReadableSubset(w, state, busy, env, bound, xs, SymbolsOfNullable(graph.info[s].dirDep));
      var tri := NullableValue(graph.info[s].dirDep, busy, env, bound);
      assert world == w;
      if tri == Mod && ActsBoolean(graph, s) { tri := Yes; }
      DependencyStep(w, a, state, busy, env, bound, xs, s, state[s].(dirDep := tri));
      state := state[s := state[s].(dirDep := tri)];
    }

    method CalcRevDep(s: Symbol, ghost busy: set<Symbol>, ghost env: Env, ghost bound: nat)
      requires Valid(busy) && s in graph.info && !Untyped(s) && !graph.info[s].kind.Member?
      requires state[s].valid && state[s].visible == world.plain[s].visible
      requires Readable(world, state, busy, env, bound, DependencySymbols(graph.info[s]))
      requires DependenciesArePlain(world, s, env)
      modifies this`state
      ensures Valid(busy) && Frame(world, old(state), state, busy, bound, {s})
      ensures state[s].visible == world.plain[s].visible
      ensures Recalculated(old(state)[s], state[s], world.plain[s], s in busy)
      ensures Readable(world, state, busy, env, bound, DependencySymbols(graph.info[s]))
      ensures state[s].revDep == world.plain[s].revDep && state[s].dirDep == old(state)[s].dirDep
      decreases 2 * bound + 1, 2, 0
    {
      ghost var w := world;
      ghost var xs := DependencySymbols(graph.info[s]);
      ghost var a := state;
      var tri := No;
      if graph.info[s].revDep.Ref? {
        ReadableSubset(w, state, busy, env, bound, xs, SymbolsOf(graph.info[s].revDep.expr));
        tri := ExprValue(graph.info[s].revDep.expr, busy, env, bound);
        assert world == w;
      } else {
        FrameReflexive(w, state, busy, bound);
      }
      if tri == Mod && ActsBoolean(graph, s) { tri := Yes; }
      DependencyStep(w, a, state, busy, env, bound, xs, s, state[s].(revDep := tri));
      state := state[s := state[s].(revDep := tri)];
    }

    method CalcImplied(s: Symbol, ghost busy: set<Symbol>, ghost env: Env, ghost bound: nat)
      requires Valid(busy) && s in graph.info && !Untyped(s) && !graph.info[s].kind.Member?
      requires state[s].valid && state[s].visible == world.plain[s].visible
      requires Readable(world, state, busy, env, bound, DependencySymbols(graph.info[s]))
      requires DependenciesArePlain(world, s, env)
      requires state[s].dirDep == world.plain[s].dirDep
      modifies this`state
      ensures Valid(busy) && Frame(world, old(state), state, busy, bound, {s})
      ensures state[s].visible == world.plain[s].visible
      ensures Recalculated(old(state)[s], state[s], world.plain[s], s in busy)
      ensures state[s].implied == world.plain[s].implied
      ensures state[s].dirDep == old(state)[s].dirDep && state[s].revDep == old(state)[s].revDep
      decreases 2 * bound + 1, 2, 0
    {
      ghost var w := world;
      ghost var xs := DependencySymbols(graph.info[s]);
      ghost var a := state;
      var tri := No;
      if graph.info[s].implied.Ref? && state[s].dirDep != No {
        ReadableSubset(w, state, busy, env, bound, xs, SymbolsOf(graph.info[s].implied.expr));
        tri := ExprValue(graph.info[s].implied.expr, busy, env, bound);
        assert world == w;
      } else {
        FrameReflexive(w, state, busy, bound);
      }
      if tri == Mod && ActsBoolean(graph, s) { tri := Yes; }
      DependencyStep(w, a, state, busy, env, bound, xs, s, state[s].(implied := tri));
      state := state[s := state[s].(implied := tri)];
    }

    /** sym_get_default_prop for a bool or tristate symbol, with the value that the default has. */
    method DefaultTristateOf(s: Symbol, ghost busy: set<Symbol>, ghost env: Env, ghost bound: nat)
      returns (tri: Tristate)
      requires Valid(busy) && s in graph.info && !graph.info[s].kind.Choice?
      requires Readable(world, state, busy, env, bound, Operands(graph.info[s]))
      modifies this`state
      ensures Valid(busy) && Frame(world, old(state), state, busy, bound, {})
      ensures tri == DefaultTristate(graph.info[s], env)
      decreases 2 * bound + 1, 3, 0
    {
      var i := graph.info[s];
      ghost var xs := Operands(i);
      ghost var was := state;
      var conditions := DefaultConditions(i.defaults);
      DefaultConditionsWithin(i);
      var k, condition := ActiveProperty(conditions, busy, env, bound, xs);
      tri := No;
      if k < |conditions| {
        ghost var mid := state;
        assert i.defaults[k] in i.defaults;
        assert SymbolsOf(i.defaults[k].value) <= DefaultValueSymbols(i.defaults) <= xs;
        ReadableKept(world, was, mid, busy, env, bound, xs, SymbolsOf(i.defaults[k].value));
        var v := ExprValue(i.defaults[k].value, busy, env, bound);
        FrameTransitive(world, was, mid, state, busy, bound, {});
        tri := Min(v, condition);
      }
    }

    /** The value of a bool or tristate symbol that the user has not set, without what selects
        it; the defaults, select and imply may ask for the symbol to be written. */
    method UnsetTristate(s: Symbol, ghost busy: set<Symbol>, ghost env: Env, ghost bound: nat)
      returns (tri: Tristate)
      requires Valid(busy) && s in graph.info && s in busy && !Untyped(s)
      requires Readable(world, state, busy, env, bound, Operands(graph.info[s]))
      requires state[s].visible == Visibility(graph, s, graph.info[s], env) == world.plain[s].visible
      requires !graph.info[s].kind.Member? ==>
        DependenciesArePlain(world, s, env) && SameDependencies(state[s], world.plain[s])
      requires state[s].write == (state[s].visible != No)
      modifies this`state
      ensures Valid(busy) && Frame(world, old(state), state, busy, bound, {s})
      ensures state[s] == old(state)[s].(write := state[s].write, user := state[s].user)
      ensures var i := graph.info[s];
        && tri == (if i.kind.Choice? then No else Max(DefaultTristate(i, env), state[s].implied))
        && state[s].write == TristateWritten(graph, s, i, env)
      decreases 2 * bound + 1, 4, 0
    {
      ghost var w := world;
      var i := graph.info[s];
      ghost var was := state;
      assert Fine(w, was, busy, s);
      FrameReflexive(w, was, busy, bound);
      tri := No;
      if !i.kind.Choice? {
        tri := DefaultTristateOf(s, busy, env, bound);
        assert world == w;
      }
      ghost var mid := state;
      assert KeptAt(w, was, mid, busy, bound, s) && Fine(w, mid, busy, s);
      FrameWeaken(w, was, mid, busy, bound, bound, {}, {s});
      var write := state[s].revDep != No || (!i.kind.Choice? && (tri != No || state[s].implied != No));
      if !i.kind.Choice? {
        tri := Max(tri, state[s].implied);
      }
      Touch(w, mid, busy, s, mid[s].(write := mid[s].write || write));
      state := state[s := state[s].(write := state[s].write || write)];
      FrameOfTouch(w, was, mid, state, busy, bound, s);
    }

    /** The S_BOOLEAN and S_TRISTATE branch of sym_calc_value, for a symbol that is not a visible
        member of a choice. */
    method NewTristate(s: Symbol, ghost busy: set<Symbol>, ghost env: Env, ghost bound: nat)
      returns (tri: Tristate)
      requires Valid(busy) && s in graph.info && s in busy && !Untyped(s)
      requires Readable(world, state, busy, env, bound, Operands(graph.info[s]))
      requires state[s].visible == Visibility(graph, s, graph.info[s], env) == world.plain[s].visible
      requires !graph.info[s].kind.Member? ==>
        DependenciesArePlain(world, s, env) && SameDependencies(state[s], world.plain[s])
      requires state[s].write == (state[s].visible != No)
      modifies this`state
      ensures Valid(busy) && Frame(world, old(state), state, busy, bound, {s})
      ensures tri == TristateResult(graph, s, graph.info[s], old(state)[s].user, env)
      ensures state[s] == old(state)[s].(write := state[s].write, user := state[s].user)
      ensures state[s].write == TristateWritten(graph, s, graph.info[s], env)
      decreases 2 * bound + 1, 5, 0
    {
      assert Fine(world, state, busy, s);
      if state[s].visible != No && state[s].user.given {
        tri := Min(state[s].user.tri, state[s].visible);
        FrameReflexive(world, state, busy, bound);
        FrameWeaken(world, state, state, busy, bound, bound, {}, {s});
      } else {
        tri := UnsetTristate(s, busy, env, bound);
      }
      tri := Max(tri, state[s].revDep);
      if tri == Mod && (ActsBoolean(graph, s) || state[s].implied == Yes) {
        tri := Yes;
      }
    }

    /** The value of an int, hex or string symbol before its range is applied. */
    method NewString(s: Symbol, ghost busy: set<Symbol>, ghost env: Env, ghost bound: nat) returns (val: string)
      requires Valid(busy) && s in graph.info && s in busy && !Untyped(s)
      requires Readable(world, state, busy, env, bound, Operands(graph.info[s]))
      requires state[s].visible == Visibility(graph, s, graph.info[s], env) == world.plain[s].visible
      requires !graph.info[s].kind.Member? ==>
        DependenciesArePlain(world, s, env) && SameDependencies(state[s], world.plain[s])
      requires state[s].write == (state[s].visible != No)
      requires graph.info[s].kind.Plain?
      modifies this`state
      ensures Valid(busy) && Frame(world, old(state), state, busy, bound, {s})
      ensures val == RawString(graph, s, graph.info[s], old(state)[s].user, env)
      ensures state[s] == old(state)[s].(write := state[s].write, user := state[s].user)
      ensures state[s].write == (state[s].visible != No || DefaultSource(graph.info[s], env).Some?)
      decreases 2 * bound + 1, 4, 0
    {
      assert Fine(world, state, busy, s);
      if state[s].visible != No && state[s].user.given {
        val := state[s].user.val;
        FrameReflexive(world, state, busy, bound);
        FrameWeaken(world, state, state, busy, bound, bound, {}, {s});
      } else {
        val := UnsetString(s, busy, env, bound);
      }
    }

    /** A symbol whose default is active is written, and gets the value of another symbol. */
    method CopyValue(s: Symbol, x: Symbol, ghost busy: set<Symbol>, ghost env: Env, ghost bound: nat)
      returns (val: string)
      requires Valid(busy) && s in graph.info && s in busy && !Untyped(s)
      requires Readable(world, state, busy, env, bound, {x}) && state[s].visible == world.plain[s].visible
      modifies this`state
      ensures Valid(busy) && Frame(world, old(state), state, busy, bound, {s})
      ensures val == env.val(x) && state[s] == old(state)[s].(write := true, user := state[s].user)
      decreases 2 * bound + 1, 1, 0
    {
      ghost var w, was := world, state;
      assert Fine(w, was, busy, s);
      Touch(w, was, busy, s, was[s].(write := true));
      state := state[s := state[s].(write := true)];
      ghost var touched := state;
      OwnTouch(w, was, touched, busy, bound, s);
      ReadableTouched(w, was, touched, busy, env, bound, {x}, s);
      val := SymbolString(x, busy, env, bound);
      assert world == w;
      ghost var done := state;
      UnderWayKept(w, touched, done, busy, bound, s);
      FrameTransitive(w, was, touched, done, busy, bound, {s});
    }

    method UnsetString(s: Symbol, ghost busy: set<Symbol>, ghost env: Env, ghost bound: nat) returns (val: string)
      requires Valid(busy) && s in graph.info && s in busy && !Untyped(s)
      requires Readable(world, state, busy, env, bound, Operands(graph.info[s]))
      requires state[s].visible == Visibility(graph, s, graph.info[s], env) == world.plain[s].visible
      requires !graph.info[s].kind.Member? ==>
        DependenciesArePlain(world, s, env) && SameDependencies(state[s], world.plain[s])
      requires state[s].write == (state[s].visible != No)
      requires graph.info[s].kind.Plain?
      modifies this`state
      ensures Valid(busy) && Frame(world, old(state), state, busy, bound, {s})
      ensures state[s] == old(state)[s].(write := state[s].write, user := state[s].user)
      ensures var source := DefaultSource(graph.info[s], env);
        && val == (if source.Some? then env.val(source.value) else "")
        && state[s].write == (state[s].visible != No || source.Some?)
      decreases 2 * bound + 1, 3, 0
    {
      ghost var w, was, xs := world, state, Operands(graph.info[s]);
      var i := graph.info[s];
      var conditions := DefaultConditions(i.defaults);
      DefaultConditionsWithin(i);
      var k, condition := ActiveProperty(conditions, busy, env, bound, xs);
      assert world == w;
      ghost var mid := state;
      UnderWayKept(w, was, mid, busy, bound, s);
      SourceFound(i, env, k);
      val := "";
      if k < |conditions| && i.defaults[k].value.Sym? {
        ReadableKept(w, was, mid, busy, env, bound, xs, {i.defaults[k].value.sym});
        val := CopyValue(s, i.defaults[k].value.sym, busy, env, bound);
        assert world == w;
        FrameTransitive(w, was, mid, state, busy, bound, {s});
      }
    }

    method SymbolString(s: Symbol, ghost busy: set<Symbol>, ghost env: Env, ghost bound: nat) returns (val: string)
      requires Valid(busy) && Readable(world, state, busy, env, bound, {s})
      modifies this`state
      ensures Valid(busy) && Frame(world, old(state), state, busy, bound, {})
      ensures val == env.val(s)
      decreases 2 * bound + 1, 0, 0
    {
      ghost var was := state;
      assert CanRead(world, state, busy, env, bound, s);
      CalcValue(s, busy, bound);
      assert KeptAt(world, was, state, busy, bound, s) && Fine(world, state, busy, s);
      val := state[s].val;
    }

    /** sym_get_range_val */
    method RangeValue(x: Symbol, base: nat, ghost busy: set<Symbol>, ghost env: Env, ghost bound: nat) returns (v: int)
      requires Valid(busy) && Readable(world, state, busy, env, bound, {x})
      modifies this`state
      ensures Valid(busy) && Frame(world, old(state), state, busy, bound, {})
      ensures v == BoundValue(x, base, env)
      decreases 2 * bound + 1, 1, 0
    {
      var val := SymbolString(x, busy, env, bound);
      v := Strtoll(val, if x.typ == Integer || x.typ == Hex then RangeBase(x.typ) else base).value;
    }

    /** The comparisons of sym_validate_range. The upper bound is looked at only if the lower one
        is met. */
    method ClampInto(typ: SymbolType, val: string, range: Range, ghost busy: set<Symbol>, ghost env: Env,
                     ghost bound: nat)
      returns (text: string)
      requires Valid(busy) && Readable(world, state, busy, env, bound, {range.low, range.high})
      modifies this`state
      ensures Valid(busy) && Frame(world, old(state), state, busy, bound, {})
      ensures text ==
        Clamp(typ, val, BoundValue(range.low, RangeBase(typ), env), BoundValue(range.high, RangeBase(typ), env))
      decreases 2 * bound + 1, 2, 0
    {
      ghost var was := state;
      var base := RangeBase(typ);
      var number := Strtoll(val, base).value;
      ReadableSubset(world, was, busy, env, bound, {range.low, range.high}, {range.low});
      var limit := RangeValue(range.low, base, busy, env, bound);
      if number >= limit {
        ghost var mid := state;
        ReadableKept(world, was, mid, busy, env, bound, {range.low, range.high}, {range.high});
        limit := RangeValue(range.high, base, busy, env, bound);
        FrameTransitive(world, was, mid, state, busy, bound, {});
        if number <= limit {
          return val;
        }
      }
      text := if typ == Integer then FormatDecimal(limit) else FormatHex(limit);
    }

    method RangeCheck(s: Symbol, val: string, ghost busy: set<Symbol>, ghost env: Env, ghost bound: nat)
      returns (text: string)
      requires Valid(busy) && s in graph.info && (s.typ == Integer || s.typ == Hex)
      requires Readable(world, state, busy, env, bound, Operands(graph.info[s]))
      modifies this`state
      ensures Valid(busy) && Frame(world, old(state), state, busy, bound, {})
      ensures text == Validated(s, graph.info[s], val, env)
      decreases 2 * bound + 1, 3, 0
    {
      var ranges := graph.info[s].ranges;
      ghost var w, was, xs := world, state, Operands(graph.info[s]);
      var conditions := RangeConditions(ranges);
      RangeConditionsWithin(graph.info[s]);
      var k, condition := ActiveProperty(conditions, busy, env, bound, xs);
      assert world == w;
      RangeFound(s, graph.info[s], val, env, k);
      text := val;
      if k < |conditions| {
        BoundsAreOperands(graph.info[s], k);
        ghost var mid := state;
        ReadableKept(w, was, mid, busy, env, bound, xs, {ranges[k].low, ranges[k].high});
        text := ClampInto(s.typ, val, ranges[k], busy, env, bound);
        assert world == w;
        FrameTransitive(w, was, mid, state, busy, bound, {});
      }
    }

    /** sym_validate_range */
    method ValidateRange(s: Symbol, ghost busy: set<Symbol>, ghost env: Env, ghost bound: nat)
      requires Valid(busy) && s in graph.info && s in busy && !Untyped(s)
      requires Readable(world, state, busy, env, bound, Operands(graph.info[s]))
      modifies this`state
      ensures Valid(busy) && Frame(world, old(state), state, busy, bound, {s})
      ensures state[s].val == Validated(s, graph.info[s], old(state)[s].val, env)
      ensures Kept(0, old(state)[s].(val := state[s].val), state[s], world.plain[s], true, 1)
      decreases 2 * bound + 1, 4, 0
    {
      ghost var w := world;
      ghost var was := state;
      if s.typ != Integer && s.typ != Hex {
        FrameReflexive(w, was, busy, bound);
        FrameWeaken(w, was, was, busy, bound, bound, {}, {s});
        return;
      }
      assert Fine(w, was, busy, s);
      var text := RangeCheck(s, state[s].val, busy, env, bound);
      assert world == w;
      ghost var mid := state;
      assert KeptAt(w, was, mid, busy, bound, s) && Fine(w, mid, busy, s);
      FrameWeaken(w, was, mid, busy, bound, bound, {}, {s});
      Touch(w, mid, busy, s, mid[s].(val := text));
      state := state[s := state[s].(val := text)];
      FrameOfTouch(w, was, mid, state, busy, bound, s);
    }

    /** sym_choice_default, once the visibilities of the members are known. */
    method ChoiceDefaultOf(c: Symbol, ghost busy: set<Symbol>, ghost env: Env, ghost bound: nat)
      returns (pick: Option<Symbol>)
      requires Valid(busy) && c in graph.info && graph.info[c].kind.Choice?
      requires MembersSeen(world, state, c) && MembersKnown(world, c, env)
      requires Readable(world, state, busy, env, bound, DefaultConditionSymbols(graph.info[c].defaults))
      modifies this`state
      ensures Valid(busy) && Frame(world, old(state), state, busy, bound, {}) && MembersSeen(world, state, c)
      ensures pick == ChoiceDefault(graph, graph.info[c], env)
      decreases 2 * bound + 1, 2, 0
    {
      var ds, ms := graph.info[c].defaults, graph.info[c].kind.members;
      ghost var was := state;
      FrameReflexive(world, state, busy, bound);
      for k := 0 to |ds|
        invariant Valid(busy) && Frame(world, was, state, busy, bound, {}) && MembersSeen(world, state, c)
        invariant FirstVisibleDefault(graph, ds, env) == FirstVisibleDefault(graph, ds[k..], env)
      {
        ghost var mid := state;
        assert ds[k] in ds && ds[k..][0] == ds[k] && ds[k..][1..] == ds[k + 1..];
        ReadableKept(world, was, mid, busy, env, bound,
                     DefaultConditionSymbols(ds), SymbolsOfNullable(ds[k].condition));
        var tri := NullableValue(ds[k].condition, busy, env, bound);
        FrameTransitive(world, was, mid, state, busy, bound, {});
        DefaultFacts(world, c, ds[k]);
        MemberFacts(world, c, ds[k].value.sym);
        MembersStaySeen(world, mid, state, busy, bound, c);
        if tri != No && state[ds[k].value.sym].visible != No {
          return Some(ds[k].value.sym);
        }
      }
      pick := FirstVisibleMember(c, env);
    }

    /** The last resort of sym_choice_default: the first visible member. */
    method FirstVisibleMember(c: Symbol, ghost env: Env) returns (pick: Option<Symbol>)
      requires GoodWorld(world) && world.g == graph && state.Keys == graph.info.Keys
      requires c in graph.info && graph.info[c].kind.Choice?
      requires MembersSeen(world, state, c) && MembersKnown(world, c, env)
      ensures pick == FirstVisible(graph, graph.info[c].kind.members, env)
    {
      var ms := graph.info[c].kind.members;
      for k := 0 to |ms|
        invariant FirstVisible(graph, ms, env) == FirstVisible(graph, ms[k..], env)
      {
        assert ms[k] in ms && ms[k..][0] == ms[k] && ms[k..][1..] == ms[k + 1..];
        MemberFacts(world, c, ms[k]);
        if state[ms[k]].visible != No {
          return Some(ms[k]);
        }
      }
      pick := None;
    }

    /** One round of the first loop of sym_calc_choice. */
    method SeeMember(c: Symbol, m: Symbol, ghost busy: set<Symbol>, ghost env: Env)
      requires Valid(busy) && c in graph.info && graph.info[c].kind.Choice? && c in busy
      requires m in graph.info && m in graph.info[c].kind.members
      requires RankedFrom(world, busy, graph.rank[c]) && env == EnvOf(world)
      requires world.plain[c].visible == Yes && state[c].tri == Yes && state[c].val == "n"
      modifies this`state
      ensures Valid(busy) && Frame(world, old(state), state, busy, graph.rank[c], {})
      ensures state[m].visible == world.plain[m].visible
      decreases 2 * graph.rank[c] + 1, 5, 0
    {
      ghost var was := state;
      MemberFacts(world, c, m);
      assert Fine(world, was, busy, m) && Fine(world, was, busy, c);
      MemberReadable(world, was, busy, c, m, env);
      MemberSeen(world, c, m);
      CalcVisibility(m, busy, ChoiceIsYes(c, env), graph.rank[c]);
      FrameOfMember(world, was, state, busy, graph.rank[c], m);
    }

    /** The first loop of sym_calc_choice: the visibilities of all members. */
    method SeeMembers(c: Symbol, ghost busy: set<Symbol>, ghost env: Env) returns (allSet: bool)
      requires Valid(busy) && c in graph.info && graph.info[c].kind.Choice? && c in busy
      requires RankedFrom(world, busy, graph.rank[c]) && env == EnvOf(world)
      requires world.plain[c].visible == Yes && state[c].tri == Yes && state[c].val == "n"
      modifies this`state
      ensures Valid(busy) && Frame(world, old(state), state, busy, graph.rank[c], {})
      ensures MembersSeen(world, state, c)
      decreases 2 * graph.rank[c] + 1, 6, 0
    {
      var ms := graph.info[c].kind.members;
      ghost var bound := graph.rank[c];
      ghost var was := state;
      FrameReflexive(world, was, busy, bound);
      allSet := true;
      for k := 0 to |ms|
        invariant Valid(busy) && Frame(world, was, state, busy, bound, {})
        invariant SeenUpTo(world, state, ms[..k])
      {
        ghost var mid := state;
        assert ms[k] in ms;
        MemberFacts(world, c, ms[k]);
        assert KeptAt(world, was, mid, busy, bound, c);
        SeeMember(c, ms[k], busy, env);
        FrameTransitive(world, was, mid, state, busy, bound, {});
        SeenOneMore(world, mid, state, busy, bound, ms, k);
        allSet := allSet && (state[ms[k]].visible == No || state[ms[k]].user.given);
      }
      assert ms[..|ms|] == ms;
    }

    /** The user's pick if it is visible, else the default. */
    method PickMember(c: Symbol, ghost busy: set<Symbol>, ghost env: Env) returns (pick: Option<Symbol>)
      requires Valid(busy) && c in graph.info && graph.info[c].kind.Choice?
      requires RankedFrom(world, busy, graph.rank[c]) && env == EnvOf(world)
      requires world.plain[c].visible == Yes && MembersSeen(world, state, c)
      modifies this`state
      ensures Valid(busy) && Frame(world, old(state), state, busy, graph.rank[c], {})
      ensures MembersSeen(world, state, c)
      ensures pick == ChoicePick(graph, graph.info[c], world.u[c], ChoiceIsYes(c, env))
      decreases 2 * graph.rank[c] + 1, 5, 0
    {
      ChoiceFacts(world, c);
      ChoiceKnows(world, c, env);
      assert Fine(world, state, busy, c);
      pick := state[c].user.pick;
      if pick.Some? {
        MemberFacts(world, c, pick.value);
      }
      if pick.Some? && state[pick.value].visible != No {
        FrameReflexive(world, state, busy, graph.rank[c]);
        return;
      }
      ChoiceReadable(world, state, busy, c, env);
      pick := ChoiceDefaultOf(c, busy, ChoiceIsYes(c, env), graph.rank[c]);
    }

    /** sym_calc_choice, for a choice that is y. */
    method CalcChoice(c: Symbol, ghost busy: set<Symbol>, ghost env: Env) returns (pick: Option<Symbol>)
      requires Valid(busy) && c in graph.info && graph.info[c].kind.Choice? && c in busy
      requires RankedFrom(world, busy, graph.rank[c]) && env == EnvOf(world)
      requires world.plain[c].visible == Yes && state[c].tri == Yes && state[c].val == "n"
      modifies this`state
      ensures Valid(busy) && Frame(world, old(state), state, busy, graph.rank[c], {c})
      ensures MembersSeen(world, state, c)
      ensures pick == ChoicePick(graph, graph.info[c], world.u[c], ChoiceIsYes(c, env))
      ensures Kept(0, old(state)[c].(tri := if pick.Some? then Yes else No), state[c], world.plain[c], true, 1)
      decreases 2 * graph.rank[c] + 1, 8, 0
    {
      ghost var w, bound, was := world, graph.rank[c], state;
      ChoiceFacts(w, c);
      pick := FlagAndPick(c, busy, env);
      ghost var last := state;
      assert world == w;
      if pick.Some? {
        return;
      }
      StoreChoice(w, was, last, busy, bound, c, last[c].(tri := No));
      state := state[c := state[c].(tri := No)];
    }

    method FlagAndPick(c: Symbol, ghost busy: set<Symbol>, ghost env: Env) returns (pick: Option<Symbol>)
      requires Valid(busy) && c in graph.info && graph.info[c].kind.Choice? && c in busy
      requires RankedFrom(world, busy, graph.rank[c]) && env == EnvOf(world)
      requires world.plain[c].visible == Yes && state[c].tri == Yes && state[c].val == "n"
      modifies this`state
      ensures Valid(busy) && Frame(world, old(state), state, busy, graph.rank[c], {c})
      ensures MembersSeen(world, state, c)
      ensures pick == ChoicePick(graph, graph.info[c], world.u[c], ChoiceIsYes(c, env))
      ensures Kept(0, old(state)[c], state[c], world.plain[c], true, 1)
      decreases 2 * graph.rank[c] + 1, 7, 1
    {
      ghost var w, bound, was := world, graph.rank[c], state;
      FlagChoice(c, busy, env);
      ghost var flagged := state;
      assert world == w;
      pick := PickMember(c, busy, env);
      ghost var last := state;
      assert world == w;
      Picked(w, was, flagged, last, busy, bound, c);
    }

    /** The visibilities of the members, and the user flag of the choice. */
    method FlagChoice(c: Symbol, ghost busy: set<Symbol>, ghost env: Env)
      requires Valid(busy) && c in graph.info && graph.info[c].kind.Choice? && c in busy
      requires RankedFrom(world, busy, graph.rank[c]) && env == EnvOf(world)
      requires world.plain[c].visible == Yes && state[c].tri == Yes && state[c].val == "n"
      modifies this`state
      ensures Valid(busy) && Frame(world, old(state), state, busy, graph.rank[c], {c})
      ensures MembersSeen(world, state, c)
      ensures Kept(0, old(state)[c], state[c], world.plain[c], true, 1)
      decreases 2 * graph.rank[c] + 1, 7, 0
    {
      ghost var w, bound, was := world, graph.rank[c], state;
      ChoiceFacts(w, c);
      var allSet := SeeMembers(c, busy, env);
      ghost var seen := state;
      assert world == w;
      ChoiceKept(w, was, seen, busy, bound, c);
      var user := state[c].user;
      StoreChoice(w, was, seen, busy, bound, c, seen[c].(user := user.(given := user.given && allSet)));
      state := state[c := state[c].(user := user.(given := user.given && allSet))];
    }

    /** sym_calc_visibility for the symbol under way. */
    method SeeSelf(s: Symbol, ghost busy: set<Symbol>, ghost env: Env)
      requires Valid(busy) && s in graph.info && s in busy && !Untyped(s)
      requires RankedFrom(world, busy, graph.rank[s]) && env == EnvOf(world)
      modifies this`state
      ensures Valid(busy) && Frame(world, old(state), state, busy, graph.rank[s], {s})
      ensures state[s].valid && state[s].visible == world.plain[s].visible && SameDependencies(state[s], world.plain[s])
      ensures graph.info[s].kind.Member? ==> Evaluated(state, PromptSymbols(graph.info[s].prompts))
      decreases 2 * graph.rank[s] + 1, 7, 0
    {
      OperandsReadable(world, state, busy, s, env);
      ghost var xs := Operands(graph.info[s]);
      ReadableSubset(world, state, busy, env, graph.rank[s], xs, PromptSymbols(graph.info[s].prompts));
      ReadableSubset(world, state, busy, env, graph.rank[s], xs, DependencySymbols(graph.info[s]));
      PlainFacts(world, s, env);
      assert Fine(world, state, busy, s);
      CalcVisibility(s, busy, env, graph.rank[s]);
      assert Fine(world, state, busy, s);
    }

    /** The first part of sym_calc_value: SYMBOL_WRITE, the visibility, and the value that the
        symbol shows while its calculation is under way. */
    method Prepare(s: Symbol, ghost busy: set<Symbol>, ghost env: Env)
      requires Valid(busy) && s in graph.info && s in busy && !Untyped(s)
      requires RankedFrom(world, busy, graph.rank[s]) && env == EnvOf(world)
      modifies this`state
      ensures Valid(busy) && Frame(world, old(state), state, busy, graph.rank[s], {s})
      ensures Prepared(world, state, s)
      ensures graph.info[s].kind.Member? ==> Evaluated(state, PromptSymbols(graph.info[s].prompts))
      decreases 2 * graph.rank[s] + 1, 8, 0
    {
      ghost var w := world;
      ghost var was := state;
      assert Fine(w, was, busy, s);
      NothingYet(w, was, busy, s);
      StoreUnderWay(w, was, was, busy, s, was[s].(write := false));
      state := state[s := state[s].(write := false)];
      ghost var cleared := state;
      SeeSelf(s, busy, env);
      assert world == w;
      FrameTransitive(w, was, cleared, state, busy, graph.rank[s], {s});
      ghost var seen := state;
      var shown := state[s].(write := state[s].visible != No, tri := No, pick := None,
                             val := if s.typ == Boolean || s.typ == TristateType then "n" else "");
      StoreUnderWay(w, was, seen, busy, s, shown);
      state := state[s := shown];
    }

    /** The value of a bool or tristate symbol outside of choices. */
    method CalcPlainTristate(s: Symbol, ghost busy: set<Symbol>, ghost env: Env)
      requires Valid(busy) && s in graph.info && s in busy && (s.typ == Boolean || s.typ == TristateType)
      requires RankedFrom(world, busy, graph.rank[s]) && env == EnvOf(world)
      requires graph.info[s].kind.Plain? && Prepared(world, state, s)
      modifies this`state
      ensures Valid(busy) && Frame(world, old(state), state, busy, graph.rank[s], {s})
      ensures Calculates(graph.info[s], state[s], world.plain[s])
      decreases 2 * graph.rank[s] + 1, 7, 0
    {
      ghost var w, was, bound := world, state, graph.rank[s];
      assert Fine(w, was, busy, s);
      PlainFacts(w, s, env);
      PlainEquation(w, s);
      OperandsReadable(w, was, busy, s, env);
      var tri := NewTristate(s, busy, env, bound);
      assert world == w;
      ghost var mid := state;
      StoreUnderWay(w, was, mid, busy, s, mid[s].(tri := tri));
      state := state[s := state[s].(tri := tri)];
    }

    /** The value of an int, hex or string symbol. */
    method CalcPlainString(s: Symbol, ghost busy: set<Symbol>, ghost env: Env)
      requires Valid(busy) && s in graph.info && s in busy && !Untyped(s) && s.typ != Boolean && s.typ != TristateType
      requires RankedFrom(world, busy, graph.rank[s]) && env == EnvOf(world)
      requires graph.info[s].kind.Plain? && Prepared(world, state, s)
      modifies this`state
      ensures Valid(busy) && Frame(world, old(state), state, busy, graph.rank[s], {s})
      ensures Calculates(graph.info[s], state[s], world.plain[s])
      decreases 2 * graph.rank[s] + 1, 7, 0
    {
      ghost var w, was, bound := world, state, graph.rank[s];
      assert Fine(w, was, busy, s);
      PlainFacts(w, s, env);
      PlainEquation(w, s);
      OperandsReadable(w, was, busy, s, env);
      var val := NewString(s, busy, env, bound);
      assert world == w;
      ghost var mid := state;
      StoreUnderWay(w, was, mid, busy, s, mid[s].(val := val));
      state := state[s := state[s].(val := val)];
      ghost var stored := state;
      OperandsReadable(w, stored, busy, s, env);
      ValidateRange(s, busy, env, bound);
      assert world == w;
      FrameTransitive(w, was, stored, state, busy, bound, {s});
    }

    /** The rest of sym_calc_value for a symbol outside of choices. */
    method CalcPlain(s: Symbol, ghost busy: set<Symbol>, ghost env: Env)
      requires Valid(busy) && s in graph.info && s in busy && !Untyped(s)
      requires RankedFrom(world, busy, graph.rank[s]) && env == EnvOf(world)
      requires graph.info[s].kind.Plain? && Prepared(world, state, s)
      modifies this`state
      ensures Valid(busy) && Frame(world, old(state), state, busy, graph.rank[s], {s})
      ensures Settled(world, state, s) && state[s].write == world.plain[s].write
      decreases 2 * graph.rank[s] + 1, 8, 0
    {
      ghost var w, was, bound := world, state, graph.rank[s];
      assert Fine(w, was, busy, s);
      if s.typ == Boolean || s.typ == TristateType {
        CalcPlainTristate(s, busy, env);
      } else {
        CalcPlainString(s, busy, env);
      }
      assert world == w;
      if graph.info[s].auto {
        ghost var last := state;
        assert Fine(w, last, busy, s);
        StoreUnderWay(w, was, last, busy, s, last[s].(write := false));
        state := state[s := state[s].(write := false)];
      }
    }

    /** The value of a member of a choice. */
    method MemberTristate(s: Symbol, ghost busy: set<Symbol>, ghost env: Env) returns (tri: Tristate)
      requires Valid(busy) && s in graph.info && s in busy && !Untyped(s)
      requires RankedFrom(world, busy, graph.rank[s]) && env == EnvOf(world)
      requires graph.info[s].kind.Member? && Prepared(world, state, s)
      requires Evaluated(state, PromptSymbols(graph.info[s].prompts))
      modifies this`state
      ensures Valid(busy) && Frame(world, old(state), state, busy, graph.rank[s], {s})
      ensures tri == world.plain[s].tri && state[s].write == world.plain[s].write
      ensures state[s] == old(state)[s].(write := state[s].write, user := state[s].user)
      decreases 2 * graph.rank[s] + 1, 7, 0
    {
      assert Fine(world, state, busy, s);
      MemberEquation(world, s);
      ChoiceOfVisible(world, state, busy, s);
      if state[s].visible == Yes {
        NothingYet(world, state, busy, s);
        tri := FromBool(state[graph.info[s].kind.choice].pick == Some(s));
      } else {
        OperandsReadable(world, state, busy, s, env);
        tri := NewTristate(s, busy, env, graph.rank[s]);
      }
    }

    /** The rest of sym_calc_value for a member of a choice. */
    method CalcMember(s: Symbol, ghost busy: set<Symbol>, ghost env: Env)
      requires Valid(busy) && s in graph.info && s in busy && !Untyped(s)
      requires RankedFrom(world, busy, graph.rank[s]) && env == EnvOf(world)
      requires graph.info[s].kind.Member? && Prepared(world, state, s)
      requires Evaluated(state, PromptSymbols(graph.info[s].prompts))
      modifies this`state
      ensures Valid(busy) && Frame(world, old(state), state, busy, graph.rank[s], {s})
      ensures Settled(world, state, s) && state[s].write == world.plain[s].write
      decreases 2 * graph.rank[s] + 1, 8, 0
    {
      ghost var w := world;
      ghost var was := state;
      MemberEquation(w, s);
      ChoiceOfVisible(w, was, busy, s);
      var tri := MemberTristate(s, busy, env);
      assert world == w;
      ghost var mid := state;
      StoreUnderWay(w, was, mid, busy, s, mid[s].(tri := tri));
      state := state[s := state[s].(tri := tri)];
      ChoiceStaysValid(w, was, state, busy, s);
    }

    /** What sym_calc_value does to the members of a choice at the end. */
    method MarkMembers(c: Symbol, ghost busy: set<Symbol>)
      requires Valid(busy) && c in graph.info && graph.info[c].kind.Choice? && c in busy
      requires RankedFrom(world, busy, graph.rank[c]) && NoneFinished(world, state, busy, c)
      requires state[c].write ==> MembersSeen(world, state, c)
      modifies this`state
      ensures Valid(busy) && Frame(world, old(state), state, busy, graph.rank[c], {})
      ensures state[c] == old(state)[c]
      ensures old(MembersSeen(world, state, c)) ==> MembersSeen(world, state, c)
    {
      var ms := graph.info[c].kind.members;
      ghost var bound := graph.rank[c];
      ghost var was := state;
      FrameReflexive(world, was, busy, bound);
      for k := 0 to |ms|
        invariant Valid(busy) && Frame(world, was, state, busy, bound, {})
        invariant state[c] == was[c]
        invariant NoneFinished(world, state, busy, c)
        invariant state[c].write ==> MembersSeen(world, state, c)
        invariant MembersSeen(world, was, c) ==> MembersSeen(world, state, c)
      {
        assert ms[k] in ms;
        MemberFacts(world, c, ms[k]);
        if state[c].write && state[ms[k]].visible != No {
          ghost var mid := state;
          MarkMember(world, was, mid, busy, bound, c, ms[k]);
          state := state[ms[k] := state[ms[k]].(write := true)];
        }
      }
    }

    /** The mode of a choice: whether it is y. */
    method ChoiceMode(s: Symbol, ghost busy: set<Symbol>, ghost env: Env)
      requires Valid(busy) && s in graph.info && s in busy && !Untyped(s)
      requires RankedFrom(world, busy, graph.rank[s]) && env == EnvOf(world)
      requires graph.info[s].kind.Choice? && Prepared(world, state, s)
      modifies this`state
      ensures Valid(busy) && Frame(world, old(state), state, busy, graph.rank[s], {s})
      ensures state[s].tri == world.plain[s].visible && state[s].write == (world.plain[s].visible == Yes)
      ensures state[s] == old(state)[s].(tri := state[s].tri, write := state[s].write, user := state[s].user)
      decreases 2 * graph.rank[s] + 1, 6, 0
    {
      ghost var w := world;
      ghost var was := state;
      assert Fine(w, was, busy, s);
      ChoiceResult(w, s, env, state[s].user);
      OperandsReadable(w, was, busy, s, env);
      PlainFacts(w, s, env);
      var tri := NewTristate(s, busy, env, graph.rank[s]);
      assert world == w;
      ghost var mid := state;
      StoreUnderWay(w, was, mid, busy, s, mid[s].(tri := tri));
      state := state[s := state[s].(tri := tri)];
    }

    /** The picked member of a choice that is y. */
    method ChoiceMember(s: Symbol, ghost busy: set<Symbol>, ghost env: Env)
      requires Valid(busy) && s in graph.info && s in busy && !Untyped(s)
      requires RankedFrom(world, busy, graph.rank[s]) && env == EnvOf(world)
      requires graph.info[s].kind.Choice? && world.plain[s].visible == Yes
      requires state[s].write && Matches(state[s], world.plain[s].(tri := Yes, pick := None))
      modifies this`state
      ensures Valid(busy) && Frame(world, old(state), state, busy, graph.rank[s], {s})
      ensures Matches(state[s], world.plain[s]) && state[s].write && MembersSeen(world, state, s)
      decreases 2 * graph.rank[s] + 1, 9, 0
    {
      ghost var w := world;
      ghost var was := state;
      ChoiceResult(w, s, env, w.u[s]);
      assert Fine(w, was, busy, s);
      var pick := CalcChoice(s, busy, env);
      assert world == w;
      ghost var picked := state;
      assert Fine(w, picked, busy, s);
      StoreUnderWay(w, was, picked, busy, s, picked[s].(pick := pick));
      state := state[s := state[s].(pick := pick)];
    }

    /** The mode and the pick of a choice, and the flags of its members. */
    method CalcPick(s: Symbol, ghost busy: set<Symbol>, ghost env: Env)
      requires Valid(busy) && s in graph.info && s in busy && !Untyped(s)
      requires RankedFrom(world, busy, graph.rank[s]) && env == EnvOf(world)
      requires graph.info[s].kind.Choice? && Prepared(world, state, s)
      requires NoneFinished(world, state, busy, s)
      modifies this`state
      ensures Valid(busy) && Frame(world, old(state), state, busy, graph.rank[s], {s})
      ensures Settled(world, state, s) && state[s].write == (world.plain[s].visible == Yes)
      decreases 2 * graph.rank[s] + 1, 10, 0
    {
      ghost var w := world;
      ghost var was := state;
      ghost var bound := graph.rank[s];
      ChoiceResult(w, s, env, w.u[s]);
      ChoiceMode(s, busy, env);
      assert world == w;
      ghost var valued := state;
      if state[s].tri == Yes {
        ChoiceMember(s, busy, env);
        assert world == w;
        FrameTransitive(w, was, valued, state, busy, bound, {s});
      }
      ghost var done := state;
      NoneFinishedKept(w, was, done, busy, bound, s);
      MarkMembers(s, busy);
      assert world == w;
      FrameWeaken(w, done, state, busy, bound, bound, {}, {s});
      FrameTransitive(w, was, done, state, busy, bound, {s});
    }

    /** The rest of sym_calc_value for a choice. Every choice of a Kconfig file has SYMBOL_AUTO. */
    method CalcChoiceSymbol(s: Symbol, ghost busy: set<Symbol>, ghost env: Env)
      requires Valid(busy) && s in graph.info && s in busy && !Untyped(s)
      requires RankedFrom(world, busy, graph.rank[s]) && env == EnvOf(world)
      requires graph.info[s].kind.Choice? && Prepared(world, state, s)
      requires NoneFinished(world, state, busy, s)
      modifies this`state
      ensures Valid(busy) && Frame(world, old(state), state, busy, graph.rank[s], {s})
      ensures Settled(world, state, s) && state[s].write == world.plain[s].write
      decreases 2 * graph.rank[s] + 1, 10, 1
    {
      ghost var w, was := world, state;
      ChoiceResult(w, s, env, w.u[s]);
      CalcPick(s, busy, env);
      assert world == w;
      if graph.info[s].auto {
        ghost var last := state;
        assert Fine(w, last, busy, s);
        StoreUnderWay(w, was, last, busy, s, last[s].(write := false));
        state := state[s := state[s].(write := false)];
      }
    }

    /** sym_calc_value, called for a symbol of a rank below `bound` or for one whose calculation
        is under way. */
    method CalcValue(s: Symbol, ghost busy: set<Symbol>, ghost bound: nat)
      requires Valid(busy) && s in graph.info
      requires RankedFrom(world, busy, bound) && (s !in busy ==> graph.rank[s] < bound)
      modifies this`state
      ensures Valid(busy) && Frame(world, old(state), state, busy, bound, {})
      ensures state[s].valid
      decreases if state[s].valid then 0 else 2 * graph.rank[s] + 2, 0, 0
    {
      assert Fine(world, state, busy, s);
      if state[s].valid {
        FrameReflexive(world, state, busy, bound);
        return;
      }
      ghost var was := state;
      ghost var env, busy' := EnvOf(world), busy + {s};
      Begin(world, was, busy, s, was[s].(valid := true));
      state := state[s := state[s].(valid := true)];
      ghost var begun := state;
      assert Fine(world, begun, busy', s);
      if Untyped(s) {
        UntypedEquation(world, s);
        Touch(world, begun, busy', s, begun[s].(val := graph.info[s].name, tri := No));
        state := state[s := state[s].(val := graph.info[s].name, tri := No)];
        NothingYet(world, begun, busy', s);
        FrameOfTouch(world, begun, begun, state, busy', graph.rank[s], s);
        assert Settled(world, state, s) && state[s].write == world.plain[s].write;
      } else {
        if graph.info[s].kind.Choice? {
          NoneFinishedFirst(world, was, busy, s);
        }
        Calc(s, busy', env);
      }
      assert Fine(world, state, busy', s);
      Finish(world, state, busy, s);
      FrameOfCalculation(world, was, begun, state, busy, bound, s);
    }

    /** sym_calc_value after SYMBOL_VALID has been set. */
    method Calc(s: Symbol, ghost busy: set<Symbol>, ghost env: Env)
      requires Valid(busy) && s in graph.info && s in busy && !Untyped(s)
      requires RankedFrom(world, busy, graph.rank[s]) && env == EnvOf(world)
      requires graph.info[s].kind.Choice? ==> NoneFinished(world, state, busy, s)
      modifies this`state
      ensures Valid(busy) && Frame(world, old(state), state, busy, graph.rank[s], {s})
      ensures Settled(world, state, s) && state[s].write == world.plain[s].write
      decreases 2 * graph.rank[s] + 1, 11, 0
    {
      ghost var was := state;
      Prepare(s, busy, env);
      ghost var prepared := state;
      match graph.info[s].kind
      case Plain =>
        CalcPlain(s, busy, env);
        FrameTransitive(world, was, prepared, state, busy, graph.rank[s], {s});
      case Member(_) =>
        CalcMember(s, busy, env);
        FrameTransitive(world, was, prepared, state, busy, graph.rank[s], {s});
      case Choice(_) =>
        NoneFinishedKept(world, was, prepared, busy, graph.rank[s], s);
        CalcChoiceSymbol(s, busy, env);
        FrameTransitive(world, was, prepared, state, busy, graph.rank[s], {s});
    }
  }

  /** A symbol can still be read later, and has its value as soon as it is valid. */
  lemma KeptValue(w: World, a: State, b: State, busy: set<Symbol>, env: Env, bound: nat, x: Symbol)
    requires Consistent(w, b, busy) && Frame(w, a, b, busy, bound, {}) && CanRead(w, a, busy, env, bound, x)
    ensures CanRead(w, b, busy, env, bound, x)
    ensures a[x].valid ==> b[x].valid
    ensures b[x].valid ==> b[x].tri == env.tri(x) && b[x].val == env.val(x)
  {
    assert KeptAt(w, a, b, busy, bound, x) && Fine(w, b, busy, x);
  }

  /** The value is the plain one, SYMBOL_AUTO aside. */
  predicate Calculates(i: Info, c: Cell, r: Calculated) {
    Matches(c, r) && r.write == (!i.auto && c.write)
  }

  /** A symbol under way keeps its own fields while others are calculated. */
  lemma UnderWayKept(w: World, a: State, b: State, busy: set<Symbol>, bound: nat, s: Symbol)
    requires Consistent(w, a, busy) && Consistent(w, b, busy) && Frame(w, a, b, busy, bound, {})
    requires s in w.g.info && s in busy && a[s].visible == w.plain[s].visible
    requires a[s].write || w.plain[s].visible == No
    ensures b[s] == a[s].(user := b[s].user) && Frame(w, a, b, busy, bound, {s})
  {
    assert KeptAt(w, a, b, busy, bound, s) && Fine(w, a, busy, s) && Fine(w, b, busy, s);
    FrameWeaken(w, a, b, busy, bound, bound, {}, {s});
  }

  lemma OwnTouch(w: World, a: State, b: State, busy: set<Symbol>, bound: nat, s: Symbol)
    requires GoodWorld(w) && a.Keys == w.g.info.Keys && s in a && s in b && b == a[s := b[s]]
    ensures Frame(w, a, b, busy, bound, {s})
  {
    FrameReflexive(w, a, busy, bound);
    FrameWeaken(w, a, a, busy, bound, bound, {}, {s});
    FrameOfTouch(w, a, a, b, busy, bound, s);
  }

  lemma SourceFound(i: Info, env: Env, k: nat)
    requires k == FirstActive(DefaultConditions(i.defaults), env) && !i.kind.Choice?
    ensures DefaultSource(i, env) ==
      if k < |i.defaults| && i.defaults[k].value.Sym? then Some(i.defaults[k].value.sym) else None
    ensures k < |i.defaults| && i.defaults[k].value.Sym? ==> i.defaults[k].value.sym in Operands(i)
  {
    if k < |i.defaults| && i.defaults[k].value.Sym? {
      var x := i.defaults[k].value.sym;
      assert i.defaults[k] in i.defaults && x in SymbolsOf(i.defaults[k].value);
      assert x in DefaultValueSymbols(i.defaults);
    }
  }

  lemma RangeFound(s: Symbol, i: Info, val: string, env: Env, k: nat)
    requires k == FirstActive(RangeConditions(i.ranges), env) && (s.typ == Integer || s.typ == Hex)
    ensures Validated(s, i, val, env) ==
      if k < |i.ranges|
      then Clamp(s.typ, val, BoundValue(i.ranges[k].low, RangeBase(s.typ), env),
                 BoundValue(i.ranges[k].high, RangeBase(s.typ), env))
      else val
  {
    assert ActiveRange(i.ranges, env) == if k < |i.ranges| then Some(i.ranges[k]) else None;
  }

  lemma BoundsAreOperands(i: Info, k: nat)
    requires k < |i.ranges|
    ensures i.ranges[k].low in Operands(i) && i.ranges[k].high in Operands(i)
  {
    assert i.ranges[k] in i.ranges && i.ranges[k].low in RangeBounds(i.ranges);
    assert i.ranges[k].high in RangeBounds(i.ranges);
  }

  /** A symbol that shows its initial value, with its visibility and its dependencies known. */
  predicate Prepared(w: World, st: State, s: Symbol) {
    && s in w.g.info && s in st && s in w.plain
    && var c := st[s];
    && c.valid && c.write == (c.visible != No) && c.tri == No && c.pick == None
    && c.val == (if s.typ == Boolean || s.typ == TristateType then "n" else "")
    && c.visible == w.plain[s].visible && SameDependencies(c, w.plain[s])
  }

  /** A symbol under way changes its own fields. */
  lemma StoreUnderWay(w: World, a: State, b: State, busy: set<Symbol>, s: Symbol, cell: Cell)
    requires Consistent(w, b, busy) && s in w.g.info && s in busy && !Untyped(s)
    requires Frame(w, a, b, busy, w.g.rank[s], {s})
    requires cell.valid && cell.user == b[s].user && cell.visible == b[s].visible
    requires cell.dirDep == b[s].dirDep && cell.revDep == b[s].revDep && cell.implied == b[s].implied
    ensures Consistent(w, b[s := cell], busy) && Frame(w, a, b[s := cell], busy, w.g.rank[s], {s})
  {
    assert Fine(w, b, busy, s);
    Touch(w, b, busy, s, cell);
    FrameOfTouch(w, a, b, b[s := cell], busy, w.g.rank[s], s);
  }

  lemma NothingYet(w: World, a: State, busy: set<Symbol>, s: Symbol)
    requires GoodWorld(w) && a.Keys == w.g.info.Keys && s in w.g.info
    ensures Frame(w, a, a, busy, w.g.rank[s], {s})
  {
  }

  /** No visible member of the choice is finished: its calculation has to wait for the choice. */
  predicate NoneFinished(w: World, st: State, busy: set<Symbol>, c: Symbol)
    requires c in w.g.info && w.g.info[c].kind.Choice?
  {
    forall m :: m in w.g.info[c].kind.members && m in st && m !in busy && st[m].valid ==> st[m].visible == No
  }

  lemma NoneFinishedKept(w: World, a: State, b: State, busy: set<Symbol>, bound: nat, c: Symbol)
    requires GoodWorld(w) && c in w.g.info && w.g.info[c].kind.Choice? && bound <= w.g.rank[c]
    requires NoneFinished(w, a, busy, c) && Frame(w, a, b, busy, bound, {c})
    ensures NoneFinished(w, b, busy, c)
  {
    forall m | m in w.g.info[c].kind.members && m in b && m !in busy && b[m].valid
      ensures b[m].visible == No
    {
      MemberFacts(w, c, m);
      assert KeptAt(w, a, b, busy, bound, m);
    }
  }

  lemma NoneFinishedFirst(w: World, st: State, busy: set<Symbol>, c: Symbol)
    requires Consistent(w, st, busy) && c in w.g.info && w.g.info[c].kind.Choice? && !st[c].valid
    ensures NoneFinished(w, st, busy, c)
  {
    forall m | m in w.g.info[c].kind.members && m in st && m !in busy && st[m].valid
      ensures st[m].visible == No
    {
      MemberFacts(w, c, m);
      assert Fine(w, st, busy, m);
    }
  }

  lemma MarkMember(w: World, a: State, b: State, busy: set<Symbol>, bound: nat, c: Symbol, m: Symbol)
    requires Consistent(w, b, busy) && Frame(w, a, b, busy, bound, {})
    requires c in w.g.info && w.g.info[c].kind.Choice? && m in w.g.info[c].kind.members && m in w.g.info
    requires NoneFinished(w, b, busy, c) && MembersSeen(w, b, c) && b[m].visible != No
    ensures var b' := b[m := b[m].(write := true)];
      && Consistent(w, b', busy) && Frame(w, a, b', busy, bound, {})
      && NoneFinished(w, b', busy, c) && MembersSeen(w, b', c) && m != c
  {
    MemberFacts(w, c, m);
    assert Fine(w, b, busy, m);
    var b' := b[m := b[m].(write := true)];
    Touch(w, b, busy, m, b[m].(write := true));
    forall t | t in w.g.info
      ensures KeptAt(w, a, b', busy, bound, t)
    {
      assert KeptAt(w, a, b, busy, bound, t);
    }
  }

  lemma ChoiceStaysValid(w: World, a: State, b: State, busy: set<Symbol>, s: Symbol)
    requires GoodWorld(w) && s in w.g.info && w.g.info[s].kind.Member? && Frame(w, a, b, busy, w.g.rank[s], {s})
    ensures w.g.info[s].kind.choice in a && w.g.info[s].kind.choice in b
    ensures a[w.g.info[s].kind.choice].valid ==> b[w.g.info[s].kind.choice].valid
  {
    MemberEquation(w, s);
    assert KeptAt(w, a, b, busy, w.g.rank[s], w.g.info[s].kind.choice);
  }

  /** The value of a mandatory choice does not depend on its user flag. */
  lemma ChoiceResult(w: World, c: Symbol, env: Env, user: UserValue)
    requires GoodWorld(w) && c in w.g.info && w.g.info[c].kind.Choice? && env == EnvOf(w)
    ensures c.typ == Boolean
    ensures TristateResult(w.g, c, w.g.info[c], user, env) == w.plain[c].visible != Mod
    ensures TristateWritten(w.g, c, w.g.info[c], env) == (w.plain[c].visible == Yes)
    ensures w.plain[c].write == (!w.g.info[c].auto && w.plain[c].visible == Yes)
    ensures var r := w.plain[c];
      && r.pick == (if r.visible == Yes then ChoicePick(w.g, w.g.info[c], w.u[c], ChoiceIsYes(c, env)) else None)
      && r.tri == (if r.pick.Some? then Yes else No) && r.val == "n"
  {
    assert GoodSymbol(w.g, c);
    ChoiceEquation(w, c);
    EnvOfTyped(w);
    ConstantValues(env);
    MandatoryMode(w.g, c, w.g.info[c], user, env);
  }

  /** The visibility and the dependencies of a symbol are plain. */
  lemma PlainFacts(w: World, s: Symbol, env: Env)
    requires GoodWorld(w) && s in w.g.info && !Untyped(s) && env == EnvOf(w)
    ensures !IsTristateConstant(s)
    ensures Visibility(w.g, s, w.g.info[s], env) == w.plain[s].visible
    ensures
      if w.g.info[s].kind.Member? then w.plain[s].dirDep == No && w.plain[s].revDep == No && w.plain[s].implied == No
      else DependenciesArePlain(w, s, env)
  {
    match w.g.info[s].kind
    case Plain => PlainEquation(w, s);
    case Choice(_) => ChoiceEquation(w, s);
    case Member(_) => MemberEquation(w, s);
  }

  /** The choice of a visible member has been calculated with the member's prompt. */
  lemma ChoiceOfVisible(w: World, st: State, busy: set<Symbol>, s: Symbol)
    requires Consistent(w, st, busy) && s in w.g.info && w.g.info[s].kind.Member? && RankedFrom(w, busy, w.g.rank[s])
    requires Evaluated(st, PromptSymbols(w.g.info[s].prompts))
    ensures w.g.info[s].kind.choice in st && w.g.info[s].kind.choice in w.plain
    ensures w.plain[s].visible != No ==>
      st[w.g.info[s].kind.choice].valid && st[w.g.info[s].kind.choice].pick == w.plain[w.g.info[s].kind.choice].pick
  {
    MemberEquation(w, s);
    if w.plain[s].visible != No {
      ChoiceMentioned(w, s);
    }
    assert Fine(w, st, busy, w.g.info[s].kind.choice);
  }

  lemma ChoiceMentioned(w: World, s: Symbol)
    requires GoodWorld(w) && s in w.g.info && w.g.info[s].kind.Member? && w.plain[s].visible != No
    ensures w.g.info[s].kind.choice in PromptSymbols(w.g.info[s].prompts)
  {
    var c, ps := w.g.info[s].kind.choice, w.g.info[s].prompts;
    MemberEquation(w, s);
    var p := VisiblePrompt(ps, EnvOf(w));
    EnvOfTyped(w);
    BoolChoice(w, s);
    VisibleMentions(c, p, EnvOf(w));
    assert p in ps && c in SymbolsOfNullable(p);
  }

  lemma BoolChoice(w: World, m: Symbol)
    requires GoodWorld(w) && m in w.g.info && w.g.info[m].kind.Member?
    ensures var c := w.g.info[m].kind.choice; c.typ == Boolean && !IsTristateConstant(c)
    ensures forall p :: p in w.g.info[m].prompts ==> ChoicePrompt(w.g.info[m].kind.choice, p)
  {
    BoolChoiceOf(w.g, m);
  }

  lemma BoolChoiceOf(g: Graph, m: Symbol)
    requires WellFounded(g) && m in g.info && g.info[m].kind.Member?
    ensures var c := g.info[m].kind.choice; c.typ == Boolean && !IsTristateConstant(c)
    ensures forall p :: p in g.info[m].prompts ==> ChoicePrompt(g.info[m].kind.choice, p)
  {
    assert GoodSymbol(g, m) && GoodMember(g, m);
    assert GoodSymbol(g, g.info[m].kind.choice);
  }

  /** A prompt that is visible mentions the choice: otherwise it would be so while the choice is n. */
  lemma VisibleMentions(c: Symbol, p: Nullable, env: Env)
    requires c.typ == Boolean && !IsTristateConstant(c) && ChoicePrompt(c, p) && Typed(env)
    requires EvalNullable(p, env) != No
    ensures c in SymbolsOfNullable(p)
  {
    if c !in SymbolsOfNullable(p) {
      var off := env.(tri := (x: Symbol) => if x == c then No else env.tri(x));
      assert Typed(off) by {
        assert forall t :: off.tri(TristateSymbol(t)) == env.tri(TristateSymbol(t));
      }
      NullableAgree(p, env, off);
    }
  }

  /** What a choice knows statically. */
  lemma ChoiceFacts(w: World, c: Symbol)
    requires GoodWorld(w) && c in w.g.info && w.g.info[c].kind.Choice?
    ensures c.typ == Boolean && !IsTristateConstant(c) && PicksMember(w.g.info[c], w.u[c])
  {
    assert GoodSymbol(w.g, c);
    assert PicksMember(w.g.info[c], w.u[c]);
  }

  lemma MemberFacts(w: World, c: Symbol, m: Symbol)
    requires GoodWorld(w) && c in w.g.info && w.g.info[c].kind.Choice? && m in w.g.info[c].kind.members
    ensures m in w.g.info && m in w.plain && w.g.info[m].kind == Member(c) && m.typ == Boolean
    ensures m != c && w.g.rank[c] < w.g.rank[m] && !w.g.info[m].auto
  {
    MembersAreGood(w.g, c);
  }

  lemma DefaultFacts(w: World, c: Symbol, d: Default)
    requires GoodWorld(w) && c in w.g.info && w.g.info[c].kind.Choice? && d in w.g.info[c].defaults
    ensures d.value.Sym? && d.value.sym in w.g.info[c].kind.members
  {
    assert GoodSymbol(w.g, c);
  }

  /** The members that are visible to a choice under `env` are those that are visible at all. */
  predicate MembersKnown(w: World, c: Symbol, env: Env)
    requires c in w.g.info && w.g.info[c].kind.Choice?
  {
    forall m :: m in w.g.info[c].kind.members && m in w.plain ==>
      MemberVisible(w.g, m, env) == (w.plain[m].visible != No)
  }

  lemma ChoiceKnows(w: World, c: Symbol, env: Env)
    requires GoodWorld(w) && c in w.g.info && w.g.info[c].kind.Choice?
    requires w.plain[c].visible == Yes && env == EnvOf(w)
    ensures MembersKnown(w, c, ChoiceIsYes(c, env))
  {
    forall m | m in w.g.info[c].kind.members && m in w.plain
      ensures MemberVisible(w.g, m, ChoiceIsYes(c, env)) == (w.plain[m].visible != No)
    {
      MemberSeen(w, c, m);
    }
  }

  predicate SeenUpTo(w: World, st: State, ms: seq<Symbol>) {
    forall m :: m in ms && m in st && m in w.plain ==> st[m].visible == w.plain[m].visible
  }

  lemma SeenOneMore(w: World, a: State, b: State, busy: set<Symbol>, bound: nat, ms: seq<Symbol>, k: nat)
    requires k < |ms| && SeenUpTo(w, a, ms[..k]) && Frame(w, a, b, busy, bound, {})
    requires ms[k] in b && ms[k] in w.plain && b[ms[k]].visible == w.plain[ms[k]].visible
    ensures SeenUpTo(w, b, ms[..k + 1])
  {
    assert ms[..k + 1] == ms[..k] + [ms[k]];
    forall m | m in ms[..k + 1] && m in b && m in w.plain
      ensures b[m].visible == w.plain[m].visible
    {
      assert KeptAt(w, a, b, busy, bound, m);
    }
  }

  lemma MembersStaySeen(w: World, a: State, b: State, busy: set<Symbol>, bound: nat, c: Symbol)
    requires c in w.g.info && w.g.info[c].kind.Choice?
    requires MembersSeen(w, a, c) && Frame(w, a, b, busy, bound, {})
    ensures MembersSeen(w, b, c)
  {
    forall m | m in w.g.info[c].kind.members && m in b && m in w.plain
      ensures b[m].visible == w.plain[m].visible
    {
      assert KeptAt(w, a, b, busy, bound, m);
    }
  }

  /** The prompts of a member can be read while its choice, being y, is under way. */
  lemma MemberReadable(w: World, st: State, busy: set<Symbol>, c: Symbol, m: Symbol, env: Env)
    requires GoodWorld(w) && st.Keys == w.g.info.Keys && c in w.g.info && RankedFrom(w, busy, w.g.rank[c])
    requires w.g.info[c].kind.Choice? && m in w.g.info[c].kind.members && m in w.g.info
    requires c in busy && st[c].valid && st[c].tri == Yes && st[c].val == "n" && env == EnvOf(w)
    ensures Readable(w, st, busy, ChoiceIsYes(c, env), w.g.rank[c], PromptSymbols(w.g.info[m].prompts))
  {
    MembersAreGood(w.g, c);
    forall x | x in PromptSymbols(w.g.info[m].prompts)
      ensures CanRead(w, st, busy, ChoiceIsYes(c, env), w.g.rank[c], x)
    {
    }
  }

  /** The operands of a symbol whose calculation is under way can be read. */
  lemma OperandsReadable(w: World, st: State, busy: set<Symbol>, s: Symbol, env: Env)
    requires GoodWorld(w) && st.Keys == w.g.info.Keys && s in w.g.info && RankedFrom(w, busy, w.g.rank[s])
    requires env == EnvOf(w)
    ensures Readable(w, st, busy, env, w.g.rank[s], Operands(w.g.info[s]))
  {
    assert GoodSymbol(w.g, s);
    forall x | x in Operands(w.g.info[s])
      ensures CanRead(w, st, busy, env, w.g.rank[s], x)
    {
    }
  }

  lemma ChoiceReadable(w: World, st: State, busy: set<Symbol>, c: Symbol, env: Env)
    requires GoodWorld(w) && st.Keys == w.g.info.Keys && c in w.g.info && RankedFrom(w, busy, w.g.rank[c])
    requires env == EnvOf(w)
    ensures Readable(w, st, busy, ChoiceIsYes(c, env), w.g.rank[c], DefaultConditionSymbols(w.g.info[c].defaults))
  {
    forall x | x in DefaultConditionSymbols(w.g.info[c].defaults)
      ensures CanRead(w, st, busy, ChoiceIsYes(c, env), w.g.rank[c], x)
    {
      OperandBelow(w, c, x);
    }
  }

  lemma OperandBelow(w: World, s: Symbol, x: Symbol)
    requires GoodWorld(w) && s in w.g.info && x in Operands(w.g.info[s])
    ensures x in w.g.info && w.g.rank[x] < w.g.rank[s]
  {
    assert GoodSymbol(w.g, s);
  }

  /** A choice under way that others look at. */
  lemma ChoiceKept(w: World, a: State, b: State, busy: set<Symbol>, bound: nat, c: Symbol)
    requires Consistent(w, b, busy) && Frame(w, a, b, busy, bound, {})
    requires c in w.g.info && c in busy
    ensures Kept(0, a[c], b[c], w.plain[c], true, 1) && Frame(w, a, b, busy, bound, {c})
  {
    assert KeptAt(w, a, b, busy, bound, c) && Fine(w, b, busy, c);
    FrameWeaken(w, a, b, busy, bound, bound, {}, {c});
  }

  lemma Picked(w: World, a: State, b: State, last: State, busy: set<Symbol>, bound: nat, c: Symbol)
    requires Consistent(w, last, busy) && Frame(w, a, b, busy, bound, {c}) && Frame(w, b, last, busy, bound, {})
    requires c in w.g.info && c in busy
    requires Kept(0, a[c], b[c], w.plain[c], true, 1)
    ensures Kept(0, a[c], last[c], w.plain[c], true, 1) && Frame(w, a, last, busy, bound, {c})
  {
    ChoiceKept(w, b, last, busy, bound, c);
    FrameTransitive(w, a, b, last, busy, bound, {c});
  }

  /** A choice under way changes its own fields. */
  lemma StoreChoice(w: World, a: State, b: State, busy: set<Symbol>, bound: nat, c: Symbol, cell: Cell)
    requires Consistent(w, b, busy) && Frame(w, a, b, busy, bound, {c})
    requires c in w.g.info && w.g.info[c].kind.Choice? && c in busy && !Untyped(c)
    requires cell == b[c].(tri := cell.tri, user := cell.user) && cell.user.pick == b[c].user.pick
    ensures Consistent(w, b[c := cell], busy) && Frame(w, a, b[c := cell], busy, bound, {c})
    ensures MembersSeen(w, b, c) ==> MembersSeen(w, b[c := cell], c)
  {
    assert Fine(w, b, busy, c);
    Touch(w, b, busy, c, cell);
    FrameOfTouch(w, a, b, b[c := cell], busy, bound, c);
  }

  /** Looking at a member keeps it, too. */
  lemma FrameOfMember(w: World, a: State, b: State, busy: set<Symbol>, bound: nat, m: Symbol)
    requires Consistent(w, a, busy) && Consistent(w, b, busy) && Frame(w, a, b, busy, bound, {m})
    requires m in w.g.info && w.g.info[m].kind.Member?
    requires b[m].valid == a[m].valid && b[m].visible == w.plain[m].visible
    requires m in busy || a[m].valid ==> Recalculated(a[m], b[m], w.plain[m], m in busy)
    ensures Frame(w, a, b, busy, bound, {})
  {
    forall t | t in w.g.info
      ensures KeptAt(w, a, b, busy, bound, t)
    {
      assert Fine(w, a, busy, t) && Fine(w, b, busy, t);
      if t != m {
        assert KeptAt(w, a, b, busy, bound, t);
      }
    }
  }

  predicate DependenciesArePlain(w: World, s: Symbol, env: Env) {
    && s in w.g.info && s in w.plain
    && DirectDependency(w.g, s, w.g.info[s], env) == w.plain[s].dirDep
    && ReverseDependency(w.g, s, w.g.info[s], env) == w.plain[s].revDep
    && ImpliedValue(w.g, s, w.g.info[s], env) == w.plain[s].implied
  }

  predicate SameDependencies(c: Cell, r: Calculated) {
    c.dirDep == r.dirDep && c.revDep == r.revDep && c.implied == r.implied
  }

  /** A symbol whose own value has not been touched. */
  predicate Recalculated(a: Cell, b: Cell, r: Calculated, isBusy: bool) {
    && b.valid == a.valid && b.tri == a.tri && b.val == a.val && b.pick == a.pick
    && (b.write == a.write || (isBusy && b.write && r.visible != No))
  }

  /** A change of one symbol is none of the others. */
  lemma FrameOfTouch(w: World, a: State, b: State, c: State, busy: set<Symbol>, bound: nat, s: Symbol)
    requires Frame(w, a, b, busy, bound, {s}) && s in b && s in c && c == b[s := c[s]]
    ensures Frame(w, a, c, busy, bound, {s})
  {
    forall t | t in w.g.info && t !in {s}
      ensures KeptAt(w, a, c, busy, bound, t)
    {
      assert KeptAt(w, a, b, busy, bound, t);
    }
  }

  lemma ReadableSubset(w: World, st: State, busy: set<Symbol>, env: Env, bound: nat, xs: set<Symbol>, ys: set<Symbol>)
    requires Readable(w, st, busy, env, bound, xs) && ys <= xs
    ensures Readable(w, st, busy, env, bound, ys)
  {
  }

  lemma DefaultConditionsWithin(i: Info)
    ensures forall c :: c in DefaultConditions(i.defaults) ==> SymbolsOfNullable(c) <= Operands(i)
  {
    forall c | c in DefaultConditions(i.defaults)
      ensures SymbolsOfNullable(c) <= Operands(i)
    {
      var k :| 0 <= k < |i.defaults| && DefaultConditions(i.defaults)[k] == c;
      assert i.defaults[k] in i.defaults;
      assert SymbolsOfNullable(c) <= DefaultConditionSymbols(i.defaults);
    }
  }

  lemma RangeConditionsWithin(i: Info)
    ensures forall c :: c in RangeConditions(i.ranges) ==> SymbolsOfNullable(c) <= Operands(i)
  {
    forall c | c in RangeConditions(i.ranges)
      ensures SymbolsOfNullable(c) <= Operands(i)
    {
      var k :| 0 <= k < |i.ranges| && RangeConditions(i.ranges)[k] == c;
      assert i.ranges[k] in i.ranges;
      assert SymbolsOfNullable(c) <= RangeConditionSymbols(i.ranges);
    }
  }

  lemma PromptsValueGrows(ps: seq<Nullable>, k: nat, env: Env)
    requires k < |ps|
    ensures PromptsValue(ps[..k + 1], env) == Max(PromptsValue(ps[..k], env), EvalNullable(ps[k], env))
  {
    assert ps[..k + 1][..k] == ps[..k];
  }

  lemma PromptSymbolsGrow(ps: seq<Nullable>, k: nat)
    requires k < |ps|
    ensures PromptSymbols(ps[..k + 1]) == PromptSymbols(ps[..k]) + SymbolsOfNullable(ps[k])
    ensures SymbolsOfNullable(ps[k]) <= PromptSymbols(ps)
  {
    assert ps[k] in ps;
    assert ps[..k + 1] == ps[..k] + [ps[k]];
    forall x | x in PromptSymbols(ps[..k]) + SymbolsOfNullable(ps[k])
      ensures x in PromptSymbols(ps[..k + 1])
    {
      if x in PromptSymbols(ps[..k]) {
        var p :| p in ps[..k] && x in SymbolsOfNullable(p);
        assert p in ps[..k + 1];
      } else {
        assert ps[k] in ps[..k + 1];
      }
    }
  }

  lemma ReadableTouched(w: World, a: State, b: State, busy: set<Symbol>, env: Env, bound: nat, xs: set<Symbol>,
                        s: Symbol)
    requires Readable(w, a, busy, env, bound, xs) && s in a && s in b && b == a[s := b[s]]
    requires b[s].valid == a[s].valid && b[s].tri == a[s].tri && b[s].val == a[s].val
    ensures Readable(w, b, busy, env, bound, xs)
  {
    forall x | x in xs
      ensures CanRead(w, b, busy, env, bound, x)
    {
      assert CanRead(w, a, busy, env, bound, x);
    }
  }

  /** One of the three dependencies of `s` has been calculated, from `a` to `b`, and is stored. */
  lemma DependencyStep(w: World, a: State, b: State, busy: set<Symbol>, env: Env, bound: nat, xs: set<Symbol>,
                       s: Symbol, c: Cell)
    requires Consistent(w, a, busy) && Consistent(w, b, busy) && Frame(w, a, b, busy, bound, {})
    requires Readable(w, a, busy, env, bound, xs)
    requires s in w.g.info && !Untyped(s) && !w.g.info[s].kind.Member?
    requires a[s].valid && a[s].visible == w.plain[s].visible
    requires c == b[s].(dirDep := w.plain[s].dirDep) || c == b[s].(revDep := w.plain[s].revDep)
             || c == b[s].(implied := w.plain[s].implied)
    ensures Consistent(w, b[s := c], busy) && Frame(w, a, b[s := c], busy, bound, {s})
    ensures Readable(w, b[s := c], busy, env, bound, xs)
    ensures c.visible == w.plain[s].visible && Recalculated(a[s], c, w.plain[s], s in busy)
    ensures b[s].dirDep == a[s].dirDep && b[s].revDep == a[s].revDep && b[s].implied == a[s].implied
  {
    assert Fine(w, b, busy, s) && KeptAt(w, a, b, busy, bound, s);
    Touch(w, b, busy, s, c);
    FrameWeaken(w, a, b, busy, bound, bound, {}, {s});
    FrameOfTouch(w, a, b, b[s := c], busy, bound, s);
    ReadableKept(w, a, b, busy, env, bound, xs, xs);
    ReadableTouched(w, b, b[s := c], busy, env, bound, xs, s);
  }
}
