/** A configuration that does not survive being written and read back: with each of the two writers,
    one value is lost. */
module LostConfig {
  import opened Tristates
  import opened Expressions
  import opened ExprEquality
  import opened SymbolGraph
  import opened SymbolValues
  import opened SavedConfig

  const MODULES := Symbol(3, Boolean, false)
  const SEL := Symbol(4, TristateType, false)
  const LOST := Symbol(5, TristateType, false)

  function Blank(name: string): Info {
    Info(name, [], [], [], Null, Null, Null, Plain, false)
  }

  const BY_DEFAULT: seq<Default> := [Default(Null, Sym(SYMBOL_YES))]

  const MODULES_INFO := Blank("MODULES").(defaults := BY_DEFAULT)

  const SEL_INFO := Blank("SEL").(prompts := [Null])

  /** What menu_finalize makes of a tristate symbol with a prompt "if m" and "default y" that SEL
      selects. */
  const LOST_INFO := Blank("LOST").(prompts := [Ref(Bin(AndOp, Sym(SYMBOL_MOD), Sym(MODULES)))],
                                    defaults := BY_DEFAULT, revDep := Ref(Sym(SEL)))

  const LOST_NODES := [SEL, LOST]

  function LostGraph(): Graph {
    Graph(map[SYMBOL_YES := Blank("y"), SYMBOL_MOD := Blank("m"), SYMBOL_NO := Blank("n"),
              MODULES := MODULES_INFO, SEL := SEL_INFO, LOST := LOST_INFO],
          map[SYMBOL_YES := 0, SYMBOL_MOD := 0, SYMBOL_NO := 0, MODULES := 1, SEL := 1, LOST := 2], Yes)
  }

  /** The user has set SEL to m. If the user also sets LOST to n, it is m, and after savedefconfig it
      is y; if not, it is y, and after conf_write it is m. */
  function LostUsers(writer: Writer): Users {
    (map s | s in LostGraph().info :: ResetUser(LostGraph().info[s]))
    [SEL := UserValue(true, Mod, "", None)][LOST := UserValue(writer == Minimal, No, "", None)]
  }

  lemma LostGraphIsWellFounded()
    ensures WellFounded(LostGraph())
  {
    var g := LostGraph();
    forall t: Tristate
      ensures TristateSymbol(t) in g.info && g.info[TristateSymbol(t)].kind == Plain
    {
    }
    forall s | s in g.info
      ensures GoodSymbol(g, s)
    {
      LostIsGood(s);
    }
  }

  lemma LostIsGood(s: Symbol)
    requires s in LostGraph().info
    ensures GoodSymbol(LostGraph(), s)
  {
    assert LostGraph().info[s].kind == Plain;
    forall x | x in Operands(LostGraph().info[s])
      ensures x in LostGraph().info && LostGraph().rank[x] < LostGraph().rank[s]
    {
      LostOperand(s, x);
    }
  }

  predicate LostEdge(s: Symbol, x: Symbol) {
    (s == LOST && (x == SYMBOL_MOD || x == SYMBOL_YES || x == MODULES || x == SEL)) || (s == MODULES && x == SYMBOL_YES)
  }

  lemma LostOperand(s: Symbol, x: Symbol)
    requires s in LostGraph().info && x in Operands(LostGraph().info[s])
    ensures x in LostGraph().info && LostGraph().rank[x] < LostGraph().rank[s]
  {
    OperandIsEdge(s, x);
    EdgeFalls(s, x);
  }

  lemma OperandIsEdge(s: Symbol, x: Symbol)
    requires s in LostGraph().info && x in Operands(LostGraph().info[s])
    ensures LostEdge(s, x)
  {
    var i := LostGraph().info[s];
    if s == LOST {
      LostOperands(x);
    } else {
      assert i.prompts == [] || i.prompts == [Null];
      assert i.defaults == [] || (s == MODULES && i.defaults == BY_DEFAULT);
      DefaultOperands(i, x);
    }
  }

  lemma LostOperands(x: Symbol)
    requires x in Operands(LOST_INFO)
    ensures LostEdge(LOST, x)
  {
    assert LOST_INFO.prompts == [LOST_INFO.prompts[0]] && LOST_INFO.defaults == [Default(Null, Sym(SYMBOL_YES))];
  }

  lemma DefaultOperands(i: Info, x: Symbol)
    requires (i.prompts == [] || i.prompts == [Null]) && i.ranges == []
    requires i.dirDep == i.revDep == i.implied == Null
    requires i.defaults == [] || i.defaults == BY_DEFAULT
    requires x in Operands(i)
    ensures i.defaults == BY_DEFAULT && x == SYMBOL_YES
  {
  }

  lemma EdgeFalls(s: Symbol, x: Symbol)
    requires LostEdge(s, x)
    ensures x in LostGraph().info && s in LostGraph().info && LostGraph().rank[x] < LostGraph().rank[s]
  {
  }

  lemma LostIsSetting(writer: Writer)
    ensures Setting(LostGraph(), LostUsers(writer))
  {
    LostGraphIsWellFounded();
    forall s | s in LostGraph().info
      ensures PicksMember(LostGraph().info[s], LostUsers(writer)[s])
    {
    }
  }

  lemma LostIsOrdinary(w: World, writer: Writer)
    requires GoodWorld(w) && w.g == LostGraph() && w.u == LostUsers(writer)
    ensures OrdinaryConfig(w, LOST_NODES)
  {
    forall s | s in w.g.info
      ensures Ordinary(w, LOST_NODES, s)
    {
      LostInfo(s);
    }
  }

  lemma LostInfo(s: Symbol)
    requires s in LostGraph().info
    ensures var i := LostGraph().info[s];
      && i.kind == Plain && !i.auto && i.ranges == [] && (i.prompts != [] ==> s in LOST_NODES)
      && (IsTristate(s) || (s.typ == UnknownType && i.revDep == Null))
  {
  }

  lemma LostConstants(w: World, writer: Writer)
    requires GoodWorld(w) && w.g == LostGraph() && w.u == LostUsers(writer)
    ensures EnvOf(w).tri(SYMBOL_MOD) == Mod && EnvOf(w).tri(SYMBOL_YES) == Yes
  {
    EnvOfTyped(w);
    ConstantValues(EnvOf(w));
  }

  /** The values of the symbols that LOST depends on. */
  lemma ModulesIsYes(w: World, writer: Writer)
    requires GoodWorld(w) && w.g == LostGraph() && w.u == LostUsers(writer)
    ensures EnvOf(w).tri(MODULES) == Yes
  {
    LostConstants(w, writer);
    DefaultIsYes(MODULES_INFO, EnvOf(w));
    PlainEquation(w, MODULES);
  }

  lemma SelIsMod(w: World, writer: Writer)
    requires GoodWorld(w) && w.g == LostGraph() && w.u == LostUsers(writer)
    ensures EnvOf(w).tri(SEL) == Mod
  {
    OnlyPrompt([Null], EnvOf(w));
    PlainEquation(w, SEL);
  }

  lemma DefaultIsYes(i: Info, env: Env)
    requires i.defaults == BY_DEFAULT && env.tri(SYMBOL_YES) == Yes
    ensures DefaultTristate(i, env) == Yes
  {
    assert DefaultConditions(i.defaults)[0] == Null;
  }

  lemma LostIsLost(w: World, writer: Writer)
    requires GoodWorld(w) && w.g == LostGraph() && w.u == LostUsers(writer)
    ensures Lost(w, writer, LOST)
  {
    LostConstants(w, writer);
    ModulesIsYes(w, writer);
    SelIsMod(w, writer);
    LostParts(EnvOf(w));
    LostGraphHas();
    PlainEquation(w, LOST);
  }

  lemma LostGraphHas()
    ensures LOST in LostGraph().info && LostGraph().info[LOST] == LOST_INFO && LostGraph().modules == Yes
  {
  }

  /** Visible as m, selected as m, y by default. */
  lemma LostParts(env: Env)
    requires env.tri(SYMBOL_MOD) == Mod && env.tri(SYMBOL_YES) == Yes && env.tri(MODULES) == Yes && env.tri(SEL) == Mod
    ensures var g := LostGraph();
      && Visibility(g, LOST, LOST_INFO, env) == Mod && ReverseDependency(g, LOST, LOST_INFO, env) == Mod
      && ImpliedValue(g, LOST, LOST_INFO, env) == No && DefaultTristate(LOST_INFO, env) == Yes
  {
    LostGraphHas();
    var p: Expr := Bin(AndOp, Sym(SYMBOL_MOD), Sym(MODULES));
    assert Eval(p.left, env) == Mod && Eval(p.right, env) == Yes;
    assert LOST_INFO.prompts == [Ref(p)] && Eval(p, env) == Mod;
    OnlyPrompt(LOST_INFO.prompts, env);
    DefaultIsYes(LOST_INFO, env);
  }

  /** For either writer there is a configuration that it does not preserve. */
  lemma RoundTripCanFail(writer: Writer) returns (w: World)
    ensures w.g == LostGraph() && OrdinaryConfig(w, LOST_NODES)
    ensures WorldOf(w.g, ReadBackUsers(w, writer, LOST_NODES)).plain != w.plain
  {
    LostIsSetting(writer);
    w := WorldOf(LostGraph(), LostUsers(writer));
    LostIsOrdinary(w, writer);
    LostIsLost(w, writer);
    SavedConfigRoundTrip(w, writer, LOST_NODES);
  }
}
