/** A configuration whose cache is wrong after sym_set_tristate_value. */
module StaleCache {
  import opened Tristates
  import opened Expressions
  import opened SymbolGraph
  import opened SymbolValues
  import opened EvaluatorState
  import opened CachedEvaluator
  import opened UserChanges
  import opened Sessions
  import opened SavedConfig
  import opened LostConfig

  /** A symbol that is y by default although it is visible only as m, is m once it has been set to y. */
  lemma YesBecomesMod(w: World, w': World, s: Symbol)
    requires GoodWorld(w) && s in w.g.info && w.g.info[s].kind.Plain? && Demoted(w, s)
    requires GoodWorld(w') && w'.g == w.g && w'.u == w.u[s := w.u[s].(given := true, tri := Yes)]
    ensures w.plain[s].tri == Yes && !Redundant(w, s, Yes) && w'.plain[s].tri == Mod
  {
    var i := w.g.info[s];
    SetAgrees(w, w', s);
    PlainEquation(w, s);
    PlainEquation(w', s);
    OperandsAgreeParts(i, EnvOf(w), EnvOf(w'));
    PromptsAgree(i.prompts, EnvOf(w), EnvOf(w'));
    DependenciesAgree(w.g, s, i, EnvOf(w), EnvOf(w'));
    DemotedResult(w.g, s, i, w'.u[s], EnvOf(w'));
  }

  lemma DemotedResult(g: Graph, s: Symbol, i: Info, user: UserValue, env: Env)
    requires s.typ == TristateType && i.kind.Plain? && user.given && user.tri == Yes
    requires Exceeds(Visibility(g, s, i, env), Yes, ReverseDependency(g, s, i, env), ImpliedValue(g, s, i, env))
    ensures TristateResult(g, s, i, user, env) == Mod
  {
  }

  ghost predicate IsStale(t: SymbolTable, s: Symbol)
    reads t
  {
    && s in t.state && t.state[s].valid && t.state[s].tri == Yes
    && GoodWorld(t.world) && t.world.g == t.graph && s in t.graph.info && t.world.plain[s].tri == Mod && !t.Valid({})
  }

  /** Asking for the value of such a symbol and setting the symbol to it: the value is accepted, and
      the table still says y, but the next calculation from scratch gives m. */
  method SetToItsValue(t: SymbolTable, s: Symbol) returns (ok: bool)
    requires t.Valid({}) && s in t.graph.info && t.graph.info[s].kind.Plain? && Demoted(t.world, s)
    modifies t
    ensures ok && IsStale(t, s)
  {
    ghost var w := t.world;
    Ask(t, s);
    ghost var cached := t.state;
    SetIsAfterSet(w, Visible(cached), s, Yes);
    ok := SetTristateValue(t, s, Yes);
    YesBecomesMod(w, t.world, s);
  }

  method Ask(t: SymbolTable, s: Symbol)
    requires t.Valid({}) && s in t.graph.info
    modifies t`state
    ensures t.Valid({}) && t.state[s].valid && t.state[s].tri == t.world.plain[s].tri
  {
    t.CalcValue(s, {}, t.graph.rank[s] + 1);
    assert Fine(t.world, t.state, {}, s);
  }

  lemma SetIsAfterSet(w: World, visible: Symbol -> Tristate, s: Symbol, val: Tristate)
    requires GoodWorld(w) && s in w.g.info && w.g.info[s].kind.Plain?
    ensures AfterSet(w.g, w.u, visible, s, val) == w.u[s := w.u[s].(given := true, tri := val)]
  {
  }

  /** There is such a symbol. */
  method SomeStale() returns (t: SymbolTable)
    ensures fresh(t) && t.graph == LostGraph() && IsStale(t, LOST)
  {
    LostIsSetting(Full);
    LostIsLost(WorldOf(LostGraph(), LostUsers(Full)), Full);
    t := new SymbolTable(LostGraph(), MODULES, LostUsers(Full));
    SameWorlds(t.world, WorldOf(LostGraph(), LostUsers(Full)));
    assert LostGraph().info[LOST] == LOST_INFO;
    var ok := SetToItsValue(t, LOST);
  }
}
