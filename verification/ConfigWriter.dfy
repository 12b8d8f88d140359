/** conf_write_defconfig and the SYMBOL_WRITE pass of conf_write as they run on the cache. */
module ConfigWriter {
  import opened Tristates
  import opened Expressions
  import opened SymbolGraph
  import opened SymbolValues
  import opened EvaluatorState
  import opened CachedEvaluator
  import opened Sessions
  import opened SavedConfig

  /** The flag of a symbol while a writer walks over the menu: `done` are the symbols it has seen. */
  predicate FlagAt(w: World, st: State, done: seq<Symbol>, s: Symbol) {
    && s in st && s in w.plain && s in w.g.info
    && (st[s].valid ==> st[s].write == (w.plain[s].write && (s !in done || w.g.info[s].kind.Choice?)))
    && (s in done && !w.g.info[s].kind.Choice? ==> st[s].valid)
  }

  ghost predicate Flags(w: World, st: State, done: seq<Symbol>) {
    forall s {:trigger FlagAt(w, st, done, s)} :: s in w.g.info ==> FlagAt(w, st, done, s)
  }

  /** Calculations keep the flags. */
  lemma FlagsKept(w: World, a: State, b: State, bound: nat, done: seq<Symbol>)
    requires Flags(w, a, done) && Frame(w, a, b, {}, bound, {})
    ensures Flags(w, b, done)
  {
    forall s | s in w.g.info
      ensures FlagAt(w, b, done, s)
    {
      assert FlagAt(w, a, done, s) && KeptAt(w, a, b, {}, bound, s);
    }
  }

  /** Clearing the flag of a finished symbol. */
  lemma FlagCleared(w: World, st: State, done: seq<Symbol>, s: Symbol)
    requires Flags(w, st, done) && s in w.g.info && s in st && st[s].valid && !w.g.info[s].kind.Choice?
    ensures Flags(w, st[s := st[s].(write := false)], done + [s])
  {
    forall t | t in w.g.info
      ensures FlagAt(w, st[s := st[s].(write := false)], done + [s], t)
    {
      assert FlagAt(w, st, done, t);
    }
  }

  lemma ClearedStaysConsistent(w: World, st: State, s: Symbol)
    requires Consistent(w, st, {}) && s in w.g.info
    ensures Consistent(w, st[s := st[s].(write := false)], {})
  {
    var st' := st[s := st[s].(write := false)];
    forall t | t in w.g.info
      ensures Fine(w, st', {}, t)
    {
      assert Fine(w, st, {}, t);
      if w.g.info[t].kind.Choice? {
        assert MembersSeen(w, st, t) ==> MembersSeen(w, st', t);
      }
    }
  }

  /** Choices are passed over. */
  lemma ChoicePassed(w: World, st: State, done: seq<Symbol>, c: Symbol)
    requires Flags(w, st, done) && c in w.g.info && w.g.info[c].kind.Choice?
    ensures Flags(w, st, done + [c])
  {
    forall t | t in w.g.info
      ensures FlagAt(w, st, done + [c], t)
    {
      assert FlagAt(w, st, done, t);
    }
  }

  /** Calculating the visibility of a finished symbol again changes nothing else. */
  lemma FrameOfRevisit(w: World, a: State, b: State, bound: nat, s: Symbol)
    requires Consistent(w, a, {}) && Consistent(w, b, {}) && Frame(w, a, b, {}, bound, {s})
    requires s in w.g.info && a[s].valid && b[s].visible == w.plain[s].visible
    requires Recalculated(a[s], b[s], w.plain[s], false)
    ensures Frame(w, a, b, {}, bound, {})
  {
    forall t | t in w.g.info
      ensures KeptAt(w, a, b, {}, bound, t)
    {
      if t == s {
        assert Fine(w, a, {}, s) && Fine(w, b, {}, s);
      } else {
        assert KeptAt(w, a, b, {}, bound, t);
      }
    }
  }

  /** sym_get_string_default for a finished symbol. */
  method DefaultTextOf(t: SymbolTable, s: Symbol, ghost bound: nat) returns (text: string)
    requires t.Valid({}) && s in t.graph.info && !t.graph.info[s].kind.Choice? && !Untyped(s)
    requires t.state[s].valid && bound == t.graph.rank[s]
    modifies t`state
    ensures t.Valid({}) && Frame(t.world, old(t.state), t.state, {}, bound, {})
    ensures text == DefaultText(t.graph, s, t.graph.info[s], EnvOf(t.world))
  {
    ghost var w, env, was := t.world, EnvOf(t.world), t.state;
    Revisit(t, s, bound);
    ghost var mid := t.state;
    OperandsReadable(w, mid, {}, s, env);
    assert KeptAt(w, was, mid, {}, bound, s);
    if IsTristate(s) {
      text := DefaultTristateText(t, s, env, bound);
    } else {
      text := DefaultStringOf(t, s, env, bound);
    }
    FrameTransitive(w, was, mid, t.state, {}, bound, {});
  }

  /** The default of a bool or tristate symbol with what selects and implies it. */
  method DefaultTristateText(t: SymbolTable, s: Symbol, ghost env: Env, ghost bound: nat) returns (text: string)
    requires t.Valid({}) && s in t.graph.info && !t.graph.info[s].kind.Choice? && IsTristate(s)
    requires t.state[s].valid && Readable(t.world, t.state, {}, env, bound, Operands(t.graph.info[s]))
    requires env == EnvOf(t.world)
    modifies t`state
    ensures t.Valid({}) && Frame(t.world, old(t.state), t.state, {}, bound, {})
    ensures text == DefaultText(t.graph, s, t.graph.info[s], env)
  {
    var own := t.DefaultTristateOf(s, {}, env, bound);
    StoredDependencies(t.world, old(t.state), t.state, s, env, bound);
    text := AdjustedText(t.graph, s, Max(own, t.state[s].revDep), t.state[s].implied);
  }

  method AdjustedText(g: Graph, s: Symbol, selected: Tristate, implied: Tristate) returns (text: string)
    requires s in g.info
    ensures text == TristateName(AdjustDefault(g, s, g.info[s].kind.Member?, selected, implied))
  {
    var val := selected;
    if val == Mod && !g.info[s].kind.Member? && g.modules == No {
      val := Yes;
    }
    if s.typ == Boolean && val == Mod {
      val := Yes;
    }
    if Rank(val) < Rank(implied) {
      val := implied;
    }
    text := TristateName(val);
  }

  /** The dependencies that a finished symbol caches. */
  lemma StoredDependencies(w: World, a: State, b: State, s: Symbol, env: Env, bound: nat)
    requires Consistent(w, b, {}) && Frame(w, a, b, {}, bound, {}) && env == EnvOf(w)
    requires s in w.g.info && s in a && a[s].valid && !w.g.info[s].kind.Choice? && IsTristate(s)
    ensures b[s].revDep == if w.g.info[s].kind.Member? then No else ReverseDependency(w.g, s, w.g.info[s], env)
    ensures b[s].implied == if w.g.info[s].kind.Member? then No else ImpliedValue(w.g, s, w.g.info[s], env)
  {
    PlainFacts(w, s, env);
    assert KeptAt(w, a, b, {}, bound, s) && Fine(w, b, {}, s);
  }

  /** sym_calc_visibility for a finished symbol. */
  method Revisit(t: SymbolTable, s: Symbol, ghost bound: nat)
    requires t.Valid({}) && s in t.graph.info && !Untyped(s) && t.state[s].valid && bound == t.graph.rank[s]
    modifies t`state
    ensures t.Valid({}) && Frame(t.world, old(t.state), t.state, {}, bound, {})
  {
    ghost var w, env, was := t.world, EnvOf(t.world), t.state;
    OperandsReadable(w, was, {}, s, env);
    ReadableSubset(w, was, {}, env, bound, Operands(t.graph.info[s]), PromptSymbols(t.graph.info[s].prompts));
    ReadableSubset(w, was, {}, env, bound, Operands(t.graph.info[s]), DependencySymbols(t.graph.info[s]));
    PlainFacts(w, s, env);
    t.CalcVisibility(s, {}, env, bound);
    FrameOfRevisit(w, was, t.state, bound, s);
  }

  /** The value that an int, hex or string default copies. */
  method DefaultStringOf(t: SymbolTable, s: Symbol, ghost env: Env, ghost bound: nat) returns (text: string)
    requires t.Valid({}) && s in t.graph.info && !t.graph.info[s].kind.Choice?
    requires Readable(t.world, t.state, {}, env, bound, Operands(t.graph.info[s]))
    modifies t`state
    ensures t.Valid({}) && Frame(t.world, old(t.state), t.state, {}, bound, {})
    ensures var source := DefaultSource(t.graph.info[s], env);
      text == if source.Some? then env.val(source.value) else ""
  {
    ghost var w, was := t.world, t.state;
    var i := t.graph.info[s];
    ghost var xs := Operands(i);
    DefaultConditionsWithin(i);
    var k, condition := t.ActiveProperty(DefaultConditions(i.defaults), {}, env, bound, xs);
    text := "";
    if k < |i.defaults| && i.defaults[k].value.Sym? {
      var x := i.defaults[k].value.sym;
      assert i.defaults[k] in i.defaults && x in SymbolsOf(i.defaults[k].value);
      assert x in DefaultValueSymbols(i.defaults);
      ghost var mid := t.state;
      ReadableKept(w, was, mid, {}, env, bound, xs, {x});
      text := t.SymbolString(x, {}, env, bound);
      FrameTransitive(w, was, mid, t.state, {}, bound, {});
    }
  }

  /** The test whether a member is what its choice settles on anyway. */
  method IsDefaultMember(t: SymbolTable, s: Symbol, ghost bound: nat) returns (same: bool)
    requires t.Valid({}) && s in t.graph.info && !t.graph.info[s].kind.Choice? && bound == t.graph.rank[s]
    requires t.state[s].valid && t.state[s].visible != No
    modifies t`state
    ensures t.Valid({}) && Frame(t.world, old(t.state), t.state, {}, bound, {})
    ensures same == DefaultMember(t.world, s)
  {
    ghost var w, was := t.world, t.state;
    FrameReflexive(w, was, {}, bound);
    assert Fine(w, was, {}, s);
    same := false;
    if t.graph.info[s].kind.Member? {
      var pick := DefaultOfChoice(t, s, t.graph.info[s].kind.choice);
      assert t.world == w;
      assert KeptAt(w, was, t.state, {}, bound, s);
      same := pick == Some(s) && s.typ == Boolean && t.state[s].tri == Yes;
    }
  }

  /** What the choice of a visible member picks by default. */
  method DefaultOfChoice(t: SymbolTable, s: Symbol, c: Symbol) returns (pick: Option<Symbol>)
    requires t.Valid({}) && s in t.graph.info && t.graph.info[s].kind == Member(c)
    requires t.state[s].valid && t.state[s].visible != No
    modifies t`state
    ensures t.Valid({}) && Frame(t.world, old(t.state), t.state, {}, t.graph.rank[s], {})
    ensures c in t.graph.info && t.graph.info[c].kind.Choice?
    ensures pick == ChoiceDefault(t.graph, t.graph.info[c], ChoiceIsYes(c, EnvOf(t.world)))
  {
    ghost var w, env, was := t.world, EnvOf(t.world), t.state;
    MemberOfSettled(w, was, s, c);
    ChoiceKnows(w, c, env);
    ChoiceReadable(w, was, {}, c, env);
    pick := t.ChoiceDefaultOf(c, {}, ChoiceIsYes(c, env), t.graph.rank[c]);
    assert t.world == w;
    FrameWeaken(w, was, t.state, {}, t.graph.rank[c], t.graph.rank[s], {}, {});
  }

  lemma MemberOfSettled(w: World, st: State, s: Symbol, c: Symbol)
    requires Consistent(w, st, {}) && s in w.g.info && w.g.info[s].kind == Member(c)
    requires st[s].valid && st[s].visible != No
    ensures c in w.g.info && w.g.info[c].kind.Choice? && w.g.rank[c] < w.g.rank[s]
    ensures w.plain[c].visible == Yes && MembersSeen(w, st, c)
  {
    assert Fine(w, st, {}, s);
    MemberEquation(w, s);
    UserChanges.VisibleMemberOf(w, s);
    assert Fine(w, st, {}, c);
  }

  /** What both writers do first at the menu node of a symbol: its flag is consumed. */
  method TakeFlag(t: SymbolTable, s: Symbol, ghost done: seq<Symbol>) returns (flagged: bool)
    requires t.Valid({}) && Flags(t.world, t.state, done)
    requires s in t.graph.info && !t.graph.info[s].kind.Choice?
    modifies t`state
    ensures t.Valid({}) && Flags(t.world, t.state, done + [s])
    ensures t.state[s].valid && flagged == (s !in done && t.world.plain[s].write)
  {
    ghost var w, was, bound := t.world, t.state, t.graph.rank[s];
    t.CalcValue(s, {}, bound + 1);
    FlagsKept(w, was, t.state, bound + 1, done);
    ghost var valued := t.state;
    assert FlagAt(w, valued, done, s);
    flagged := t.state[s].write;
    if flagged {
      FlagCleared(w, valued, done, s);
      ClearedStaysConsistent(w, valued, s);
      t.state := t.state[s := t.state[s].(write := false)];
    } else {
      FlagStays(w, valued, done, s);
    }
  }

  /** What conf_write_defconfig does at the menu node of a symbol. */
  method SaveSymbol(t: SymbolTable, s: Symbol, ghost done: seq<Symbol>) returns (lines: seq<Entry>)
    requires t.Valid({}) && Flags(t.world, t.state, done)
    requires s in t.graph.info && !t.graph.info[s].kind.Choice?
    modifies t`state
    ensures t.Valid({}) && Flags(t.world, t.state, done + [s])
    ensures lines == if s !in done && Saved(t.world, s) then [Entry(s, TextOf(t.world, s))] else []
  {
    ghost var w, bound := t.world, t.graph.rank[s];
    var flagged := TakeFlag(t, s, done);
    if !flagged {
      return [];
    }
    assert Fine(w, t.state, {}, s);
    if Rank(t.state[s].visible) <= Rank(t.state[s].revDep) {
      return [];
    }
    ghost var cleared := t.state;
    var redundant := IsRedundant(t, s, bound);
    FlagsKept(w, cleared, t.state, bound, done + [s]);
    assert KeptAt(w, cleared, t.state, {}, bound, s) && Fine(w, t.state, {}, s);
    if redundant {
      return [];
    }
    lines := [Entry(s, ValueText(s.typ, t.state[s].tri, t.state[s].val, t.graph.modules))];
  }

  /** What conf_write does there. */
  method StoreSymbol(t: SymbolTable, s: Symbol, ghost done: seq<Symbol>) returns (lines: seq<Entry>)
    requires t.Valid({}) && Flags(t.world, t.state, done)
    requires s in t.graph.info && !t.graph.info[s].kind.Choice?
    modifies t`state
    ensures t.Valid({}) && Flags(t.world, t.state, done + [s])
    ensures lines == if s !in done && HasLine(t.world, Full, s) then [Entry(s, TextOf(t.world, s))] else []
  {
    var flagged := TakeFlag(t, s, done);
    if !flagged {
      return [];
    }
    assert Fine(t.world, t.state, {}, s);
    lines := [Entry(s, ValueText(s.typ, t.state[s].tri, t.state[s].val, t.graph.modules))];
  }

  lemma FlagStays(w: World, st: State, done: seq<Symbol>, s: Symbol)
    requires Flags(w, st, done) && s in w.g.info && s in st && st[s].valid && !st[s].write && !w.g.info[s].kind.Choice?
    ensures Flags(w, st, done + [s])
  {
    FlagCleared(w, st, done, s);
    assert st[s := st[s].(write := false)] == st;
  }

  /** The two comparisons with the default. */
  method IsRedundant(t: SymbolTable, s: Symbol, ghost bound: nat) returns (redundant: bool)
    requires t.Valid({}) && s in t.graph.info && !t.graph.info[s].kind.Choice? && bound == t.graph.rank[s]
    requires t.state[s].valid && t.state[s].visible != No
    modifies t`state
    ensures t.Valid({}) && Frame(t.world, old(t.state), t.state, {}, bound, {})
    ensures redundant ==
      (TextOf(t.world, s) == DefaultText(t.graph, s, t.graph.info[s], EnvOf(t.world)) || DefaultMember(t.world, s))
  {
    ghost var w, was := t.world, t.state;
    assert Fine(w, was, {}, s);
    var text := DefaultTextOf(t, s, bound);
    ghost var mid := t.state;
    assert KeptAt(w, was, mid, {}, bound, s);
    redundant := ValueText(s.typ, t.state[s].tri, t.state[s].val, t.graph.modules) == text;
    if !redundant {
      redundant := IsDefaultMember(t, s, bound);
      FrameTransitive(w, was, mid, t.state, {}, bound, {});
    }
  }

  /** The line of a symbol, at its first menu node. */
  ghost function NewLine(w: World, writer: Writer, done: seq<Symbol>, s: Symbol): seq<Entry>
    requires s in w.g.info && s in w.plain
  {
    if s !in done && HasLine(w, writer, s) then [Entry(s, TextOf(w, s))] else []
  }

  /** One round of the loop over the menu. Choices are passed over. */
  method VisitNode(t: SymbolTable, writer: Writer, s: Symbol, ghost done: seq<Symbol>) returns (lines: seq<Entry>)
    requires t.Valid({}) && Flags(t.world, t.state, done) && s in t.graph.info
    modifies t`state
    ensures t.Valid({}) && Flags(t.world, t.state, done + [s]) && lines == NewLine(t.world, writer, done, s)
  {
    if t.graph.info[s].kind.Choice? {
      ChoicePassed(t.world, t.state, done, s);
      return [];
    }
    match writer
    case Minimal => lines := SaveSymbol(t, s, done);
    case Full => lines := StoreSymbol(t, s, done);
  }

  lemma OneMore(w: World, writer: Writer, done: seq<Symbol>, nodes: seq<Symbol>, k: nat)
    requires k < |nodes| && forall s :: s in done + nodes ==> s in w.g.info && s in w.plain
    ensures forall s :: s in done + nodes[..k] ==> s in w.g.info && s in w.plain
    ensures forall s :: s in done + nodes[..k + 1] ==> s in w.g.info && s in w.plain
    ensures done + nodes[..k + 1] == done + nodes[..k] + [nodes[k]]
    ensures nodes[k] in w.g.info && nodes[k] in w.plain
    ensures SavedEntries(w, writer, done + nodes[..k + 1]) ==
      SavedEntries(w, writer, done + nodes[..k]) + NewLine(w, writer, done + nodes[..k], nodes[k])
  {
    var before := done + nodes[..k];
    assert done + nodes[..k + 1] == before + [nodes[k]];
    assert (before + [nodes[k]])[..|before|] == before;
    assert nodes[k] in done + nodes;
  }

  /** Symbols that have been met already add no lines. */
  lemma {:induction false} NothingTwice(w: World, writer: Writer, done: seq<Symbol>, nodes: seq<Symbol>)
    requires forall s :: s in done + nodes ==> s in w.g.info && s in w.plain
    requires forall s :: s in nodes ==> s in done
    ensures SavedEntries(w, writer, done + nodes) == SavedEntries(w, writer, done)
  {
    if nodes == [] {
      assert done + nodes == done;
    } else {
      var k := |nodes| - 1;
      OneMore(w, writer, done, nodes, k);
      assert nodes[..k + 1] == nodes && nodes[k] in nodes;
      NothingTwice(w, writer, done, nodes[..k]);
    }
  }

  /** sym_clear_all_valid, while the user's values stay. */
  method StartOver(t: SymbolTable)
    requires t.Valid({})
    modifies t`state, t`changed
    ensures t.Valid({}) && t.changed && Flags(t.world, t.state, [])
  {
    ghost var w, was := t.world, t.state;
    StillStored(w, was);
    ClearedConsistent(w, w, was, was);
    ClearAllValid(t);
    FreshFlags(w, t.state);
  }

  lemma StillStored(w: World, st: State)
    requires Consistent(w, st, {})
    ensures SameButUser(st, st) && StoresUsers(w, st)
  {
    forall s | s in w.g.info
      ensures SameUser(w.g.info[s], st[s].user, w.u[s])
    {
      assert Fine(w, st, {}, s);
    }
  }

  lemma FreshFlags(w: World, st: State)
    requires Consistent(w, st, {}) && Fresh(w.g, w.u, st)
    ensures Flags(w, st, [])
  {
    forall s | s in w.g.info
      ensures FlagAt(w, st, [], s)
    {
      assert Fine(w, st, {}, s) && w.plain[s] == Calculate(w.g, w.u, s);
    }
  }
}
