/** Whole runs: calculations in any order, invalidation of the cache, and changes by the user. */
module Sessions {
  import opened Tristates
  import opened Expressions
  import opened SymbolGraph
  import opened SymbolValues
  import opened EvaluatorState
  import opened CachedEvaluator
  import opened UserChanges

  /** Every valid symbol has the value of the plain recursive definition. */
  ghost predicate Caches(g: Graph, u: Users, st: State)
    requires Setting(g, u)
  {
    st.Keys == g.info.Keys && forall s :: s in g.info && st[s].valid ==> Matches(st[s], Calculate(g, u, s))
  }

  /** Every valid symbol has the SYMBOL_WRITE flag of the plain definition. */
  ghost predicate Fresh(g: Graph, u: Users, st: State)
    requires Setting(g, u)
  {
    forall s :: s in g.info && s in st && st[s].valid ==> st[s].write == Calculate(g, u, s).write
  }

  predicate NoneValid(st: State) {
    forall s :: s in st && !IsTristateConstant(s) ==> !st[s].valid
  }

  /** A consistent cache with nothing under way is correct. */
  lemma ConsistentCaches(w: World, st: State)
    requires Consistent(w, st, {})
    ensures Caches(w.g, w.u, st)
  {
    forall s | s in w.g.info && st[s].valid
      ensures Matches(st[s], Calculate(w.g, w.u, s))
    {
      assert Fine(w, st, {}, s);
    }
  }

  lemma FreshKept(w: World, a: State, b: State, bound: nat)
    requires GoodWorld(w) && Frame(w, a, b, {}, bound, {}) && Fresh(w.g, w.u, a)
    ensures Fresh(w.g, w.u, b)
  {
    forall s | s in w.g.info && s in b && b[s].valid
      ensures b[s].write == Calculate(w.g, w.u, s).write
    {
      assert KeptAt(w, a, b, {}, bound, s);
    }
  }

  /** Before anything has been calculated, no flag is wrong. */
  lemma NothingFlagged(w: World, st: State)
    requires Consistent(w, st, {}) && NoneValid(st)
    ensures Fresh(w.g, w.u, st)
  {
    forall s | s in w.g.info && st[s].valid
      ensures st[s].write == Calculate(w.g, w.u, s).write
    {
      assert Fine(w, st, {}, s) && w.plain[s] == Calculate(w.g, w.u, s);
      CalculateEquation(w, s);
    }
  }

  /** The first `k` symbols of `xs` have been calculated. */
  predicate AllValid(st: State, xs: seq<Symbol>, k: nat) {
    k <= |xs| && forall j :: 0 <= j < k ==> xs[j] in st && st[xs[j]].valid
  }

  /** A calculation of `s` invalidates nothing, and finishes nothing of a higher rank. */
  predicate Later(g: Graph, a: State, b: State, s: Symbol) {
    && a.Keys == b.Keys && s in g.rank
    && forall x :: x in a && x in g.rank ==>
         (a[x].valid ==> b[x].valid) && (!a[x].valid && b[x].valid ==> g.rank[x] <= g.rank[s])
  }

  lemma AfterCalculation(w: World, a: State, b: State, bound: nat, s: Symbol)
    requires GoodWorld(w) && s in w.g.info && bound == w.g.rank[s] + 1
    requires Fresh(w.g, w.u, a) && Frame(w, a, b, {}, bound, {})
    ensures Fresh(w.g, w.u, b) && Later(w.g, a, b, s)
  {
    FreshKept(w, a, b, bound);
    forall x | x in a && x in w.g.rank
      ensures (a[x].valid ==> b[x].valid) && (!a[x].valid && b[x].valid ==> w.g.rank[x] <= w.g.rank[s])
    {
      assert KeptAt(w, a, b, {}, bound, x);
    }
  }

  /** sym_calc_value on a sequence of symbols, from any state in which no flag is wrong: whatever
      the order, each valid symbol ends up with its plain value and its plain SYMBOL_WRITE flag. */
  method CalcAll(t: SymbolTable, xs: seq<Symbol>)
    requires t.Valid({}) && Fresh(t.graph, t.world.u, t.state) && forall x :: x in xs ==> x in t.graph.info
    modifies t`state
    ensures t.Valid({}) && Caches(t.graph, t.world.u, t.state) && Fresh(t.graph, t.world.u, t.state)
    ensures AllValid(t.state, xs, |xs|)
  {
    for k := 0 to |xs|
      invariant t.Valid({}) && Fresh(t.graph, t.world.u, t.state) && AllValid(t.state, xs, k)
    {
      CalcNext(t, xs, k, xs[k]);
    }
    ConsistentCaches(t.world, t.state);
  }

  method CalcNext(t: SymbolTable, xs: seq<Symbol>, ghost k: nat, s: Symbol)
    requires t.Valid({}) && Fresh(t.graph, t.world.u, t.state) && AllValid(t.state, xs, k)
    requires k < |xs| && s == xs[k] && forall x :: x in xs ==> x in t.graph.info
    modifies t`state
    ensures t.Valid({}) && Fresh(t.graph, t.world.u, t.state) && AllValid(t.state, xs, k + 1)
  {
    CalcOne(t, s);
  }

  /** One call of sym_calc_value from outside. */
  method CalcOne(t: SymbolTable, s: Symbol)
    requires t.Valid({}) && Fresh(t.graph, t.world.u, t.state) && s in t.graph.info
    modifies t`state
    ensures t.Valid({}) && Fresh(t.graph, t.world.u, t.state) && t.state[s].valid
    ensures Later(t.graph, old(t.state), t.state, s)
  {
    ghost var w, was, bound := t.world, t.state, t.graph.rank[s] + 1;
    assert w.g == t.graph && Fresh(w.g, w.u, was);
    t.CalcValue(s, {}, bound);
    ghost var done := t.state;
    assert t.world == w;
    AfterCalculation(w, was, done, bound, s);
  }

  /** The state after sym_clear_all_valid. The constants y, m and n are not in the symbol table. */
  function Cleared(st: State): State {
    map s | s in st :: if IsTristateConstant(s) then st[s] else st[s].(valid := false)
  }

  /** The loop of sym_clear_all_valid over the symbol table. */
  method InvalidateAll(t: SymbolTable)
    modifies t`state
    ensures t.state == Cleared(old(t.state))
  {
    var todo := t.state.Keys;
    ghost var was := t.state;
    while todo != {}
      invariant t.state.Keys == was.Keys && todo <= was.Keys
      invariant forall s :: s in was ==>
        t.state[s] == if s in todo || IsTristateConstant(s) then was[s] else was[s].(valid := false)
      decreases todo
    {
      var s :| s in todo;
      todo := todo - {s};
      if !IsTristateConstant(s) {
        t.state := t.state[s := t.state[s].(valid := false)];
      }
    }
    assert t.state == Cleared(was);
  }

  /** sym_clear_all_valid, once the user's values are stored: the configuration counts as changed, and
      of all symbols only what modules_sym needs has been calculated again. */
  method ClearAllValid(t: SymbolTable)
    requires t.world.g == t.graph && t.modules in t.graph.info && Consistent(t.world, Cleared(t.state), {})
    modifies t`state, t`changed
    ensures t.Valid({}) && t.changed && Fresh(t.graph, t.world.u, t.state) && t.state[t.modules].valid
    ensures Later(t.graph, Cleared(old(t.state)), t.state, t.modules)
  {
    ghost var cleared := Cleared(t.state);
    InvalidateAll(t);
    NothingFlagged(t.world, cleared);
    t.changed := true;
    CalcOne(t, t.modules);
  }

  /** Two states that differ in the user's values only. */
  predicate SameButUser(a: State, b: State) {
    a.Keys == b.Keys && forall s :: s in a ==> b[s] == a[s].(user := b[s].user)
  }

  ghost predicate StoresUsers(w: World, st: State)
    requires GoodWorld(w) && st.Keys == w.g.info.Keys
  {
    forall s :: s in w.g.info ==> SameUser(w.g.info[s], st[s].user, w.u[s])
  }

  /** After an invalidation the old cache is consistent with any new user values that it stores. */
  lemma ClearedConsistent(w: World, w': World, a: State, b: State)
    requires Consistent(w, a, {}) && GoodWorld(w') && w'.g == w.g
    requires SameButUser(a, b) && StoresUsers(w', b)
    ensures Consistent(w', Cleared(b), {}) && NoneValid(Cleared(b))
  {
    forall s | s in w'.g.info
      ensures Fine(w', Cleared(b), {}, s)
    {
      ClearedFine(w, w', a, b, s);
    }
  }

  lemma ClearedFine(w: World, w': World, a: State, b: State, s: Symbol)
    requires Consistent(w, a, {}) && GoodWorld(w') && w'.g == w.g && s in w.g.info
    requires SameButUser(a, b) && StoresUsers(w', b)
    ensures Fine(w', Cleared(b), {}, s)
  {
    assert Fine(w, a, {}, s);
    if IsTristateConstant(s) {
      CalculateEquation(w, s);
      CalculateEquation(w', s);
      ConstantKind(w, s);
    }
  }

  /** New user values that change no plain value leave the cache as it is. */
  lemma UnchangedConsistent(w: World, w': World, a: State, b: State)
    requires Consistent(w, a, {}) && GoodWorld(w') && w'.g == w.g && w'.plain == w.plain
    requires SameButUser(a, b) && StoresUsers(w', b)
    ensures Consistent(w', b, {})
  {
    forall s | s in w'.g.info
      ensures Fine(w', b, {}, s)
    {
      assert Fine(w, a, {}, s);
    }
  }

  lemma ConstantKind(w: World, s: Symbol)
    requires GoodWorld(w) && s in w.g.info && IsTristateConstant(s)
    ensures w.g.info[s].kind.Plain?
  {
    assert TristateSymbol(Yes) == SYMBOL_YES && TristateSymbol(Mod) == SYMBOL_MOD && TristateSymbol(No) == SYMBOL_NO;
  }

  /** The cached visibilities as a function. */
  function Visible(st: State): Symbol -> Tristate {
    (x: Symbol) => if x in st then st[x].visible else No
  }

  /** The user value of `x` after the member `s` of the choice `c` has been picked and the flags
      of the visible ones among `ms` have been set. */
  function PickedUser(st: State, c: Symbol, s: Symbol, ms: seq<Symbol>, x: Symbol): UserValue
    requires x in st
  {
    if x == c then st[x].user.(given := true, pick := Some(s))
    else if x in ms && st[x].visible != No then st[x].user.(given := true)
    else st[x].user
  }

  predicate Picked(a: State, b: State, c: Symbol, s: Symbol, ms: seq<Symbol>) {
    a.Keys == b.Keys && forall x :: x in a ==> b[x] == a[x].(user := PickedUser(a, c, s, ms, x))
  }

  lemma PickedOneMore(a: State, b: State, c: Symbol, s: Symbol, ms: seq<Symbol>, m: Symbol)
    requires Picked(a, b, c, s, ms) && m in b && m != c
    ensures var b' := if b[m].visible != No then b[m := b[m].(user := b[m].user.(given := true))] else b;
      Picked(a, b', c, s, ms + [m])
  {
  }

  lemma OneMoreMember(ms: seq<Symbol>, k: nat)
    requires k < |ms|
    ensures ms[k] in ms && ms[..k + 1] == ms[..k] + [ms[k]]
  {
  }

  /** The fields that sym_set_tristate_value stores when it sets a member of a choice to y. */
  method SetPick(t: SymbolTable, s: Symbol)
    requires t.graph.info.Keys == t.state.Keys && s in t.graph.info && t.graph.info[s].kind.Member?
    requires KnowsChoice(t.graph, s)
    modifies t`state
    ensures var c := t.graph.info[s].kind.choice;
      Picked(old(t.state), t.state, c, s, t.graph.info[c].kind.members)
  {
    var c := t.graph.info[s].kind.choice;
    var ms := t.graph.info[c].kind.members;
    ghost var was := t.state;
    t.state := t.state[c := t.state[c].(user := t.state[c].user.(given := true, pick := Some(s)))];
    for k := 0 to |ms|
      invariant Picked(was, t.state, c, s, ms[..k])
    {
      OneMoreMember(ms, k);
      PickedOneMore(was, t.state, c, s, ms[..k], ms[k]);
      if t.state[ms[k]].visible != No {
        t.state := t.state[ms[k] := t.state[ms[k]].(user := t.state[ms[k]].user.(given := true))];
      }
    }
    assert ms[..|ms|] == ms;
  }

  /** What a member knows of its choice. */
  predicate KnowsChoice(g: Graph, s: Symbol)
    requires s in g.info && g.info[s].kind.Member?
  {
    var c := g.info[s].kind.choice;
    && c in g.info && g.info[c].kind.Choice? && s in g.info[c].kind.members
    && forall m :: m in g.info[c].kind.members ==> m in g.info && m != c && g.info[m].kind == Member(c)
  }

  lemma MemberKnowsChoice(w: World, s: Symbol)
    requires GoodWorld(w) && s in w.g.info && w.g.info[s].kind.Member?
    ensures KnowsChoice(w.g, s)
  {
    MemberEquation(w, s);
    MembersAreGood(w.g, w.g.info[s].kind.choice);
  }

  /** The user value of one symbol after sym_set_tristate_value. */
  function SetUser(g: Graph, a: State, s: Symbol, val: Tristate, x: Symbol): UserValue
    requires s in g.info && x in a
  {
    if x == s then a[x].user.(given := true, tri := val)
    else if g.info[s].kind.Member? && val == Yes then
      PickedUser(a, g.info[s].kind.choice, s, MembersOf(g, g.info[s].kind.choice), x)
    else a[x].user
  }

  lemma SetUserStored(w: World, a: State, s: Symbol, val: Tristate, x: Symbol)
    requires GoodWorld(w) && Fine(w, a, {}, x) && s in w.g.info
    requires w.g.info[s].kind.Member? ==> KnowsChoice(w.g, s)
    requires w.g.info[x].kind.Member? ==> KnowsChoice(w.g, x)
    requires PicksMember(w.g.info[x], w.u[x])
    ensures var u' := AfterSet(w.g, w.u, Visible(a), s, val);
      PicksMember(w.g.info[x], u'[x]) && SameUser(w.g.info[x], SetUser(w.g, a, s, val, x), u'[x])
  {
  }

  lemma SetUserStoredAt(w: World, a: State, s: Symbol, val: Tristate, x: Symbol)
    requires Consistent(w, a, {}) && s in w.g.info && x in w.g.info
    ensures var u' := AfterSet(w.g, w.u, Visible(a), s, val);
      PicksMember(w.g.info[x], u'[x]) && SameUser(w.g.info[x], SetUser(w.g, a, s, val, x), u'[x])
  {
    if w.g.info[s].kind.Member? {
      MemberKnowsChoice(w, s);
    }
    if w.g.info[x].kind.Member? {
      MemberKnowsChoice(w, x);
    }
    assert Fine(w, a, {}, x) && PicksMember(w.g.info[x], w.u[x]);
    SetUserStored(w, a, s, val, x);
  }

  /** The new user values are a setting again, and the state stores them. */
  lemma AfterSetStored(w: World, a: State, b: State, s: Symbol, val: Tristate)
    requires Consistent(w, a, {}) && s in w.g.info
    requires a.Keys == b.Keys && forall x :: x in a ==> b[x].user == SetUser(w.g, a, s, val, x)
    ensures Setting(w.g, AfterSet(w.g, w.u, Visible(a), s, val))
    ensures forall x :: x in w.g.info ==> SameUser(w.g.info[x], b[x].user, AfterSet(w.g, w.u, Visible(a), s, val)[x])
  {
    var u' := AfterSet(w.g, w.u, Visible(a), s, val);
    forall x | x in w.g.info
      ensures PicksMember(w.g.info[x], u'[x]) && SameUser(w.g.info[x], b[x].user, u'[x])
    {
      SetUserStoredAt(w, a, s, val, x);
    }
  }

  function MembersOf(g: Graph, c: Symbol): seq<Symbol> {
    if c in g.info && g.info[c].kind.Choice? then g.info[c].kind.members else []
  }

  /** The assignments of sym_set_tristate_value to the user's values. */
  method StoreUser(t: SymbolTable, s: Symbol, val: Tristate)
    requires t.graph.info.Keys == t.state.Keys && s in t.graph.info
    requires t.graph.info[s].kind.Member? ==> KnowsChoice(t.graph, s)
    modifies t`state
    ensures SameButUser(old(t.state), t.state)
    ensures forall x :: x in old(t.state) ==> t.state[x].user == SetUser(t.graph, old(t.state), s, val, x)
  {
    ghost var was := t.state;
    if t.graph.info[s].kind.Member? && val == Yes {
      SetPick(t, s);
    }
    StoredUser(t.graph, was, t.state, s, val);
    t.state := t.state[s := t.state[s].(user := t.state[s].user.(given := true, tri := val))];
  }

  lemma StoredUser(g: Graph, a: State, b: State, s: Symbol, val: Tristate)
    requires s in g.info && s in a
    requires g.info[s].kind.Member? ==> KnowsChoice(g, s)
    requires if g.info[s].kind.Member? && val == Yes
      then Picked(a, b, g.info[s].kind.choice, s, MembersOf(g, g.info[s].kind.choice)) else b == a
    ensures s in b && var b' := b[s := b[s].(user := b[s].user.(given := true, tri := val))];
      SameButUser(a, b') && forall x :: x in a ==> b'[x].user == SetUser(g, a, s, val, x)
  {
    var b' := b[s := b[s].(user := b[s].user.(given := true, tri := val))];
    forall x | x in a
      ensures b'[x] == a[x].(user := b'[x].user) && b'[x].user == SetUser(g, a, s, val, x)
    {
    }
  }

  /** sym_tristate_within_range on the cached fields. */
  predicate Admits(g: Graph, c: Cell, s: Symbol, val: Tristate)
    requires s in g.info
  {
    WithinRange(g, s, g.info[s], c.visible, c.revDep, c.implied, val)
  }

  /** A mandatory choice admits no value at all: it is selected as far as it is visible. */
  lemma AdmittedIsNoChoice(w: World, st: State, s: Symbol, val: Tristate)
    requires Consistent(w, st, {}) && s in w.g.info && st[s].valid && Admits(w.g, st[s], s, val)
    ensures !w.g.info[s].kind.Choice?
  {
    assert Fine(w, st, {}, s);
    if w.g.info[s].kind.Choice? {
      ChoiceSelected(w, s);
    }
  }

  lemma ChoiceSelected(w: World, c: Symbol)
    requires GoodWorld(w) && c in w.g.info && w.g.info[c].kind.Choice?
    ensures Rank(w.plain[c].visible) <= Rank(w.plain[c].revDep)
  {
    ChoiceEquation(w, c);
  }

  /** modules_sym has the value that all others are calculated with. */
  predicate ModulesSettled(w: World, modules: Symbol) {
    modules in w.plain && w.plain[modules].tri == w.g.modules
  }

  /** These user values leave modules_sym its value. */
  ghost predicate ModulesStay(g: Graph, modules: Symbol, u: Users) {
    forall w {:trigger GoodWorld(w)} :: GoodWorld(w) && w.g == g && w.u == u ==> ModulesSettled(w, modules)
  }

  /** sym_set_tristate_value, for a calculated symbol. An accepted change invalidates the cache, and
      the next calculation gives the accepted value. Setting a symbol to the value that it has keeps
      the cache; all values stay what they were if and only if this is redundant, and then the cache
      is still correct. The cached value of a symbol outside of choices is stale otherwise. A change
      must not be one of the value of modules_sym, on which all values depend. */
  method SetTristateValue(t: SymbolTable, s: Symbol, val: Tristate) returns (ok: bool)
    requires t.Valid({}) && s in t.graph.info && t.state[s].valid
    requires t.state[s].tri != val ==>
      ModulesStay(t.graph, t.modules, AfterSet(t.graph, t.world.u, Visible(t.state), s, val))
    modifies t
    ensures ok == (old(t.state)[s].tri == val || Admits(t.graph, old(t.state)[s], s, val))
    ensures !ok ==> t.state == old(t.state) && t.world == old(t.world) && t.changed == old(t.changed)
    ensures ok ==> GoodWorld(t.world) && t.world.g == t.graph
    ensures ok ==> t.world.u == AfterSet(t.graph, old(t.world.u), Visible(old(t.state)), s, val)
    ensures ok && old(t.state)[s].tri != val ==>
      t.Valid({}) && Fresh(t.graph, t.world.u, t.state) && t.changed && t.world.plain[s].tri == val
    ensures ok && old(t.state)[s].tri == val ==> SameButUser(old(t.state), t.state) && t.changed == old(t.changed)
    ensures ok && old(t.state)[s].tri == val && Redundant(old(t.world), s, val) ==>
      t.Valid({}) && t.world.plain == old(t.world.plain)
    ensures ok && old(t.state)[s].tri == val && (t.graph.info[s].kind.Plain? ==> IsTristate(s)) ==>
      (t.world.plain == old(t.world.plain) <==> Redundant(old(t.world), s, val))
    ensures ok && old(t.state)[s].tri == val && PlainTristate(t.graph, s) ==>
      (t.Valid({}) <==> Redundant(old(t.world), s, val))
  {
    var oldval := t.state[s].tri;
    ok := oldval == val || Admits(t.graph, t.state[s], s, val);
    if oldval == val {
      KeepValue(t, s, val);
    } else if ok {
      AdmittedIsNoChoice(t.world, t.state, s, val);
      ChangeValue(t, s, val);
    }
  }

  method StoreValue(t: SymbolTable, s: Symbol, val: Tristate)
    requires t.Valid({}) && s in t.graph.info
    modifies t`state, t`world
    ensures SameButUser(old(t.state), t.state)
    ensures GoodWorld(t.world) && t.world.g == t.graph && StoresUsers(t.world, t.state)
    ensures t.world.u == AfterSet(t.graph, old(t.world.u), Visible(old(t.state)), s, val)
  {
    ghost var was, w := t.state, t.world;
    assert w.g == t.graph && Consistent(w, was, {});
    if t.graph.info[s].kind.Member? {
      MemberKnowsChoice(w, s);
    }
    StoreUser(t, s, val);
    ghost var stored := t.state;
    assert t.world == w;
    ghost var w' := AfterStore(w, was, stored, s, val);
    t.world := w';
  }

  /** The rest of sym_set_tristate_value for a value that differs from the current one. */
  method ChangeValue(t: SymbolTable, s: Symbol, val: Tristate)
    requires t.Valid({}) && s in t.graph.info && !t.graph.info[s].kind.Choice? && t.state[s].valid
    requires Admits(t.graph, t.state[s], s, val)
    modifies t
    ensures t.Valid({}) && Fresh(t.graph, t.world.u, t.state) && t.changed && t.world.plain[s].tri == val
    ensures t.world.u == AfterSet(t.graph, old(t.world.u), Visible(old(t.state)), s, val)
  {
    ghost var was, w := t.state, t.world;
    assert Consistent(w, was, {});
    StoreValue(t, s, val);
    ghost var stored, w' := t.state, t.world;
    AfterChange(w, w', was, stored, s, val);
    ClearAllValid(t);
    assert t.world == w';
  }

  /** The rest of sym_set_tristate_value for the value that the symbol has: nothing is invalidated. */
  method KeepValue(t: SymbolTable, s: Symbol, val: Tristate)
    requires t.Valid({}) && s in t.graph.info && t.state[s].valid
    modifies t`state, t`world
    ensures SameButUser(old(t.state), t.state)
    ensures GoodWorld(t.world) && t.world.g == t.graph
    ensures t.world.u == AfterSet(t.graph, old(t.world.u), Visible(old(t.state)), s, val)
    ensures Redundant(old(t.world), s, val) ==> t.Valid({}) && t.world.plain == old(t.world.plain)
    ensures old(t.state)[s].tri == val && PlainTristate(t.graph, s) ==>
      (t.Valid({}) <==> Redundant(old(t.world), s, val))
    ensures old(t.state)[s].tri == val && (t.graph.info[s].kind.Plain? ==> IsTristate(s)) ==>
      (t.world.plain == old(t.world.plain) <==> Redundant(old(t.world), s, val))
  {
    ghost var was, w := t.state, t.world;
    assert Consistent(w, was, {});
    StoreValue(t, s, val);
    ghost var stored, w' := t.state, t.world;
    AfterKeepExact(w, w', was, stored, s, val);
  }

  lemma AfterKeepExact(w: World, w': World, a: State, b: State, s: Symbol, val: Tristate)
    requires Consistent(w, a, {}) && s in w.g.info && a[s].valid
    requires GoodWorld(w') && w'.g == w.g && w'.u == AfterSet(w.g, w.u, Visible(a), s, val)
    requires SameButUser(a, b) && StoresUsers(w', b)
    ensures Redundant(w, s, val) ==> Consistent(w', b, {}) && w'.plain == w.plain
    ensures a[s].tri == val && (w.g.info[s].kind.Plain? ==> IsTristate(s)) ==>
      (w'.plain == w.plain <==> Redundant(w, s, val))
    ensures a[s].tri == val && PlainTristate(w.g, s) ==> (Consistent(w', b, {}) <==> Redundant(w, s, val))
  {
    if Redundant(w, s, val) {
      AfterKeep(w, w', a, b, s, val);
    } else if a[s].tri == val && (w.g.info[s].kind.Plain? ==> IsTristate(s)) {
      ValuesAfterKeep(w, w', a, s, val);
      if PlainTristate(w.g, s) {
        StaleAfterKeep(w, w', a, b, s, val);
      }
    }
  }

  lemma ValuesAfterKeep(w: World, w': World, a: State, s: Symbol, val: Tristate)
    requires Consistent(w, a, {}) && s in w.g.info && a[s].valid && a[s].tri == val
    requires GoodWorld(w') && w'.g == w.g && w'.u == AfterSet(w.g, w.u, Visible(a), s, val)
    requires !Redundant(w, s, val) && (w.g.info[s].kind.Plain? ==> IsTristate(s))
    ensures w'.plain != w.plain
  {
    assert Fine(w, a, {}, s);
    if w'.plain == w.plain {
      SetSameOnly(w, w', s, val, Visible(a));
    }
  }

  predicate PlainTristate(g: Graph, s: Symbol)
    requires s in g.info
  {
    g.info[s].kind.Plain? && IsTristate(s)
  }

  /** The cached value is not the one that the next calculation would give. */
  lemma StaleAfterKeep(w: World, w': World, a: State, b: State, s: Symbol, val: Tristate)
    requires Consistent(w, a, {}) && s in w.g.info && PlainTristate(w.g, s) && a[s].valid && a[s].tri == val
    requires GoodWorld(w') && w'.g == w.g && w'.u == AfterSet(w.g, w.u, Visible(a), s, val)
    requires SameButUser(a, b) && !Redundant(w, s, val)
    ensures !Consistent(w', b, {})
  {
    assert Fine(w, a, {}, s);
    assert w'.u == w.u[s := w.u[s].(given := true, tri := val)];
    SetSameExact(w, w', s, val);
    assert !Fine(w', b, {}, s);
  }

  /** The world after the user's values have been stored. */
  lemma AfterStore(w: World, a: State, b: State, s: Symbol, val: Tristate) returns (w': World)
    requires Consistent(w, a, {}) && s in w.g.info
    requires SameButUser(a, b) && forall x :: x in a ==> b[x].user == SetUser(w.g, a, s, val, x)
    ensures GoodWorld(w') && w'.g == w.g && w'.u == AfterSet(w.g, w.u, Visible(a), s, val)
    ensures StoresUsers(w', b)
  {
    AfterSetStored(w, a, b, s, val);
    w' := WorldOf(w.g, AfterSet(w.g, w.u, Visible(a), s, val));
  }

  lemma AfterChange(w: World, w': World, a: State, b: State, s: Symbol, val: Tristate)
    requires Consistent(w, a, {}) && s in w.g.info && !w.g.info[s].kind.Choice? && a[s].valid
    requires GoodWorld(w') && w'.g == w.g && w'.u == AfterSet(w.g, w.u, Visible(a), s, val)
    requires SameButUser(a, b) && StoresUsers(w', b) && Admits(w.g, a[s], s, val)
    ensures Consistent(w', Cleared(b), {}) && NoneValid(Cleared(b)) && w'.plain[s].tri == val
  {
    ClearedConsistent(w, w', a, b);
    AcceptedIsPlain(w, w', a, s, val);
  }

  lemma AfterKeep(w: World, w': World, a: State, b: State, s: Symbol, val: Tristate)
    requires Consistent(w, a, {}) && s in w.g.info
    requires GoodWorld(w') && w'.g == w.g && w'.u == AfterSet(w.g, w.u, Visible(a), s, val)
    requires SameButUser(a, b) && StoresUsers(w', b) && Redundant(w, s, val)
    ensures Consistent(w', b, {}) && w'.plain == w.plain
  {
    SetSameWorld(w, s, val, Visible(a));
    SameWorlds(WorldOf(w'.g, w'.u), w');
    UnchangedConsistent(w, w', a, b);
  }

  /** A world is determined by its graph and its user values. */
  lemma SameWorlds(a: World, b: World)
    requires GoodWorld(a) && GoodWorld(b) && a.g == b.g && a.u == b.u
    ensures a == b
  {
    forall s | s in a.g.info
      ensures a.plain[s] == b.plain[s]
    {
      assert a.plain[s] == Calculate(a.g, a.u, s);
    }
  }

  lemma AcceptedIsPlain(w: World, w': World, a: State, s: Symbol, val: Tristate)
    requires Consistent(w, a, {}) && GoodWorld(w') && w'.g == w.g && s in w.g.info && !w.g.info[s].kind.Choice?
    requires a[s].valid && w'.u == AfterSet(w.g, w.u, Visible(a), s, val)
    requires WithinRange(w.g, s, w.g.info[s], a[s].visible, a[s].revDep, a[s].implied, val)
    ensures w'.plain[s].tri == val
  {
    assert Fine(w, a, {}, s);
    if w.g.info[s].kind.Plain? {
      assert w'.u == w.u[s := w.u[s].(given := true, tri := val)];
      SetPlain(w, w', s, val);
    } else {
      MemberEquation(w, s);
      BelowChoiceUnchanged(w, w', a, s);
      SetMember(w, w', s);
    }
  }

  lemma BelowChoiceUnchanged(w: World, w': World, a: State, s: Symbol)
    requires GoodWorld(w) && s in w.g.info && w.g.info[s].kind.Member?
    requires w'.u == AfterSet(w.g, w.u, Visible(a), s, Yes)
    ensures var c := w.g.info[s].kind.choice;
      && c in w.g.info && c in w'.u && w'.u[c].pick == Some(s)
      && forall x :: x in w.g.info && w.g.rank[x] < w.g.rank[c] ==> w'.u[x] == w.u[x]
  {
    var c := w.g.info[s].kind.choice;
    MemberEquation(w, s);
    forall x | x in w.g.info && w.g.rank[x] < w.g.rank[c]
      ensures w'.u[x] == w.u[x]
    {
      if w.g.info[x] == w.g.info[x].(kind := Member(c)) {
        MemberEquation(w, x);
      }
    }
  }

  /** What a user of the configuration can do: ask for the value of a symbol, or select a member
      of a choice (sym_set_choice_value). */
  datatype Event = Ask(s: Symbol) | Select(m: Symbol)

  predicate Sensible(g: Graph, e: Event) {
    match e
    case Ask(s) => s in g.info
    case Select(m) => m in g.info && g.info[m].kind.Member? && m.typ == Boolean && g.info[m].defaults == []
  }

  /** The choice of a member that is selected comes after modules_sym. */
  predicate AfterModules(g: Graph, modules: Symbol, e: Event)
    requires Sensible(g, e)
  {
    e.Select? ==>
      var c := g.info[e.m].kind.choice;
      modules in g.rank && c in g.rank && g.rank[modules] < g.rank[c]
  }

  /** modules_sym does not notice that a member is selected. */
  lemma SelectKeepsModules(w: World, st: State, modules: Symbol, m: Symbol)
    requires GoodWorld(w) && st.Keys == w.g.info.Keys && ModulesSettled(w, modules)
    requires Sensible(w.g, Select(m)) && AfterModules(w.g, modules, Select(m))
    ensures ModulesStay(w.g, modules, AfterSet(w.g, w.u, Visible(st), m, Yes))
  {
    forall w' {:trigger GoodWorld(w')} | GoodWorld(w') && w'.g == w.g && w'.u == AfterSet(w.g, w.u, Visible(st), m, Yes)
      ensures modules in w'.plain && w'.plain[modules] == w.plain[modules]
    {
      BelowChoiceUnchanged(w, w', st, m);
      CalculateLocal(w.g, w.u, w'.u, modules);
    }
  }

  /** A mandatory bool choice is settled: no member is visible and all are n, or exactly the settled
      member is y. */
  ghost predicate Exclusive(w: World, st: State, c: Symbol)
    requires c in w.g.info && w.g.info[c].kind.Choice? && c in w.u
  {
    var ms := w.g.info[c].kind.members;
    && (forall m :: m in ms ==> m in st)
    && if forall m :: m in ms && m in st ==> st[m].visible == No then forall m :: m in ms && m in st ==> st[m].tri == No
       else
         && Settlement(w, c).Some? && Settlement(w, c).value in ms && Settlement(w, c).value in st
         && st[Settlement(w, c).value].visible == Yes
         && forall m :: m in ms && m in st ==> st[m].tri == FromBool(m == Settlement(w, c).value)
  }

  /** Over every run of asking and selecting, in any order, each choice is settled at the end; what
      the user has picked for it is the last of its members whose selection was accepted. */
  method RunChoices(t: SymbolTable, events: seq<Event>, c: Symbol) returns (last: Option<Symbol>)
    requires t.Valid({}) && c in t.graph.info && t.graph.info[c].kind.Choice? && ModulesSettled(t.world, t.modules)
    requires forall e :: e in events ==> Sensible(t.graph, e) && AfterModules(t.graph, t.modules, e)
    requires forall m :: m in t.graph.info[c].kind.members && m in t.graph.info ==> t.graph.info[m].defaults == []
    modifies t
    ensures t.Valid({}) && t.world.g == t.graph && c in t.world.u && Exclusive(t.world, t.state, c)
    ensures t.world.u[c].pick == if last.Some? then last else old(t.world.u)[c].pick
  {
    last := None;
    for k := 0 to |events|
      invariant t.Valid({}) && t.world.g == t.graph && c in t.world.u && c in old(t.world.u)
      invariant ModulesSettled(t.world, t.modules)
      invariant t.world.u[c].pick == if last.Some? then last else old(t.world.u)[c].pick
    {
      assert events[k] in events && Sensible(t.graph, events[k]);
      match events[k]
      case Ask(s) =>
        t.CalcValue(s, {}, t.graph.rank[s] + 1);
      case Select(m) =>
        var ok := SelectMember(t, m, c);
        if ok && t.graph.info[m].kind == Member(c) {
          last := Some(m);
        }
    }
    SettleChoice(t, c);
  }

  /** The members of a choice, once they have all been calculated. */
  method SettleChoice(t: SymbolTable, c: Symbol)
    requires t.Valid({}) && c in t.graph.info && t.graph.info[c].kind.Choice? && c in t.world.u
    requires forall m :: m in t.graph.info[c].kind.members && m in t.graph.info ==> t.graph.info[m].defaults == []
    modifies t`state
    ensures t.Valid({}) && Exclusive(t.world, t.state, c)
  {
    MembersAreGood(t.graph, c);
    CalcMembers(t, c);
    CalculatedChoice(t.world, t.state, c);
  }

  /** The cached value and visibility of a member. */
  ghost predicate MemberCached(w: World, st: State, m: Symbol) {
    m in st && m in w.plain && st[m].tri == w.plain[m].tri && st[m].visible == w.plain[m].visible
  }

  lemma CalculatedChoice(w: World, st: State, c: Symbol)
    requires GoodWorld(w) && c in w.g.info && w.g.info[c].kind.Choice?
    requires forall m :: m in w.g.info[c].kind.members && m in w.g.info ==> w.g.info[m].defaults == []
    requires forall m :: m in w.g.info[c].kind.members ==> MemberCached(w, st, m)
    ensures Exclusive(w, st, c)
  {
    ChoiceExclusive(w, c);
    MembersAreCached(w, st, c);
    if m :| m in w.g.info[c].kind.members && st[m].visible != No {
      assert w.plain[m].visible != No;
      SettledIsOnly(w, st, c, w.g.info[c].kind.members, Settlement(w, c).value);
    }
  }

  lemma SettledIsOnly(w: World, st: State, c: Symbol, ms: seq<Symbol>, settled: Symbol)
    requires forall m :: m in ms ==> MemberCached(w, st, m)
    requires forall m :: m in ms ==> m in w.plain && w.plain[m].tri != Mod && (w.plain[m].tri == Yes <==> m == settled)
    requires settled in ms && w.plain[settled].visible == Yes
    ensures settled in st && st[settled].visible == Yes
    ensures forall m :: m in ms && m in st ==> st[m].tri == FromBool(m == settled)
  {
    assert MemberCached(w, st, settled);
    forall m | m in ms && m in st
      ensures st[m].tri == FromBool(m == settled)
    {
      assert MemberCached(w, st, m);
    }
  }

  lemma MembersAreCached(w: World, st: State, c: Symbol)
    requires GoodWorld(w) && c in w.g.info && w.g.info[c].kind.Choice?
    requires forall m :: m in w.g.info[c].kind.members ==> MemberCached(w, st, m)
    ensures forall m :: m in w.g.info[c].kind.members ==>
      m in st && m in w.plain && st[m].tri == w.plain[m].tri && st[m].visible == w.plain[m].visible
  {
    forall m | m in w.g.info[c].kind.members
      ensures m in st && m in w.plain && st[m].tri == w.plain[m].tri && st[m].visible == w.plain[m].visible
    {
      assert MemberCached(w, st, m);
    }
  }

  /** sym_set_choice_value on a member whose visibility has been calculated. */
  method SelectMember(t: SymbolTable, m: Symbol, ghost c: Symbol) returns (ok: bool)
    requires t.Valid({}) && Sensible(t.graph, Select(m)) && c in t.graph.info && t.graph.info[c].kind.Choice?
    requires ModulesSettled(t.world, t.modules) && AfterModules(t.graph, t.modules, Select(m))
    modifies t
    ensures t.Valid({}) && t.world.g == t.graph && c in t.world.u && c in old(t.world.u)
    ensures ModulesSettled(t.world, t.modules)
    ensures t.world.u[c].pick == if ok && t.graph.info[m].kind == Member(c) then Some(m) else old(t.world.u)[c].pick
  {
    ghost var w := t.world;
    t.CalcValue(m, {}, t.graph.rank[m] + 1);
    assert t.world == w;
    ghost var cached := t.state;
    SelectedIsRedundant(w, cached, m);
    PickAfter(w, Visible(cached), m, c);
    SelectKeepsModules(w, cached, t.modules, m);
    ok := SetTristateValue(t, m, Yes);
    assert t.world.plain == w.plain || ModulesStay(t.graph, t.modules, t.world.u);
  }

  /** Selecting the member that is set already changes nothing. */
  lemma SelectedIsRedundant(w: World, st: State, m: Symbol)
    requires Consistent(w, st, {}) && Sensible(w.g, Select(m)) && st[m].valid
    ensures st[m].tri == Yes ==> Redundant(w, m, Yes)
  {
    assert Fine(w, st, {}, m);
    MemberEquation(w, m);
    NoDefaults(w.g.info[m], EnvOf(w));
  }

  lemma PickAfter(w: World, visible: Symbol -> Tristate, m: Symbol, c: Symbol)
    requires GoodWorld(w) && m in w.g.info && w.g.info[m].kind.Member? && c in w.g.info && w.g.info[c].kind.Choice?
    ensures m in w.u && c in w.u
    ensures var u' := AfterSet(w.g, w.u, visible, m, Yes);
      c in u' && u'[c].pick == if w.g.info[m].kind == Member(c) then Some(m) else w.u[c].pick
  {
  }

  /** The values of all members of a choice. */
  method CalcMembers(t: SymbolTable, c: Symbol)
    requires t.Valid({}) && c in t.graph.info && t.graph.info[c].kind.Choice?
    requires forall m :: m in t.graph.info[c].kind.members ==> m in t.graph.info
    modifies t`state
    ensures t.Valid({}) && t.world == old(t.world)
    ensures forall m :: m in t.graph.info[c].kind.members ==> MemberCached(t.world, t.state, m)
  {
    var ms := t.graph.info[c].kind.members;
    for k := 0 to |ms|
      invariant t.Valid({}) && forall m :: m in ms[..k] ==> t.state[m].valid
    {
      ghost var was := t.state;
      assert ms[k] in ms;
      t.CalcValue(ms[k], {}, t.graph.rank[ms[k]] + 1);
      forall m | m in ms[..k + 1]
        ensures t.state[m].valid
      {
        assert m in ms && KeptAt(t.world, was, t.state, {}, t.graph.rank[ms[k]] + 1, m);
      }
    }
    assert ms[..|ms|] == ms;
    forall m | m in ms
      ensures MemberCached(t.world, t.state, m)
    {
      assert Fine(t.world, t.state, {}, m);
    }
  }
}
