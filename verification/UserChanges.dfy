/** What a change of the user's values does to the plain values: symbols of lower rank keep
    theirs, an accepted value is the value after the next calculation, and a choice always has
    exactly one member set. */
module UserChanges {
  import opened Tristates
  import opened Expressions
  import opened ExprEquality
  import opened SymbolGraph
  import opened SymbolValues

  /** The values of a symbol and of everything of lower rank depend on their own user values only. */
  lemma {:induction false} CalculateLocal(g: Graph, u: Users, u': Users, x: Symbol)
    requires Setting(g, u) && Setting(g, u') && x in g.info
    requires forall y :: y in g.info && g.rank[y] <= g.rank[x] ==> u[y] == u'[y]
    ensures Calculate(g, u, x) == Calculate(g, u', x)
    decreases g.rank[x]
  {
    assert GoodSymbol(g, x) && PicksMember(g.info[x], u[x]);
    forall y | y in g.info && g.rank[y] < g.rank[x]
      ensures Calculate(g, u, y) == Calculate(g, u', y)
    {
      CalculateLocal(g, u, u', y);
    }
    var pick := if g.info[x].kind.Member? then Calculate(g, u, g.info[x].kind.choice).pick else None;
    CalculateWithAgree(g, u[x], x, EnvBelow(g, u, g.rank[x]), EnvBelow(g, u', g.rank[x]), pick);
  }

  /** Values that satisfy the equation of every symbol up to a rank are the plain values there. */
  ghost predicate Solves(g: Graph, u: Users, w: World, s: Symbol)
    requires s in g.info && s in u && w.plain.Keys == g.info.Keys
  {
    && (g.info[s].kind.Member? ==> g.info[s].kind.choice in g.info)
    && w.plain[s] == CalculateWith(g, u[s], s, g.info[s], EnvOf(w),
                                   if g.info[s].kind.Member? then w.plain[g.info[s].kind.choice].pick else None)
  }

  lemma {:induction false} SolutionIsPlain(g: Graph, u: Users, w: World, s: Symbol)
    requires Setting(g, u) && w.g == g && w.plain.Keys == g.info.Keys && s in g.info
    requires forall x {:trigger Solves(g, u, w, x)} :: x in g.info && g.rank[x] <= g.rank[s] ==> Solves(g, u, w, x)
    ensures Calculate(g, u, s) == w.plain[s]
    decreases g.rank[s]
  {
    assert GoodSymbol(g, s) && PicksMember(g.info[s], u[s]) && Solves(g, u, w, s);
    forall x | x in g.info && g.rank[x] < g.rank[s]
      ensures Calculate(g, u, x) == w.plain[x]
    {
      SolutionIsPlain(g, u, w, x);
    }
    var pick := if g.info[s].kind.Member? then w.plain[g.info[s].kind.choice].pick else None;
    CalculateWithAgree(g, u[s], s, EnvBelow(g, u, g.rank[s]), EnvOf(w), pick);
  }

  /** Values that satisfy all equations are the plain values. */
  lemma SolvedPlain(w: World, u: Users)
    requires GoodWorld(w) && Setting(w.g, u) && forall s :: s in w.g.info ==> Solves(w.g, u, w, s)
    ensures WorldOf(w.g, u).plain == w.plain
  {
    forall s | s in w.g.info
      ensures WorldOf(w.g, u).plain[s] == w.plain[s]
    {
      SolutionIsPlain(w.g, u, w, s);
    }
  }

  /** sym_tristate_within_range, on the cached fields of a symbol. */
  predicate WithinRange(g: Graph, s: Symbol, i: Info, visible: Tristate, rev: Tristate, implied: Tristate,
                        val: Tristate) {
    if visible == No then false
    else if s.typ != Boolean && s.typ != TristateType then false
    else if ActsBoolean(g, s) && val == Mod then false
    else if Rank(visible) <= Rank(rev) then false
    else if implied == Yes && val == Mod then false
    else if i.kind.Member? && visible == Yes then val == Yes
    else Le(rev, val) && Le(val, visible)
  }

  /** The user's values after a symbol that is not a choice has been set. Setting a member of a
      choice to y also makes it the choice's pick and marks the visible members as set. */
  function AfterSet(g: Graph, u: Users, visible: Symbol -> Tristate, s: Symbol, val: Tristate): Users
    requires s in u && s in g.info
  {
    var c := if g.info[s].kind.Member? && val == Yes then Some(g.info[s].kind.choice) else None;
    map x | x in u ::
      if x == s then u[x].(given := true, tri := val)
      else if c == Some(x) then u[x].(given := true, pick := Some(s))
      else if c.Some? && x in g.info && g.info[x].kind == Member(c.value) && visible(x) != No then u[x].(given := true)
      else u[x]
  }

  /** Which values, once they are the user's value, survive the calculation: those that
      sym_tristate_within_range admits, and some that it refuses. These are y for a symbol that is
      implied by y and visible as m, the value that is forced on a symbol which is selected at least
      as far as it is visible, and the value that an invisible symbol has anyway. */
  lemma AcceptedValue(g: Graph, s: Symbol, i: Info, user: UserValue, val: Tristate, env: Env)
    requires i.kind.Plain? && (s.typ == Boolean || s.typ == TristateType)
    ensures
      var visible, rev := Visibility(g, s, i, env), ReverseDependency(g, s, i, env);
      var implied := ImpliedValue(g, s, i, env);
      var promoted := ActsBoolean(g, s) || implied == Yes;
      TristateResult(g, s, i, user.(given := true, tri := val), env) == val <==>
        || WithinRange(g, s, i, visible, rev, implied, val)
        || (visible == Mod && implied == Yes && val == Yes)
        || (visible != No && Rank(visible) <= Rank(rev) && val == PromoteIf(promoted, rev))
        || (visible == No && val == PromoteIf(promoted, Max(Max(DefaultTristate(i, env), implied), rev)))
  {
  }

  /** A value y that the visibility does not allow, and that nothing but the default accounts for. */
  predicate Exceeds(visible: Tristate, val: Tristate, rev: Tristate, implied: Tristate) {
    visible == Mod && val == Yes && rev != Yes && implied != Yes
  }

  /** The value of a symbol, once it is the user's value, is its value again, unless it exceeds the
      visibility. */
  lemma KeptTristate(g: Graph, s: Symbol, i: Info, user: UserValue, user': UserValue, env: Env)
    requires i.kind.Plain? && (s.typ == TristateType || (s.typ == Boolean && user'.tri != Mod))
    requires user'.given && user'.tri == TristateResult(g, s, i, user, env)
    ensures TristateResult(g, s, i, user', env) == user'.tri <==>
      !Exceeds(Visibility(g, s, i, env), user'.tri, ReverseDependency(g, s, i, env), ImpliedValue(g, s, i, env))
  {
  }

  /** What is below a symbol does not notice that it is set. */
  lemma SetAgrees(w: World, w': World, s: Symbol)
    requires GoodWorld(w) && GoodWorld(w') && w'.g == w.g && s in w.g.info
    requires forall x :: x in w.g.info && w.g.rank[x] < w.g.rank[s] ==> w'.u[x] == w.u[x]
    ensures forall x :: x in w.g.info && w.g.rank[x] < w.g.rank[s] ==> w'.plain[x] == w.plain[x]
    ensures Agree(EnvOf(w), EnvOf(w'), Operands(w.g.info[s]))
  {
    forall x | x in w.g.info && w.g.rank[x] < w.g.rank[s]
      ensures w'.plain[x] == w.plain[x]
    {
      CalculateLocal(w.g, w.u, w'.u, x);
    }
    OperandsAgree(w.g, s, EnvOf(w), EnvOf(w'));
  }

  /** sym_set_tristate_value on a symbol outside of choices: if the value is accepted, it is the
      value that the next calculation gives. */
  lemma SetPlain(w: World, w': World, s: Symbol, val: Tristate)
    requires GoodWorld(w) && GoodWorld(w') && w'.g == w.g && s in w.g.info && w.g.info[s].kind.Plain?
    requires w'.u == w.u[s := w.u[s].(given := true, tri := val)]
    requires WithinRange(w.g, s, w.g.info[s], w.plain[s].visible, w.plain[s].revDep, w.plain[s].implied, val)
    ensures w'.plain[s].tri == val
    ensures forall x :: x in w.g.info && w.g.rank[x] < w.g.rank[s] ==> w'.plain[x] == w.plain[x]
  {
    var g, i := w.g, w.g.info[s];
    assert !IsTristateConstant(s);
    SetAgrees(w, w', s);
    PlainEquation(w, s);
    PlainEquation(w', s);
    OperandsAgreeParts(i, EnvOf(w), EnvOf(w'));
    PromptsAgree(i.prompts, EnvOf(w), EnvOf(w'));
    DependenciesAgree(g, s, i, EnvOf(w), EnvOf(w'));
    AcceptedValue(g, s, i, w.u[s], val, EnvOf(w'));
  }

  /** The member that a choice settles on: the visible user pick, else the first visible default,
      else the first visible member. */
  ghost function Settlement(w: World, c: Symbol): Option<Symbol>
    requires c in w.g.info && w.g.info[c].kind.Choice? && c in w.u
  {
    ChoicePick(w.g, w.g.info[c], w.u[c], ChoiceIsYes(c, EnvOf(w)))
  }

  /** The value of a member without defaults, by what its choice picks. */
  ghost predicate MemberFollows(w: World, c: Symbol, m: Symbol)
    requires m in w.plain && c in w.plain
  {
    && (w.plain[m].visible == No ==> w.plain[m].tri == No)
    && (w.plain[m].visible != No ==>
          && w.plain[m].tri == FromBool(w.plain[c].pick == Some(m)) && w.plain[m].visible == Yes
          && w.plain[c].visible == Yes)
    && (w.plain[c].visible == Yes ==> MemberVisible(w.g, m, ChoiceIsYes(c, EnvOf(w))) == (w.plain[m].visible != No))
  }

  lemma MemberValue(w: World, c: Symbol, m: Symbol)
    requires GoodWorld(w) && c in w.g.info && w.g.info[c].kind.Choice? && m in w.g.info[c].kind.members
    requires m in w.g.info && w.g.info[m].kind == Member(c) && w.g.info[m].defaults == []
    ensures MemberFollows(w, c, m)
  {
    MemberEquation(w, m);
    NoDefaults(w.g.info[m], EnvOf(w));
    if w.plain[m].visible == Yes {
      VisibleMemberOf(w, m);
    }
    if w.plain[c].visible == Yes {
      MemberSeen(w, c, m);
    }
  }

  /** A mandatory bool choice whose members have no defaults is exclusive: if any member is
      visible, exactly the settled one is y; if none is, all are n. */
  lemma ChoiceExclusive(w: World, c: Symbol)
    requires GoodWorld(w) && c in w.g.info && w.g.info[c].kind.Choice?
    requires forall m :: m in w.g.info[c].kind.members && m in w.g.info ==> w.g.info[m].defaults == []
    ensures forall m :: m in w.g.info[c].kind.members ==> m in w.g.info
    ensures (exists m :: m in w.g.info[c].kind.members && w.plain[m].visible != No) ==>
      && Settlement(w, c).Some? && Settlement(w, c).value in w.g.info[c].kind.members
      && w.plain[Settlement(w, c).value].visible == Yes
      && w.plain[c].tri == Yes
      && forall m :: m in w.g.info[c].kind.members ==> (w.plain[m].tri == Yes <==> m == Settlement(w, c).value)
    ensures (forall m :: m in w.g.info[c].kind.members ==> w.plain[m].visible == No) ==> w.plain[c].tri == No
    ensures forall m :: m in w.g.info[c].kind.members ==>
      w.plain[m].tri != Mod && (w.plain[m].visible == No ==> w.plain[m].tri == No)
  {
    var i, env := w.g.info[c], EnvOf(w);
    MembersAreGood(w.g, c);
    ChoiceEquation(w, c);
    forall m | m in i.kind.members
      ensures MemberFollows(w, c, m)
    {
      MemberValue(w, c, m);
    }
    PickIsMember(w, c);
    if m :| m in i.kind.members && w.plain[m].visible != No {
      if w.plain[c].pick.None? {
        NothingPicked(w.g, i, w.u[c], ChoiceIsYes(c, env), m);
      }
    }
  }

  lemma NoDefaults(i: Info, env: Env)
    requires i.defaults == []
    ensures DefaultTristate(i, env) == No
  {
  }

  /** Whatever a choice picks is one of its visible members. */
  lemma PickIsMember(w: World, c: Symbol)
    requires GoodWorld(w) && c in w.g.info && w.g.info[c].kind.Choice?
    ensures w.plain[c].pick.Some? ==>
      && w.plain[c].visible == Yes && w.plain[c].pick.value in w.g.info[c].kind.members
      && MemberVisible(w.g, w.plain[c].pick.value, ChoiceIsYes(c, EnvOf(w)))
  {
    ChoiceEquation(w, c);
    assert GoodSymbol(w.g, c) && PicksMember(w.g.info[c], w.u[c]);
    FirstDefaultIsVisible(w.g, w.g.info[c].defaults, ChoiceIsYes(c, EnvOf(w)), w.g.info[c].kind.members);
    FirstVisibleIsVisible(w.g, w.g.info[c].kind.members, ChoiceIsYes(c, EnvOf(w)));
  }

  lemma {:induction false} FirstDefaultIsVisible(g: Graph, ds: seq<Default>, env: Env, ms: seq<Symbol>)
    requires forall d :: d in ds ==> d.value.Sym? && d.value.sym in ms
    ensures var r := FirstVisibleDefault(g, ds, env); r.Some? ==> r.value in ms && MemberVisible(g, r.value, env)
  {
    if ds != [] {
      FirstDefaultIsVisible(g, ds[1..], env, ms);
    }
  }

  lemma {:induction false} FirstVisibleIsVisible(g: Graph, ms: seq<Symbol>, env: Env)
    ensures var r := FirstVisible(g, ms, env); r.Some? ==> r.value in ms && MemberVisible(g, r.value, env)
  {
    if ms != [] {
      FirstVisibleIsVisible(g, ms[1..], env);
    }
  }

  /** What is below a choice does not notice a change of the choice, and so the choice and its
      members see the same as before. */
  lemma ChoiceSeesSame(w: World, w': World, c: Symbol, s: Symbol)
    requires GoodWorld(w) && GoodWorld(w') && w'.g == w.g && c in w.g.info && w.g.info[c].kind.Choice?
    requires forall x :: x in w.g.info && w.g.rank[x] < w.g.rank[c] ==> w'.u[x] == w.u[x]
    requires s in w.g.info && w.g.info[s].kind == Member(c) && GoodMember(w.g, s)
    ensures w'.plain[c].visible == w.plain[c].visible
    ensures Visibility(w.g, s, w.g.info[s], ChoiceIsYes(c, EnvOf(w'))) ==
      Visibility(w.g, s, w.g.info[s], ChoiceIsYes(c, EnvOf(w)))
  {
    SetAgrees(w, w', c);
    ChoiceEquation(w, c);
    ChoiceEquation(w', c);
    OperandsAgreeParts(w.g.info[c], EnvOf(w), EnvOf(w'));
    PromptsAgree(w.g.info[c].prompts, EnvOf(w), EnvOf(w'));
    MemberPromptsAgree(w, w', c, s);
    PromptsAgree(w.g.info[s].prompts, ChoiceIsYes(c, EnvOf(w)), ChoiceIsYes(c, EnvOf(w')));
  }

  lemma MemberPromptsAgree(w: World, w': World, c: Symbol, s: Symbol)
    requires GoodWorld(w) && GoodWorld(w') && w'.g == w.g && c in w.g.info
    requires forall x :: x in w.g.info && w.g.rank[x] < w.g.rank[c] ==> w'.plain[x] == w.plain[x]
    requires s in w.g.info && w.g.info[s].kind == Member(c) && GoodMember(w.g, s)
    ensures Agree(ChoiceIsYes(c, EnvOf(w)), ChoiceIsYes(c, EnvOf(w')), PromptSymbols(w.g.info[s].prompts))
  {
    var xs := PromptSymbols(w.g.info[s].prompts);
    forall x | x in xs && x != c
      ensures x in w.plain && x in w'.plain && w'.plain[x] == w.plain[x]
    {
      assert x in xs - {c};
    }
    AgreeBesides(w, w', c, xs);
  }

  lemma AgreeBesides(w: World, w': World, c: Symbol, xs: set<Symbol>)
    requires w'.g == w.g
    requires forall x :: x in xs && x != c ==> x in w.plain && x in w'.plain && w'.plain[x] == w.plain[x]
    ensures Agree(ChoiceIsYes(c, EnvOf(w)), ChoiceIsYes(c, EnvOf(w')), xs)
  {
  }

  /** sym_set_tristate_value on a visible member of a choice: the member becomes the pick, and y. */
  lemma SetMember(w: World, w': World, s: Symbol)
    requires GoodWorld(w) && GoodWorld(w') && w'.g == w.g && s in w.g.info && w.g.info[s].kind.Member?
    requires w.g.info[s].kind.choice in w'.u && w'.u[w.g.info[s].kind.choice].pick == Some(s)
    requires w.g.info[s].kind.choice in w.g.info
    requires forall x :: x in w.g.info && w.g.rank[x] < w.g.rank[w.g.info[s].kind.choice] ==> w'.u[x] == w.u[x]
    requires w.plain[s].visible == Yes
    ensures w'.plain[s].tri == Yes && w'.plain[s].visible == Yes
    ensures w'.plain[w.g.info[s].kind.choice].pick == Some(s)
  {
    var c := w.g.info[s].kind.choice;
    MemberEquation(w, s);
    ChoiceSeesSame(w, w', c, s);
    VisibleMemberOf(w, s);
    MemberSeen(w', c, s);
    ChoiceEquation(w', c);
    MemberEquation(w', s);
  }

  /** The choice of a visible member is y, and sees the member. */
  lemma VisibleMemberOf(w: World, s: Symbol)
    requires GoodWorld(w) && s in w.g.info && w.g.info[s].kind.Member? && w.plain[s].visible == Yes
    ensures w.g.info[s].kind.choice in w.plain
    ensures w.plain[w.g.info[s].kind.choice].tri == Yes && w.plain[w.g.info[s].kind.choice].visible == Yes
    ensures MemberVisible(w.g, s, ChoiceIsYes(w.g.info[s].kind.choice, EnvOf(w)))
  {
    var c := w.g.info[s].kind.choice;
    MemberEquation(w, s);
    ChoiceEquation(w, c);
    EnvOfTyped(w);
    ChoicePromptsBound(c, w.g.info[s].prompts, EnvOf(w));
    MemberSeen(w, c, s);
  }

  /** A member's own user value is never looked at. */
  lemma MemberIgnoresUser(g: Graph, m: Symbol, i: Info, env: Env, pick: Option<Symbol>, a: UserValue, b: UserValue)
    requires i.kind.Member? && m.typ == Boolean
    ensures CalculateWith(g, a, m, i, env, pick) == CalculateWith(g, b, m, i, env, pick)
  {
  }

  /** The choice of `s` settles as before once `s` is what the user picks. */
  ghost predicate SettlesSame(w: World, s: Symbol)
    requires s in w.g.info && s in w.plain && w.g.info[s].kind.Member?
  {
    var c := w.g.info[s].kind.choice;
    && c in w.g.info && c in w.plain && w.g.info[c].kind.Choice?
    && (w.plain[s].visible == Yes || w.plain[c].visible != Yes
        || w.plain[c].pick == ChoiceDefault(w.g, w.g.info[c], ChoiceIsYes(c, EnvOf(w))))
  }

  /** Setting a symbol to the value that it has changes no value at all. For a symbol outside of
      choices the value must not exceed the visibility. A member that is set to y must be visible, or
      what its choice settles on is the default anyway. */
  ghost predicate Redundant(w: World, s: Symbol, val: Tristate) {
    && s in w.g.info && s in w.plain && w.plain[s].tri == val
    && (w.g.info[s].kind.Plain? ==>
          IsTristate(s) && !Exceeds(w.plain[s].visible, val, w.plain[s].revDep, w.plain[s].implied))
    && (w.g.info[s].kind.Member? && val == Yes ==> SettlesSame(w, s))
  }

  lemma SetSame(w: World, u': Users, s: Symbol, val: Tristate, visible: Symbol -> Tristate, x: Symbol)
    requires GoodWorld(w) && s in w.g.info && Redundant(w, s, val)
    requires u' == AfterSet(w.g, w.u, visible, s, val) && x in w.g.info
    ensures Solves(w.g, u', w, x)
  {
    var g, i := w.g, w.g.info[x];
    CalculateEquation(w, x);
    if g.info[s].kind.Member? {
      MemberEquation(w, s);
    }
    match i.kind
    case Member(c) =>
      MemberEquation(w, x);
      MemberIgnoresUser(g, x, i, EnvOf(w), w.plain[c].pick, w.u[x], u'[x]);
    case Plain =>
      if x == s {
        SetSamePlain(w, s, val);
      }
    case Choice(_) =>
      SetSameChoice(w, u', s, val, visible, x);
  }

  lemma SetSamePlain(w: World, s: Symbol, val: Tristate)
    requires GoodWorld(w) && s in w.g.info && w.g.info[s].kind.Plain? && Redundant(w, s, val)
    ensures CalculateWith(w.g, w.u[s].(given := true, tri := val), s, w.g.info[s], EnvOf(w), None)
         == CalculateWith(w.g, w.u[s], s, w.g.info[s], EnvOf(w), None)
  {
    var user' := w.u[s].(given := true, tri := val);
    PlainEquation(w, s);
    EnvOfTyped(w);
    assert EnvOf(w).tri(s) == val;
    KeptTristate(w.g, s, w.g.info[s], w.u[s], user', EnvOf(w));
    CalculateEquation(w, s);
    PlainCalculation(w.g, user', s, w.g.info[s], EnvOf(w));
  }

  /** Otherwise the value is another one, although nothing is invalidated. */
  lemma SetSameExact(w: World, w': World, s: Symbol, val: Tristate)
    requires GoodWorld(w) && GoodWorld(w') && w'.g == w.g && s in w.g.info && w.g.info[s].kind.Plain?
    requires (s.typ == Boolean || s.typ == TristateType) && w.plain[s].tri == val
    requires w'.u == w.u[s := w.u[s].(given := true, tri := val)]
    ensures w'.plain[s].tri == val <==> Redundant(w, s, val)
  {
    var i := w.g.info[s];
    SetAgrees(w, w', s);
    PlainEquation(w, s);
    PlainEquation(w', s);
    TristateResultAgree(w.g, s, i, w.u[s], EnvOf(w), EnvOf(w'));
    OperandsAgreeParts(i, EnvOf(w), EnvOf(w'));
    PromptsAgree(i.prompts, EnvOf(w), EnvOf(w'));
    DependenciesAgree(w.g, s, i, EnvOf(w), EnvOf(w'));
    EnvOfTyped(w);
    assert EnvOf(w).tri(s) == val;
    KeptTristate(w.g, s, i, w.u[s], w'.u[s], EnvOf(w'));
  }

  lemma SetSamePick(w: World, u': Users, s: Symbol, val: Tristate, visible: Symbol -> Tristate, c: Symbol)
    requires GoodWorld(w) && s in w.g.info && Redundant(w, s, val)
    requires u' == AfterSet(w.g, w.u, visible, s, val) && c in w.g.info && w.g.info[c].kind.Choice?
    requires w.plain[c].visible == Yes
    ensures ChoicePick(w.g, w.g.info[c], u'[c], ChoiceIsYes(c, EnvOf(w))) == w.plain[c].pick
  {
    ChoiceEquation(w, c);
    if u'[c].pick != w.u[c].pick {
      MemberEquation(w, s);
      PickedAgain(w, s, u'[c]);
    }
  }

  lemma PickedAgain(w: World, s: Symbol, user: UserValue)
    requires GoodWorld(w) && s in w.g.info && w.g.info[s].kind.Member? && user.pick == Some(s)
    requires Redundant(w, s, Yes)
    ensures var c := w.g.info[s].kind.choice;
      c in w.g.info && c in w.plain && w.g.info[c].kind.Choice? &&
      (w.plain[c].visible == Yes ==>
         ChoicePick(w.g, w.g.info[c], user, ChoiceIsYes(c, EnvOf(w))) == w.plain[c].pick)
  {
    var c := w.g.info[s].kind.choice;
    MemberEquation(w, s);
    if w.plain[c].visible == Yes {
      MemberSeen(w, c, s);
      PickIsMember(w, c);
    }
  }

  /** If it changes the user's values but not the values, it is redundant. */
  lemma SetSameOnly(w: World, w': World, s: Symbol, val: Tristate, visible: Symbol -> Tristate)
    requires GoodWorld(w) && GoodWorld(w') && w'.g == w.g && s in w.g.info
    requires w'.u == AfterSet(w.g, w.u, visible, s, val) && w.plain[s].tri == val
    requires w.g.info[s].kind.Plain? ==> IsTristate(s)
    requires w'.plain == w.plain
    ensures Redundant(w, s, val)
  {
    match w.g.info[s].kind
    case Plain =>
      SetSameExact(w, w', s, val);
    case Choice(_) =>
    case Member(c) =>
      if val == Yes {
        MemberEquation(w, s);
        SetSameMember(w, w', s);
      }
  }

  lemma SetSameMember(w: World, w': World, s: Symbol)
    requires GoodWorld(w) && GoodWorld(w') && w'.g == w.g && w'.plain == w.plain
    requires s in w.g.info && w.g.info[s].kind.Member? && w.g.info[s].kind.choice in w.g.info
    requires w'.u[w.g.info[s].kind.choice].pick == Some(s)
    ensures SettlesSame(w, s)
  {
    var c := w.g.info[s].kind.choice;
    MemberEquation(w, s);
    if w.plain[c].visible == Yes && w.plain[s].visible != Yes {
      assert EnvOf(w') == EnvOf(w);
      ChoiceEquation(w', c);
      MemberSeen(w, c, s);
    }
  }

  lemma SetSameChoice(w: World, u': Users, s: Symbol, val: Tristate, visible: Symbol -> Tristate, c: Symbol)
    requires GoodWorld(w) && s in w.g.info && Redundant(w, s, val)
    requires u' == AfterSet(w.g, w.u, visible, s, val) && c in w.g.info && w.g.info[c].kind.Choice?
    ensures CalculateWith(w.g, u'[c], c, w.g.info[c], EnvOf(w), None) == w.plain[c]
  {
    CalculateEquation(w, c);
    if w.plain[c].visible == Yes {
      SetSamePick(w, u', s, val, visible, c);
    }
    ChoiceEquation(w, c);
    assert GoodSymbol(w.g, c);
    EnvOfTyped(w);
    ConstantValues(EnvOf(w));
    ChoiceCalculation(w.g, w.u[c], c, w.g.info[c], EnvOf(w));
    ChoiceCalculation(w.g, u'[c], c, w.g.info[c], EnvOf(w));
    SameResult(w.g, w.u[c], u'[c], c, w.g.info[c], EnvOf(w));
  }

  /** Two calculations of a choice differ at most in what is picked. */
  lemma SameResult(g: Graph, a: UserValue, b: UserValue, c: Symbol, i: Info, env: Env)
    requires i.kind.Choice? && c.typ == Boolean && MandatoryChoice(c, i) && Typed(env)
    requires CalculateWith(g, a, c, i, env, None).pick == CalculateWith(g, b, c, i, env, None).pick
    ensures CalculateWith(g, a, c, i, env, None) == CalculateWith(g, b, c, i, env, None)
  {
    MandatoryMode(g, c, i, a, env);
    MandatoryMode(g, c, i, b, env);
  }

  /** The whole world stays as it is. */
  lemma SetSameWorld(w: World, s: Symbol, val: Tristate, visible: Symbol -> Tristate)
    requires GoodWorld(w) && s in w.g.info && Redundant(w, s, val)
    requires Setting(w.g, AfterSet(w.g, w.u, visible, s, val))
    ensures WorldOf(w.g, AfterSet(w.g, w.u, visible, s, val)).plain == w.plain
  {
    var u' := AfterSet(w.g, w.u, visible, s, val);
    forall x | x in w.g.info
      ensures Solves(w.g, u', w, x)
    {
      SetSame(w, u', s, val, visible, x);
    }
    SolvedPlain(w, u');
  }
}
