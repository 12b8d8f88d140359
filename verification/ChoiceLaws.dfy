/** What a choice settles on: the user's pick while it is visible, else the first default in force whose
    member is visible, else the first visible member. */
module ChoiceLaws {
  import opened Tristates
  import opened Expressions
  import opened SymbolGraph
  import opened SymbolValues

  predicate Shown(w: World, m: Symbol) {
    m in w.plain && w.plain[m].visible != No
  }

  /** A default of a choice that is in force and names a visible member. */
  ghost predicate Offers(w: World, d: Default) {
    EvalNullable(d.condition, EnvOf(w)) != No && d.value.Sym? && Shown(w, d.value.sym)
  }

  /** Default number `k` is the first that offers a member. */
  ghost predicate FirstOffer(w: World, ds: seq<Default>, k: int) {
    0 <= k < |ds| && Offers(w, ds[k]) && forall j :: 0 <= j < k ==> !Offers(w, ds[j])
  }

  predicate FirstShown(w: World, ms: seq<Symbol>, k: int) {
    0 <= k < |ms| && Shown(w, ms[k]) && forall j :: 0 <= j < k ==> !Shown(w, ms[j])
  }

  /** A choice that is visible sees what ends up visible, and its own conditions do not depend on it. */
  ghost predicate SeesAsIs(w: World, c: Symbol)
    requires c in w.g.info && w.g.info[c].kind.Choice?
  {
    var i, env := w.g.info[c], ChoiceIsYes(c, EnvOf(w));
    && (forall m :: m in i.kind.members ==> MemberVisible(w.g, m, env) == Shown(w, m))
    && (forall d :: d in i.defaults ==> d.value.Sym? && d.value.sym in i.kind.members)
    && (forall d :: d in i.defaults ==> EvalNullable(d.condition, env) == EvalNullable(d.condition, EnvOf(w)))
  }

  lemma ChoiceSees(w: World, c: Symbol)
    requires GoodWorld(w) && c in w.g.info && w.g.info[c].kind.Choice? && w.plain[c].visible == Yes
    ensures SeesAsIs(w, c)
  {
    var i, env := w.g.info[c], ChoiceIsYes(c, EnvOf(w));
    assert GoodSymbol(w.g, c);
    forall m | m in i.kind.members
      ensures MemberVisible(w.g, m, env) == Shown(w, m)
    {
      MemberSeen(w, c, m);
    }
    forall d | d in i.defaults
      ensures EvalNullable(d.condition, env) == EvalNullable(d.condition, EnvOf(w))
    {
      ConditionIgnoresChoice(w, c, d);
    }
  }

  lemma ConditionIgnoresChoice(w: World, c: Symbol, d: Default)
    requires GoodWorld(w) && c in w.g.info && w.g.info[c].kind.Choice? && d in w.g.info[c].defaults
    ensures EvalNullable(d.condition, ChoiceIsYes(c, EnvOf(w))) == EvalNullable(d.condition, EnvOf(w))
  {
    DefaultIsOperand(w.g.info[c], d);
    NotOwnOperand(w, c);
    AgreeBut(d.condition, c, EnvOf(w));
  }

  lemma DefaultIsOperand(i: Info, d: Default)
    requires d in i.defaults
    ensures SymbolsOfNullable(d.condition) <= DefaultConditionSymbols(i.defaults) <= Operands(i)
  {
  }

  lemma NotOwnOperand(w: World, c: Symbol)
    requires GoodWorld(w) && c in w.g.info
    ensures c !in Operands(w.g.info[c])
  {
    assert GoodSymbol(w.g, c);
  }

  lemma AgreeBut(p: Nullable, c: Symbol, env: Env)
    requires c !in SymbolsOfNullable(p)
    ensures EvalNullable(p, ChoiceIsYes(c, env)) == EvalNullable(p, env)
  {
    NullableAgree(p, ChoiceIsYes(c, env), env);
  }

  lemma {:induction false} FirstDefaultExact(w: World, c: Symbol, ds: seq<Default>)
    requires c in w.g.info && w.g.info[c].kind.Choice? && SeesAsIs(w, c)
    requires forall d :: d in ds ==> d in w.g.info[c].defaults
    ensures var r := FirstVisibleDefault(w.g, ds, ChoiceIsYes(c, EnvOf(w)));
      && (forall k :: FirstOffer(w, ds, k) ==> r == Some(ds[k].value.sym))
      && (r.None? <==> forall d :: d in ds ==> !Offers(w, d))
  {
    if ds != [] {
      var rest := ds[1..];
      FirstDefaultExact(w, c, rest);
      assert ds[0] in ds && forall d :: d in ds <==> d == ds[0] || d in rest;
      forall k | FirstOffer(w, ds, k)
        ensures if k == 0 then Offers(w, ds[0]) else !Offers(w, ds[0]) && FirstOffer(w, rest, k - 1)
      {
        assert k > 0 ==> rest[k - 1] == ds[k] && forall j :: 0 <= j < k - 1 ==> rest[j] == ds[j + 1];
      }
    }
  }

  lemma {:induction false} FirstMemberExact(w: World, c: Symbol, ms: seq<Symbol>)
    requires c in w.g.info && w.g.info[c].kind.Choice? && SeesAsIs(w, c)
    requires forall m :: m in ms ==> m in w.g.info[c].kind.members
    ensures var r := FirstVisible(w.g, ms, ChoiceIsYes(c, EnvOf(w)));
      && (forall k :: FirstShown(w, ms, k) ==> r == Some(ms[k]))
      && (r.None? <==> forall m :: m in ms ==> !Shown(w, m))
  {
    if ms != [] {
      var rest := ms[1..];
      FirstMemberExact(w, c, rest);
      assert ms[0] in ms && forall m :: m in ms <==> m == ms[0] || m in rest;
      forall k | FirstShown(w, ms, k)
        ensures if k == 0 then Shown(w, ms[0]) else !Shown(w, ms[0]) && FirstShown(w, rest, k - 1)
      {
        assert k > 0 ==> rest[k - 1] == ms[k] && forall j :: 0 <= j < k - 1 ==> rest[j] == ms[j + 1];
      }
    }
  }

  /** The user's pick counts while it is visible. */
  predicate UserPicks(w: World, c: Symbol)
    requires c in w.u
  {
    w.u[c].pick.Some? && Shown(w, w.u[c].pick.value)
  }

  /** What a visible choice settles on. */
  lemma PickExact(w: World, c: Symbol)
    requires GoodWorld(w) && c in w.g.info && w.g.info[c].kind.Choice? && w.plain[c].visible == Yes
    ensures var i, pick := w.g.info[c], w.plain[c].pick;
      var undecided := !UserPicks(w, c);
      var offered := exists d :: d in i.defaults && Offers(w, d);
      && (UserPicks(w, c) ==> pick == w.u[c].pick)
      && (undecided ==> forall k :: FirstOffer(w, i.defaults, k) ==> pick == Some(i.defaults[k].value.sym))
      && (undecided && !offered ==> forall k :: FirstShown(w, i.kind.members, k) ==> pick == Some(i.kind.members[k]))
      && (pick.None? <==> forall m :: m in i.kind.members ==> !Shown(w, m))
  {
    var i := w.g.info[c];
    ChoiceSees(w, c);
    ChoiceEquation(w, c);
    assert PicksMember(i, w.u[c]);
    FirstDefaultExact(w, c, i.defaults);
    FirstMemberExact(w, c, i.kind.members);
  }
}
