/** What sym_set_tristate_value changes in the user's values, and which values a choice member admits. */
module SettingLaws {
  import opened Tristates
  import opened Expressions
  import opened SymbolGraph
  import opened UserChanges

  /** Setting a symbol marks it as set, and nothing else, unless it is a member of a choice that is set to
      y: then the choice and its visible members are marked, too. The value changes for the symbol alone,
      and the pick for the choice alone. */
  lemma SetExact(g: Graph, u: Users, visible: Symbol -> Tristate, s: Symbol, val: Tristate, x: Symbol)
    requires s in u && s in g.info && x in u && x in g.info
    requires g.info[s].kind.Member? ==> g.info[s].kind.choice != s
    requires g.info[x].kind.Member? ==> g.info[x].kind.choice != x
    ensures var u' := AfterSet(g, u, visible, s, val);
      var picks := g.info[s].kind.Member? && val == Yes;
      && u'.Keys == u.Keys
      && (u'[x].given <==>
            || u[x].given || x == s
            || (picks && g.info[s].kind == Member(x))
            || (picks && g.info[x].kind == g.info[s].kind && visible(x) != No))
      && u'[x].tri == (if x == s then val else u[x].tri)
      && u'[x].pick == (if picks && g.info[s].kind == Member(x) then Some(s) else u[x].pick)
      && u'[x].val == u[x].val
  {
  }

  /** A visible member of a choice admits y and nothing else; a hidden one admits nothing. */
  lemma MemberAdmits(g: Graph, m: Symbol, i: Info, visible: Tristate, val: Tristate)
    requires i.kind.Member? && m.typ == Boolean && visible != Mod
    ensures WithinRange(g, m, i, visible, No, No, val) <==> visible == Yes && val == Yes
  {
  }

  /** A symbol outside of choices admits the values from what selects it up to its visibility, if there are
      any besides, but no m if it is bool or implied by y. */
  lemma PlainAdmits(g: Graph, s: Symbol, i: Info, visible: Tristate, rev: Tristate, implied: Tristate, val: Tristate)
    requires i.kind.Plain? && IsTristate(s)
    ensures WithinRange(g, s, i, visible, rev, implied, val) <==>
      && Rank(rev) < Rank(visible) && Le(rev, val) && Le(val, visible)
      && (val == Mod ==> s.typ == TristateType && g.modules != No && implied != Yes)
  {
  }
}
