/** What menu_finalize makes of the symbols: the value of each reverse dependency, and the choices and
    members that the evaluator relies on. */
module MenuGraph {
  import opened Tristates
  import opened Expressions
  import opened ExprEquality
  import opened SymbolGraph
  import opened MenuTree
  import opened MenuRelations
  import opened MenuMeaning
  import opened MemberPrompts
  import DependencyCheck

  // ----- the value of what has been recorded -----

  /** The reverse dependency of a symbol, or what implies it. */
  function FieldOf(f: Facts, imply: bool): Nullable {
    if imply then f.implied else f.revDep
  }

  /** What one event adds for the symbol `s`. */
  function EventValue(e: Event, imply: bool, s: Symbol, env: Env): Tristate {
    match e
    case SelectedBy(x, cause) => if !imply && x == s then Eval(cause, env) else No
    case ImpliedBy(x, cause) => if imply && x == s then Eval(cause, env) else No
    case _ => No
  }

  function EventsValue(es: seq<Event>, imply: bool, s: Symbol, env: Env): Tristate {
    if es == [] then No
    else Max(EventsValue(es[..|es| - 1], imply, s, env), EventValue(es[|es| - 1], imply, s, env))
  }

  lemma {:induction false} EventsJoin(a: seq<Event>, b: seq<Event>, imply: bool, s: Symbol, env: Env)
    ensures EventsValue(a + b, imply, s, env) == Max(EventsValue(a, imply, s, env), EventsValue(b, imply, s, env))
  {
    if b == [] {
      assert a + b == a;
    } else {
      var last := |b| - 1;
      assert (a + b)[..|a + b| - 1] == a + b[..last];
      EventsJoin(a, b[..last], imply, s, env);
    }
  }

  lemma EventsOne(e: Event, imply: bool, s: Symbol, env: Env)
    ensures EventsValue([e], imply, s, env) == EventValue(e, imply, s, env)
  {
    assert [e][..0] == [] && EventsValue([], imply, s, env) == No;
  }

  lemma RecordValue(t: Table, e: Event, imply: bool, s: Symbol, env: Env)
    ensures ReverseValue(FieldOf(Of(Record(t, e), s), imply), env) ==
      Max(ReverseValue(FieldOf(Of(t, s), imply), env), EventValue(e, imply, s, env))
  {
  }

  /** The fields have the value of the strongest cause. */
  lemma {:induction false} ReplayValue(t: Table, es: seq<Event>, imply: bool, s: Symbol, env: Env)
    ensures ReverseValue(FieldOf(Of(Replay(t, es), s), imply), env) ==
      Max(ReverseValue(FieldOf(Of(t, s), imply), env), EventsValue(es, imply, s, env))
  {
    if es != [] {
      var last := |es| - 1;
      ReplayValue(t, es[..last], imply, s, env);
      RecordValue(Replay(t, es[..last]), es[last], imply, s, env);
    }
  }

  // ----- the value by the nodes of the menu -----

  /** A select or imply property of the symbol of a node. */
  function PropertyValue(x: Symbol, p: Property, imply: bool, s: Symbol, env: Env): Tristate {
    if p.effect == (if imply then Implies(s) else Selects(s)) then Min(env.tri(x), EvalNullable(p.condition, env))
    else No
  }

  function PropertiesValue(x: Symbol, ps: seq<Property>, imply: bool, s: Symbol, env: Env): Tristate {
    if ps == [] then No
    else Max(PropertiesValue(x, ps[..|ps| - 1], imply, s, env), PropertyValue(x, ps[|ps| - 1], imply, s, env))
  }

  function OwnValue(i: Item, imply: bool, s: Symbol, env: Env): Tristate {
    if i.sym.Some? then PropertiesValue(i.sym.value, i.others, imply, s, env) else No
  }

  /** A mandatory choice selects itself. */
  function ForcedValue(i: Item, imply: bool, s: Symbol, env: Env): Tristate {
    if !imply && i.sym == Some(s) && i.mandatory && i.prompted then Min(EvalNullable(i.visible, env), Mod) else No
  }

  /** The strongest of all select (or imply) properties of the menu that name the symbol `s`. */
  ghost function MenuValue(f: Forest, imply: bool, s: Symbol, env: Env): Tristate {
    match f
    case Nil => No
    case Node(_, i, k, r) =>
      Max(Max(OwnValue(i, imply, s, env), ForcedValue(i, imply, s, env)),
          Max(MenuValue(k, imply, s, env), MenuValue(r, imply, s, env)))
  }

  lemma {:induction false} PropertyEventsValue(x: Symbol, ps: seq<Property>, imply: bool, s: Symbol, env: Env)
    ensures EventsValue(PropertyEvents(x, ps), imply, s, env) == PropertiesValue(x, ps, imply, s, env)
  {
    if ps != [] {
      var last := |ps| - 1;
      PropertyEventsValue(x, ps[..last], imply, s, env);
      EventsJoin(PropertyEvents(x, ps[..last]), PropertyEvent(x, ps[last]), imply, s, env);
      PropertyEventValue(x, ps[last], imply, s, env);
    }
  }

  lemma UnderValue(x: Symbol, condition: Nullable, env: Env)
    ensures Eval(Under(x, condition), env) == Min(env.tri(x), EvalNullable(condition, env))
  {
  }

  lemma PropertyEventValue(x: Symbol, p: Property, imply: bool, s: Symbol, env: Env)
    ensures EventsValue(PropertyEvent(x, p), imply, s, env) == PropertyValue(x, p, imply, s, env)
  {
    UnderValue(x, p.condition, env);
    match p.effect
    case NoEffect =>
    case Selects(y) => EventsOne(SelectedBy(y, Under(x, p.condition)), imply, s, env);
    case Implies(y) => EventsOne(ImpliedBy(y, Under(x, p.condition)), imply, s, env);
  }

  lemma ItemEventsValue(i: Item, imply: bool, s: Symbol, env: Env)
    ensures EventsValue(ItemEvents(i), imply, s, env) == OwnValue(i, imply, s, env)
  {
    if i.sym.Some? {
      PropertyEventsValue(i.sym.value, i.others, imply, s, env);
    }
  }

  lemma ForcedEval(visible: Nullable, env: Env)
    requires Typed(env)
    ensures Eval(Forced(visible), env) == Min(EvalNullable(visible, env), Mod)
  {
    ConstantValues(env);
  }

  lemma ForceEventsValue(i: Item, imply: bool, s: Symbol, env: Env)
    requires Typed(env)
    ensures EventsValue(ForceEvents(i), imply, s, env) == ForcedValue(i, imply, s, env)
  {
    if i.sym.Some? && i.mandatory && i.prompted {
      ForcedEval(i.visible, env);
      EventsOne(SelectedBy(i.sym.value, Forced(i.visible)), imply, s, env);
    }
  }

  lemma {:induction false} MemberEventsValue(parent: Item, f: Forest, imply: bool, s: Symbol, env: Env)
    ensures EventsValue(MemberEvents(parent, f), imply, s, env) == No
  {
    if f.Node? {
      MemberEventsValue(parent, f.rest, imply, s, env);
      EventsJoin(EnterEvents(parent, f.item), MemberEvents(parent, f.rest), imply, s, env);
      if EnterEvents(parent, f.item) != [] {
        EventsOne(Enters(f.item.sym.value, parent.sym.value), imply, s, env);
      }
    }
  }

  /** The properties of the nodes of a list, which are recorded before any of the nodes is finalised. */
  ghost function ListValue(f: Forest, imply: bool, s: Symbol, env: Env): Tristate {
    match f
    case Nil => No
    case Node(_, i, _, r) => Max(OwnValue(i, imply, s, env), ListValue(r, imply, s, env))
  }

  lemma {:induction false} ListEventsValue(f: Forest, imply: bool, s: Symbol, env: Env)
    ensures EventsValue(ListEvents(f), imply, s, env) == ListValue(f, imply, s, env)
  {
    if f.Node? {
      ItemEventsValue(f.item, imply, s, env);
      ListEventsValue(f.rest, imply, s, env);
      EventsJoin(ItemEvents(f.item), ListEvents(f.rest), imply, s, env);
    }
  }

  lemma {:induction false} AppendValue(f: Forest, g: Forest, imply: bool, s: Symbol, env: Env)
    ensures MenuValue(Append(f, g), imply, s, env) == Max(MenuValue(f, imply, s, env), MenuValue(g, imply, s, env))
  {
    if f.Node? {
      AppendValue(f.rest, g, imply, s, env);
    }
  }

  lemma {:induction false} FlattenValue(f: Forest, imply: bool, s: Symbol, env: Env)
    ensures MenuValue(Flatten(f), imply, s, env) == MenuValue(f, imply, s, env)
    decreases MenuTree.Size(f)
  {
    if f.Node? {
      if f.kids.Node? && !(f.item.prompted && f.item.titled) {
        AppendValue(f.kids, f.rest, imply, s, env);
        FlattenValue(Append(f.kids, f.rest), imply, s, env);
      } else {
        FlattenValue(f.rest, imply, s, env);
      }
    }
  }

  /** The values that are collected from a node and from those behind it, in either order. */
  lemma MaxChain(a: Tristate, b: Tristate, own: Tristate, list: Tristate, forced: Tristate, kids: Tristate,
                 later: Tristate, rest: Tristate)
    requires Max(a, list) == Max(Max(forced, kids), later) && Max(b, later) == rest
    ensures Max(Max(a, b), Max(own, list)) == Max(Max(own, forced), Max(kids, rest))
  {
  }

  lemma MaxAssociates(a: Tristate, b: Tristate, c: Tristate, d: Tristate)
    ensures Max(a, Max(b, Max(c, d))) == Max(Max(a, Max(b, c)), d)
  {
  }

  /** What is recorded while the first node of a list is finalised is what its subtree says in the end. */
  lemma {:induction false} FirstValue(f: Forest, modules: Symbol, imply: bool, s: Symbol, env: Env)
    requires f.Node? && Typed(env)
    ensures var g := FinalizeFirst(f, modules);
      Max(EventsValue(FirstEvents(f, modules), imply, s, env), ListValue(f.rest, imply, s, env)) ==
      Max(Max(ForcedValue(f.item, imply, s, env), MenuValue(g.kids, imply, s, env)), ListValue(g.rest, imply, s, env))
    decreases MenuTree.Size(f), 1
  {
    InnerValue(f, modules, imply, s, env);
    ForceEventsValue(f.item, imply, s, env);
    EventsJoin(InnerEvents(f, modules), ForceEvents(f.item), imply, s, env);
  }

  lemma {:induction false} InnerValue(f: Forest, modules: Symbol, imply: bool, s: Symbol, env: Env)
    requires f.Node? && Typed(env)
    ensures var g := FinalizeFirst(f, modules);
      Max(EventsValue(InnerEvents(f, modules), imply, s, env), ListValue(f.rest, imply, s, env)) ==
      Max(MenuValue(g.kids, imply, s, env), ListValue(g.rest, imply, s, env))
    decreases MenuTree.Size(f), 0
  {
    if f.kids.Node? {
      var k := PropagateAll(Inherited(f.item), f.kids, modules);
      AllValue(k, modules, imply, s, env);
      ParentEventsValue(f.item, k, modules, imply, s, env);
    } else if f.item.sym.Some? {
      TakenValue(f.item, f.rest, modules, imply, s, env);
      FlattenValue(Steal(f.item, f.rest, modules).0, imply, s, env);
      LeafEventsValue(f.item, TakenEvents(f.item, f.rest, modules), FinalizeFirst(f, modules).kids, imply, s, env);
    }
  }

  lemma ParentEventsValue(i: Item, k: Forest, modules: Symbol, imply: bool, s: Symbol, env: Env)
    requires Max(EventsValue(AllEvents(k, modules), imply, s, env), ListValue(k, imply, s, env)) ==
      MenuValue(FinalizeAll(k, modules), imply, s, env)
    ensures var g := Flatten(FinalizeAll(k, modules));
      EventsValue(ListEvents(k) + AllEvents(k, modules) + MemberEvents(i, g), imply, s, env) ==
      MenuValue(g, imply, s, env)
  {
    var g := Flatten(FinalizeAll(k, modules));
    ListEventsValue(k, imply, s, env);
    FlattenValue(FinalizeAll(k, modules), imply, s, env);
    MemberEventsValue(i, g, imply, s, env);
    EventsJoin(ListEvents(k), AllEvents(k, modules), imply, s, env);
    EventsJoin(ListEvents(k) + AllEvents(k, modules), MemberEvents(i, g), imply, s, env);
  }

  lemma LeafEventsValue(i: Item, taken: seq<Event>, g: Forest, imply: bool, s: Symbol, env: Env)
    requires i.sym.Some?
    ensures EventsValue(taken + [DependsOn(i.sym.value, i.dep)] + MemberEvents(i, g), imply, s, env) ==
      EventsValue(taken, imply, s, env)
  {
    var own := DependsOn(i.sym.value, i.dep);
    MemberEventsValue(i, g, imply, s, env);
    EventsOne(own, imply, s, env);
    EventsJoin(taken, [own], imply, s, env);
    EventsJoin(taken + [own], MemberEvents(i, g), imply, s, env);
  }

  lemma {:induction false} AllValue(f: Forest, modules: Symbol, imply: bool, s: Symbol, env: Env)
    requires Typed(env)
    ensures Max(EventsValue(AllEvents(f, modules), imply, s, env), ListValue(f, imply, s, env)) ==
      MenuValue(FinalizeAll(f, modules), imply, s, env)
    decreases MenuTree.Size(f), 2
  {
    if f.Node? {
      var g := FinalizeFirst(f, modules);
      FirstValue(f, modules, imply, s, env);
      AllValue(g.rest, modules, imply, s, env);
      EventsJoin(FirstEvents(f, modules), AllEvents(g.rest, modules), imply, s, env);
      MaxChain(EventsValue(FirstEvents(f, modules), imply, s, env),
               EventsValue(AllEvents(g.rest, modules), imply, s, env),
               OwnValue(f.item, imply, s, env), ListValue(f.rest, imply, s, env), ForcedValue(f.item, imply, s, env),
               MenuValue(g.kids, imply, s, env), ListValue(g.rest, imply, s, env),
               MenuValue(FinalizeAll(g.rest, modules), imply, s, env));
    }
  }

  lemma {:induction false} TakenValue(i: Item, f: Forest, modules: Symbol, imply: bool, s: Symbol, env: Env)
    requires i.sym.Some? && Typed(env)
    ensures var (stolen, left) := Steal(i, f, modules);
      Max(EventsValue(TakenEvents(i, f, modules), imply, s, env), ListValue(f, imply, s, env)) ==
      Max(MenuValue(stolen, imply, s, env), ListValue(left, imply, s, env))
    decreases MenuTree.Size(f), 2
  {
    if f.Node? && Joins(i, f.item) {
      var g := FinalizeFirst(f, modules);
      FirstValue(f, modules, imply, s, env);
      TakenValue(i, g.rest, modules, imply, s, env);
      var (stolen, left) := Steal(i, g.rest, modules);
      EventsJoin(FirstEvents(f, modules), TakenEvents(i, g.rest, modules), imply, s, env);
      MaxChain(EventsValue(FirstEvents(f, modules), imply, s, env),
               EventsValue(TakenEvents(i, g.rest, modules), imply, s, env),
               OwnValue(f.item, imply, s, env), ListValue(f.rest, imply, s, env), ForcedValue(f.item, imply, s, env),
               MenuValue(g.kids, imply, s, env), ListValue(g.rest, imply, s, env),
               Max(MenuValue(stolen, imply, s, env), ListValue(left, imply, s, env)));
      MaxAssociates(Max(OwnValue(f.item, imply, s, env), ForcedValue(f.item, imply, s, env)),
                    MenuValue(g.kids, imply, s, env), MenuValue(stolen, imply, s, env),
                    ListValue(left, imply, s, env));
    }
  }

  /** After menu_finalize the reverse dependency of a symbol, and what implies it, has the value of the
      strongest property of the menu that selects, or implies, it; a mandatory choice selects itself.
      None is forgotten and none is invented, in whatever order the nodes have been met and moved. */
  lemma ReverseMeaning(f: Forest, modules: Symbol, imply: bool, s: Symbol, env: Env)
    requires f.Node? && f.rest.Nil? && f.item.sym.None? && Typed(env)
    ensures ReverseValue(FieldOf(Of(Replay(map[], FirstEvents(f, modules)), s), imply), env) ==
      MenuValue(FinalizeFirst(f, modules).kids, imply, s, env)
  {
    ReplayValue(map[], FirstEvents(f, modules), imply, s, env);
    FirstValue(f, modules, imply, s, env);
  }

  // ----- choices and members -----

  /** The members of a choice are the symbols that have entered it, each of them once. */
  ghost predicate MembersMatch(t: Table) {
    forall s, c {:trigger Of(t, s), Of(t, c)} :: s in Of(t, c).members <==> Of(t, s).choice == Some(c)
  }

  predicate Distinct(ss: seq<Symbol>) {
    forall i, j :: 0 <= i < j < |ss| ==> ss[i] != ss[j]
  }

  ghost predicate MembersDistinct(t: Table) {
    forall c {:trigger Of(t, c)} :: Distinct(Of(t, c).members)
  }

  lemma RecordMembers(t: Table, e: Event)
    requires MembersMatch(t) && MembersDistinct(t)
    ensures MembersMatch(Record(t, e)) && MembersDistinct(Record(t, e))
  {
    var t' := Record(t, e);
    if e.Enters? && Of(t, e.sym).choice.None? {
      assert forall c :: e.sym !in Of(t, c).members;
      assert Of(t', e.choice).members == Of(t, e.choice).members + [e.sym];
      forall x
        ensures x != e.choice ==> Of(t', x).members == Of(t, x).members
        ensures Of(t', x).choice == if x == e.sym then Some(e.choice) else Of(t, x).choice
      {
      }
    } else {
      forall x
        ensures Of(t', x).members == Of(t, x).members && Of(t', x).choice == Of(t, x).choice
      {
      }
    }
  }

  /** A symbol that stands in several choices is a member of one of them. */
  lemma {:induction false} ReplayMembers(es: seq<Event>)
    ensures MembersMatch(Replay(map[], es)) && MembersDistinct(Replay(map[], es))
  {
    if es != [] {
      ReplayMembers(es[..|es| - 1]);
      RecordMembers(Replay(map[], es[..|es| - 1]), es[|es| - 1]);
    }
  }

  /** The conditions of the prompts of a symbol, in the order of the menu. */
  ghost function PromptsOf(f: Forest, s: Symbol): seq<Nullable> {
    match f
    case Nil => []
    case Node(_, i, k, r) =>
      (if i.sym == Some(s) && i.prompted then [i.visible] else []) + PromptsOf(k, s) + PromptsOf(r, s)
  }

  lemma {:induction false} PromptsJoin(a: seq<Nullable>, b: seq<Nullable>, env: Env)
    ensures PromptsValue(a + b, env) == Max(PromptsValue(a, env), PromptsValue(b, env))
  {
    if b == [] {
      assert a + b == a;
    } else {
      var last := |b| - 1;
      assert (a + b)[..|a + b| - 1] == a + b[..last];
      PromptsJoin(a, b[..last], env);
    }
  }

  /** No property of the nodes selects the symbol, and its nodes are those of a mandatory choice. */
  ghost predicate ForcedOnly(f: Forest, c: Symbol) {
    match f
    case Nil => true
    case Node(_, i, k, r) =>
      && (forall p :: p in OthersOf(i) ==> p.effect != Selects(c))
      && (i.sym == Some(c) ==> i.mandatory)
      && ForcedOnly(k, c) && ForcedOnly(r, c)
  }

  lemma {:induction false} NothingSelects(x: Symbol, ps: seq<Property>, c: Symbol, env: Env)
    requires forall p :: p in ps ==> p.effect != Selects(c)
    ensures PropertiesValue(x, ps, false, c, env) == No
  {
    if ps != [] {
      assert ps[|ps| - 1] in ps;
      NothingSelects(x, ps[..|ps| - 1], c, env);
    }
  }

  lemma {:induction false} ForcedMenu(f: Forest, c: Symbol, env: Env)
    requires ForcedOnly(f, c)
    ensures MenuValue(f, false, c, env) == Min(PromptsValue(PromptsOf(f, c), env), Mod)
  {
    if f.Node? {
      var i := f.item;
      var own := if i.sym == Some(c) && i.prompted then [i.visible] else [];
      ForcedMenu(f.kids, c, env);
      ForcedMenu(f.rest, c, env);
      PromptsJoin(own, PromptsOf(f.kids, c), env);
      PromptsJoin(own + PromptsOf(f.kids, c), PromptsOf(f.rest, c), env);
      if own != [] {
        OneVisible(i.visible, env);
      }
      if i.sym.Some? {
        NothingSelects(i.sym.value, i.others, c, env);
      }
    }
  }

  lemma OneVisible(p: Nullable, env: Env)
    ensures PromptsValue([p], env) == EvalNullable(p, env)
  {
    assert [p][..0] == [] && PromptsValue([], env) == No;
  }

  lemma {:induction false} PromptFrom(f: Forest, s: Symbol, p: Nullable) returns (k: nat)
    requires p in PromptsOf(f, s)
    ensures k < |Items(f)| && Items(f)[k].sym == Some(s) && Items(f)[k].prompted && Items(f)[k].visible == p
  {
    var i := f.item;
    if i.sym == Some(s) && i.prompted && i.visible == p {
      k := 0;
    } else if p in PromptsOf(f.kids, s) {
      var j := PromptFrom(f.kids, s, p);
      k := 1 + j;
    } else {
      var j := PromptFrom(f.rest, s, p);
      k := 1 + |Items(f.kids)| + j;
    }
  }

  /** All entries of a symbol stand in the block of the choice `c`. */
  ghost predicate Enclosed(f: Forest, g: Forest, s: Symbol, c: Symbol) {
    forall k :: 0 <= k < |Items(g)| && k < |InBlock(f, c, false)| && Items(g)[k].sym == Some(s) ==>
      InBlock(f, c, false)[k]
  }

  /** The properties of a symbol are those that menu_finalize leaves. */
  ghost predicate DescribedAt(info: map<Symbol, Info>, g: Forest, t: Table, s: Symbol)
    requires s in info
  {
    var i, x := info[s], Of(t, s);
    && i.prompts == PromptsOf(g, s) && i.dirDep == x.dirDep && i.revDep == x.revDep && i.implied == x.implied
    && match i.kind
       case Plain => x.choice == None && x.members == []
       case Choice(ms) => x.members == ms
       case Member(c) => x.choice == Some(c)
  }

  ghost predicate Described(info: map<Symbol, Info>, g: Forest, t: Table) {
    forall s {:trigger DescribedAt(info, g, t, s)} :: s in info ==> DescribedAt(info, g, t, s)
  }

  /** What the Kconfig files say of the choices and their members. */
  ghost predicate Declared(info: map<Symbol, Info>, f: Forest, g: Forest, s: Symbol)
    requires s in info
  {
    match info[s].kind
    case Plain => true
    case Choice(_) => s.typ == Boolean && ForcedOnly(g, s)
    case Member(c) => c.typ == Boolean && Enclosed(f, g, s, c)
  }

  /** A mandatory choice of the menu is one for the evaluator. */
  lemma ChoiceIsMandatory(f: Forest, modules: Symbol, info: map<Symbol, Info>, c: Symbol)
    requires RootMenu(f) && f.item.sym.None? && c in info && info[c].kind.Choice?
    requires DescribedAt(info, FinalizeFirst(f, modules).kids, Replay(map[], FirstEvents(f, modules)), c)
    requires Declared(info, f.kids, FinalizeFirst(f, modules).kids, c)
    ensures MandatoryChoice(c, info[c])
  {
    forall env {:trigger ReverseValue(info[c].revDep, env)} | Typed(env)
      ensures ReverseValue(info[c].revDep, env) == Min(PromptsValue(info[c].prompts, env), Mod)
    {
      ReverseMeaning(f, modules, false, c, env);
      ForcedMenu(FinalizeFirst(f, modules).kids, c, env);
    }
  }

  /** The prompts of a member of the menu are bounded by its choice. */
  lemma MemberIsBounded(f: Forest, modules: Symbol, info: map<Symbol, Info>, s: Symbol, p: Nullable)
    requires RootMenu(f) && s in info && info[s].kind.Member? && p in info[s].prompts
    requires DescribedAt(info, FinalizeFirst(f, modules).kids, Replay(map[], FirstEvents(f, modules)), s)
    requires Declared(info, f.kids, FinalizeFirst(f, modules).kids, s)
    ensures ChoicePrompt(info[s].kind.choice, p)
  {
    var g, c := FinalizeFirst(f, modules).kids, info[s].kind.choice;
    LengthOfMenu(f, modules, c);
    var k := PromptFrom(g, s, p);
    MembersAreBounded(f, modules, c, k);
  }

  /** What the evaluator asks for besides. */
  ghost predicate Regular(info: map<Symbol, Info>, s: Symbol)
    requires s in info
  {
    && DependencyCheck.Unchecked(info[s]) <= DependencyCheck.Dependencies(DependencyCheck.NodeOf(info[s]))
    && match info[s].kind
       case Plain => true
       case Choice(ms) => forall d :: d in info[s].defaults ==> d.value.Sym? && d.value.sym in ms
       case Member(_) => s.typ == Boolean && !info[s].auto
  }

  /** From the menu of the Kconfig files to values that are well defined: menu_finalize builds the
      symbols, and sym_check_deps reports nothing. */
  lemma MenuIsWellFounded(f: Forest, modules: Symbol, info: map<Symbol, Info>, rank: map<Symbol, nat>, m: Tristate)
    requires RootMenu(f) && f.item.sym.None?
    requires Described(info, FinalizeFirst(f, modules).kids, Replay(map[], FirstEvents(f, modules)))
    requires forall s :: s in info ==> Declared(info, f.kids, FinalizeFirst(f, modules).kids, s) && Regular(info, s)
    requires forall t {:trigger TristateSymbol(t)} :: TristateSymbol(t) in info && info[TristateSymbol(t)].kind == Plain
    requires var nodes := DependencyCheck.NodesOf(info);
      && DependencyCheck.Closed(nodes) && DependencyCheck.Secluded(nodes) && rank.Keys == info.Keys
      && DependencyCheck.Ranked(DependencyCheck.Apart(nodes), rank) && DependencyCheck.Leveled(nodes, rank)
    ensures var ranks := DependencyCheck.GroupRanks(DependencyCheck.NodesOf(info), rank);
      WellFounded(Graph(info, DependencyCheck.Ranks(info, ranks), m))
  {
    forall s | s in info
      ensures DependencyCheck.Covered(info, s)
    {
      assert DescribedAt(info, FinalizeFirst(f, modules).kids, Replay(map[], FirstEvents(f, modules)), s);
      match info[s].kind
      case Plain =>
      case Choice(_) => ChoiceIsMandatory(f, modules, info, s);
      case Member(c) =>
        forall p | p in info[s].prompts
          ensures ChoicePrompt(c, p)
        {
          MemberIsBounded(f, modules, info, s, p);
        }
    }
    DependencyCheck.UnreportedIsWellFounded(info, rank, m);
  }

  // ----- direct dependencies -----

  /** The dependencies that are recorded for a symbol. */
  function DirectOf(es: seq<Event>, s: Symbol): seq<Nullable> {
    if es == [] then []
    else
      var e := es[|es| - 1];
      DirectOf(es[..|es| - 1], s) + if e.DependsOn? && e.sym == s then [e.dep] else []
  }

  /** The entries that have a condition. */
  function Conditional(ds: seq<Nullable>): seq<Nullable> {
    if ds == [] then []
    else
      var d := ds[|ds| - 1];
      Conditional(ds[..|ds| - 1]) + if d.Ref? then [d] else []
  }

  lemma {:induction false} ReplayDirect(es: seq<Event>, s: Symbol, env: Env)
    ensures var d, cs := Of(Replay(map[], es), s).dirDep, Conditional(DirectOf(es, s));
      && (d.Null? <==> cs == [])
      && ReverseValue(d, env) == PromptsValue(cs, env)
  {
    if es != [] {
      var last := |es| - 1;
      var ds := DirectOf(es[..last], s);
      ReplayDirect(es[..last], s, env);
      RecordDirect(Replay(map[], es[..last]), es[last], s, ds, env);
    }
  }

  lemma RecordDirect(t: Table, e: Event, s: Symbol, ds: seq<Nullable>, env: Env)
    requires Of(t, s).dirDep.Null? <==> Conditional(ds) == []
    requires ReverseValue(Of(t, s).dirDep, env) == PromptsValue(Conditional(ds), env)
    ensures var ds' := ds + if e.DependsOn? && e.sym == s then [e.dep] else [];
      && (Of(Record(t, e), s).dirDep.Null? <==> Conditional(ds') == [])
      && ReverseValue(Of(Record(t, e), s).dirDep, env) == PromptsValue(Conditional(ds'), env)
  {
    if e.DependsOn? && e.sym == s {
      ConditionalNext(ds, e.dep, env);
      DisjoinValue(Of(t, s).dirDep, e.dep, env);
    } else {
      assert ds + [] == ds && Of(Record(t, e), s).dirDep == Of(t, s).dirDep;
    }
  }

  lemma DisjoinValue(a: Nullable, b: Nullable, env: Env)
    ensures ReverseValue(Disjoin(a, b), env) == Max(ReverseValue(a, env), ReverseValue(b, env))
    ensures Disjoin(a, b).Null? <==> a.Null? && b.Null?
  {
  }

  lemma ConditionalNext(ds: seq<Nullable>, d: Nullable, env: Env)
    ensures Conditional(ds + [d]) == Conditional(ds) + if d.Ref? then [d] else []
    ensures PromptsValue(Conditional(ds + [d]), env) ==
      if d.Null? then PromptsValue(Conditional(ds), env)
      else Max(PromptsValue(Conditional(ds), env), EvalNullable(d, env))
  {
    assert (ds + [d])[..|ds + [d]| - 1] == ds;
    if d.Ref? {
      PromptsJoin(Conditional(ds), [d], env);
      OneVisible(d, env);
    } else {
      assert Conditional(ds) + [] == Conditional(ds);
    }
  }

  lemma {:induction false} ConditionalValue(ds: seq<Nullable>, env: Env)
    ensures PromptsValue(ds, env) == if Null in ds then Yes else PromptsValue(Conditional(ds), env)
  {
    if ds != [] {
      var front, d := ds[..|ds| - 1], ds[|ds| - 1];
      ConditionalValue(front, env);
      assert ds == front + [d] && (Null in ds <==> Null in front || d.Null?);
      ConditionalNext(front, d, env);
    }
  }

  /** expr_alloc_or drops an entry without a condition: the direct dependency of a symbol with several
      entries is as strong as the strongest of them if and only if all of them have conditions, or none
      has, or one that has a condition is y. */
  lemma DirectExact(es: seq<Event>, s: Symbol, env: Env)
    requires DirectOf(es, s) != []
    ensures var ds := DirectOf(es, s);
      EvalNullable(Of(Replay(map[], es), s).dirDep, env) == PromptsValue(ds, env) <==>
      (Null !in ds || Conditional(ds) == [] || PromptsValue(Conditional(ds), env) == Yes)
  {
    var ds := DirectOf(es, s);
    ReplayDirect(es, s, env);
    ConditionalValue(ds, env);
  }
}
