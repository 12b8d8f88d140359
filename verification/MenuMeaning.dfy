/** What menu_finalize does to the conditions of the menu: a prompt is visible, and a property in force,
    exactly if none of the conditions around it is n. */
module MenuMeaning {
  import opened Tristates
  import opened Expressions
  import opened ExprCompare
  import opened SymbolGraph
  import opened MenuTree

  /** A node by its conditions: whether its dependency holds, whether its prompt is visible, and which of
      its other properties are in force. */
  datatype Seen = Seen(sym: Option<Symbol>, dep: bool, visible: bool, others: seq<bool>)

  predicate On(p: Nullable, env: Env) {
    EvalNullable(p, env) != No
  }

  /** The properties of a symbol; a node without one has none. */
  function OthersOf(i: Item): seq<Property> {
    if i.sym.Some? then i.others else []
  }

  function SeenOf(i: Item, env: Env): Seen {
    var others := OthersOf(i);
    Seen(i.sym, On(i.dep, env), i.prompted && On(i.visible, env),
         seq(|others|, k requires 0 <= k < |others| => On(others[k].condition, env)))
  }

  /** The nodes of a forest in preorder, by their conditions as they stand there. */
  ghost function SeenAll(f: Forest, env: Env): seq<Seen> {
    match f
    case Nil => []
    case Node(_, i, k, r) => [SeenOf(i, env)] + SeenAll(k, env) + SeenAll(r, env)
  }

  /** The valuation for the conditions of a Kconfig file, in which m is limited by MODULES. */
  function Own(modules: Symbol, env: Env): Env {
    WithMod(env, Min(Mod, env.tri(modules)))
  }

  /** Whether what encloses a node lets it be seen, and its own conditions do. */
  function SeenInside(i: Item, outer: bool, modules: Symbol, env: Env): Seen {
    var dep, others := outer && On(i.dep, Own(modules, env)), OthersOf(i);
    Seen(i.sym, dep, i.prompted && dep && On(i.visible, Own(modules, env)),
         seq(|others|, k requires 0 <= k < |others| => dep && On(others[k].condition, Own(modules, env))))
  }

  /** Whether a node lets its children be seen. */
  function Lets(i: Item, seen: Seen, env: Env): bool {
    if i.sym.Some? && i.isChoice then env.tri(i.sym.value) != No
    else if i.prompted then seen.visible
    else seen.dep
  }

  /** The nodes of a Kconfig file in preorder, by all conditions around them. */
  ghost function SeenWithin(f: Forest, outer: bool, modules: Symbol, env: Env): seq<Seen> {
    match f
    case Nil => []
    case Node(_, i, k, r) =>
      var seen := SeenInside(i, outer, modules, env);
      [seen] + SeenWithin(k, Lets(i, seen, env), modules, env) + SeenWithin(r, outer, modules, env)
  }

  /** The same for a list whose own nodes have got their final conditions. */
  ghost function SeenBelow(f: Forest, modules: Symbol, env: Env): seq<Seen> {
    match f
    case Nil => []
    case Node(_, i, k, r) =>
      [SeenOf(i, env)] + SeenWithin(k, On(Inherited(i), env), modules, env) + SeenBelow(r, modules, env)
  }

  // ----- the form of the conditions -----

  predicate TypedItem(i: Item) {
    && WellTypedNullable(i.dep) && WellTypedNullable(i.visible)
    && forall p :: p in OthersOf(i) ==> WellTypedNullable(p.condition)
  }

  /** The conditions of all nodes are well typed. */
  ghost predicate TypedForest(f: Forest) {
    match f
    case Nil => true
    case Node(_, i, k, r) => TypedItem(i) && TypedForest(k) && TypedForest(r)
  }

  predicate FinalItem(i: Item) {
    && TypedItem(i) && NormalNullable(i.dep) && (i.prompted ==> NormalNullable(i.visible))
  }

  /** The nodes of the list have their final conditions. */
  ghost predicate FinalList(f: Forest) {
    match f
    case Nil => true
    case Node(_, i, k, r) => FinalItem(i) && TypedForest(k) && FinalList(r)
  }

  lemma InheritedForm(i: Item)
    requires FinalItem(i)
    ensures WellTypedNullable(Inherited(i)) && NormalNullable(Inherited(i))
  {
  }

  // ----- one node -----

  lemma ConditionSeen(dep: Nullable, i: Item, condition: Nullable, modules: Symbol, env: Env)
    requires Typed(env) && WellTypedNullable(dep) && NormalNullable(dep) && WellTypedNullable(condition)
    ensures var c := PropagateCondition(dep, i, condition, modules);
      && WellTypedNullable(c) && NormalNullable(c)
      && (On(c, env) <==> On(dep, env) && On(condition, Own(modules, env)))
  {
    PropagateMeaning(dep, condition, modules, env);
    PropagatedVisibility(dep, condition, modules, env);
    var p := Propagate(dep, condition, modules);
    if p.Ref? {
      DropUnequalNoMeaning(p.expr, env);
      DropUnequalNoWellTyped(p.expr);
    }
  }

  lemma ItemSeen(inherited: Nullable, i: Item, modules: Symbol, env: Env)
    requires Typed(env) && WellTypedNullable(inherited) && NormalNullable(inherited) && TypedItem(i)
    ensures var j, seen := PropagateItem(inherited, i, modules), SeenInside(i, On(inherited, env), modules, env);
      FinalItem(j) && SeenOf(j, env) == seen && On(Inherited(j), env) == Lets(i, seen, env)
  {
    PropagateMeaning(inherited, i.dep, modules, env);
    var dep, others := Propagate(inherited, i.dep, modules), OthersOf(i);
    if i.prompted {
      ConditionSeen(dep, i, i.visible, modules, env);
    }
    forall k | 0 <= k < |others|
      ensures var c := PropagateCondition(dep, i, others[k].condition, modules);
        WellTypedNullable(c) && On(c, env) == (On(dep, env) && On(others[k].condition, Own(modules, env)))
    {
      assert others[k] in others;
      ConditionSeen(dep, i, others[k].condition, modules, env);
    }
    ItemOthers(inherited, i, modules);
  }

  lemma ItemOthers(inherited: Nullable, i: Item, modules: Symbol)
    ensures var j, dep := PropagateItem(inherited, i, modules), Propagate(inherited, i.dep, modules);
      && |OthersOf(j)| == |OthersOf(i)|
      && forall k :: 0 <= k < |OthersOf(i)| ==>
           OthersOf(j)[k].condition == PropagateCondition(dep, i, OthersOf(i)[k].condition, modules)
  {
  }

  /** Propagation makes the conditions of the children final. */
  lemma {:induction false} PropagateSeen(inherited: Nullable, f: Forest, modules: Symbol, env: Env)
    requires Typed(env) && WellTypedNullable(inherited) && NormalNullable(inherited) && TypedForest(f)
    ensures FinalList(PropagateAll(inherited, f, modules))
    ensures SeenBelow(PropagateAll(inherited, f, modules), modules, env) ==
      SeenWithin(f, On(inherited, env), modules, env)
  {
    if f.Node? {
      ItemSeen(inherited, f.item, modules, env);
      PropagateSeen(inherited, f.rest, modules, env);
    }
  }

  // ----- what moves -----

  lemma {:induction false} SeenAppend(f: Forest, g: Forest, env: Env)
    ensures SeenAll(Append(f, g), env) == SeenAll(f, env) + SeenAll(g, env)
  {
    if f.Node? {
      SeenAppend(f.rest, g, env);
    }
  }

  lemma SeenLifted(f: Forest, behind: Forest, env: Env)
    requires f.Node? && SeenAll(behind, env) == SeenAll(f.kids, env) + SeenAll(f.rest, env)
    ensures SeenAll(Node(f.menu, f.item, Nil, behind), env) == SeenAll(f, env)
  {
    var own, kids, rest := [SeenOf(f.item, env)], SeenAll(f.kids, env), SeenAll(f.rest, env);
    assert own + [] + (kids + rest) == own + kids + rest;
  }

  lemma {:induction false} SeenFlatten(f: Forest, env: Env)
    ensures SeenAll(Flatten(f), env) == SeenAll(f, env)
    decreases MenuTree.Size(f)
  {
    if f.Node? {
      if f.kids.Node? && !(f.item.prompted && f.item.titled) {
        var all := Append(f.kids, f.rest);
        SeenAppend(f.kids, f.rest, env);
        SeenFlatten(all, env);
        SeenLifted(f, Flatten(all), env);
      } else {
        SeenFlatten(f.rest, env);
      }
    }
  }

  /** menu_finalize on one node settles its children and the nodes that it takes in; what follows is left
      for later. */
  lemma {:induction false} FinalizeSeen(f: Forest, modules: Symbol, env: Env)
    requires f.Node? && FinalList(f) && Typed(env)
    ensures var g := FinalizeFirst(f, modules);
      && FinalList(g.rest)
      && SeenAll(g.kids, env) + SeenBelow(g.rest, modules, env) ==
         SeenWithin(f.kids, On(Inherited(f.item), env), modules, env) + SeenBelow(f.rest, modules, env)
    decreases MenuTree.Size(f), 1
  {
    if f.kids.Node? {
      var k := PropagateAll(Inherited(f.item), f.kids, modules);
      InheritedForm(f.item);
      PropagateSeen(Inherited(f.item), f.kids, modules, env);
      FinalizeAllSeen(k, modules, env);
      SeenFlatten(FinalizeAll(k, modules), env);
    } else if f.item.sym.Some? {
      StealSeen(f.item, f.rest, modules, env);
      SeenFlatten(Steal(f.item, f.rest, modules).0, env);
    }
  }

  lemma {:induction false} FinalizeAllSeen(f: Forest, modules: Symbol, env: Env)
    requires FinalList(f) && Typed(env)
    ensures SeenAll(FinalizeAll(f, modules), env) == SeenBelow(f, modules, env)
    decreases MenuTree.Size(f), 2
  {
    if f.Node? {
      var g := FinalizeFirst(f, modules);
      FinalizeSeen(f, modules, env);
      FinalizeAllSeen(g.rest, modules, env);
      Regroup([SeenOf(f.item, env)], SeenAll(g.kids, env), SeenBelow(g.rest, modules, env),
              SeenWithin(f.kids, On(Inherited(f.item), env), modules, env), SeenBelow(f.rest, modules, env));
    }
  }

  lemma {:induction false} StealSeen(i: Item, f: Forest, modules: Symbol, env: Env)
    requires i.sym.Some? && FinalList(f) && Typed(env)
    ensures var (stolen, left) := Steal(i, f, modules);
      && FinalList(left)
      && SeenAll(stolen, env) + SeenBelow(left, modules, env) == SeenBelow(f, modules, env)
    decreases MenuTree.Size(f), 2
  {
    if f.Node? && Joins(i, f.item) {
      var g := FinalizeFirst(f, modules);
      var (stolen, left) := Steal(i, g.rest, modules);
      FinalizeSeen(f, modules, env);
      StealSeen(i, g.rest, modules, env);
      Regroup([SeenOf(f.item, env)], SeenAll(g.kids, env), SeenBelow(g.rest, modules, env),
              SeenWithin(f.kids, On(Inherited(f.item), env), modules, env), SeenBelow(f.rest, modules, env));
      Associate([SeenOf(f.item, env)] + SeenAll(g.kids, env), SeenAll(stolen, env), SeenBelow(left, modules, env));
    }
  }

  lemma Regroup<T>(own: seq<T>, a: seq<T>, b: seq<T>, c: seq<T>, d: seq<T>)
    requires a + b == c + d
    ensures own + a + b == own + c + d
  {
    assert own + a + b == own + (a + b) && own + c + d == own + (c + d);
  }

  lemma Associate<T>(a: seq<T>, b: seq<T>, c: seq<T>)
    ensures a + b + c == a + (b + c)
  {
  }

  /** After menu_finalize, wherever an entry has been moved to and however its conditions have been
      simplified: it can be seen exactly if none of the conditions that enclose it in the Kconfig files,
      and none of its own, is n. The same holds for the other properties. */
  lemma FinalizeMeaning(f: Forest, modules: Symbol, env: Env)
    requires f.Node? && f.rest.Nil? && FinalItem(f.item) && TypedForest(f.kids) && Typed(env)
    ensures SeenAll(FinalizeFirst(f, modules).kids, env) ==
      SeenWithin(f.kids, On(Inherited(f.item), env), modules, env)
  {
    var g, within := FinalizeFirst(f, modules), SeenWithin(f.kids, On(Inherited(f.item), env), modules, env);
    FinalizeSeen(f, modules, env);
    assert f.item.sym.Some? ==> Steal(f.item, Nil, modules) == (Nil, Nil);
    assert SeenBelow(f.rest, modules, env) == SeenBelow(g.rest, modules, env) == [];
    assert SeenAll(g.kids, env) + [] == SeenAll(g.kids, env) && within + [] == within;
  }

  /** Below a condition that can be m, the propagated condition of a property of a tristate symbol, or of a
      node without a symbol, is worth exactly the lesser of the two; for other symbols it is so if m counts as
      y, and no comparison of a tristate symbol with !=n is left in it. */
  lemma ConditionValue(dep: Nullable, i: Item, condition: Nullable, modules: Symbol, env: Env)
    requires Typed(env) && WellTypedNullable(dep) && NormalNullable(dep) && WellTypedNullable(condition)
    ensures var c := PropagateCondition(dep, i, condition, modules);
      var both := Min(EvalNullable(dep, env), EvalNullable(condition, Own(modules, env)));
      if i.sym.None? || i.sym.value.typ == TristateType then EvalNullable(c, env) == both
      else Promote(EvalNullable(c, env)) == Promote(both) && (c.Ref? ==> AllNodes(c.expr, NoUnequalNo))
  {
    PropagateMeaning(dep, condition, modules, env);
    PropagatedVisibility(dep, condition, modules, env);
    var p := Propagate(dep, condition, modules);
    if p.Ref? {
      DropUnequalNoComplete(p.expr);
    }
  }
}
