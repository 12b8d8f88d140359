/** menu_finalize does not change the order in which the symbols are met, and leaves a menu that the
    writers can walk over. */
module MenuOrder {
  import opened Expressions
  import opened CachedEvaluator
  import opened SavedConfig
  import MenuWalk
  import MenuWriter
  import opened MenuTree
  import opened MenuFinalize
  import opened MenuRelations
  import opened MenuMeaning
  import opened MemberPrompts
  import opened MenuParents

  /** The symbols of a forest in preorder, without the choices. */
  ghost function Labels(f: Forest): seq<Symbol> {
    match f
    case Nil => []
    case Node(_, i, k, r) => MenuWalk.SymbolOf(i) + Labels(k) + Labels(r)
  }

  lemma {:induction false} LabelsAreVisited(f: Forest)
    ensures MenuWriter.MenuSymbols(f) == Labels(f)
  {
    if f.Node? {
      LabelsAreVisited(f.kids);
      LabelsAreVisited(f.rest);
      var v, k, r := MenuWalk.Visit(f.menu, f.item), MenuWalk.Visits(f.kids), MenuWalk.Visits(f.rest);
      assert MenuWalk.Visits(f) == [v] + (k + r);
      MenuWalk.SymbolsFirst(v, k + r);
      MenuWalk.SymbolsJoin(k, r);
    }
  }

  lemma {:induction false} LabelsAppend(f: Forest, g: Forest)
    ensures Labels(Append(f, g)) == Labels(f) + Labels(g)
  {
    if f.Node? {
      LabelsAppend(f.rest, g);
    }
  }

  lemma {:induction false} LabelsPropagate(inherited: Nullable, f: Forest, modules: Symbol)
    ensures Labels(PropagateAll(inherited, f, modules)) == Labels(f)
  {
    if f.Node? {
      LabelsPropagate(inherited, f.rest, modules);
    }
  }

  lemma {:induction false} LabelsFlatten(f: Forest)
    ensures Labels(Flatten(f)) == Labels(f)
    decreases MenuTree.Size(f)
  {
    if f.Node? {
      if f.kids.Node? && !(f.item.prompted && f.item.titled) {
        var all := Append(f.kids, f.rest);
        LabelsAppend(f.kids, f.rest);
        LabelsFlatten(all);
        LabelsLifted(f, Flatten(all));
      } else {
        LabelsFlatten(f.rest);
      }
    }
  }

  /** The children of a node can as well stand behind it. */
  lemma LabelsLifted(f: Forest, behind: Forest)
    requires f.Node? && Labels(behind) == Labels(f.kids) + Labels(f.rest)
    ensures Labels(Node(f.menu, f.item, Nil, behind)) == Labels(f)
  {
    var own := MenuWalk.SymbolOf(f.item);
    LabelsOfNode(f, own, Labels(f.kids), Labels(f.rest));
    LabelsOfNode(Node(f.menu, f.item, Nil, behind), own, [], Labels(behind));
  }

  lemma LabelsOfNode(f: Forest, own: seq<Symbol>, kids: seq<Symbol>, rest: seq<Symbol>)
    requires f.Node? && MenuWalk.SymbolOf(f.item) == own && Labels(f.kids) == kids && Labels(f.rest) == rest
    ensures Labels(f) == own + kids + rest && own + kids + rest == own + (kids + rest)
    ensures own + [] == own
  {
    Regrouped(own, kids, rest);
  }

  lemma Regrouped<T>(a: seq<T>, b: seq<T>, c: seq<T>)
    ensures a + b + c == a + (b + c) && a + [] == a
  {
  }

  lemma {:induction false} LabelsFinalize(f: Forest, modules: Symbol)
    requires f.Node?
    ensures Labels(FinalizeFirst(f, modules)) == Labels(f)
    decreases MenuTree.Size(f), 1
  {
    if f.kids.Node? {
      var k := PropagateAll(Inherited(f.item), f.kids, modules);
      LabelsPropagate(Inherited(f.item), f.kids, modules);
      LabelsFinalizeAll(k, modules);
      LabelsFlatten(FinalizeAll(k, modules));
    } else if f.item.sym.Some? {
      LabelsTakeIn(f, modules);
    }
  }

  lemma {:induction false} LabelsTakeIn(f: Forest, modules: Symbol)
    requires f.Node? && f.kids.Nil? && f.item.sym.Some?
    ensures Labels(FinalizeFirst(f, modules)) == Labels(f)
    decreases MenuTree.Size(f), 0
  {
    var (stolen, left) := Steal(f.item, f.rest, modules);
    LabelsSteal(f.item, f.rest, modules);
    LabelsAppend(stolen, left);
    LabelsFlatten(stolen);
    var own := MenuWalk.SymbolOf(f.item);
    LabelsOfNode(f, own, [], Labels(f.rest));
    LabelsOfNode(FinalizeFirst(f, modules), own, Labels(stolen), Labels(left));
  }

  lemma {:induction false} LabelsFinalizeAll(f: Forest, modules: Symbol)
    ensures Labels(FinalizeAll(f, modules)) == Labels(f)
    decreases MenuTree.Size(f), 2
  {
    if f.Node? {
      LabelsFinalize(f, modules);
      LabelsFinalizeAll(FinalizeFirst(f, modules).rest, modules);
    }
  }

  lemma {:induction false} LabelsSteal(i: Item, f: Forest, modules: Symbol)
    requires i.sym.Some?
    ensures var (stolen, left) := Steal(i, f, modules); Labels(Append(stolen, left)) == Labels(f)
    decreases MenuTree.Size(f), 2
  {
    if f.Node? && Joins(i, f.item) {
      LabelsFinalize(f, modules);
      LabelsSteal(i, FinalizeFirst(f, modules).rest, modules);
    }
  }

  /** The order in which the writers meet the symbols is that of the Kconfig files, whatever
      menu_finalize has moved. */
  lemma FinalizeKeepsSymbols(f: Forest, modules: Symbol)
    requires f.Node? && f.rest.Nil?
    ensures MenuWriter.MenuSymbols(FinalizeFirst(f, modules).kids) == MenuWriter.MenuSymbols(f.kids)
  {
    var g := FinalizeFirst(f, modules);
    LabelsFinalize(f, modules);
    LabelsAreVisited(f.kids);
    LabelsAreVisited(g.kids);
    assert f.item.sym.Some? ==> Steal(f.item, Nil, modules) == (Nil, Nil);
    LabelsOfOne(f);
    LabelsOfOne(g);
    SameAfter(MenuWalk.SymbolOf(f.item), Labels(f.kids), Labels(g.kids));
  }

  lemma LabelsOfOne(f: Forest)
    requires f.Node? && f.rest.Nil?
    ensures Labels(f) == MenuWalk.SymbolOf(f.item) + Labels(f.kids)
  {
    assert Labels(f.rest) == [];
  }

  lemma SameAfter<T>(front: seq<T>, a: seq<T>, b: seq<T>)
    requires front + a == front + b
    ensures a == b
  {
    assert (front + a)[|front|..] == a && (front + b)[|front|..] == b;
  }

  /** menu_finalize on the root menu leaves a menu that can be walked over, in which all conditions mean
      what they did, with every node below the nearest one that has a text, and what it adds to the
      symbols. */
  method FinalizeMenu(root: Menu, ghost f: Forest, modules: Symbol, r: Relations) returns (ghost g: Forest)
    requires f.Node? && f.rest.Nil? && Linked(root, f, null, null)
    modifies Nodes(f), r
    ensures g == FinalizeFirst(f, modules).kids && r.facts == Replay(old(r.facts), FirstEvents(f, modules))
    ensures RootMenu(f) ==>
      forall env {:trigger SeenAll(g, env)} :: Typed(env) ==>
        SeenAll(g, env) == SeenWithin(f.kids, On(Inherited(f.item), env), modules, env)
    ensures PointTo(Preorder(g), Owners(GrowFirst(f, modules).kids, root))
    ensures MenuWalk.IsMenu(root, g) && Tidy(g) && MenuWriter.MenuSymbols(g) == MenuWriter.MenuSymbols(f.kids)
  {
    ghost var log := FinalizeRoot(root, f, modules, r);
    FinalizeKeepsSymbols(f, modules);
    g := FinalizeFirst(f, modules).kids;
    assert Linked(root.next, Nil, null, null);
    LinkedParents(root.list, g, root, null);
    FinalParents(f, modules);
    forall env {:trigger SeenAll(g, env)} | RootMenu(f) && Typed(env)
      ensures SeenAll(g, env) == SeenWithin(f.kids, On(Inherited(f.item), env), modules, env)
    {
      FinalizeMeaning(f, modules, env);
    }
  }

  /** menu_finalize on the root menu, and then conf_write_defconfig: its lines come in the order of the
      entries of the Kconfig files. */
  method FinalizeAndWrite(t: SymbolTable, root: Menu, ghost f: Forest, modules: Symbol, r: Relations)
    returns (lines: seq<Entry>)
    requires t.Valid({}) && f.Node? && f.rest.Nil? && Linked(root, f, null, null)
    requires MenuWriter.Known(t.world, MenuWriter.MenuSymbols(f.kids))
    modifies Nodes(f), r, t`state, t`changed
    ensures t.Valid({}) && lines == SavedEntries(t.world, Minimal, MenuWriter.MenuSymbols(f.kids))
  {
    ghost var w := t.world;
    ghost var g := FinalizeMenu(root, f, modules, r);
    assert t.world == w;
    lines := MenuWriter.WriteDefconfig(t, root, g);
  }
}
