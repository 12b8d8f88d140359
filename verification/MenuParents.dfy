/** Where menu_finalize leaves the nodes: below which node with a text each of them ends up. */
module MenuParents {
  import opened Expressions
  import opened SymbolGraph
  import opened MenuTree
  import opened MenuFinalize

  /** A node that can have children in the end. */
  predicate HasText(i: Item) {
    i.prompted && i.titled
  }

  // ----- what is below stays below -----

  /** The node `n` stands somewhere below `m`. */
  ghost predicate Under(f: Forest, m: Menu, n: Menu) {
    match f
    case Nil => false
    case Node(x, _, k, r) => (x == m && n in Nodes(k)) || Under(k, m, n) || Under(r, m, n)
  }

  /** The same for a node `m` with a text. */
  ghost predicate UnderText(f: Forest, m: Menu, n: Menu) {
    match f
    case Nil => false
    case Node(x, i, k, r) => (x == m && HasText(i) && n in Nodes(k)) || UnderText(k, m, n) || UnderText(r, m, n)
  }

  lemma {:induction false} UnderTextIsUnder(f: Forest, m: Menu, n: Menu)
    requires UnderText(f, m, n)
    ensures Under(f, m, n)
  {
    if UnderText(f.kids, m, n) {
      UnderTextIsUnder(f.kids, m, n);
    } else if UnderText(f.rest, m, n) {
      UnderTextIsUnder(f.rest, m, n);
    }
  }

  lemma {:induction false} AppendUnder(f: Forest, g: Forest, m: Menu, n: Menu)
    ensures UnderText(Append(f, g), m, n) <==> UnderText(f, m, n) || UnderText(g, m, n)
  {
    if f.Node? {
      AppendUnder(f.rest, g, m, n);
    }
  }

  lemma {:induction false} PropagateUnder(inherited: Nullable, f: Forest, modules: Symbol, m: Menu, n: Menu)
    ensures UnderText(PropagateAll(inherited, f, modules), m, n) <==> UnderText(f, m, n)
  {
    if f.Node? {
      PropagateUnder(inherited, f.rest, modules, m, n);
    }
  }

  lemma {:induction false} FlattenUnder(f: Forest, m: Menu, n: Menu)
    requires UnderText(f, m, n)
    ensures UnderText(Flatten(f), m, n)
    decreases MenuTree.Size(f)
  {
    if f.kids.Node? && !HasText(f.item) {
      AppendUnder(f.kids, f.rest, m, n);
      FlattenUnder(Append(f.kids, f.rest), m, n);
    } else if UnderText(f.rest, m, n) {
      FlattenUnder(f.rest, m, n);
    }
  }

  lemma {:induction false} FinalizeFirstUnder(f: Forest, modules: Symbol, m: Menu, n: Menu)
    requires f.Node? && UnderText(f, m, n)
    ensures UnderText(FinalizeFirst(f, modules), m, n)
    decreases MenuTree.Size(f), 1
  {
    if f.kids.Node? {
      var k := PropagateAll(Inherited(f.item), f.kids, modules);
      PropagateUnder(Inherited(f.item), f.kids, modules, m, n);
      if UnderText(k, m, n) {
        FinalizeAllUnder(k, modules, m, n);
        FlattenUnder(FinalizeAll(k, modules), m, n);
      }
    } else if f.item.sym.Some? {
      StealUnder(f.item, f.rest, modules, m, n);
      if UnderText(Steal(f.item, f.rest, modules).0, m, n) {
        FlattenUnder(Steal(f.item, f.rest, modules).0, m, n);
      }
    }
  }

  lemma {:induction false} FinalizeAllUnder(f: Forest, modules: Symbol, m: Menu, n: Menu)
    requires UnderText(f, m, n)
    ensures UnderText(FinalizeAll(f, modules), m, n)
    decreases MenuTree.Size(f), 2
  {
    var g := FinalizeFirst(f, modules);
    FinalizeFirstUnder(f, modules, m, n);
    if UnderText(g.rest, m, n) {
      FinalizeAllUnder(g.rest, modules, m, n);
    }
  }

  lemma {:induction false} StealUnder(i: Item, f: Forest, modules: Symbol, m: Menu, n: Menu)
    requires i.sym.Some? && UnderText(f, m, n)
    ensures var (stolen, left) := Steal(i, f, modules);
      UnderText(stolen, m, n) || UnderText(left, m, n)
    decreases MenuTree.Size(f), 2
  {
    if Joins(i, f.item) {
      var g := FinalizeFirst(f, modules);
      FinalizeFirstUnder(f, modules, m, n);
      if UnderText(g.rest, m, n) {
        StealUnder(i, g.rest, modules, m, n);
      }
    }
  }

  /** Whatever stands below a node with a text in the Kconfig files, at any depth, still does so after
      menu_finalize. */
  lemma FinalizeKeepsBelow(f: Forest, modules: Symbol, m: Menu, n: Menu)
    requires f.Node? && UnderText(f, m, n)
    ensures Under(FinalizeFirst(f, modules), m, n)
  {
    FinalizeFirstUnder(f, modules, m, n);
    UnderTextIsUnder(FinalizeFirst(f, modules), m, n);
  }

  // ----- the parent of each node -----

  /** For each node in preorder: the nearest node with a text that it stands below, or `outer`. */
  ghost function Owners(f: Forest, outer: Menu): seq<Menu> {
    match f
    case Nil => []
    case Node(m, i, k, r) => [outer] + Owners(k, if HasText(i) then m else outer) + Owners(r, outer)
  }

  /** For each node in preorder: its parent. */
  ghost function Parents(f: Forest, outer: Menu): seq<Menu> {
    match f
    case Nil => []
    case Node(m, _, k, r) => [outer] + Parents(k, m) + Parents(r, outer)
  }

  /** Where only nodes with a text have children, the nearest of them is the parent. */
  lemma {:induction false} TidyParents(f: Forest, outer: Menu)
    requires Tidy(f)
    ensures Parents(f, outer) == Owners(f, outer)
  {
    if f.Node? {
      TidyParents(f.kids, f.menu);
      TidyParents(f.rest, outer);
    }
  }

  lemma {:induction false} OwnersAppend(f: Forest, g: Forest, outer: Menu)
    ensures Owners(Append(f, g), outer) == Owners(f, outer) + Owners(g, outer)
  {
    if f.Node? {
      OwnersAppend(f.rest, g, outer);
    }
  }

  lemma OwnersLifted(f: Forest, behind: Forest, outer: Menu)
    requires f.Node? && !HasText(f.item) && Owners(behind, outer) == Owners(f.kids, outer) + Owners(f.rest, outer)
    ensures Owners(Node(f.menu, f.item, Nil, behind), outer) == Owners(f, outer)
  {
    var kids, rest := Owners(f.kids, outer), Owners(f.rest, outer);
    assert [outer] + [] + (kids + rest) == [outer] + kids + rest;
  }

  lemma {:induction false} FlattenOwners(f: Forest, outer: Menu)
    ensures Owners(Flatten(f), outer) == Owners(f, outer)
    decreases MenuTree.Size(f)
  {
    if f.Node? {
      if f.kids.Node? && !HasText(f.item) {
        OwnersAppend(f.kids, f.rest, outer);
        FlattenOwners(Append(f.kids, f.rest), outer);
        OwnersLifted(f, Flatten(Append(f.kids, f.rest)), outer);
      } else {
        FlattenOwners(f.rest, outer);
      }
    }
  }

  /** The menu with its automatic submenus, but with all nodes that have no text left where they are: the
      first node of a list with what ends up below it, and the nodes that follow. */
  ghost function GrowFirst(f: Forest, modules: Symbol): (r: Forest)
    requires f.Node?
    ensures r.Node? && r.menu == f.menu && r.item == f.item && r.rest == FinalizeFirst(f, modules).rest
    decreases MenuTree.Size(f), 1
  {
    if f.kids.Node? then
      Node(f.menu, f.item, GrowAll(PropagateAll(Inherited(f.item), f.kids, modules), modules), f.rest)
    else if f.item.sym.Some? then
      Node(f.menu, f.item, GrowRun(f.item, f.rest, modules), FinalizeFirst(f, modules).rest)
    else f
  }

  ghost function GrowAll(f: Forest, modules: Symbol): Forest
    decreases MenuTree.Size(f), 2
  {
    if f.Nil? then Nil
    else
      var g := GrowFirst(f, modules);
      Node(g.menu, g.item, g.kids, GrowAll(g.rest, modules))
  }

  /** The nodes that follow a symbol, as long as they belong into its submenu. */
  ghost function GrowRun(i: Item, f: Forest, modules: Symbol): Forest
    requires i.sym.Some?
    decreases MenuTree.Size(f), 2
  {
    if f.Nil? || !Joins(i, f.item) then Nil
    else
      var g := GrowFirst(f, modules);
      Node(g.menu, g.item, g.kids, GrowRun(i, g.rest, modules))
  }

  lemma {:induction false} FirstOwners(f: Forest, modules: Symbol, outer: Menu)
    requires f.Node?
    ensures Owners(FinalizeFirst(f, modules).kids, outer) == Owners(GrowFirst(f, modules).kids, outer)
    decreases MenuTree.Size(f), 1
  {
    if f.kids.Node? {
      var k := PropagateAll(Inherited(f.item), f.kids, modules);
      AllOwners(k, modules, outer);
      FlattenOwners(FinalizeAll(k, modules), outer);
    } else if f.item.sym.Some? {
      RunOwners(f.item, f.rest, modules, outer);
      FlattenOwners(Steal(f.item, f.rest, modules).0, outer);
    }
  }

  lemma {:induction false} AllOwners(f: Forest, modules: Symbol, outer: Menu)
    ensures Owners(FinalizeAll(f, modules), outer) == Owners(GrowAll(f, modules), outer)
    decreases MenuTree.Size(f), 2
  {
    if f.Node? {
      FirstOwners(f, modules, if HasText(f.item) then f.menu else outer);
      AllOwners(FinalizeFirst(f, modules).rest, modules, outer);
    }
  }

  lemma {:induction false} RunOwners(i: Item, f: Forest, modules: Symbol, outer: Menu)
    requires i.sym.Some?
    ensures Owners(Steal(i, f, modules).0, outer) == Owners(GrowRun(i, f, modules), outer)
    decreases MenuTree.Size(f), 2
  {
    if f.Node? && Joins(i, f.item) {
      FirstOwners(f, modules, if HasText(f.item) then f.menu else outer);
      RunOwners(i, FinalizeFirst(f, modules).rest, modules, outer);
    }
  }

  /** The parent of each node after menu_finalize is the nearest node with a text that encloses it, be it in
      the Kconfig files or in an automatic submenu. */
  lemma FinalParents(f: Forest, modules: Symbol)
    requires f.Node?
    ensures Parents(FinalizeFirst(f, modules).kids, f.menu) == Owners(GrowFirst(f, modules).kids, f.menu)
  {
    FinalizeTidies(f, modules);
    TidyParents(FinalizeFirst(f, modules).kids, f.menu);
    FirstOwners(f, modules, f.menu);
  }

  /** The pointers agree with the forest. */
  ghost predicate PointTo(nodes: seq<Menu>, parents: seq<Menu>)
    reads set m | m in nodes
  {
    |nodes| == |parents| && forall k :: 0 <= k < |nodes| ==> nodes[k].parent == parents[k]
  }

  lemma {:induction false} LinkedParents(m: Menu?, f: Forest, p: Menu, tail: Menu?)
    requires Linked(m, f, p, tail)
    ensures PointTo(Preorder(f), Parents(f, p))
  {
    if f.Node? {
      LinkedParents(f.menu.list, f.kids, f.menu, null);
      LinkedParents(f.menu.next, f.rest, p, tail);
    }
  }
}
