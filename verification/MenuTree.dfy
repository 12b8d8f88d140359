/** menu_finalize: the menu nodes of the Kconfig files form a tree of first-child, next-sibling and
    parent pointers, which is reshaped while it is being walked. */
module MenuTree {
  import opened Expressions
  import opened ExprCompare
  import opened SymbolGraph

  /** What a property does besides: select and imply name another symbol. */
  datatype Effect = NoEffect | Selects(target: Symbol) | Implies(target: Symbol)

  datatype Property = Property(effect: Effect, condition: Nullable)

  /** What a menu node says, apart from its place in the tree: `dep` is its dependency, `visible` the
      condition of its prompt, and `others` are the other properties that its symbol has here: defaults,
      ranges, select and imply. A node with a symbol may be a choice, which is mandatory unless it is
      optional; a prompt may lack a text. */
  datatype Item = Item(sym: Option<Symbol>, isChoice: bool, mandatory: bool, prompted: bool, titled: bool,
                       dep: Nullable, visible: Nullable, others: seq<Property>)

  class Menu {
    var item: Item
    var list: Menu?
    var next: Menu?
    var parent: Menu?

    constructor (item: Item)
      ensures this.item == item && list == null && next == null && parent == null
    {
      this.item, list, next, parent := item, null, null, null;
    }
  }

  /** A list of menu nodes with their subtrees. */
  datatype Forest = Nil | Node(menu: Menu, item: Item, kids: Forest, rest: Forest)

  ghost function Nodes(f: Forest): set<Menu> {
    match f
    case Nil => {}
    case Node(m, _, k, r) => {m} + Nodes(k) + Nodes(r)
  }

  ghost function Size(f: Forest): nat {
    match f
    case Nil => 0
    case Node(_, _, k, r) => 1 + Size(k) + Size(r)
  }

  ghost function Preorder(f: Forest): seq<Menu> {
    match f
    case Nil => []
    case Node(m, _, k, r) => [m] + Preorder(k) + Preorder(r)
  }

  ghost function Append(f: Forest, g: Forest): (r: Forest)
    ensures Size(r) == Size(f) + Size(g) && Nodes(r) == Nodes(f) + Nodes(g)
    ensures Preorder(r) == Preorder(f) + Preorder(g)
  {
    match f
    case Nil =>
      assert Preorder(f) + Preorder(g) == Preorder(g);
      g
    case Node(m, i, k, rest) =>
      var after := Append(rest, g);
      assert [m] + Preorder(k) + (Preorder(rest) + Preorder(g)) == [m] + Preorder(k) + Preorder(rest) + Preorder(g);
      Node(m, i, k, after)
  }

  // ----- what happens to the tree -----

  /** The condition that children inherit. */
  ghost function Inherited(i: Item): Nullable {
    if i.sym.Some? && i.isChoice then Ref(Sym(i.sym.value))
    else if i.prompted then i.visible
    else i.dep
  }

  /** What becomes of the condition of a property. */
  ghost function PropagateCondition(dep: Nullable, i: Item, condition: Nullable, modules: Symbol): Nullable {
    var c := Propagate(dep, condition, modules);
    if i.sym.Some? && i.sym.value.typ != TristateType then DropUnequalNoNullable(c) else c
  }

  ghost function PropagateProperty(dep: Nullable, i: Item, p: Property, modules: Symbol): Property {
    p.(condition := PropagateCondition(dep, i, p.condition, modules))
  }

  ghost function PropagateItem(inherited: Nullable, i: Item, modules: Symbol): (r: Item)
    ensures |r.others| == |i.others|
  {
    var dep := Propagate(inherited, i.dep, modules);
    var visible := if i.prompted then PropagateCondition(dep, i, i.visible, modules) else i.visible;
    var others :=
      if i.sym.None? then i.others
      else seq(|i.others|, k requires 0 <= k < |i.others| => PropagateProperty(dep, i, i.others[k], modules));
    i.(dep := dep, visible := visible, others := others)
  }

  ghost function PropagateAll(inherited: Nullable, f: Forest, modules: Symbol): (r: Forest)
    ensures Size(r) == Size(f) && Nodes(r) == Nodes(f) && Preorder(r) == Preorder(f)
  {
    match f
    case Nil => Nil
    case Node(m, i, k, rest) => Node(m, PropagateItem(inherited, i, modules), k, PropagateAll(inherited, rest, modules))
  }

  /** A following node belongs into the automatic submenu of a symbol. */
  ghost predicate Joins(i: Item, j: Item)
    requires i.sym.Some?
  {
    JoinsSubmenu(i.sym.value, if i.prompted then i.visible else Null, if j.prompted then j.visible else j.dep)
  }

  /** A forest with the same nodes in the same order. */
  ghost predicate SameNodes(f: Forest, g: Forest) {
    Size(g) == Size(f) && Nodes(g) == Nodes(f) && Preorder(g) == Preorder(f)
  }

  /** menu_finalize on the first node of a list: its subtree may take in nodes that follow it. */
  ghost function FinalizeFirst(f: Forest, modules: Symbol): (r: Forest)
    requires f.Node?
    ensures r.Node? && r.menu == f.menu && r.item == f.item && SameNodes(f, r)
    decreases Size(f), 1
  {
    if f.kids.Node? then
      Node(f.menu, f.item, Flatten(FinalizeAll(PropagateAll(Inherited(f.item), f.kids, modules), modules)), f.rest)
    else if f.item.sym.Some? then
      var (stolen, left) := Steal(f.item, f.rest, modules);
      Node(f.menu, f.item, Flatten(stolen), left)
    else f
  }

  ghost function FinalizeAll(f: Forest, modules: Symbol): (r: Forest)
    ensures SameNodes(f, r)
    decreases Size(f), 2
  {
    if f.Nil? then Nil
    else
      var g := FinalizeFirst(f, modules);
      Node(g.menu, g.item, g.kids, FinalizeAll(g.rest, modules))
  }

  /** The nodes that move into the automatic submenu, each finalised, and those that stay. */
  ghost function Steal(i: Item, f: Forest, modules: Symbol): (r: (Forest, Forest))
    requires i.sym.Some?
    ensures SameNodes(f, Append(r.0, r.1))
    decreases Size(f), 2
  {
    if f.Nil? || !Joins(i, f.item) then (Nil, f)
    else
      var g := FinalizeFirst(f, modules);
      var (stolen, left) := Steal(i, g.rest, modules);
      (Node(g.menu, g.item, g.kids, stolen), left)
  }

  /** The children of a node without a text move behind it. */
  ghost function Flatten(f: Forest): (r: Forest)
    ensures SameNodes(f, r)
    decreases Size(f), 0
  {
    if f.Nil? then Nil
    else if f.kids.Node? && !(f.item.prompted && f.item.titled) then
      Node(f.menu, f.item, Nil, Flatten(Append(f.kids, f.rest)))
    else Node(f.menu, f.item, f.kids, Flatten(f.rest))
  }

  // ----- what the reshaped tree looks like -----

  /** Only nodes with a text have children, at every depth. */
  ghost predicate Tidy(f: Forest) {
    match f
    case Nil => true
    case Node(_, i, k, r) => (k.Node? ==> i.prompted && i.titled) && Tidy(k) && Tidy(r)
  }

  /** The same below the nodes of a list. */
  ghost predicate TidyBelow(f: Forest) {
    f.Node? ==> Tidy(f.kids) && TidyBelow(f.rest)
  }

  lemma {:induction false} TidyAppend(f: Forest, g: Forest)
    requires Tidy(f) && TidyBelow(g)
    ensures TidyBelow(Append(f, g))
  {
    if f.Node? {
      TidyAppend(f.rest, g);
    }
  }

  lemma {:induction false} FlattenTidies(f: Forest)
    requires TidyBelow(f)
    ensures Tidy(Flatten(f))
    decreases Size(f)
  {
    if f.Node? {
      if f.kids.Node? && !(f.item.prompted && f.item.titled) {
        TidyAppend(f.kids, f.rest);
        FlattenTidies(Append(f.kids, f.rest));
      } else {
        FlattenTidies(f.rest);
      }
    }
  }

  /** After menu_finalize, no node below the finalised one has children without having a text. */
  lemma {:induction false} FinalizeTidies(f: Forest, modules: Symbol)
    requires f.Node?
    ensures Tidy(FinalizeFirst(f, modules).kids)
    decreases Size(f), 1
  {
    if f.kids.Node? {
      var k := PropagateAll(Inherited(f.item), f.kids, modules);
      FinalizeAllTidies(k, modules);
      FlattenTidies(FinalizeAll(k, modules));
    } else if f.item.sym.Some? {
      StealTidies(f.item, f.rest, modules);
      FlattenTidies(Steal(f.item, f.rest, modules).0);
    }
  }

  lemma {:induction false} FinalizeAllTidies(f: Forest, modules: Symbol)
    ensures TidyBelow(FinalizeAll(f, modules))
    decreases Size(f), 2
  {
    if f.Node? {
      FinalizeTidies(f, modules);
      FinalizeAllTidies(FinalizeFirst(f, modules).rest, modules);
    }
  }

  lemma {:induction false} StealTidies(i: Item, f: Forest, modules: Symbol)
    requires i.sym.Some?
    ensures TidyBelow(Steal(i, f, modules).0)
    decreases Size(f), 2
  {
    if f.Node? && Joins(i, f.item) {
      FinalizeTidies(f, modules);
      StealTidies(i, FinalizeFirst(f, modules).rest, modules);
    }
  }

  /** The nodes of a list, without their subtrees. */
  ghost predicate AllJoin(i: Item, f: Forest)
    requires i.sym.Some?
  {
    f.Node? ==> Joins(i, f.item) && AllJoin(i, f.rest)
  }

  /** An automatic submenu takes in the longest run of nodes that belong into it. */
  lemma {:induction false} StealIsMaximal(i: Item, f: Forest, modules: Symbol)
    requires i.sym.Some?
    ensures var r := Steal(i, f, modules);
      AllJoin(i, r.0) && (r.1.Node? ==> !Joins(i, r.1.item))
    decreases Size(f)
  {
    if f.Node? && Joins(i, f.item) {
      StealIsMaximal(i, FinalizeFirst(f, modules).rest, modules);
    }
  }
}
