/** menu_finalize as it relinks the menu nodes in place. */
module MenuFinalize {
  import opened Expressions
  import opened ExprCompare
  import opened MenuTree
  import opened MenuRelations

  /** The pointers from `m` on, up to `tail`, make up the list `f`, and all of its nodes have the
      parent `p`; the subtrees are complete, and no node occurs twice. */
  ghost predicate Linked(m: Menu?, f: Forest, p: Menu?, tail: Menu?)
    reads Nodes(f)
  {
    match f
    case Nil => m == tail
    case Node(n, i, k, r) =>
      && m == n && n.item == i && n.parent == p
      && n !in Nodes(k) && n !in Nodes(r) && Nodes(k) !! Nodes(r)
      && Linked(n.list, k, n, null) && Linked(n.next, r, p, tail)
  }

  lemma {:induction false} NodesAllocated(f: Forest)
    ensures forall n :: n in Nodes(f) ==> allocated(n)
  {
    if f.Node? {
      NodesAllocated(f.kids);
      NodesAllocated(f.rest);
    }
  }

  /** The last node of a list segment. */
  ghost function Last(f: Forest): (m: Menu)
    requires f.Node?
    ensures m in Nodes(f)
  {
    if f.rest.Nil? then f.menu else Last(f.rest)
  }

  lemma {:induction false} RepAppend(m: Menu?, f: Forest, g: Forest, p: Menu?, mid: Menu?, tail: Menu?)
    requires Linked(m, f, p, mid) && Linked(mid, g, p, tail) && Nodes(f) !! Nodes(g)
    ensures Linked(m, Append(f, g), p, tail)
  {
    if f.Node? {
      RepAppend(f.menu.next, f.rest, g, p, mid, tail);
    }
  }

  lemma {:induction false} AppendAppend(f: Forest, g: Forest, h: Forest)
    ensures Append(Append(f, g), h) == Append(f, Append(g, h))
  {
    if f.Node? {
      AppendAppend(f.rest, g, h);
    }
  }

  lemma {:induction false} AppendNil(f: Forest)
    ensures Append(f, Nil) == f
  {
    if f.Node? {
      AppendNil(f.rest);
    }
  }

  lemma {:induction false} PreorderNodes(f: Forest)
    ensures forall m :: m in Preorder(f) <==> m in Nodes(f)
    ensures |Preorder(f)| == MenuTree.Size(f)
  {
    if f.Node? {
      PreorderNodes(f.kids);
      PreorderNodes(f.rest);
    }
  }

  /** A sequence that holds each of the nodes exactly once. */
  predicate OnceEach(s: seq<Menu>, nodes: set<Menu>) {
    |s| == |nodes| && (forall m :: m in s ==> m in nodes) && (forall m :: m in nodes ==> m in s)
  }

  lemma {:induction false} RepSize(m: Menu?, f: Forest, p: Menu?, tail: Menu?)
    requires Linked(m, f, p, tail)
    ensures |Nodes(f)| == MenuTree.Size(f)
  {
    if f.Node? {
      RepSize(f.menu.list, f.kids, f.menu, null);
      RepSize(f.menu.next, f.rest, p, tail);
      UnionSize(f.menu, Nodes(f.kids), Nodes(f.rest));
    }
  }

  lemma UnionSize(m: Menu, a: set<Menu>, b: set<Menu>)
    requires m !in a && m !in b && a !! b
    ensures |{m} + a + b| == 1 + |a| + |b|
  {
    assert |{m} + a| == 1 + |a|;
  }

  /** The preorder of a well-formed list holds each node exactly once. */
  lemma PreorderOnceEach(m: Menu?, f: Forest, p: Menu?, tail: Menu?)
    requires Linked(m, f, p, tail)
    ensures OnceEach(Preorder(f), Nodes(f))
  {
    RepSize(m, f, p, tail);
    PreorderNodes(f);
  }

  /** The condition of a node in the test for automatic submenus. */
  function PromptCondition(i: Item): Nullable {
    if i.prompted then i.visible else Null
  }

  /** The first node of a list on its own. */
  ghost function Single(f: Forest): (r: Forest)
    requires f.Node?
    ensures r.Node?
  {
    Node(f.menu, f.item, f.kids, Nil)
  }

  // ----- the loops -----

  /** A loop over the list that begins at `first` has come to `cur`. */
  ghost predicate Split(first: Menu?, done: Forest, cur: Menu?, todo: Forest, p: Menu?)
    reads Nodes(done), Nodes(todo)
  {
    Linked(first, done, p, cur) && Linked(cur, todo, p, null) && Nodes(done) !! Nodes(todo)
  }

  /** The loop goes on behind a node. */
  lemma SplitNext(first: Menu?, done: Forest, cur: Menu, todo: Forest, p: Menu?)
    requires todo.Node? && Split(first, done, cur, todo, p)
    ensures Split(first, Append(done, Single(todo)), cur.next, todo.rest, p)
  {
    assert Linked(cur, Single(todo), p, cur.next);
    RepAppend(first, done, Single(todo), p, cur, cur.next);
  }

  /** The condition of a property. */
  method ConditionOf(dep: Nullable, item: Item, condition: Nullable, modules: Symbol) returns (r: Nullable)
    ensures r == PropagateCondition(dep, item, condition, modules)
  {
    r := Propagate(dep, condition, modules);
    if item.sym.Some? && item.sym.value.typ != TristateType {
      r := DropUnequalNoNullable(r);
    }
  }

  /** One round of the loop over the properties: select and imply change the symbol that they name. */
  method PropagateOther(dep: Nullable, item: Item, p: Property, modules: Symbol, t: Relations) returns (q: Property)
    requires item.sym.Some?
    modifies t
    ensures q == PropagateProperty(dep, item, p, modules)
    ensures t.facts == Replay(old(t.facts), PropertyEvent(item.sym.value, q))
  {
    var condition := ConditionOf(dep, item, p.condition, modules);
    q := p.(condition := condition);
    var s := item.sym.value;
    match q.effect
    case NoEffect =>
    case Selects(x) =>
      t.Note(SelectedBy(x, Under(s, condition)));
      ReplayOne(old(t.facts), SelectedBy(x, Under(s, condition)));
    case Implies(x) =>
      t.Note(ImpliedBy(x, Under(s, condition)));
      ReplayOne(old(t.facts), ImpliedBy(x, Under(s, condition)));
  }

  lemma PropertyStep(facts: Table, s: Symbol, done: seq<Property>, p: Property)
    ensures Replay(facts, PropertyEvents(s, done + [p])) ==
      Replay(Replay(facts, PropertyEvents(s, done)), PropertyEvent(s, p))
  {
    assert (done + [p])[..|done + [p]| - 1] == done;
    ReplayJoin(facts, PropertyEvents(s, done), PropertyEvent(s, p));
  }

  /** The loop over the other properties. */
  method PropagateOthers(dep: Nullable, item: Item, modules: Symbol, t: Relations) returns (others: seq<Property>)
    requires item.sym.Some?
    modifies t
    ensures |others| == |item.others|
    ensures forall j :: 0 <= j < |others| ==> others[j] == PropagateProperty(dep, item, item.others[j], modules)
    ensures t.facts == Replay(old(t.facts), PropertyEvents(item.sym.value, others))
  {
    others := [];
    for k := 0 to |item.others|
      invariant |others| == k
      invariant forall j :: 0 <= j < k ==> others[j] == PropagateProperty(dep, item, item.others[j], modules)
      invariant t.facts == Replay(old(t.facts), PropertyEvents(item.sym.value, others))
    {
      var other := PropagateOther(dep, item, item.others[k], modules, t);
      PropertyStep(old(t.facts), item.sym.value, others, other);
      others := others + [other];
    }
  }

  lemma PropagatedItem(inherited: Nullable, item: Item, visible: Nullable, others: seq<Property>, modules: Symbol)
    requires var dep := Propagate(inherited, item.dep, modules);
      && visible == (if item.prompted then PropagateCondition(dep, item, item.visible, modules) else item.visible)
      && |others| == |item.others|
      && forall j :: 0 <= j < |others| ==>
           others[j] == if item.sym.None? then item.others[j] else PropagateProperty(dep, item, item.others[j], modules)
    ensures item.(dep := Propagate(inherited, item.dep, modules), visible := visible, others := others) ==
      PropagateItem(inherited, item, modules)
  {
    assert others == PropagateItem(inherited, item, modules).others;
  }

  /** One round of the first loop of menu_finalize: a child inherits the condition of its parent, and
      passes it on to its properties. */
  method PropagateOne(cur: Menu, inherited: Nullable, modules: Symbol, t: Relations)
    modifies cur`item, t
    ensures cur.item == PropagateItem(inherited, old(cur.item), modules)
    ensures t.facts == Replay(old(t.facts), ItemEvents(cur.item))
  {
    var item := cur.item;
    var dep := Propagate(inherited, item.dep, modules);
    var visible, others := item.visible, item.others;
    if item.prompted {
      visible := ConditionOf(dep, item, item.visible, modules);
    }
    if item.sym.Some? {
      others := PropagateOthers(dep, item, modules, t);
    }
    PropagatedItem(inherited, item, visible, others, modules);
    cur.item := item.(dep := dep, visible := visible, others := others);
  }

  method PropagateNext(first: Menu?, ghost done: Forest, cur: Menu, ghost todo: Forest, ghost p: Menu?,
                       inherited: Nullable, modules: Symbol, t: Relations)
    returns (ghost done': Forest)
    requires todo.Node? && Split(first, done, cur, todo, p)
    modifies cur`item, t
    ensures done' == Append(done, Node(cur, PropagateItem(inherited, todo.item, modules), todo.kids, Nil))
    ensures Split(first, done', cur.next, todo.rest, p)
    ensures t.facts == Replay(old(t.facts), ItemEvents(PropagateItem(inherited, todo.item, modules)))
  {
    ghost var now := todo.(item := PropagateItem(inherited, todo.item, modules));
    NodesAllocated(done);
    NodesAllocated(todo);
    PropagateOne(cur, inherited, modules, t);
    assert Linked(cur, now, p, null);
    SplitNext(first, done, cur, now, p);
    done' := Append(done, Single(now));
  }

  /** The first loop of menu_finalize. */
  method PropagateChildren(first: Menu?, inherited: Nullable, ghost f: Forest, ghost p: Menu?, modules: Symbol,
                           t: Relations)
    requires Linked(first, f, p, null)
    modifies Nodes(f), t
    ensures Linked(first, PropagateAll(inherited, f, modules), p, null)
    ensures t.facts == Replay(old(t.facts), ListEvents(PropagateAll(inherited, f, modules)))
  {
    var cur := first;
    ghost var done, todo := Nil, f;
    while cur != null
      invariant Split(first, done, cur, todo, p) && Nodes(done) + Nodes(todo) == Nodes(f)
      invariant Append(done, PropagateAll(inherited, todo, modules)) == PropagateAll(inherited, f, modules)
      invariant Replay(t.facts, ListEvents(PropagateAll(inherited, todo, modules))) ==
        Replay(old(t.facts), ListEvents(PropagateAll(inherited, f, modules)))
      decreases todo
    {
      ghost var was, now := t.facts, PropagateAll(inherited, todo, modules);
      AppendAppend(done, Single(now), now.rest);
      ReplayJoin(was, ItemEvents(now.item), ListEvents(now.rest));
      done := PropagateNext(first, done, cur, todo, p, inherited, modules, t);
      todo := todo.rest;
      cur := cur.next;
    }
    AppendNil(done);
  }

  // ----- flattening -----

  ghost function Front(f: Forest): Forest
    requires f.Node?
  {
    if f.rest.Nil? then Nil else f.(rest := Front(f.rest))
  }

  ghost function LastNode(f: Forest): (r: Forest)
    requires f.Node?
    ensures r.Node? && r.rest == Nil && r.menu == Last(f)
  {
    if f.rest.Nil? then f else LastNode(f.rest)
  }

  lemma {:induction false} FrontAndLast(f: Forest)
    requires f.Node?
    ensures Append(Front(f), LastNode(f)) == f && Nodes(Front(f)) + Nodes(LastNode(f)) == Nodes(f)
  {
    if f.rest.Node? {
      FrontAndLast(f.rest);
    }
  }

  lemma {:induction false} FrontOfAppend(f: Forest, g: Forest)
    requires g.Node? && g.rest.Nil?
    ensures Append(f, g).Node? && Front(Append(f, g)) == f && LastNode(Append(f, g)) == g
  {
    if f.Node? {
      FrontOfAppend(f.rest, g);
    }
  }

  /** The nodes of a list get a new parent; the loop stops at the last one. */
  method Reparent(first: Menu, ghost f: Forest, ghost p: Menu?, q: Menu?) returns (last: Menu)
    requires f.Node? && Linked(first, f, p, null)
    modifies Nodes(f)
    ensures last == Last(f) && Linked(first, Front(f), q, last) && Linked(last, LastNode(f), q, null)
    ensures Nodes(Front(f)) !! Nodes(LastNode(f))
  {
    last := first;
    ghost var done, todo := Nil, f;
    while true
      invariant todo.Node? && Linked(first, done, q, last) && Linked(last, todo, p, null)
      invariant Nodes(done) !! Nodes(todo) && Append(done, todo) == f
      decreases todo
    {
      SetParent(first, done, last, todo, p, q);
      if last.next == null {
        FrontOfAppend(done, Single(todo));
        return;
      }
      RepAppend(first, done, Single(todo), q, last, last.next);
      AppendAppend(done, Single(todo), todo.rest);
      done, todo := Append(done, Single(todo)), todo.rest;
      last := last.next;
    }
  }

  method SetParent(first: Menu, ghost done: Forest, last: Menu, ghost todo: Forest, ghost p: Menu?, q: Menu?)
    requires todo.Node? && Linked(first, done, q, last) && Linked(last, todo, p, null) && Nodes(done) !! Nodes(todo)
    modifies last
    ensures last.next == old(last.next) && Linked(first, done, q, last)
    ensures Linked(last, Single(todo), q, last.next) && Linked(last.next, todo.rest, p, null)
  {
    last.parent := q;
  }

  /** The last node of one list leads to the head of another one. */
  lemma JoinLists(m: Menu?, k: Forest, last: Menu, n: Menu?, r: Forest, p: Menu?)
    requires k.Node? && Linked(m, Front(k), p, last) && Linked(last, LastNode(k), p, n) && Linked(n, r, p, null)
    requires Nodes(Front(k)) !! Nodes(LastNode(k)) && Nodes(k) !! Nodes(r)
    requires k == Append(Front(k), LastNode(k))
    ensures Linked(m, Append(k, r), p, null)
  {
    RepAppend(last, LastNode(k), r, p, n, null);
    RepAppend(m, Front(k), Append(LastNode(k), r), p, last, null);
    AppendAppend(Front(k), LastNode(k), r);
  }

  /** The children of a node move behind it. */
  method LiftChildren(cur: Menu, ghost f: Forest, p: Menu?)
    requires f.Node? && f.kids.Node? && Linked(cur, f, p, null)
    modifies Nodes(f)
    ensures Linked(cur, Node(cur, f.item, Nil, Append(f.kids, f.rest)), p, null)
  {
    ghost var k, r := f.kids, f.rest;
    NodesAllocated(f);
    var last := Reparent(cur.list, k, cur, p);
    FrontAndLast(k);
    assert Linked(cur.next, r, p, null);
    LinkLast(cur.list, last, cur.next, Front(k), LastNode(k), r, p);
    JoinLists(cur.list, k, last, cur.next, r, p);
    Relink(cur, f.item, Append(k, r), p);
  }

  /** The last node of a list gets a successor. */
  method LinkLast(head: Menu?, last: Menu, n: Menu?, ghost front: Forest, ghost end: Forest, ghost r: Forest,
                  ghost p: Menu?)
    requires end.Node? && end.rest.Nil? && end.menu == last && last !in Nodes(front) && last !in Nodes(r)
    requires Linked(head, front, p, last) && Linked(last, end, p, null) && Linked(n, r, p, null)
    modifies last`next
    ensures Linked(head, front, p, last) && Linked(last, end, p, n) && Linked(n, r, p, null)
  {
    last.next := n;
  }

  /** The list behind a node takes the place of its siblings. */
  method Relink(cur: Menu, ghost i: Item, ghost f: Forest, ghost p: Menu?)
    requires cur !in Nodes(f) && cur.item == i && cur.parent == p && Linked(cur.list, f, p, null)
    modifies cur
    ensures Linked(cur, Node(cur, i, Nil, f), p, null)
  {
    cur.next := cur.list;
    cur.list := null;
    assert Linked(cur.next, f, p, null);
  }

  /** The last loop of menu_finalize: the children of a choice become its members, and the children of
      nodes without a text move behind them. */
  method FlattenChildren(first: Menu?, ghost f: Forest, p: Menu?, parent: Item, t: Relations)
    requires Linked(first, f, p, null)
    modifies Nodes(f), t
    ensures Linked(first, Flatten(f), p, null)
    ensures t.facts == Replay(old(t.facts), MemberEvents(parent, Flatten(f)))
  {
    var cur := first;
    ghost var done, todo := Nil, f;
    while cur != null
      invariant Split(first, done, cur, todo, p) && Nodes(done) + Nodes(todo) == Nodes(f)
      invariant Append(done, Flatten(todo)) == Flatten(f)
      invariant Replay(t.facts, MemberEvents(parent, Flatten(todo))) ==
        Replay(old(t.facts), MemberEvents(parent, Flatten(f)))
      decreases MenuTree.Size(todo)
    {
      done, todo := FlattenOne(first, done, cur, todo, p, parent, t);
      cur := cur.next;
    }
    AppendNil(done);
  }

  /** A node after the test for flattening. */
  ghost function Lifted(f: Forest): (r: Forest)
    requires f.Node?
    ensures r.Node? && Nodes(r) == Nodes(f) && MenuTree.Size(r) == MenuTree.Size(f)
  {
    if f.kids.Node? && !(f.item.prompted && f.item.titled) then Node(f.menu, f.item, Nil, Append(f.kids, f.rest)) else f
  }

  lemma FlattenLifted(done: Forest, f: Forest)
    requires f.Node?
    ensures Append(Append(done, Single(Lifted(f))), Flatten(Lifted(f).rest)) == Append(done, Flatten(f))
  {
    AppendAppend(done, Single(Lifted(f)), Flatten(Lifted(f).rest));
  }

  method LiftOne(cur: Menu, ghost f: Forest, p: Menu?)
    requires f.Node? && Linked(cur, f, p, null)
    modifies Nodes(f)
    ensures Linked(cur, Lifted(f), p, null)
  {
    assert Linked(cur.list, f.kids, cur, null);
    if cur.list != null && !(cur.item.prompted && cur.item.titled) {
      LiftChildren(cur, f, p);
    }
  }

  /** A child of a choice becomes a member, unless it is one already. */
  method Enter(parent: Item, item: Item, t: Relations)
    modifies t
    ensures t.facts == Replay(old(t.facts), EnterEvents(parent, item))
  {
    if parent.sym.Some? && parent.isChoice && item.sym.Some? {
      t.Note(Enters(item.sym.value, parent.sym.value));
      ReplayOne(old(t.facts), Enters(item.sym.value, parent.sym.value));
    }
  }

  lemma MemberStep(parent: Item, f: Forest, facts: Table)
    requires f.Node?
    ensures Replay(facts, MemberEvents(parent, Flatten(f))) ==
      Replay(Replay(facts, EnterEvents(parent, f.item)), MemberEvents(parent, Flatten(Lifted(f).rest)))
  {
    ReplayJoin(facts, EnterEvents(parent, f.item), MemberEvents(parent, Flatten(Lifted(f).rest)));
  }

  method FlattenOne(first: Menu?, ghost done: Forest, cur: Menu, ghost todo: Forest, p: Menu?, parent: Item,
                    t: Relations)
    returns (ghost done': Forest, ghost todo': Forest)
    requires todo.Node? && Split(first, done, cur, todo, p)
    modifies Nodes(todo), t
    ensures Split(first, done', cur.next, todo', p) && Nodes(done') + Nodes(todo') == Nodes(done) + Nodes(todo)
    ensures Append(done', Flatten(todo')) == Append(done, Flatten(todo)) && MenuTree.Size(todo') < MenuTree.Size(todo)
    ensures Replay(t.facts, MemberEvents(parent, Flatten(todo'))) ==
      Replay(old(t.facts), MemberEvents(parent, Flatten(todo)))
  {
    NodesAllocated(done);
    NodesAllocated(todo);
    Enter(parent, cur.item, t);
    MemberStep(parent, todo, old(t.facts));
    done', todo' := LiftNext(first, done, cur, todo, p);
  }

  method LiftNext(first: Menu?, ghost done: Forest, cur: Menu, ghost todo: Forest, p: Menu?)
    returns (ghost done': Forest, ghost todo': Forest)
    requires todo.Node? && Split(first, done, cur, todo, p)
    modifies Nodes(todo)
    ensures Split(first, done', cur.next, todo', p) && Nodes(done') + Nodes(todo') == Nodes(done) + Nodes(todo)
    ensures Append(done', Flatten(todo')) == Append(done, Flatten(todo)) && MenuTree.Size(todo') < MenuTree.Size(todo)
    ensures todo' == Lifted(todo).rest
  {
    NodesAllocated(done);
    LiftOne(cur, todo, p);
    SplitNext(first, done, cur, Lifted(todo), p);
    FlattenLifted(done, todo);
    done', todo' := Append(done, Single(Lifted(todo))), Lifted(todo).rest;
  }

  // ----- menu_finalize -----

  /** menu_finalize: afterwards the pointers make up the finalised list, in which every node has the
      right parent, and the symbols have got what the walk adds to them. `log` lists the nodes that have
      been finalised, in the order in which their finalisation began: the node itself and all that is
      below it at the end, each of them once. */
  method Finalize(menu: Menu, ghost f: Forest, ghost p: Menu?, modules: Symbol, t: Relations)
    returns (ghost log: seq<Menu>)
    requires f.Node? && Linked(menu, f, p, null)
    modifies Nodes(f), t
    ensures Linked(menu, FinalizeFirst(f, modules), p, null)
    ensures log == [menu] + Preorder(FinalizeFirst(f, modules).kids)
    ensures t.facts == Replay(old(t.facts), FirstEvents(f, modules))
    decreases MenuTree.Size(f), 2
  {
    NodesAllocated(f);
    log := FinalizeInner(menu, f, p, modules, t);
    ReplayJoin(old(t.facts), InnerEvents(f, modules), ForceEvents(f.item));
    Force(menu.item, t);
  }

  /** A choice that is not optional selects itself. */
  method Force(item: Item, t: Relations)
    modifies t
    ensures t.facts == Replay(old(t.facts), ForceEvents(item))
  {
    if item.sym.Some? && item.mandatory && item.prompted {
      t.Note(SelectedBy(item.sym.value, Forced(item.visible)));
      ReplayOne(old(t.facts), SelectedBy(item.sym.value, Forced(item.visible)));
    }
  }

  /** Everything but what happens to the node itself in the end. */
  method FinalizeInner(menu: Menu, ghost f: Forest, ghost p: Menu?, modules: Symbol, t: Relations)
    returns (ghost log: seq<Menu>)
    requires f.Node? && Linked(menu, f, p, null)
    modifies Nodes(f), t
    ensures Linked(menu, FinalizeFirst(f, modules), p, null)
    ensures log == [menu] + Preorder(FinalizeFirst(f, modules).kids)
    ensures t.facts == Replay(old(t.facts), InnerEvents(f, modules))
    decreases MenuTree.Size(f), 1
  {
    assert Linked(menu.list, f.kids, menu, null);
    log := [menu];
    ghost var below := [];
    if menu.list != null {
      below := FinalizeParent(menu, f, p, modules, t);
    } else if menu.item.sym.Some? {
      below := FinalizeLeaf(menu, f, p, modules, t);
    }
    log := log + below;
  }

  /** menu_finalize on a node with children. */
  method FinalizeParent(menu: Menu, ghost f: Forest, ghost p: Menu?, modules: Symbol, t: Relations)
    returns (ghost log: seq<Menu>)
    requires f.Node? && f.kids.Node? && Linked(menu, f, p, null)
    modifies Nodes(f), t
    ensures Linked(menu, FinalizeFirst(f, modules), p, null)
    ensures log == Preorder(FinalizeFirst(f, modules).kids)
    ensures t.facts == Replay(old(t.facts), InnerEvents(f, modules))
    decreases MenuTree.Size(f), 0
  {
    NodesAllocated(f);
    var i := menu.item;
    var inherited :=
      if i.sym.Some? && i.isChoice then Ref(Sym(i.sym.value)) else if i.prompted then i.visible else i.dep;
    log := FinalizeList(menu.list, f.kids, menu, inherited, i, modules, t);
  }

  /** The three loops over the children. */
  method FinalizeList(first: Menu?, ghost f: Forest, menu: Menu, inherited: Nullable, item: Item, modules: Symbol,
                      t: Relations)
    returns (ghost log: seq<Menu>)
    requires Linked(first, f, menu, null) && menu !in Nodes(f)
    modifies Nodes(f), t
    ensures var k := PropagateAll(inherited, f, modules);
      && Linked(first, Flatten(FinalizeAll(k, modules)), menu, null) && log == Preorder(f)
      && t.facts == Replay(old(t.facts),
                           ListEvents(k) + AllEvents(k, modules) + MemberEvents(item, Flatten(FinalizeAll(k, modules))))
    decreases MenuTree.Size(f), 4
  {
    ghost var k := PropagateAll(inherited, f, modules);
    ghost var g := FinalizeAll(k, modules);
    PropagateChildren(first, inherited, f, menu, modules, t);
    log := FinalizeChildren(first, k, menu, modules, t);
    FlattenChildren(first, g, menu, item, t);
    ReplayJoin(old(t.facts), ListEvents(k), AllEvents(k, modules));
    ReplayJoin(old(t.facts), ListEvents(k) + AllEvents(k, modules), MemberEvents(item, Flatten(g)));
  }

  /** The loop over the children. */
  method FinalizeChildren(first: Menu?, ghost f: Forest, ghost p: Menu?, modules: Symbol, t: Relations)
    returns (ghost log: seq<Menu>)
    requires Linked(first, f, p, null)
    modifies Nodes(f), t
    ensures Linked(first, FinalizeAll(f, modules), p, null)
    ensures log == Preorder(f)
    ensures t.facts == Replay(old(t.facts), AllEvents(f, modules))
    decreases MenuTree.Size(f), 3, 1
  {
    var cur := first;
    ghost var done, todo := Nil, f;
    log := [];
    while cur != null
      invariant Split(first, done, cur, todo, p) && Nodes(done) + Nodes(todo) == Nodes(f)
      invariant Append(done, FinalizeAll(todo, modules)) == FinalizeAll(f, modules)
      invariant log == Preorder(done) && MenuTree.Size(todo) <= MenuTree.Size(f)
      invariant Replay(t.facts, AllEvents(todo, modules)) == Replay(old(t.facts), AllEvents(f, modules))
      decreases MenuTree.Size(todo)
    {
      ghost var part;
      ReplayJoin(t.facts, FirstEvents(todo, modules), AllEvents(FinalizeFirst(todo, modules).rest, modules));
      done, todo, part := FinalizeNext(first, done, cur, todo, p, modules, t);
      log := log + part;
      cur := cur.next;
    }
    AppendNil(done);
  }

  /** One round of that loop: the node may take in some of those that follow it. */
  method FinalizeNext(first: Menu?, ghost done: Forest, cur: Menu, ghost todo: Forest, ghost p: Menu?, modules: Symbol,
                      t: Relations)
    returns (ghost done': Forest, ghost todo': Forest, ghost log: seq<Menu>)
    requires todo.Node? && Split(first, done, cur, todo, p)
    modifies Nodes(todo), t
    ensures var g := FinalizeFirst(todo, modules);
      done' == Append(done, Single(g)) && todo' == g.rest && log == Preorder(Single(g))
    ensures Split(first, done', cur.next, todo', p) && Nodes(done') + Nodes(todo') == Nodes(done) + Nodes(todo)
    ensures Append(done', FinalizeAll(todo', modules)) == Append(done, FinalizeAll(todo, modules))
    ensures MenuTree.Size(todo') < MenuTree.Size(todo)
    ensures t.facts == Replay(old(t.facts), FirstEvents(todo, modules))
    decreases MenuTree.Size(todo), 3, 0
  {
    NodesAllocated(done);
    log := Finalize(cur, todo, p, modules, t);
    ghost var g := FinalizeFirst(todo, modules);
    SplitNext(first, done, cur, g, p);
    AppendAppend(done, Single(g), FinalizeAll(g.rest, modules));
    done', todo' := Append(done, Single(g)), g.rest;
  }

  /** menu_finalize on a symbol without children: it takes in the nodes that belong into its
      automatic submenu. */
  method FinalizeLeaf(menu: Menu, ghost f: Forest, ghost p: Menu?, modules: Symbol, t: Relations)
    returns (ghost log: seq<Menu>)
    requires f.Node? && f.kids.Nil? && f.item.sym.Some? && Linked(menu, f, p, null)
    modifies Nodes(f), t
    ensures Linked(menu, FinalizeFirst(f, modules), p, null)
    ensures log == Preorder(FinalizeFirst(f, modules).kids)
    ensures t.facts == Replay(old(t.facts), InnerEvents(f, modules))
    decreases MenuTree.Size(f), 0
  {
    NodesAllocated(f);
    ghost var r := Steal(f.item, f.rest, modules);
    log := TakeIn(menu, f.item, f.rest, p, modules, t);
    FinishLeaf(menu, f.item, r.0, r.1, p, t);
    LeafEvents(old(t.facts), f, modules);
  }

  /** The rest of it, once some nodes have been taken in. */
  method FinishLeaf(menu: Menu, ghost i: Item, ghost taken: Forest, ghost left: Forest, ghost p: Menu?, t: Relations)
    requires menu.item == i && i.sym.Some? && menu.parent == p && menu !in Nodes(taken) && menu !in Nodes(left)
    requires Linked(menu.list, taken, menu, null) && Linked(menu.next, left, p, null) && Nodes(taken) !! Nodes(left)
    modifies Nodes(taken), t
    ensures Linked(menu, Node(menu, i, Flatten(taken), left), p, null)
    ensures t.facts == Replay(Record(old(t.facts), DependsOn(i.sym.value, i.dep)), MemberEvents(i, Flatten(taken)))
  {
    NodesAllocated(taken);
    NodesAllocated(left);
    t.Note(DependsOn(menu.item.sym.value, menu.item.dep));
    FlattenChildren(menu.list, taken, menu, menu.item, t);
    assert Linked(menu.list, Flatten(taken), menu, null) && Linked(menu.next, left, p, null);
  }

  lemma LeafEvents(facts: Table, f: Forest, modules: Symbol)
    requires f.Node? && f.kids.Nil? && f.item.sym.Some?
    ensures var s, members := f.item.sym.value, MemberEvents(f.item, FinalizeFirst(f, modules).kids);
      Replay(Record(Replay(facts, TakenEvents(f.item, f.rest, modules)), DependsOn(s, f.item.dep)), members) ==
        Replay(facts, InnerEvents(f, modules))
  {
    var taken, one := TakenEvents(f.item, f.rest, modules), DependsOn(f.item.sym.value, f.item.dep);
    ReplayJoin(facts, taken, [one]);
    ReplayOne(Replay(facts, taken), one);
    ReplayJoin(facts, taken + [one], MemberEvents(f.item, FinalizeFirst(f, modules).kids));
  }

  /** The last node of a segment can be looked at on its own. */
  lemma {:induction false} RepSplitLast(m: Menu?, f: Forest, p: Menu?, tail: Menu?)
    requires f.Node? && Linked(m, f, p, tail)
    ensures Linked(m, Front(f), p, Last(f)) && Linked(Last(f), LastNode(f), p, tail)
    ensures Nodes(Front(f)) !! Nodes(LastNode(f)) && Last(f).next == tail
  {
    if f.rest.Node? {
      RepSplitLast(f.menu.next, f.rest, p, tail);
      FrontAndLast(f.rest);
    }
  }

  /** The second half of the automatic submenu creation: a run of following nodes is cut out of the
      list and becomes the list of children. */
  method MoveRun(menu: Menu, last: Menu, ghost taken: Forest, cur: Menu?, ghost todo: Forest, ghost p: Menu?)
    requires taken.Node? && last == Last(taken)
    requires Linked(menu.next, taken, menu, cur) && Linked(cur, todo, p, null) && Nodes(taken) !! Nodes(todo)
    requires menu !in Nodes(taken) && menu !in Nodes(todo)
    modifies menu, last
    ensures menu.item == old(menu.item) && menu.parent == old(menu.parent)
    ensures Linked(menu.list, taken, menu, null) && Linked(menu.next, todo, p, null)
  {
    RepSplitLast(menu.next, taken, menu, cur);
    FrontAndLast(taken);
    CutRun(menu, last, Front(taken), LastNode(taken), cur, todo, p);
    RepAppend(menu.list, Front(taken), LastNode(taken), menu, last, null);
  }

  /** The list behind a node becomes the list below it, up to its last node. */
  method CutRun(menu: Menu, last: Menu, ghost front: Forest, ghost end: Forest, cur: Menu?, ghost todo: Forest,
                ghost p: Menu?)
    requires end.Node? && end.rest.Nil? && end.menu == last && last !in Nodes(front) && last !in Nodes(todo)
    requires last !in Nodes(end.kids) && Linked(last.list, end.kids, last, null)
    requires last.item == end.item && last.parent == menu && last.next == cur
    requires Linked(menu.next, front, menu, last) && Linked(cur, todo, p, null)
    requires menu !in Nodes(front) && menu !in Nodes(end) && menu !in Nodes(todo)
    modifies menu`list, menu`next, last`next
    ensures Linked(menu.list, front, menu, last) && Linked(last, end, menu, null) && Linked(menu.next, todo, p, null)
  {
    menu.list := menu.next;
    menu.next := cur;
    last.next := null;
  }

  /** The automatic submenu creation of menu_finalize. */
  method TakeIn(menu: Menu, ghost i: Item, ghost f: Forest, ghost p: Menu?, modules: Symbol, t: Relations)
    returns (ghost log: seq<Menu>)
    requires i.sym.Some? && menu.item == i && menu.list == null && menu !in Nodes(f) && Linked(menu.next, f, p, null)
    modifies Nodes(f), menu, t
    ensures menu.item == i && menu.parent == old(menu.parent)
    ensures var r := Steal(i, f, modules);
      Linked(menu.list, r.0, menu, null) && Linked(menu.next, r.1, p, null) && Nodes(r.0) !! Nodes(r.1)
        && log == Preorder(r.0)
    ensures t.facts == Replay(old(t.facts), TakenEvents(i, f, modules))
    decreases MenuTree.Size(f), 4
  {
    var last, cur;
    last, cur, log := TakeRun(menu, f, p, modules, t);
    ghost var r := Steal(i, f, modules);
    if last != null {
      MoveRun(menu, last, r.0, cur, r.1, p);
    }
  }

  /** The loop over the nodes that follow: `last` is the last one that has joined. */
  method TakeRun(menu: Menu, ghost f: Forest, ghost p: Menu?, modules: Symbol, t: Relations)
    returns (last: Menu?, cur: Menu?, ghost log: seq<Menu>)
    requires menu.item.sym.Some? && menu !in Nodes(f) && Linked(menu.next, f, p, null)
    modifies Nodes(f), t
    ensures var r := Steal(menu.item, f, modules);
      Taking(menu, r.0, cur, r.1, p) && last == (if r.0.Node? then Last(r.0) else null) && log == Preorder(r.0)
    ensures t.facts == Replay(old(t.facts), TakenEvents(menu.item, f, modules))
    decreases MenuTree.Size(f), 3, 1
  {
    last, cur, log := null, menu.next, [];
    ghost var i, taken, todo := menu.item, Nil, f;
    while cur != null && JoinsNext(menu.item, cur.item)
      invariant Taking(menu, taken, cur, todo, p) && menu.item == i && RunSoFar(i, f, taken, todo, modules, last, log)
      invariant Replay(t.facts, TakenEvents(i, todo, modules)) == Replay(old(t.facts), TakenEvents(i, f, modules))
      decreases MenuTree.Size(todo)
    {
      ghost var part;
      RunStep(i, f, taken, todo, modules, last, log);
      TakenStep(t.facts, i, todo, modules);
      taken, todo, part := TakeNext(menu, taken, cur, todo, p, modules, t);
      log := log + part;
      last := cur;
      cur := cur.next;
    }
    AppendNil(taken);
  }

  /** The run that has been taken, and what follows it. */
  ghost predicate RunSoFar(i: Item, f: Forest, taken: Forest, todo: Forest, modules: Symbol, last: Menu?,
                           log: seq<Menu>)
    requires i.sym.Some?
  {
    && Steal(i, f, modules) == (Append(taken, Steal(i, todo, modules).0), Steal(i, todo, modules).1)
    && last == (if taken.Node? then Last(taken) else null) && log == Preorder(taken)
    && Nodes(taken) + Nodes(todo) == Nodes(f) && MenuTree.Size(todo) <= MenuTree.Size(f)
  }

  /** The test whether a node joins the automatic submenu. */
  predicate JoinsNext(i: Item, j: Item)
    requires i.sym.Some?
  {
    JoinsSubmenu(i.sym.value, PromptCondition(i), if j.prompted then j.visible else j.dep)
  }

  /** Some of the following nodes belong to the automatic submenu already. */
  ghost predicate Taking(menu: Menu, taken: Forest, cur: Menu?, todo: Forest, p: Menu?)
    reads menu, Nodes(taken), Nodes(todo)
  {
    && Linked(menu.next, taken, menu, cur) && Linked(cur, todo, p, null) && Nodes(taken) !! Nodes(todo)
    && menu !in Nodes(taken) && menu !in Nodes(todo)
  }

  /** What one round of the loop makes of the lists. */
  lemma StealStep(i: Item, taken: Forest, todo: Forest, modules: Symbol)
    requires i.sym.Some? && todo.Node? && Joins(i, todo.item)
    ensures var g := FinalizeFirst(todo, modules);
      var taken' := Append(taken, Single(g));
      var t, t' := Steal(i, todo, modules), Steal(i, g.rest, modules);
      && Append(taken, t.0) == Append(taken', t'.0) && t.1 == t'.1
  {
    var g := FinalizeFirst(todo, modules);
    AppendAppend(taken, Single(g), Steal(i, g.rest, modules).0);
  }

  lemma NodesStep(taken: Forest, todo: Forest, modules: Symbol)
    requires todo.Node?
    ensures var g := FinalizeFirst(todo, modules);
      var taken' := Append(taken, Single(g));
      && taken'.Node? && Last(taken') == todo.menu && MenuTree.Size(g.rest) < MenuTree.Size(todo)
      && Nodes(taken') + Nodes(g.rest) == Nodes(taken) + Nodes(todo)
  {
    FrontOfAppend(taken, Single(FinalizeFirst(todo, modules)));
  }

  lemma RunStep(i: Item, f: Forest, taken: Forest, todo: Forest, modules: Symbol, last: Menu?, log: seq<Menu>)
    requires i.sym.Some? && todo.Node? && Joins(i, todo.item) && RunSoFar(i, f, taken, todo, modules, last, log)
    ensures var g := FinalizeFirst(todo, modules);
      && RunSoFar(i, f, Append(taken, Single(g)), g.rest, modules, todo.menu, log + Preorder(Single(g)))
      && MenuTree.Size(g.rest) < MenuTree.Size(todo)
  {
    StealStep(i, taken, todo, modules);
    NodesStep(taken, todo, modules);
  }

  lemma TakenStep(facts: Table, i: Item, todo: Forest, modules: Symbol)
    requires i.sym.Some? && todo.Node? && Joins(i, todo.item)
    ensures Replay(facts, TakenEvents(i, todo, modules)) ==
      Replay(Replay(facts, FirstEvents(todo, modules)), TakenEvents(i, FinalizeFirst(todo, modules).rest, modules))
  {
    ReplayJoin(facts, FirstEvents(todo, modules), TakenEvents(i, FinalizeFirst(todo, modules).rest, modules));
  }

  /** One more node is finalised and joins. */
  method TakeNext(menu: Menu, ghost taken: Forest, cur: Menu, ghost todo: Forest, ghost p: Menu?, modules: Symbol,
                  t: Relations)
    returns (ghost taken': Forest, ghost todo': Forest, ghost log: seq<Menu>)
    requires todo.Node? && Taking(menu, taken, cur, todo, p)
    modifies Nodes(todo), t
    ensures var g := FinalizeFirst(todo, modules);
      taken' == Append(taken, Single(g)) && todo' == g.rest && log == Preorder(Single(g))
    ensures Taking(menu, taken', cur.next, todo', p)
    ensures t.facts == Replay(old(t.facts), FirstEvents(todo, modules))
    decreases MenuTree.Size(todo), 3, 0
  {
    NodesAllocated(taken);
    log := Finalize(cur, todo, p, modules, t);
    ghost var g := FinalizeFirst(todo, modules);
    Adopt(menu, taken, cur, g, p);
    taken', todo' := Append(taken, Single(g)), g.rest;
  }

  method Adopt(menu: Menu, ghost taken: Forest, cur: Menu, ghost g: Forest, ghost p: Menu?)
    requires g.Node? && Taking(menu, taken, cur, g, p)
    modifies cur`parent
    ensures Taking(menu, Append(taken, Single(g)), cur.next, g.rest, p)
  {
    assert Linked(cur.list, g.kids, cur, null) && Linked(cur.next, g.rest, p, null);
    cur.parent := menu;
    assert Linked(menu.next, taken, menu, cur) && Linked(cur, Single(g), menu, cur.next);
    RepAppend(menu.next, taken, Single(g), menu, cur, cur.next);
  }

  /** menu_finalize on the root menu: it finalises every node exactly once, in the order of the tree,
      and keeps that order; afterwards every node has the right parent, only nodes with a text have
      children, and the symbols have got what the walk adds to them. */
  method FinalizeRoot(root: Menu, ghost f: Forest, modules: Symbol, t: Relations) returns (ghost log: seq<Menu>)
    requires f.Node? && f.rest.Nil? && Linked(root, f, null, null)
    modifies Nodes(f), t
    ensures var g := FinalizeFirst(f, modules);
      && Linked(root, g, null, null) && g.rest.Nil? && Tidy(g.kids)
      && Preorder(g) == Preorder(f) == log && OnceEach(log, Nodes(f))
    ensures t.facts == Replay(old(t.facts), FirstEvents(f, modules))
  {
    PreorderOnceEach(root, f, null, null);
    FinalizeTidies(f, modules);
    assert f.item.sym.Some? ==> Steal(f.item, Nil, modules) == (Nil, Nil);
    log := Finalize(root, f, null, modules, t);
  }
}
