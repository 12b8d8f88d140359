/** The walk of conf_write and conf_write_defconfig over the menu: it uses no stack, but goes up by
    the parent pointers. */
module MenuWalk {
  import opened Expressions
  import opened MenuTree
  import opened MenuFinalize

  /** A node with what it says. */
  datatype Visit = Visit(menu: Menu, item: Item)

  /** The preorder of a list. */
  ghost function Visits(f: Forest): seq<Visit> {
    match f
    case Nil => []
    case Node(m, i, k, r) => [Visit(m, i)] + Visits(k) + Visits(r)
  }

  lemma {:induction false} VisitsPreorder(f: Forest)
    ensures |Visits(f)| == |Preorder(f)|
    ensures forall k :: 0 <= k < |Visits(f)| ==> Visits(f)[k].menu == Preorder(f)[k]
  {
    if f.Node? {
      VisitsPreorder(f.kids);
      VisitsPreorder(f.rest);
    }
  }

  /** What comes after a node: for each of its ancestors below the root, the nodes that follow it. */
  datatype Above = Root | Up(rest: Forest, above: Above)

  ghost function After(a: Above): seq<Visit> {
    match a
    case Root => []
    case Up(r, b) => Visits(r) + After(b)
  }

  ghost function NodesAbove(a: Above): set<Menu> {
    match a
    case Root => {}
    case Up(r, b) => Nodes(r) + NodesAbove(b)
  }

  /** The parent and next pointers on the way up to the root, which has neither. `way` are the nodes
      on that way. */
  ghost predicate Way(p: Menu?, a: Above, way: seq<Menu>)
    reads way, NodesAbove(a)
    decreases a
  {
    && way != [] && p == way[0]
    && match a
       case Root => way == [p] && p.next == null && p.parent == null
       case Up(r, b) => Linked(p.next, r, p.parent, null) && Way(p.parent, b, way[1..])
  }

  /** A place of the walk: the head of the list `here`, whose nodes have the given parent. */
  datatype Place = Place(here: Forest, parent: Menu, above: Above, way: seq<Menu>)

  /** The nodes still to come. */
  ghost function Remaining(q: Place): seq<Visit> {
    Visits(q.here) + After(q.above)
  }

  ghost predicate IsAt(m: Menu, q: Place)
    reads Nodes(q.here), q.way, NodesAbove(q.above)
  {
    q.here.Node? && Linked(m, q.here, q.parent, null) && Way(q.parent, q.above, q.way)
  }

  lemma {:induction false} AboveAllocated(a: Above)
    ensures forall n :: n in NodesAbove(a) ==> allocated(n)
  {
    if a.Up? {
      NodesAllocated(a.rest);
      AboveAllocated(a.above);
    }
  }

  /** The walk goes down. */
  lemma Down(m: Menu, q: Place)
    requires IsAt(m, q) && m.list != null
    ensures var q' := Place(q.here.kids, m, Up(q.here.rest, q.above), [m] + q.way);
      IsAt(m.list, q') && Remaining(q) == [Visit(m, m.item)] + Remaining(q')
  {
    var way := [m] + q.way;
    assert way[1..] == q.way;
    assert Linked(m.list, q.here.kids, m, null) && Linked(m.next, q.here.rest, q.parent, null);
    assert Way(m, Up(q.here.rest, q.above), way);
  }

  lemma LeafFirst(q: Place)
    requires q.here.Node? && q.here.kids.Nil?
    ensures Remaining(q) == [Visit(q.here.menu, q.here.item)] + (Visits(q.here.rest) + After(q.above))
    ensures q.here.rest.Nil? ==> Remaining(q) == [Visit(q.here.menu, q.here.item)] + After(q.above)
  {
    assert Visits(q.here) == [Visit(q.here.menu, q.here.item)] + Visits(q.here.rest);
    assert Visits(Nil) + After(q.above) == After(q.above);
  }

  /** The walk goes to the right. */
  lemma Right(m: Menu, q: Place)
    requires IsAt(m, q) && m.list == null && m.next != null
    ensures IsAt(m.next, q.(here := q.here.rest))
      && Remaining(q) == [Visit(m, m.item)] + Remaining(q.(here := q.here.rest))
  {
    assert Linked(m.list, q.here.kids, m, null) && Linked(m.next, q.here.rest, q.parent, null);
    LeafFirst(q);
  }

  /** A node that is the last of its list and has no children. */
  lemma Bottom(m: Menu, q: Place)
    requires IsAt(m, q) && m.list == null && m.next == null
    ensures m.parent == q.parent && Remaining(q) == [Visit(m, m.item)] + After(q.above)
  {
    assert Linked(m.list, q.here.kids, m, null) && Linked(m.next, q.here.rest, q.parent, null);
    LeafFirst(q);
  }

  /** The node that the walk visits next. */
  ghost function NextVisit(vs: seq<Visit>): Menu? {
    if vs == [] then null else vs[0].menu
  }

  /** The loop that goes up until there is something to the right. */
  method Climb(from: Menu, ghost above: Above, ghost way: seq<Menu>) returns (n: Menu?, ghost q: Place)
    requires Way(from, above, way)
    ensures n != null ==> IsAt(n, q)
    ensures After(above) == if n == null then [] else Remaining(q)
    ensures n == NextVisit(After(above))
  {
    n := from;
    ghost var a, w := above, way;
    q := Place(Nil, from, Root, []);
    while n != null
      invariant n != null ==> Way(n, a, w)
      invariant After(above) == if n == null then [] else After(a)
      decreases a, if n == null then 0 else 1
    {
      if n.next != null {
        q := Place(a.rest, n.parent, a.above, w[1..]);
        n := n.next;
        break;
      }
      n := n.parent;
      if a.Up? {
        a, w := a.above, w[1..];
      }
    }
  }

  /** The step of the walk from a node to the next one: down, to the right, or up and to the right. */
  method Step(m: Menu, ghost q: Place) returns (n: Menu?, ghost q': Place)
    requires IsAt(m, q)
    ensures Remaining(q) == [Visit(m, m.item)] + (if n == null then [] else Remaining(q'))
    ensures n != null ==> IsAt(n, q')
  {
    if m.list != null {
      Down(m, q);
      return m.list, Place(q.here.kids, m, Up(q.here.rest, q.above), [m] + q.way);
    }
    if m.next != null {
      Right(m, q);
      return m.next, q.(here := q.here.rest);
    }
    Bottom(m, q);
    n, q' := Climb(m.parent, q.above, q.way);
  }

  /** The root menu, and the nodes below it. */
  ghost predicate IsMenu(root: Menu, f: Forest)
    reads root, Nodes(f)
  {
    root.next == null && root.parent == null && root !in Nodes(f) && Linked(root.list, f, root, null)
  }

  /** The walk: every node below the root is visited exactly once, in preorder. What is returned are
      the symbols of the nodes that are no choices, in that order. */
  method Walk(root: Menu, ghost f: Forest) returns (symbols: seq<Symbol>, ghost visited: seq<Visit>)
    requires IsMenu(root, f)
    ensures visited == Visits(f) && symbols == SymbolsIn(Visits(f))
    ensures OnceEach(Preorder(f), Nodes(f))
  {
    PreorderOnceEach(root.list, f, root, null);
    var menu := root.list;
    ghost var q := Place(f, root, Root, [root]);
    symbols, visited := [], [];
    assert Remaining(q) == Visits(f);
    while menu != null
      invariant menu != null ==> IsAt(menu, q)
      invariant visited + (if menu == null then [] else Remaining(q)) == Visits(f)
      invariant symbols == SymbolsIn(visited)
      decreases if menu == null then 0 else 1 + |Remaining(q)|
    {
      ghost var v := Visit(menu, menu.item);
      SymbolsNext(visited, v);
      if menu.item.sym.Some? && !menu.item.isChoice {
        symbols := symbols + [menu.item.sym.value];
      }
      menu, q := Step(menu, q);
      NextVisited(visited, v, if menu == null then [] else Remaining(q));
      visited := visited + [v];
    }
  }

  lemma NextVisited(visited: seq<Visit>, v: Visit, others: seq<Visit>)
    ensures visited + ([v] + others) == visited + [v] + others
  {
  }

  lemma SymbolsNext(vs: seq<Visit>, v: Visit)
    ensures SymbolsIn(vs + [v]) == SymbolsIn(vs) + SymbolOf(v.item)
  {
    assert (vs + [v])[..|vs|] == vs;
  }

  function SymbolOf(i: Item): seq<Symbol> {
    if i.sym.Some? && !i.isChoice then [i.sym.value] else []
  }

  ghost function SymbolsIn(vs: seq<Visit>): seq<Symbol> {
    if vs == [] then [] else SymbolsIn(vs[..|vs| - 1]) + SymbolOf(vs[|vs| - 1].item)
  }

  lemma {:induction false} SymbolsJoin(a: seq<Visit>, b: seq<Visit>)
    ensures SymbolsIn(a + b) == SymbolsIn(a) + SymbolsIn(b)
  {
    if b == [] {
      assert a + b == a;
    } else {
      var front, last := b[..|b| - 1], b[|b| - 1];
      assert a + b == a + front + [last] && b == front + [last];
      SymbolsJoin(a, front);
      SymbolsNext(a + front, last);
      SymbolsNext(front, last);
    }
  }

  lemma SymbolsFirst(v: Visit, others: seq<Visit>)
    ensures SymbolsIn([v] + others) == SymbolOf(v.item) + SymbolsIn(others)
  {
    SymbolsJoin([v], others);
    SymbolsNext([], v);
    assert [] + [v] == [v];
  }
}
