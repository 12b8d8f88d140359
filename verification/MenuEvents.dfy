/** Which events menu_finalize records: the members of a choice are the children that it ends up with, and
    every entry adds its dependency. */
module MenuEvents {
  import opened Expressions
  import opened SymbolGraph
  import opened MenuTree
  import opened MenuRelations
  import opened MenuParents

  // ----- members -----

  /** A node of the list has the symbol `s`. */
  ghost predicate Lists(f: Forest, s: Symbol) {
    f.Node? && (f.item.sym == Some(s) || Lists(f.rest, s))
  }

  /** A node of the choice `c` has a child with the symbol `s`. */
  ghost predicate ChoiceHas(f: Forest, c: Symbol, s: Symbol) {
    match f
    case Nil => false
    case Node(_, i, k, r) =>
      (i.isChoice && i.sym == Some(c) && Lists(k, s)) || ChoiceHas(k, c, s) || ChoiceHas(r, c, s)
  }

  /** All choices have a prompt with a text. */
  ghost predicate ChoicesHaveText(f: Forest) {
    match f
    case Nil => true
    case Node(_, i, k, r) => (i.isChoice ==> HasText(i)) && ChoicesHaveText(k) && ChoicesHaveText(r)
  }

  lemma {:induction false} ChoiceAppend(f: Forest, g: Forest, c: Symbol, s: Symbol)
    ensures ChoiceHas(Append(f, g), c, s) <==> ChoiceHas(f, c, s) || ChoiceHas(g, c, s)
    ensures ChoicesHaveText(Append(f, g)) <==> ChoicesHaveText(f) && ChoicesHaveText(g)
  {
    if f.Node? {
      ChoiceAppend(f.rest, g, c, s);
    }
  }

  lemma {:induction false} ChoiceFlatten(f: Forest, c: Symbol, s: Symbol)
    requires ChoicesHaveText(f)
    ensures ChoiceHas(Flatten(f), c, s) <==> ChoiceHas(f, c, s)
    ensures ChoicesHaveText(Flatten(f))
    decreases MenuTree.Size(f)
  {
    if f.Node? {
      if f.kids.Node? && !HasText(f.item) {
        ChoiceAppend(f.kids, f.rest, c, s);
        ChoiceFlatten(Append(f.kids, f.rest), c, s);
      } else {
        ChoiceFlatten(f.rest, c, s);
      }
    }
  }

  lemma {:induction false} ChoicePropagate(inherited: Nullable, f: Forest, modules: Symbol)
    ensures ChoicesHaveText(PropagateAll(inherited, f, modules)) <==> ChoicesHaveText(f)
  {
    if f.Node? {
      ChoicePropagate(inherited, f.rest, modules);
    }
  }

  lemma {:induction false} MemberEventsExact(parent: Item, f: Forest, c: Symbol, s: Symbol)
    ensures Enters(s, c) in MemberEvents(parent, f) <==> parent.isChoice && parent.sym == Some(c) && Lists(f, s)
  {
    if f.Node? {
      MemberEventsExact(parent, f.rest, c, s);
    }
  }

  lemma {:induction false} NoMemberInProperties(x: Symbol, ps: seq<Property>, c: Symbol, s: Symbol)
    ensures Enters(s, c) !in PropertyEvents(x, ps)
  {
    if ps != [] {
      NoMemberInProperties(x, ps[..|ps| - 1], c, s);
    }
  }

  lemma {:induction false} NoMemberInList(f: Forest, c: Symbol, s: Symbol)
    ensures Enters(s, c) !in ListEvents(f)
  {
    if f.Node? {
      NoMemberInList(f.rest, c, s);
      if f.item.sym.Some? {
        NoMemberInProperties(f.item.sym.value, f.item.others, c, s);
      }
    }
  }

  /** What one node and the nodes below it contribute. */
  ghost predicate FirstHas(f: Forest, c: Symbol, s: Symbol)
    requires f.Node?
  {
    (f.item.isChoice && f.item.sym == Some(c) && Lists(f.kids, s)) || ChoiceHas(f.kids, c, s)
  }

  lemma {:induction false} FirstMembers(f: Forest, modules: Symbol, c: Symbol, s: Symbol)
    requires f.Node? && ChoicesHaveText(f)
    ensures var g := FinalizeFirst(f, modules);
      ChoicesHaveText(g) && (Enters(s, c) in FirstEvents(f, modules) <==> FirstHas(g, c, s))
    decreases MenuTree.Size(f), 1
  {
    var g := FinalizeFirst(f, modules);
    MemberEventsExact(f.item, g.kids, c, s);
    if f.kids.Node? {
      var k := PropagateAll(Inherited(f.item), f.kids, modules);
      ChoicePropagate(Inherited(f.item), f.kids, modules);
      NoMemberInList(k, c, s);
      AllMembers(k, modules, c, s);
      ChoiceFlatten(FinalizeAll(k, modules), c, s);
    } else if f.item.sym.Some? {
      TakenMembers(f.item, f.rest, modules, c, s);
      ChoiceFlatten(Steal(f.item, f.rest, modules).0, c, s);
    }
  }

  lemma {:induction false} AllMembers(f: Forest, modules: Symbol, c: Symbol, s: Symbol)
    requires ChoicesHaveText(f)
    ensures var g := FinalizeAll(f, modules);
      ChoicesHaveText(g) && (Enters(s, c) in AllEvents(f, modules) <==> ChoiceHas(g, c, s))
    decreases MenuTree.Size(f), 2
  {
    if f.Node? {
      FirstMembers(f, modules, c, s);
      AllMembers(FinalizeFirst(f, modules).rest, modules, c, s);
    }
  }

  lemma {:induction false} TakenMembers(i: Item, f: Forest, modules: Symbol, c: Symbol, s: Symbol)
    requires i.sym.Some? && ChoicesHaveText(f)
    ensures var (stolen, left) := Steal(i, f, modules);
      && ChoicesHaveText(stolen) && ChoicesHaveText(left)
      && (Enters(s, c) in TakenEvents(i, f, modules) <==> ChoiceHas(stolen, c, s))
    decreases MenuTree.Size(f), 2
  {
    if f.Node? && Joins(i, f.item) {
      FirstMembers(f, modules, c, s);
      TakenMembers(i, FinalizeFirst(f, modules).rest, modules, c, s);
    }
  }

  /** A symbol that has entered a choice did so by an event, and by the first one. */
  lemma {:induction false} ChoiceFromEvent(es: seq<Event>, s: Symbol)
    ensures var t := Of(Replay(map[], es), s);
      && (t.choice.Some? ==> Enters(s, t.choice.value) in es)
      && (forall c :: Enters(s, c) in es ==> t.choice.Some?)
  {
    if es != [] {
      var front, e := es[..|es| - 1], es[|es| - 1];
      ChoiceFromEvent(front, s);
      assert forall x :: x in es <==> x in front || x == e;
      assert Of(Record(Replay(map[], front), e), s).choice ==
        (if e.Enters? && e.sym == s && Of(Replay(map[], front), s).choice.None? then Some(e.choice)
         else Of(Replay(map[], front), s).choice);
    }
  }

  /** A symbol is a member of a choice if and only if it is, in the end, a child of some choice, and it is a
      member of one of those; if it is a child of a single one, of that one. */
  lemma MembersAreChildren(f: Forest, modules: Symbol, s: Symbol)
    requires f.Node? && f.rest.Nil? && ChoicesHaveText(f)
    ensures var g, t := FinalizeFirst(f, modules), Of(Replay(map[], FirstEvents(f, modules)), s);
      && (t.choice.Some? ==> ChoiceHas(g, t.choice.value, s))
      && (forall c :: ChoiceHas(g, c, s) ==> t.choice.Some?)
  {
    var es, g := FirstEvents(f, modules), FinalizeFirst(f, modules);
    ChoiceFromEvent(es, s);
    assert f.item.sym.Some? ==> Steal(f.item, Nil, modules) == (Nil, Nil);
    forall c
      ensures Enters(s, c) in es <==> ChoiceHas(g, c, s)
    {
      FirstMembers(f, modules, c, s);
    }
  }

  // ----- direct dependencies -----

  /** `parents` are the nodes that have children in the Kconfig files. */
  ghost predicate Parental(f: Forest, parents: set<Menu>) {
    match f
    case Nil => true
    case Node(m, _, k, r) => (m in parents <==> k.Node?) && Parental(k, parents) && Parental(r, parents)
  }

  /** A node without children in the Kconfig files has this symbol and, in the end, this dependency. */
  ghost predicate EntryDepends(f: Forest, parents: set<Menu>, s: Symbol, d: Nullable) {
    match f
    case Nil => false
    case Node(m, i, k, r) =>
      || (m !in parents && i.sym == Some(s) && i.dep == d)
      || EntryDepends(k, parents, s, d) || EntryDepends(r, parents, s, d)
  }

  lemma {:induction false} DependsAppend(f: Forest, g: Forest, parents: set<Menu>, s: Symbol, d: Nullable)
    ensures EntryDepends(Append(f, g), parents, s, d) <==>
      EntryDepends(f, parents, s, d) || EntryDepends(g, parents, s, d)
  {
    if f.Node? {
      DependsAppend(f.rest, g, parents, s, d);
    }
  }

  lemma {:induction false} DependsFlatten(f: Forest, parents: set<Menu>, s: Symbol, d: Nullable)
    ensures EntryDepends(Flatten(f), parents, s, d) <==> EntryDepends(f, parents, s, d)
    decreases MenuTree.Size(f)
  {
    if f.Node? {
      if f.kids.Node? && !HasText(f.item) {
        DependsAppend(f.kids, f.rest, parents, s, d);
        DependsFlatten(Append(f.kids, f.rest), parents, s, d);
      } else {
        DependsFlatten(f.rest, parents, s, d);
      }
    }
  }

  lemma {:induction false} DependsPropagate(inherited: Nullable, f: Forest, modules: Symbol, parents: set<Menu>)
    requires Parental(f, parents)
    ensures Parental(PropagateAll(inherited, f, modules), parents)
  {
    if f.Node? {
      DependsPropagate(inherited, f.rest, modules, parents);
    }
  }

  lemma {:induction false} NoDependencyInProperties(x: Symbol, ps: seq<Property>, s: Symbol, d: Nullable)
    ensures DependsOn(s, d) !in PropertyEvents(x, ps)
  {
    if ps != [] {
      NoDependencyInProperties(x, ps[..|ps| - 1], s, d);
    }
  }

  lemma {:induction false} NoDependencyInList(f: Forest, s: Symbol, d: Nullable)
    ensures DependsOn(s, d) !in ListEvents(f)
  {
    if f.Node? {
      NoDependencyInList(f.rest, s, d);
      if f.item.sym.Some? {
        NoDependencyInProperties(f.item.sym.value, f.item.others, s, d);
      }
    }
  }

  lemma {:induction false} NoDependencyInMembers(parent: Item, f: Forest, s: Symbol, d: Nullable)
    ensures DependsOn(s, d) !in MemberEvents(parent, f)
  {
    if f.Node? {
      NoDependencyInMembers(parent, f.rest, s, d);
    }
  }

  ghost predicate FirstDepends(f: Forest, parents: set<Menu>, s: Symbol, d: Nullable)
    requires f.Node?
  {
    (f.menu !in parents && f.item.sym == Some(s) && f.item.dep == d) || EntryDepends(f.kids, parents, s, d)
  }

  lemma {:induction false} FirstDependencies(f: Forest, modules: Symbol, parents: set<Menu>, s: Symbol, d: Nullable)
    requires f.Node? && Parental(f, parents)
    ensures var g := FinalizeFirst(f, modules);
      && Parental(g.rest, parents)
      && (DependsOn(s, d) in FirstEvents(f, modules) <==> FirstDepends(g, parents, s, d))
    decreases MenuTree.Size(f), 1
  {
    var g := FinalizeFirst(f, modules);
    NoDependencyInMembers(f.item, g.kids, s, d);
    if f.kids.Node? {
      var k := PropagateAll(Inherited(f.item), f.kids, modules);
      DependsPropagate(Inherited(f.item), f.kids, modules, parents);
      NoDependencyInList(k, s, d);
      AllDependencies(k, modules, parents, s, d);
      DependsFlatten(FinalizeAll(k, modules), parents, s, d);
    } else if f.item.sym.Some? {
      TakenDependencies(f.item, f.rest, modules, parents, s, d);
      DependsFlatten(Steal(f.item, f.rest, modules).0, parents, s, d);
    }
  }

  lemma {:induction false} AllDependencies(f: Forest, modules: Symbol, parents: set<Menu>, s: Symbol, d: Nullable)
    requires Parental(f, parents)
    ensures DependsOn(s, d) in AllEvents(f, modules) <==> EntryDepends(FinalizeAll(f, modules), parents, s, d)
    decreases MenuTree.Size(f), 2
  {
    if f.Node? {
      FirstDependencies(f, modules, parents, s, d);
      AllDependencies(FinalizeFirst(f, modules).rest, modules, parents, s, d);
    }
  }

  lemma {:induction false} TakenDependencies(i: Item, f: Forest, modules: Symbol, parents: set<Menu>, s: Symbol,
                                             d: Nullable)
    requires i.sym.Some? && Parental(f, parents)
    ensures var (stolen, left) := Steal(i, f, modules);
      && Parental(left, parents)
      && (DependsOn(s, d) in TakenEvents(i, f, modules) <==> EntryDepends(stolen, parents, s, d))
    decreases MenuTree.Size(f), 2
  {
    if f.Node? && Joins(i, f.item) {
      FirstDependencies(f, modules, parents, s, d);
      TakenDependencies(i, FinalizeFirst(f, modules).rest, modules, parents, s, d);
    }
  }

  /** The direct dependency of a symbol is made up of the final dependencies of its entries, and of nothing
      else. */
  lemma DependenciesOfEntries(f: Forest, modules: Symbol, parents: set<Menu>, s: Symbol, d: Nullable)
    requires f.Node? && f.rest.Nil? && f.item.sym.None? && Parental(f, parents)
    ensures DependsOn(s, d) in FirstEvents(f, modules) <==>
      EntryDepends(FinalizeFirst(f, modules).kids, parents, s, d)
  {
    FirstDependencies(f, modules, parents, s, d);
  }
}
