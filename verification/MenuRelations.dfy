/** What menu_finalize writes into the symbols while it walks over the menu: their direct and reverse
    dependencies, what implies them, and the members of choices. */
module MenuRelations {
  import opened Expressions
  import opened SymbolGraph
  import opened MenuTree

  /** The fields of one symbol. `choice` is the choice that it is a member of. */
  datatype Facts = Facts(dirDep: Nullable, revDep: Nullable, implied: Nullable, choice: Option<Symbol>,
                         members: seq<Symbol>)

  type Table = map<Symbol, Facts>

  /** Nothing is known of a symbol in the beginning. */
  function Of(t: Table, s: Symbol): Facts {
    if s in t then t[s] else Facts(Null, Null, Null, None, [])
  }

  /** expr_alloc_or */
  function Disjoin(a: Nullable, b: Nullable): Nullable {
    if a.Null? then b else if b.Null? then a else Ref(Bin(OrOp, a.expr, b.expr))
  }

  /** One change of the fields of a symbol. */
  datatype Event =
    | DependsOn(sym: Symbol, dep: Nullable)
    | SelectedBy(sym: Symbol, cause: Expr)
    | ImpliedBy(sym: Symbol, cause: Expr)
    | Enters(sym: Symbol, choice: Symbol)

  function Record(t: Table, e: Event): Table {
    var f := Of(t, e.sym);
    match e
    case DependsOn(s, dep) => t[s := f.(dirDep := Disjoin(f.dirDep, dep))]
    case SelectedBy(s, cause) => t[s := f.(revDep := Disjoin(f.revDep, Ref(cause)))]
    case ImpliedBy(s, cause) => t[s := f.(implied := Disjoin(f.implied, Ref(cause)))]
    case Enters(s, c) =>
      if f.choice.Some? then t
      else
        var t' := t[s := f.(choice := Some(c))];
        t'[c := Of(t', c).(members := Of(t', c).members + [s])]
  }

  function Replay(t: Table, es: seq<Event>): Table {
    if es == [] then t else Record(Replay(t, es[..|es| - 1]), es[|es| - 1])
  }

  lemma ReplayOne(t: Table, e: Event)
    ensures Replay(t, [e]) == Record(t, e)
  {
    assert [e][..0] == [] && Replay(t, []) == t;
  }

  lemma {:induction false} ReplayJoin(t: Table, a: seq<Event>, b: seq<Event>)
    ensures Replay(t, a + b) == Replay(Replay(t, a), b)
  {
    if b == [] {
      assert a + b == a;
    } else {
      var last := |b| - 1;
      assert (a + b)[..|a + b| - 1] == a + b[..last];
      ReplayJoin(t, a, b[..last]);
    }
  }

  // ----- the events of a run -----

  /** A symbol's condition that another one is selected or implied under. */
  function Under(s: Symbol, condition: Nullable): Expr {
    match condition
    case Null => Sym(s)
    case Ref(c) => Bin(AndOp, Sym(s), c)
  }

  function PropertyEvent(s: Symbol, p: Property): seq<Event> {
    match p.effect
    case NoEffect => []
    case Selects(x) => [SelectedBy(x, Under(s, p.condition))]
    case Implies(x) => [ImpliedBy(x, Under(s, p.condition))]
  }

  function PropertyEvents(s: Symbol, ps: seq<Property>): seq<Event> {
    if ps == [] then [] else PropertyEvents(s, ps[..|ps| - 1]) + PropertyEvent(s, ps[|ps| - 1])
  }

  /** The properties of a node that has its final conditions. */
  function ItemEvents(i: Item): seq<Event> {
    if i.sym.Some? then PropertyEvents(i.sym.value, i.others) else []
  }

  /** The same for the nodes of a list, without their subtrees. */
  ghost function ListEvents(f: Forest): seq<Event> {
    match f
    case Nil => []
    case Node(_, i, _, r) => ItemEvents(i) + ListEvents(r)
  }

  /** A mandatory choice cannot be n while it is visible. */
  function Forced(visible: Nullable): Expr {
    match visible
    case Null => Sym(SYMBOL_MOD)
    case Ref(v) => Bin(AndOp, v, Sym(SYMBOL_MOD))
  }

  function ForceEvents(i: Item): seq<Event> {
    if i.sym.Some? && i.mandatory && i.prompted then [SelectedBy(i.sym.value, Forced(i.visible))] else []
  }

  function EnterEvents(parent: Item, i: Item): seq<Event> {
    if parent.sym.Some? && parent.isChoice && i.sym.Some? then [Enters(i.sym.value, parent.sym.value)] else []
  }

  /** The nodes of a list become members if the list is that of a choice. */
  ghost function MemberEvents(parent: Item, f: Forest): seq<Event> {
    match f
    case Nil => []
    case Node(_, i, _, r) => EnterEvents(parent, i) + MemberEvents(parent, r)
  }

  /** menu_finalize on the first node of a list. */
  ghost function FirstEvents(f: Forest, modules: Symbol): seq<Event>
    requires f.Node?
    decreases MenuTree.Size(f), 1
  {
    InnerEvents(f, modules) + ForceEvents(f.item)
  }

  /** The same without what happens to the node itself in the end. */
  ghost function InnerEvents(f: Forest, modules: Symbol): seq<Event>
    requires f.Node?
    decreases MenuTree.Size(f), 0
  {
    var members := MemberEvents(f.item, FinalizeFirst(f, modules).kids);
    if f.kids.Node? then
      var k := PropagateAll(Inherited(f.item), f.kids, modules);
      ListEvents(k) + AllEvents(k, modules) + members
    else if f.item.sym.Some? then
      TakenEvents(f.item, f.rest, modules) + [DependsOn(f.item.sym.value, f.item.dep)] + members
    else []
  }

  ghost function AllEvents(f: Forest, modules: Symbol): seq<Event>
    decreases MenuTree.Size(f), 2
  {
    if f.Nil? then [] else FirstEvents(f, modules) + AllEvents(FinalizeFirst(f, modules).rest, modules)
  }

  /** The nodes that move into an automatic submenu. */
  ghost function TakenEvents(i: Item, f: Forest, modules: Symbol): seq<Event>
    requires i.sym.Some?
    decreases MenuTree.Size(f), 2
  {
    if f.Nil? || !Joins(i, f.item) then []
    else FirstEvents(f, modules) + TakenEvents(i, FinalizeFirst(f, modules).rest, modules)
  }

  // ----- the table that is written -----

  class Relations {
    var facts: Table

    constructor ()
      ensures facts == map[]
    {
      facts := map[];
    }

    method Note(e: Event)
      modifies this
      ensures facts == Record(old(facts), e)
    {
      facts := Record(facts, e);
    }
  }
}
