/** What menu_finalize makes of the prompts of a choice's members, and what the evaluator relies on. */
module MemberPrompts {
  import opened Tristates
  import opened Expressions
  import opened SymbolGraph
  import opened MenuTree
  import opened MenuMeaning

  /** The nodes of a forest in preorder. */
  ghost function Items(f: Forest): seq<Item> {
    match f
    case Nil => []
    case Node(_, i, k, r) => [i] + Items(k) + Items(r)
  }

  lemma {:induction false} ItemsSeen(f: Forest, env: Env)
    ensures |SeenAll(f, env)| == |Items(f)|
    ensures forall k :: 0 <= k < |Items(f)| ==> SeenAll(f, env)[k] == SeenOf(Items(f)[k], env)
  {
    if f.Node? {
      ItemsSeen(f.kids, env);
      ItemsSeen(f.rest, env);
    }
  }

  /** For each node in preorder: whether it stands in the block of the choice `c`, at whatever depth, but
      not in that of a choice inside of it. */
  ghost function InBlock(f: Forest, c: Symbol, inside: bool): seq<bool> {
    match f
    case Nil => []
    case Node(_, i, k, r) =>
      [inside] + InBlock(k, c, if i.sym.Some? && i.isChoice then i.sym.value == c else inside) + InBlock(r, c, inside)
  }

  predicate Off(seen: Seen) {
    !seen.dep && !seen.visible && forall k :: 0 <= k < |seen.others| ==> !seen.others[k]
  }

  /** The nodes that stand in a block are off. */
  predicate OffWhere(block: seq<bool>, seen: seq<Seen>) {
    |block| == |seen| && forall k :: 0 <= k < |block| ==> block[k] ==> Off(seen[k])
  }

  lemma OffJoin(a: seq<bool>, x: seq<Seen>, b: seq<bool>, y: seq<Seen>)
    requires OffWhere(a, x) && OffWhere(b, y)
    ensures OffWhere(a + b, x + y)
  {
  }

  /** While a choice is n, nothing in its block can be seen. */
  lemma {:induction false} OffInBlock(f: Forest, c: Symbol, inside: bool, outer: bool, modules: Symbol, env: Env)
    requires env.tri(c) == No && (inside ==> !outer)
    ensures OffWhere(InBlock(f, c, inside), SeenWithin(f, outer, modules, env))
  {
    if f.Node? {
      var i, seen := f.item, SeenInside(f.item, outer, modules, env);
      var within := if i.sym.Some? && i.isChoice then i.sym.value == c else inside;
      OffInBlock(f.kids, c, within, Lets(i, seen, env), modules, env);
      OffInBlock(f.rest, c, inside, outer, modules, env);
      assert OffWhere([inside], [seen]);
      OffJoin([inside], [seen], InBlock(f.kids, c, within), SeenWithin(f.kids, Lets(i, seen, env), modules, env));
      OffJoin([inside] + InBlock(f.kids, c, within), [seen] + SeenWithin(f.kids, Lets(i, seen, env), modules, env),
              InBlock(f.rest, c, inside), SeenWithin(f.rest, outer, modules, env));
    }
  }

  /** A menu as it is read, below its root. */
  ghost predicate RootMenu(f: Forest) {
    f.Node? && f.rest.Nil? && FinalItem(f.item) && TypedForest(f.kids) && !f.item.isChoice
  }

  /** menu_finalize keeps the number of nodes, and the symbol of each. */
  lemma SameSymbols(f: Forest, modules: Symbol, env: Env)
    requires RootMenu(f) && Typed(env)
    ensures var g := FinalizeFirst(f, modules).kids;
      && |Items(g)| == |SeenWithin(f.kids, On(Inherited(f.item), env), modules, env)|
      && forall k :: 0 <= k < |Items(g)| ==>
           SeenWithin(f.kids, On(Inherited(f.item), env), modules, env)[k] == SeenOf(Items(g)[k], env)
  {
    FinalizeMeaning(f, modules, env);
    ItemsSeen(FinalizeFirst(f, modules).kids, env);
  }

  /** After menu_finalize, the prompts of all entries in the block of a bool choice are visible only as far
      as the choice is set, whatever conditions they have, and through however many menus and "if"s they
      inherit that of the choice. */
  lemma MembersAreBounded(f: Forest, modules: Symbol, c: Symbol, k: nat)
    requires RootMenu(f) && c.typ == Boolean && k < |InBlock(f.kids, c, false)| && InBlock(f.kids, c, false)[k]
    ensures k < |Items(FinalizeFirst(f, modules).kids)|
    ensures var j := Items(FinalizeFirst(f, modules).kids)[k];
      j.prompted ==> ChoicePrompt(c, j.visible)
  {
    LengthOfMenu(f, modules, c);
    var j := Items(FinalizeFirst(f, modules).kids)[k];
    if j.prompted {
      forall env {:trigger EvalNullable(j.visible, env)} | Typed(env)
        ensures Le(EvalNullable(j.visible, env), env.tri(c))
      {
        assert env.tri(c) != Mod;
        if env.tri(c) == No {
          OffInBlock(f.kids, c, false, On(Inherited(f.item), env), modules, env);
          SameSymbols(f, modules, env);
          assert Off(SeenOf(j, env));
        }
      }
    }
  }

  /** The number of nodes does not depend on any valuation. */
  lemma LengthOfMenu(f: Forest, modules: Symbol, c: Symbol)
    requires RootMenu(f)
    ensures |InBlock(f.kids, c, false)| == |Items(FinalizeFirst(f, modules).kids)|
  {
    BlockLength(f.kids, c, false);
    ItemsLength(FinalizeFirst(f, modules).kids);
    assert f.item.sym.Some? ==> Steal(f.item, Nil, modules) == (Nil, Nil);
  }

  lemma {:induction false} BlockLength(f: Forest, c: Symbol, inside: bool)
    ensures |InBlock(f, c, inside)| == MenuTree.Size(f)
  {
    if f.Node? {
      BlockLength(f.kids, c, if f.item.sym.Some? && f.item.isChoice then f.item.sym.value == c else inside);
      BlockLength(f.rest, c, inside);
    }
  }

  lemma {:induction false} ItemsLength(f: Forest)
    ensures |Items(f)| == MenuTree.Size(f)
  {
    if f.Node? {
      ItemsLength(f.kids);
      ItemsLength(f.rest);
    }
  }
}
