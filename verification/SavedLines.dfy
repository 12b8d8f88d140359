/** savedefconfig writes no line in vain: without the line of a symbol, reading the file back gives
    the symbol another value. */
module SavedLines {
  import opened Tristates
  import opened Expressions
  import opened SymbolGraph
  import opened SymbolValues
  import opened EvaluatorState
  import opened UserChanges
  import opened SavedConfig

  /** The walk without the menu nodes of one symbol. */
  function AllBut(nodes: seq<Symbol>, s: Symbol): seq<Symbol> {
    if nodes == [] then []
    else
      var front, last := nodes[..|nodes| - 1], nodes[|nodes| - 1];
      AllBut(front, s) + (if last == s then [] else [last])
  }

  lemma {:induction false} AllButOne(nodes: seq<Symbol>, s: Symbol, x: Symbol)
    ensures x in AllBut(nodes, s) <==> x in nodes && x != s
  {
    if nodes != [] {
      AllButOne(nodes[..|nodes| - 1], s, x);
      assert nodes == nodes[..|nodes| - 1] + [nodes[|nodes| - 1]];
    }
  }

  /** The file without the line of one symbol. */
  function OtherLines(entries: seq<Entry>, s: Symbol): seq<Entry> {
    if entries == [] then []
    else
      var front, last := entries[..|entries| - 1], entries[|entries| - 1];
      OtherLines(front, s) + (if last.sym == s then [] else [last])
  }

  lemma OtherLinesNext(entries: seq<Entry>, e: Entry, s: Symbol)
    ensures OtherLines(entries + [e], s) == OtherLines(entries, s) + (if e.sym == s then [] else [e])
  {
    assert (entries + [e])[..|entries|] == entries;
  }

  /** The line that the last menu node yields. */
  ghost function LastLine(w: World, front: seq<Symbol>, last: Symbol): seq<Entry>
    requires last in w.g.info && last in w.plain
  {
    if last !in front && Saved(w, last) then [Entry(last, TextOf(w, last))] else []
  }

  ghost predicate Known(w: World, nodes: seq<Symbol>) {
    forall x :: x in nodes ==> x in w.g.info && x in w.plain
  }

  lemma SavedNext(w: World, front: seq<Symbol>, last: Symbol)
    requires Known(w, front + [last])
    ensures Known(w, front) && last in w.g.info && last in w.plain
    ensures SavedEntries(w, Minimal, front + [last]) == SavedEntries(w, Minimal, front) + LastLine(w, front, last)
  {
    assert (front + [last])[..|front|] == front;
    assert forall x :: x in front ==> x in front + [last];
  }

  lemma AllButKnown(w: World, nodes: seq<Symbol>, s: Symbol)
    requires Known(w, nodes)
    ensures Known(w, AllBut(nodes, s))
  {
    forall x | x in AllBut(nodes, s)
      ensures x in nodes
    {
      AllButOne(nodes, s, x);
    }
  }

  lemma AllButNext(front: seq<Symbol>, last: Symbol, s: Symbol)
    ensures AllBut(front + [last], s) == AllBut(front, s) + (if last == s then [] else [last])
  {
    assert (front + [last])[..|front|] == front;
  }

  lemma OtherLinesMore(entries: seq<Entry>, more: seq<Entry>, s: Symbol, x: Symbol)
    requires more == [] || (|more| == 1 && more[0].sym == x)
    ensures OtherLines(entries + more, s) == OtherLines(entries, s) + (if x == s then [] else more)
  {
    if more == [] {
      assert entries + more == entries;
    } else {
      OtherLinesNext(entries, more[0], s);
      assert more == [more[0]];
    }
  }

  lemma OtherLinesStep(w: World, front: seq<Symbol>, last: Symbol, s: Symbol)
    requires Known(w, front + [last]) && Known(w, front) && Known(w, AllBut(front, s))
    requires OtherLines(SavedEntries(w, Minimal, front), s) == SavedEntries(w, Minimal, AllBut(front, s))
    ensures Known(w, AllBut(front + [last], s))
    ensures OtherLines(SavedEntries(w, Minimal, front + [last]), s) ==
      SavedEntries(w, Minimal, AllBut(front + [last], s))
  {
    var rest, more := AllBut(front, s), LastLine(w, front, last);
    SavedNext(w, front, last);
    OtherLinesMore(SavedEntries(w, Minimal, front), more, s, last);
    AllButKnown(w, front + [last], s);
    AllButNext(front, last, s);
    AllButOne(front, s, last);
    if last == s {
      assert AllBut(front + [last], s) == rest && SavedEntries(w, Minimal, rest) + [] == SavedEntries(w, Minimal, rest);
    } else {
      SavedNext(w, rest, last);
      assert AllBut(front + [last], s) == rest + [last] && LastLine(w, rest, last) == more;
    }
  }

  /** It is what savedefconfig writes if it passes over the symbol. */
  lemma {:induction false} OtherLinesSaved(w: World, nodes: seq<Symbol>, s: Symbol)
    requires Known(w, nodes)
    ensures Known(w, AllBut(nodes, s))
      && OtherLines(SavedEntries(w, Minimal, nodes), s) == SavedEntries(w, Minimal, AllBut(nodes, s))
  {
    if nodes != [] {
      var front, last := nodes[..|nodes| - 1], nodes[|nodes| - 1];
      assert front + [last] == nodes;
      OtherLinesSaved(w, front, s);
      OtherLinesStep(w, front, last, s);
    }
  }

  /** The user values that are read back without the line of `s`. */
  ghost function UsersWithout(w: World, nodes: seq<Symbol>, s: Symbol): (u: Users)
    requires OrdinaryConfig(w, nodes)
    ensures Setting(w.g, u)
    ensures forall x :: x in w.g.info ==> ReadBackAt(w, Minimal, AllBut(nodes, s), u, x)
  {
    var u := ReadEntries(w.g, OtherLines(SavedEntries(w, Minimal, nodes), s));
    UsersWithoutSet(w, nodes, s);
    u
  }

  lemma UsersWithoutSet(w: World, nodes: seq<Symbol>, s: Symbol)
    requires OrdinaryConfig(w, nodes)
    ensures var u := ReadEntries(w.g, OtherLines(SavedEntries(w, Minimal, nodes), s));
      && Setting(w.g, u)
      && forall x :: x in w.g.info ==> ReadBackAt(w, Minimal, AllBut(nodes, s), u, x)
  {
    var others := AllBut(nodes, s);
    OtherLinesSaved(w, nodes, s);
    forall x | x in others
      ensures x in nodes
    {
      AllButOne(nodes, s, x);
    }
    var u := ReadEntries(w.g, SavedEntries(w, Minimal, others));
    ReadEntriesSetting(w.g, SavedEntries(w, Minimal, others));
    forall x | x in w.g.info
      ensures ReadBackAt(w, Minimal, others, u, x)
    {
      ReadBack(w, Minimal, nodes, others, x);
    }
  }

  /** The other symbols do not notice, the choice of `s` aside. */
  lemma OthersReadBack(w: World, nodes: seq<Symbol>, s: Symbol, u: Users, x: Symbol)
    requires x in w.g.info && x in w.plain && x != s && s in w.g.info && w.g.info[s].kind != Member(x)
    requires ReadBackAt(w, Minimal, AllBut(nodes, s), u, x)
    ensures ReadBackAt(w, Minimal, nodes, u, x)
  {
    AllButOne(nodes, s, x);
    forall m
      ensures PickRead(w, Minimal, AllBut(nodes, s), x, m) <==> PickRead(w, Minimal, nodes, x, m)
    {
      AllButOne(nodes, s, m);
    }
  }

  /** Where a missing line can have an effect: at the symbol or its choice, and above. */
  function Lowest(g: Graph, s: Symbol): Symbol
    requires s in g.info
  {
    if g.info[s].kind.Member? then g.info[s].kind.choice else s
  }

  lemma BelowRestored(w: World, nodes: seq<Symbol>, s: Symbol, x: Symbol)
    requires OrdinaryConfig(w, nodes) && !SomeLost(w, Minimal) && s in w.g.info && x in w.g.info
    requires Lowest(w.g, s) in w.g.info && w.g.rank[x] < w.g.rank[Lowest(w.g, s)]
    ensures WorldOf(w.g, UsersWithout(w, nodes, s)).plain[x] == w.plain[x]
  {
    var u := UsersWithout(w, nodes, s);
    if w.g.info[s].kind.Member? {
      MemberEquation(w, s);
    }
    forall y | y in w.g.info && w.g.rank[y] <= w.g.rank[x]
      ensures Solves(w.g, u, w, y)
    {
      OthersReadBack(w, nodes, s, u, y);
      SymbolRestored(w, Minimal, nodes, u, y);
    }
    SolutionIsPlain(w.g, u, w, x);
  }

  lemma BelowAgree(w: World, nodes: seq<Symbol>, s: Symbol)
    requires OrdinaryConfig(w, nodes) && !SomeLost(w, Minimal) && s in w.g.info && Lowest(w.g, s) in w.g.info
    ensures AgreeBelow(w.g, w.g.rank[Lowest(w.g, s)], EnvOf(WorldOf(w.g, UsersWithout(w, nodes, s))), EnvOf(w))
  {
    var w' := WorldOf(w.g, UsersWithout(w, nodes, s));
    forall x | x in w.g.info && w.g.rank[x] < w.g.rank[Lowest(w.g, s)]
      ensures w'.plain[x] == w.plain[x]
    {
      BelowRestored(w, nodes, s, x);
    }
  }

  /** Without its line, a symbol outside of choices has the value of a reset symbol. */
  lemma PlainReset(w: World, nodes: seq<Symbol>, s: Symbol)
    requires OrdinaryConfig(w, nodes) && !SomeLost(w, Minimal)
    requires s in w.g.info && w.g.info[s].kind.Plain? && !Untyped(s)
    ensures WorldOf(w.g, UsersWithout(w, nodes, s)).plain[s] ==
      CalculateWith(w.g, ResetUser(w.g.info[s]), s, w.g.info[s], EnvOf(w), None)
  {
    var w' := WorldOf(w.g, UsersWithout(w, nodes, s));
    AllButOne(nodes, s, s);
    BelowAgree(w, nodes, s);
    CalculateEquation(w', s);
    CalculateWithAgree(w.g, ResetUser(w.g.info[s]), s, EnvOf(w'), EnvOf(w), None);
  }

  /** The value of a reset symbol is its default. */
  lemma ResetDiffers(w: World, s: Symbol)
    requires GoodWorld(w) && s in w.g.info && w.g.info[s].kind.Plain? && !Untyped(s)
    requires TextOf(w, s) != DefaultText(w.g, s, w.g.info[s], EnvOf(w))
    ensures CalculateWith(w.g, ResetUser(w.g.info[s]), s, w.g.info[s], EnvOf(w), None) != w.plain[s] <==>
      IsTristate(s) || Validated(s, w.g.info[s], DefaultText(w.g, s, w.g.info[s], EnvOf(w)), EnvOf(w)) != w.plain[s].val
  {
    var i, env := w.g.info[s], EnvOf(w);
    PlainEquation(w, s);
    PlainCalculation(w.g, ResetUser(i), s, i, env);
    if IsTristate(s) {
      EnvOfTyped(w);
      assert env.tri(s) == w.plain[s].tri;
      DefaultTextMeaning(w.g, s, i, env);
    }
  }

  /** The line of a bool or tristate symbol outside of choices is always needed; that of an int, hex
      or string symbol is, unless its value is what its range makes of the default. */
  lemma PlainLineNeeded(w: World, nodes: seq<Symbol>, s: Symbol)
    requires OrdinaryConfig(w, nodes) && !SomeLost(w, Minimal)
    requires s in nodes && Saved(w, s) && w.g.info[s].kind.Plain?
    ensures WorldOf(w.g, UsersWithout(w, nodes, s)).plain[s] != w.plain[s] <==>
      IsTristate(s) || Validated(s, w.g.info[s], DefaultText(w.g, s, w.g.info[s], EnvOf(w)), EnvOf(w)) != w.plain[s].val
  {
    if Untyped(s) {
      UnsavedRead(w, s);
    }
    PlainReset(w, nodes, s);
    ResetDiffers(w, s);
  }

  /** Only members that are y are saved. */
  lemma SavedMember(w: World, nodes: seq<Symbol>, m: Symbol)
    requires OrdinaryConfig(w, nodes) && m in w.g.info && w.g.info[m].kind.Member? && Saved(w, m)
    ensures w.plain[m].visible == Yes && w.plain[m].tri == Yes
    ensures w.g.info[m].kind.choice in w.g.info && w.g.info[w.g.info[m].kind.choice].kind.Choice?
    ensures m in w.g.info[w.g.info[m].kind.choice].kind.members
  {
    assert Ordinary(w, nodes, m);
    MemberEquation(w, m);
    NoDefaults(w.g.info[m], EnvOf(w));
  }

  lemma PickLost(w: World, nodes: seq<Symbol>, m: Symbol, c: Symbol)
    requires OrdinaryConfig(w, nodes) && c in w.g.info && w.g.info[c].kind.Choice?
    requires m in w.g.info && w.g.info[m].kind == Member(c) && Saved(w, m)
    ensures UsersWithout(w, nodes, m)[c].pick == None
  {
    var u := UsersWithout(w, nodes, m);
    if u[c].pick.Some? {
      NoOtherPick(w, nodes, m, c, u[c].pick.value);
    }
  }

  /** No other member has been saved as y. */
  lemma NoOtherPick(w: World, nodes: seq<Symbol>, m: Symbol, c: Symbol, other: Symbol)
    requires OrdinaryConfig(w, nodes) && c in w.g.info && w.g.info[c].kind.Choice?
    requires m in w.g.info && w.g.info[m].kind == Member(c) && Saved(w, m)
    ensures !PickRead(w, Minimal, AllBut(nodes, m), c, other)
  {
    SavedMember(w, nodes, m);
    MembersHaveNoDefaults(w, nodes, c);
    ChoiceExclusive(w, c);
    AllButOne(nodes, m, other);
    if other in w.g.info && w.g.info[other].kind == Member(c) {
      MemberEquation(w, other);
      MemberEquation(w, m);
    }
  }

  /** The line of a member is needed: without it, its choice settles on its default. */
  lemma MemberLineNeeded(w: World, nodes: seq<Symbol>, m: Symbol)
    requires OrdinaryConfig(w, nodes) && !SomeLost(w, Minimal)
    requires m in nodes && Saved(w, m) && w.g.info[m].kind.Member?
    ensures w.plain[m].tri == Yes && WorldOf(w.g, UsersWithout(w, nodes, m)).plain[m].tri == No
  {
    var c := w.g.info[m].kind.choice;
    SavedMember(w, nodes, m);
    PickLost(w, nodes, m, c);
    BelowAgree(w, nodes, m);
    var u := UsersWithout(w, nodes, m);
    var w' := WorldOf(w.g, u);
    PickAgree(w.g, c, u[c], EnvOf(w'), EnvOf(w));
    ChoiceEquation(w', c);
    assert Ordinary(w, nodes, m);
    MemberValue(w', c, m);
    MemberEquation(w', m);
  }
}
