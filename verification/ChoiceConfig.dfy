/** A configuration with a choice and the menu for it, from its construction to the file and back. */
module ChoiceConfig {
  import opened Tristates
  import opened Expressions
  import opened SymbolGraph
  import opened SymbolValues
  import opened EvaluatorState
  import opened CachedEvaluator
  import opened SavedConfig
  import opened ConfigText
  import opened MenuTree
  import MenuFinalize
  import MenuWalk
  import MenuWriter

  const CHOICE := Symbol(6, Boolean, false)
  const FIRST := Symbol(7, Boolean, false)
  const SECOND := Symbol(8, Boolean, false)

  function Blank(name: string): Info {
    Info(name, [], [], [], Null, Null, Null, Plain, false)
  }

  /** A choice with the prompt "always", and two members: what menu_finalize makes of them. */
  const CHOICE_INFO :=
    Blank("").(prompts := [Null], revDep := Ref(Sym(SYMBOL_MOD)), kind := Choice([FIRST, SECOND]), auto := true)

  function MemberInfo(name: string): Info {
    Blank(name).(prompts := [Ref(Sym(CHOICE))], dirDep := Ref(Sym(CHOICE)), kind := Member(CHOICE))
  }

  function ChoiceGraph(): Graph {
    Graph(map[SYMBOL_YES := Blank("y"), SYMBOL_MOD := Blank("m"), SYMBOL_NO := Blank("n"),
              CHOICE := CHOICE_INFO, FIRST := MemberInfo("FIRST"), SECOND := MemberInfo("SECOND")],
          map[SYMBOL_YES := 0, SYMBOL_MOD := 0, SYMBOL_NO := 0, CHOICE := 1, FIRST := 2, SECOND := 2], No)
  }

  /** The user has picked the second member. */
  function ChoiceUsers(): Users {
    (map s | s in ChoiceGraph().info :: ResetUser(ChoiceGraph().info[s]))
    [CHOICE := UserValue(true, Yes, "", Some(SECOND))][SECOND := UserValue(true, Yes, "", None)]
  }

  const CHOICE_NAMES: Names := map["FIRST" := FIRST, "SECOND" := SECOND]

  lemma MemberIsGood(m: Symbol)
    requires m == FIRST || m == SECOND
    ensures GoodSymbol(ChoiceGraph(), m)
  {
    var i := ChoiceGraph().info[m];
    assert i.prompts == [Ref(Sym(CHOICE))];
    assert ChoicePrompt(CHOICE, Ref(Sym(CHOICE)));
    forall x | x in Operands(i)
      ensures x == CHOICE
    {
    }
  }

  lemma ChoiceIsMandatory()
    ensures MandatoryChoice(CHOICE, CHOICE_INFO)
  {
    forall env {:trigger ReverseValue(CHOICE_INFO.revDep, env)} | Typed(env)
      ensures ReverseValue(CHOICE_INFO.revDep, env) == Min(PromptsValue(CHOICE_INFO.prompts, env), Mod)
    {
      OnlyPrompt([Null], env);
      assert env.tri(TristateSymbol(Mod)) == Mod;
    }
  }

  lemma ChoiceIsGood()
    ensures GoodSymbol(ChoiceGraph(), CHOICE)
  {
    ChoiceIsMandatory();
    assert CHOICE_INFO.prompts == [Null] && CHOICE_INFO.kind.members == [FIRST, SECOND];
    forall x | x in Operands(CHOICE_INFO)
      ensures x == SYMBOL_MOD
    {
    }
  }

  lemma ConstantIsGood(s: Symbol)
    requires IsTristateConstant(s)
    ensures s in ChoiceGraph().info && GoodSymbol(ChoiceGraph(), s)
  {
    assert ChoiceGraph().info[s] == Blank(ChoiceGraph().info[s].name);
    BlankOperands(ChoiceGraph().info[s].name);
  }

  lemma BlankOperands(name: string)
    ensures Operands(Blank(name)) == {}
  {
  }

  lemma SymbolsOfGraph(s: Symbol)
    ensures s in ChoiceGraph().info <==> s == CHOICE || s == FIRST || s == SECOND || IsTristateConstant(s)
  {
  }

  lemma UserPicks(s: Symbol)
    requires s in ChoiceGraph().info
    ensures s in ChoiceUsers() && PicksMember(ChoiceGraph().info[s], ChoiceUsers()[s])
  {
  }

  lemma ChoiceIsWellFounded()
    ensures WellFounded(ChoiceGraph())
  {
    var g := ChoiceGraph();
    forall t: Tristate
      ensures TristateSymbol(t) in g.info && g.info[TristateSymbol(t)].kind == Plain
    {
    }
    forall s | s in g.info
      ensures GoodSymbol(g, s)
    {
      SymbolsOfGraph(s);
      if s == CHOICE {
        ChoiceIsGood();
      } else if s == FIRST || s == SECOND {
        MemberIsGood(s);
      } else {
        ConstantIsGood(s);
      }
    }
  }

  lemma ChoiceIsSetting()
    ensures Setting(ChoiceGraph(), ChoiceUsers())
  {
    ChoiceIsWellFounded();
    forall s | s in ChoiceGraph().info
      ensures PicksMember(ChoiceGraph().info[s], ChoiceUsers()[s])
    {
      UserPicks(s);
    }
  }

  /** The world of this configuration. */
  ghost predicate IsChoiceWorld(w: World) {
    GoodWorld(w) && w.g == ChoiceGraph() && w.u == ChoiceUsers()
  }

  lemma ChoiceIsOrdinary(w: World)
    requires IsChoiceWorld(w)
    ensures OrdinaryConfig(w, [FIRST, SECOND])
  {
    forall s | s in w.g.info
      ensures Ordinary(w, [FIRST, SECOND], s)
    {
      ChoiceInfo(s);
    }
  }

  lemma ChoiceInfo(s: Symbol)
    requires s in ChoiceGraph().info
    ensures var i := ChoiceGraph().info[s];
      && (i.auto ==> i.kind.Choice?) && i.ranges == [] && i.defaults == []
      && (i.prompts != [] && !i.kind.Choice? ==> s in [FIRST, SECOND])
      && (IsTristate(s) || (s.typ == UnknownType && i.revDep == Null))
  {
  }

  /** Nothing is tristate, and so nothing is lost. */
  lemma ChoiceIsKept(w: World, writer: Writer)
    requires IsChoiceWorld(w)
    ensures !SomeLost(w, writer)
  {
    forall s | s in w.g.info
      ensures !Lost(w, writer, s)
    {
      ChoiceInfo(s);
    }
  }

  lemma ChoiceIsWritable(w: World, writer: Writer)
    requires IsChoiceWorld(w)
    ensures Writable(w, writer, CHOICE_NAMES, "")
  {
    forall s | s in w.g.info && HasLine(w, writer, s)
      ensures FitsLine(w.g, CHOICE_NAMES, "", Entry(s, TextOf(w, s)))
    {
      SymbolsOfGraph(s);
      LineIsOfMember(w, writer, s);
      MemberFits(s, TextOf(w, s));
    }
  }

  lemma LineIsOfMember(w: World, writer: Writer, s: Symbol)
    requires IsChoiceWorld(w) && s in w.g.info && HasLine(w, writer, s)
    ensures (s == FIRST || s == SECOND) && (TextOf(w, s) == "y" || TextOf(w, s) == "m" || TextOf(w, s) == "n")
  {
    SymbolsOfGraph(s);
    if IsTristateConstant(s) {
      ConstantHasNoLine(w, writer, s);
    }
  }

  lemma ConstantHasNoLine(w: World, writer: Writer, s: Symbol)
    requires GoodWorld(w) && s in w.g.info && IsTristateConstant(s)
    ensures !HasLine(w, writer, s)
  {
    CalculateEquation(w, s);
  }

  lemma MemberFits(s: Symbol, text: string)
    requires (s == FIRST || s == SECOND) && (text == "y" || text == "m" || text == "n")
    ensures FitsLine(ChoiceGraph(), CHOICE_NAMES, "", Entry(s, text))
  {
    var name := if s == FIRST then "FIRST" else "SECOND";
    NameFits(s, name);
    PlainName(name);
    PlainText(text);
  }

  lemma NameFits(s: Symbol, name: string)
    requires (s == FIRST && name == "FIRST") || (s == SECOND && name == "SECOND")
    ensures s in ChoiceGraph().info && ChoiceGraph().info[s].name == name && Find(CHOICE_NAMES, name) == Some(s)
  {
  }

  /** Letters only. */
  lemma PlainName(name: string)
    requires forall k :: 0 <= k < |name| ==> 'A' <= name[k] <= 'Z'
    ensures Without(name, '=') && Without(name, ' ') && Without(name, '\n') && Without(name, '\0')
    ensures "" + name == name && (name == [] || name[0] != '#')
  {
  }

  lemma PlainText(text: string)
    requires text == "y" || text == "m" || text == "n"
    ensures Without(text, '\n') && Without(text, '\0') && text[|text| - 1] != '\r'
  {
  }

  lemma ChoiceValues(w: World)
    requires IsChoiceWorld(w)
    ensures w.plain[CHOICE].pick == Some(SECOND) && w.plain[SECOND].tri == Yes && w.plain[FIRST].tri == No
  {
    var env := EnvOf(w);
    OnlyPrompt([Null], env);
    ChoiceEquation(w, CHOICE);
    OnlyPrompt([Ref(Sym(CHOICE))], ChoiceIsYes(CHOICE, env));
    OnlyPrompt([Ref(Sym(CHOICE))], env);
    assert MemberVisible(w.g, SECOND, ChoiceIsYes(CHOICE, env));
    MemberEquation(w, SECOND);
    MemberEquation(w, FIRST);
  }

  // ----- the menu -----

  function ChoiceItem(): Item {
    Item(Some(CHOICE), true, true, true, true, Null, Null, [])
  }

  function MemberItem(m: Symbol): Item {
    Item(Some(m), false, false, true, true, Ref(Sym(CHOICE)), Ref(Sym(CHOICE)), [])
  }

  ghost function ChoiceForest(c: Menu, a: Menu, b: Menu): Forest {
    Node(c, ChoiceItem(), Node(a, MemberItem(FIRST), Nil, Node(b, MemberItem(SECOND), Nil, Nil)), Nil)
  }

  /** The root menu with the choice and its members below. */
  method BuildMenu() returns (root: Menu, ghost f: Forest)
    ensures fresh(root) && fresh(Nodes(f)) && MenuWalk.IsMenu(root, f)
    ensures MenuWriter.MenuSymbols(f) == [FIRST, SECOND]
  {
    root := new Menu(Item(None, false, false, true, true, Null, Null, []));
    var c := new Menu(ChoiceItem());
    var a := new Menu(MemberItem(FIRST));
    var b := new Menu(MemberItem(SECOND));
    root.list, c.list, a.next := c, a, b;
    c.parent, a.parent, b.parent := root, c, c;
    ghost var second := Node(b, MemberItem(SECOND), Nil, Nil);
    ghost var first := Node(a, MemberItem(FIRST), Nil, second);
    f := Node(c, ChoiceItem(), first, Nil);
    LinkedNode(b, second, c);
    LinkedNode(a, first, c);
    LinkedNode(c, f, root);
    ChoiceSymbols(c, a, b);
  }

  lemma LinkedNode(m: Menu, f: Forest, p: Menu)
    requires f.Node? && m == f.menu && m.item == f.item && m.parent == p
    requires m !in Nodes(f.kids) && m !in Nodes(f.rest) && Nodes(f.kids) !! Nodes(f.rest)
    requires if f.kids.Nil? then m.list == null else MenuFinalize.Linked(m.list, f.kids, m, null)
    requires if f.rest.Nil? then m.next == null else MenuFinalize.Linked(m.next, f.rest, p, null)
    ensures MenuFinalize.Linked(m, f, p, null) && Nodes(f) == {m} + Nodes(f.kids) + Nodes(f.rest)
  {
  }

  lemma ChoiceSymbols(c: Menu, a: Menu, b: Menu)
    ensures MenuWriter.MenuSymbols(ChoiceForest(c, a, b)) == [FIRST, SECOND]
  {
    var x := MenuWalk.Visit(c, ChoiceItem());
    var y, z := MenuWalk.Visit(a, MemberItem(FIRST)), MenuWalk.Visit(b, MemberItem(SECOND));
    var second := Node(b, MemberItem(SECOND), Nil, Nil);
    var first := Node(a, MemberItem(FIRST), Nil, second);
    assert MenuWalk.Visits(second) == [z] + [];
    assert MenuWalk.Visits(first) == [y] + ([z] + []);
    assert MenuWalk.Visits(ChoiceForest(c, a, b)) == [x] + ([y] + ([z] + []));
    MenuWalk.SymbolsFirst(x, [y] + ([z] + []));
    MenuWalk.SymbolsFirst(y, [z] + []);
    MenuWalk.SymbolsFirst(z, []);
  }

  /** The choice survives both writers: the second member is picked and y again. */
  method ChoiceRoundTrip(writer: Writer) returns (t: SymbolTable)
    ensures fresh(t) && t.graph == ChoiceGraph() && t.Valid({})
    ensures t.world.plain[CHOICE].pick == Some(SECOND)
    ensures t.world.plain[SECOND].tri == Yes && t.world.plain[FIRST].tri == No
  {
    ChoiceIsSetting();
    t := new SymbolTable(ChoiceGraph(), SYMBOL_NO, ChoiceUsers());
    ghost var w := t.world;
    ChoiceIsOrdinary(w);
    ChoiceIsKept(w, writer);
    ChoiceIsWritable(w, writer);
    ChoiceValues(w);
    var root, f := BuildMenu();
    MenuWriter.SaveAndLoad(t, writer, root, f, CHOICE_NAMES, "");
  }
}
