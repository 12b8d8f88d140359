/** conf_write_defconfig and conf_write from the root menu to the lines of the file, and back. */
module MenuWriter {
  import opened Expressions
  import opened SymbolGraph
  import opened EvaluatorState
  import opened CachedEvaluator
  import opened Sessions
  import opened Quoting
  import opened SavedConfig
  import opened ConfigText
  import opened ConfigWriter
  import opened ConfigReader
  import MenuTree
  import MenuFinalize
  import MenuWalk

  /** The symbols of the menu nodes, in the order of the walk. */
  ghost function MenuSymbols(f: MenuTree.Forest): seq<Symbol> {
    MenuWalk.SymbolsIn(MenuWalk.Visits(f))
  }

  /** `lines` are what `more` adds to the lines of `done`. */
  ghost predicate Adds(w: World, writer: Writer, done: seq<Symbol>, more: seq<Symbol>, lines: seq<Entry>)
    requires forall s :: s in done + more ==> s in w.g.info && s in w.plain
  {
    assert forall s :: s in done ==> s in done + more;
    SavedEntries(w, writer, done + more) == SavedEntries(w, writer, done) + lines
  }

  /** What both writers do at a menu node. */
  method WriteNode(t: SymbolTable, writer: Writer, item: MenuTree.Item, ghost done: seq<Symbol>)
    returns (lines: seq<Entry>)
    requires t.Valid({}) && Flags(t.world, t.state, done)
    requires forall s :: s in done + MenuWalk.SymbolOf(item) ==> s in t.graph.info
    modifies t`state
    ensures t.Valid({}) && Flags(t.world, t.state, done + MenuWalk.SymbolOf(item))
    ensures Adds(t.world, writer, done, MenuWalk.SymbolOf(item), lines)
  {
    if item.sym.Some? && !item.isChoice {
      var s := item.sym.value;
      assert MenuWalk.SymbolOf(item) == [s] && s in done + [s];
      lines := VisitNode(t, writer, s, done);
      assert (done + [s])[..|done|] == done;
    } else {
      lines := [];
      assert done + MenuWalk.SymbolOf(item) == done;
    }
  }

  ghost function ToCome(menu: MenuTree.Menu?, q: MenuWalk.Place): seq<MenuWalk.Visit> {
    if menu == null then [] else MenuWalk.Remaining(q)
  }

  /** The walk has met the symbols `met` and is at `menu`. */
  ghost predicate Underway(menu: MenuTree.Menu?, q: MenuWalk.Place, met: seq<Symbol>, f: MenuTree.Forest)
    reads MenuTree.Nodes(q.here), q.way, MenuWalk.NodesAbove(q.above)
  {
    && (menu != null ==> MenuWalk.IsAt(menu, q))
    && met + MenuWalk.SymbolsIn(ToCome(menu, q)) == MenuSymbols(f)
  }

  method StartWalk(root: MenuTree.Menu, ghost f: MenuTree.Forest)
    returns (menu: MenuTree.Menu?, ghost q: MenuWalk.Place)
    requires MenuWalk.IsMenu(root, f)
    ensures Underway(menu, q, [], f)
  {
    menu := root.list;
    q := MenuWalk.Place(f, root, MenuWalk.Root, [root]);
    assert MenuWalk.Remaining(q) == MenuWalk.Visits(f);
  }

  method NextNode(menu: MenuTree.Menu, ghost q: MenuWalk.Place, ghost met: seq<Symbol>, ghost f: MenuTree.Forest)
    returns (next: MenuTree.Menu?, ghost q': MenuWalk.Place)
    requires Underway(menu, q, met, f)
    ensures Underway(next, q', met + MenuWalk.SymbolOf(menu.item), f)
    ensures next != null ==> |MenuWalk.Remaining(q')| < |MenuWalk.Remaining(q)|
  {
    next, q' := MenuWalk.Step(menu, q);
    MenuWalk.SymbolsFirst(MenuWalk.Visit(menu, menu.item), ToCome(next, q'));
    Regroup(met, MenuWalk.SymbolOf(menu.item), MenuWalk.SymbolsIn(ToCome(next, q')));
  }

  ghost predicate Known(w: World, nodes: seq<Symbol>) {
    forall s :: s in nodes ==> s in w.g.info && s in w.plain
  }

  /** The symbols `met` have been written. */
  ghost predicate WrittenUpTo(w: World, st: State, writer: Writer, done: seq<Symbol>, met: seq<Symbol>,
                              lines: seq<Entry>) {
    Flags(w, st, done + met) && Known(w, done + met) && Adds(w, writer, done, met, lines)
  }

  /** The loop of a writer over the menu. */
  method WriteMenu(t: SymbolTable, writer: Writer, root: MenuTree.Menu, ghost f: MenuTree.Forest,
                   ghost done: seq<Symbol>)
    returns (lines: seq<Entry>)
    requires t.Valid({}) && Flags(t.world, t.state, done) && MenuWalk.IsMenu(root, f)
    requires Known(t.world, done + MenuSymbols(f))
    modifies t`state
    ensures t.Valid({}) && Flags(t.world, t.state, done + MenuSymbols(f))
    ensures Adds(t.world, writer, done, MenuSymbols(f), lines)
  {
    ghost var met := [];
    var menu, q := StartWalk(root, f);
    lines := [];
    assert done + met == done;
    while menu != null
      invariant t.Valid({}) && WrittenUpTo(t.world, t.state, writer, done, met, lines) && Underway(menu, q, met, f)
      decreases if menu == null then 0 else 1 + |MenuWalk.Remaining(q)|
    {
      menu, q, met, lines := WriteNext(t, writer, f, done, menu, q, met, lines);
    }
    assert met == MenuSymbols(f);
  }

  /** One round of the loop. */
  method WriteNext(t: SymbolTable, writer: Writer, ghost f: MenuTree.Forest, ghost done: seq<Symbol>,
                   menu: MenuTree.Menu, ghost q: MenuWalk.Place, ghost met: seq<Symbol>, before: seq<Entry>)
    returns (next: MenuTree.Menu?, ghost q': MenuWalk.Place, ghost met': seq<Symbol>, lines: seq<Entry>)
    requires t.Valid({}) && WrittenUpTo(t.world, t.state, writer, done, met, before) && Underway(menu, q, met, f)
    requires Known(t.world, done + MenuSymbols(f))
    modifies t`state
    ensures t.Valid({}) && WrittenUpTo(t.world, t.state, writer, done, met', lines) && Underway(next, q', met', f)
    ensures next != null ==> |MenuWalk.Remaining(q')| < |MenuWalk.Remaining(q)|
  {
    ghost var w := t.world;
    var item := menu.item;
    met' := met + MenuWalk.SymbolOf(item);
    next, q' := NextNode(menu, q, met, f);
    MoreKnown(w, done, met, MenuWalk.SymbolOf(item), MenuWalk.SymbolsIn(ToCome(next, q')), MenuSymbols(f));
    lines := WriteMore(t, writer, item, done, met, before, next, q'.here, q'.parent, q'.above, q'.way);
    assert t.world == w;
  }

  /** What a node adds to the lines. Meanwhile the menu stays as it is. */
  method WriteMore(t: SymbolTable, writer: Writer, item: MenuTree.Item, ghost done: seq<Symbol>, ghost met: seq<Symbol>,
                    before: seq<Entry>, ghost menu: MenuTree.Menu?, ghost here: MenuTree.Forest,
                    ghost parent: MenuTree.Menu, ghost above: MenuWalk.Above, ghost way: seq<MenuTree.Menu>)
    returns (lines: seq<Entry>)
    requires t.Valid({}) && Flags(t.world, t.state, done + met)
    requires Known(t.world, done + met) && Known(t.world, done + met + MenuWalk.SymbolOf(item))
    requires Adds(t.world, writer, done, met, before)
    modifies t`state
    ensures t.Valid({}) && Flags(t.world, t.state, done + (met + MenuWalk.SymbolOf(item)))
    ensures Known(t.world, done + (met + MenuWalk.SymbolOf(item)))
    ensures Adds(t.world, writer, done, met + MenuWalk.SymbolOf(item), lines)
    ensures menu != null ==>
      MenuWalk.IsAt(menu, MenuWalk.Place(here, parent, above, way)) ==
        old(MenuWalk.IsAt(menu, MenuWalk.Place(here, parent, above, way)))
  {
    MenuFinalize.NodesAllocated(here);
    MenuWalk.AboveAllocated(above);
    var line := WriteNode(t, writer, item, done + met);
    Accumulates(t.world, writer, done, met, MenuWalk.SymbolOf(item), before, line);
    lines := before + line;
  }

  lemma MoreKnown(w: World, done: seq<Symbol>, met: seq<Symbol>, more: seq<Symbol>, rest: seq<Symbol>, all: seq<Symbol>)
    requires Known(w, done + all) && met + more + rest == all
    ensures Known(w, done + met + more)
  {
    assert forall s :: s in done + met + more ==> s in done + all;
  }

  lemma Accumulates(w: World, writer: Writer, done: seq<Symbol>, met: seq<Symbol>, more: seq<Symbol>,
                    lines: seq<Entry>, line: seq<Entry>)
    requires Known(w, done + met) && Known(w, done + met + more)
    requires Adds(w, writer, done, met, lines) && Adds(w, writer, done + met, more, line)
    ensures done + met + more == done + (met + more)
    ensures Known(w, done + (met + more)) && Adds(w, writer, done, met + more, lines + line)
  {
    Regroup(done, met, more);
    assert Known(w, done) by { assert forall s :: s in done ==> s in done + met; }
    Regroup(SavedEntries(w, writer, done), lines, line);
  }

  /** conf_write_defconfig: it writes exactly the lines that it has to keep, each symbol once. */
  method WriteDefconfig(t: SymbolTable, root: MenuTree.Menu, ghost f: MenuTree.Forest) returns (lines: seq<Entry>)
    requires t.Valid({}) && MenuWalk.IsMenu(root, f) && Known(t.world, MenuSymbols(f))
    modifies t`state, t`changed
    ensures t.Valid({}) && lines == SavedEntries(t.world, Minimal, MenuSymbols(f)) && t.changed
    ensures Flags(t.world, t.state, MenuSymbols(f))
  {
    MenuFinalize.NodesAllocated(f);
    StartOver(t);
    assert [] + MenuSymbols(f) == MenuSymbols(f);
    lines := WriteMenu(t, Minimal, root, f, []);
  }

  /** conf_write. It invalidates the cache first, unless the configuration is marked as changed; in
      that case the symbols in `done`, whose flags a writer has consumed since, get no line. */
  method WriteConfig(t: SymbolTable, root: MenuTree.Menu, ghost f: MenuTree.Forest, ghost done: seq<Symbol>)
    returns (lines: seq<Entry>)
    requires t.Valid({}) && MenuWalk.IsMenu(root, f) && Known(t.world, done + MenuSymbols(f))
    requires if t.changed then Flags(t.world, t.state, done) else done == []
    modifies t`state, t`changed
    ensures t.Valid({}) && Flags(t.world, t.state, done + MenuSymbols(f)) && !t.changed
    ensures Adds(t.world, Full, done, MenuSymbols(f), lines)
  {
    MenuFinalize.NodesAllocated(f);
    if !t.changed {
      StartOver(t);
    }
    lines := WriteMenu(t, Full, root, f, done);
    t.changed := false;
  }

  /** savedefconfig and conf_write, one after the other: savedefconfig invalidates the cache, which
      marks the configuration as changed, and consumes the flags; conf_write then trusts the flags and
      writes no line at all. */
  method WriteBoth(t: SymbolTable, root: MenuTree.Menu, ghost f: MenuTree.Forest)
    returns (minimal: seq<Entry>, full: seq<Entry>)
    requires t.Valid({}) && MenuWalk.IsMenu(root, f) && Known(t.world, MenuSymbols(f))
    modifies t`state, t`changed
    ensures t.Valid({}) && minimal == SavedEntries(t.world, Minimal, MenuSymbols(f)) && full == []
  {
    MenuFinalize.NodesAllocated(f);
    minimal := WriteDefconfig(t, root, f);
    full := WriteConfig(t, root, f, MenuSymbols(f));
    NothingTwice(t.world, Full, MenuSymbols(f), MenuSymbols(f));
    NothingAdded(SavedEntries(t.world, Full, MenuSymbols(f)), full);
  }

  lemma NothingAdded(a: seq<Entry>, b: seq<Entry>)
    requires a + b == a
    ensures b == []
  {
    assert |a + b| == |a| + |b|;
  }

  method WriteEither(t: SymbolTable, writer: Writer, root: MenuTree.Menu, ghost f: MenuTree.Forest)
    returns (lines: seq<Entry>)
    requires t.Valid({}) && MenuWalk.IsMenu(root, f) && Known(t.world, MenuSymbols(f))
    requires writer == Full && t.changed ==> Flags(t.world, t.state, [])
    modifies t`state, t`changed
    ensures t.Valid({}) && lines == SavedEntries(t.world, writer, MenuSymbols(f)) && t.changed == (writer == Minimal)
  {
    match writer
    case Minimal =>
      lines := WriteDefconfig(t, root, f);
    case Full =>
      lines := WriteWhole(t, root, f);
  }

  /** conf_write, when no flag has been consumed. */
  method WriteWhole(t: SymbolTable, root: MenuTree.Menu, ghost f: MenuTree.Forest) returns (lines: seq<Entry>)
    requires t.Valid({}) && MenuWalk.IsMenu(root, f) && Known(t.world, MenuSymbols(f))
    requires t.changed ==> Flags(t.world, t.state, [])
    modifies t`state, t`changed
    ensures t.Valid({}) && lines == SavedEntries(t.world, Full, MenuSymbols(f)) && !t.changed
  {
    assert [] + MenuSymbols(f) == MenuSymbols(f);
    lines := WriteConfig(t, root, f, []);
  }

  /** Writing a configuration and reading it back, from any state of the cache: every symbol
      calculates to what it was before, if and only if the writer loses no value. Where conf_write
      trusts the flags, nothing must have consumed any. */
  method SaveAndLoad(t: SymbolTable, writer: Writer, root: MenuTree.Menu, ghost f: MenuTree.Forest,
                     names: Names, prefix: string)
    requires t.Valid({}) && MenuWalk.IsMenu(root, f) && OrdinaryConfig(t.world, MenuSymbols(f))
    requires Writable(t.world, writer, names, prefix) && IsText(prefix)
    requires writer == Full && t.changed ==> Flags(t.world, t.state, [])
    modifies t
    ensures t.Valid({}) && NoneValid(t.state) && t.changed == (writer == Minimal)
    ensures t.world.plain == old(t.world.plain) <==> !SomeLost(old(t.world), writer)
  {
    ghost var w := t.world;
    var text := WriteText(t, writer, root, f, names, prefix);
    assert t.world == w;
    ReadConfig(t, names, prefix, text);
    ReadBackWorld(w, t.world, writer, MenuSymbols(f), names, prefix);
  }

  lemma ReadBackWorld(w: World, w': World, writer: Writer, nodes: seq<Symbol>, names: Names, prefix: string)
    requires OrdinaryConfig(w, nodes) && Writable(w, writer, names, prefix) && GoodWorld(w') && w'.g == w.g
    requires w'.u == ReadText(w.g, names, prefix, FileText(w, writer, nodes, names, prefix))
    ensures w'.plain == w.plain <==> !SomeLost(w, writer)
  {
    SavedTextRoundTrip(w, writer, nodes, names, prefix);
    SameWorlds(w', WorldOf(w.g, w'.u));
  }

  /** The file of a writer. */
  method WriteText(t: SymbolTable, writer: Writer, root: MenuTree.Menu, ghost f: MenuTree.Forest,
                   ghost names: Names, prefix: string) returns (text: string)
    requires t.Valid({}) && MenuWalk.IsMenu(root, f) && OrdinaryConfig(t.world, MenuSymbols(f))
    requires Writable(t.world, writer, names, prefix) && IsText(prefix)
    requires writer == Full && t.changed ==> Flags(t.world, t.state, [])
    modifies t`state, t`changed
    ensures t.Valid({}) && t.changed == (writer == Minimal)
    ensures text == FileText(t.world, writer, MenuSymbols(f), names, prefix)
    ensures IsText(text) && AllKnown(names, prefix, SplitLines(text))
  {
    ghost var w := t.world;
    var entries := WriteEither(t, writer, root, f);
    assert t.world == w;
    KeptFit(w, writer, MenuSymbols(f), names, prefix);
    text := WriteLines(t.graph, prefix, entries);
    PrintedIsText(w.g, names, prefix, entries);
    PrintedKnown(w.g, names, prefix, entries);
  }
}
