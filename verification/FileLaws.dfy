/** Which lines conf_write puts into a configuration file, and what they look like. */
module FileLaws {
  import opened Tristates
  import opened Expressions
  import opened SymbolGraph
  import opened SymbolValues
  import opened EvaluatorState
  import opened Quoting
  import opened SavedConfig
  import opened ConfigText
  import opened ValueLaws
  import MenuTree
  import MenuWalk
  import MenuWriter

  ghost predicate Known(w: World, nodes: seq<Symbol>) {
    forall s :: s in nodes ==> s in w.g.info && s in w.plain
  }

  /** A writer has one line for each symbol of the menu that is to be written, with its value, and no other
      line. */
  lemma {:induction false} EntriesExact(w: World, writer: Writer, nodes: seq<Symbol>, e: Entry)
    requires Known(w, nodes)
    ensures e in SavedEntries(w, writer, nodes) <==>
      e.sym in nodes && HasLine(w, writer, e.sym) && e.text == TextOf(w, e.sym)
  {
    if nodes != [] {
      var before, s := nodes[..|nodes| - 1], nodes[|nodes| - 1];
      assert forall x :: x in nodes <==> x in before || x == s;
      EntriesExact(w, writer, before, e);
    }
  }

  predicate OncePerSymbol(entries: seq<Entry>) {
    forall j, k :: 0 <= j < k < |entries| ==> entries[j].sym != entries[k].sym
  }

  lemma {:induction false} EntriesOnce(w: World, writer: Writer, nodes: seq<Symbol>)
    requires Known(w, nodes)
    ensures OncePerSymbol(SavedEntries(w, writer, nodes))
  {
    if nodes != [] {
      var before := nodes[..|nodes| - 1];
      var entries := SavedEntries(w, writer, before);
      EntriesOnce(w, writer, before);
      forall k | 0 <= k < |entries|
        ensures entries[k].sym in before
      {
        EntriesExact(w, writer, before, entries[k]);
      }
    }
  }

  /** The lines come in the order of the menu: what is written of its first part comes first. */
  lemma {:induction false} EntriesInOrder(w: World, writer: Writer, nodes: seq<Symbol>, k: nat)
    requires Known(w, nodes) && k <= |nodes|
    ensures SavedEntries(w, writer, nodes[..k]) <= SavedEntries(w, writer, nodes)
  {
    if k < |nodes| {
      var before := nodes[..|nodes| - 1];
      assert nodes[..k] == before[..k];
      EntriesInOrder(w, writer, before, k);
    } else {
      assert nodes[..k] == nodes;
    }
  }

  /** conf_write has a line for every bool or tristate symbol outside of choices that has a menu node and is
      not n, visible or not, unless it is automatic; its line says y or m. */
  lemma SetSymbolHasLine(w: World, nodes: seq<Symbol>, s: Symbol, prefix: string)
    requires GoodWorld(w) && Known(w, nodes) && s in nodes && w.g.info[s].kind.Plain? && IsTristate(s)
    requires !w.g.info[s].auto && w.plain[s].tri != No
    ensures var e := Entry(s, TristateName(w.plain[s].tri));
      && e in SavedEntries(w, Full, nodes)
      && PrintEntry(w.g, prefix, e) == prefix + w.g.info[s].name + "=" + TristateName(w.plain[s].tri) + "\n"
  {
    WrittenExact(w, s);
    EnvOfTyped(w);
    assert EnvOf(w).tri(s) == w.plain[s].tri;
    EntriesExact(w, Full, nodes, Entry(s, TristateName(w.plain[s].tri)));
    LineOfTristate(w.g, prefix, s, w.plain[s].tri);
  }

  /** One that is n has a line if and only if it is visible, and the line says that it is not set. */
  lemma UnsetSymbolHasLine(w: World, nodes: seq<Symbol>, s: Symbol, prefix: string)
    requires GoodWorld(w) && Known(w, nodes) && s in nodes && w.g.info[s].kind.Plain? && IsTristate(s)
    requires !w.g.info[s].auto && w.plain[s].tri == No
    ensures Entry(s, "n") in SavedEntries(w, Full, nodes) <==> w.plain[s].visible != No
    ensures PrintEntry(w.g, prefix, Entry(s, "n")) == "# " + prefix + w.g.info[s].name + " is not set\n"
  {
    WrittenExact(w, s);
    EntriesExact(w, Full, nodes, Entry(s, "n"));
    LineOfTristate(w.g, prefix, s, No);
  }

  /** y and m are assigned, and n is a comment. */
  lemma LineOfTristate(g: Graph, prefix: string, s: Symbol, t: Tristate)
    requires s in g.info && IsTristate(s)
    ensures PrintEntry(g, prefix, Entry(s, TristateName(t))) ==
      if t == No then "# " + prefix + g.info[s].name + " is not set\n"
      else prefix + g.info[s].name + "=" + TristateName(t) + "\n"
  {
    var name := g.info[s].name;
    assert " " + (NOT_SET + "\n") == " is not set\n";
    assert "# " + prefix + name + " " + (NOT_SET + "\n") == "# " + prefix + name + (" " + (NOT_SET + "\n"));
    assert prefix + name + "=" + (TristateName(t) + "\n") == prefix + name + "=" + TristateName(t) + "\n";
  }

  /** Numbers stand as they are, and strings in quotes. */
  lemma LineOfText(g: Graph, prefix: string, s: Symbol, value: string)
    requires s in g.info && (s.typ == Integer || s.typ == Hex || s.typ == StringType)
    ensures PrintEntry(g, prefix, Entry(s, value)) ==
      prefix + g.info[s].name + "=" + (if s.typ == StringType then "\"" + Escape(value) + "\"" else value) + "\n"
  {
    var text := if s.typ == StringType then "\"" + Escape(value) + "\"" else value;
    assert prefix + g.info[s].name + "=" + (text + "\n") == prefix + g.info[s].name + "=" + text + "\n";
  }

  // ----- which symbols a writer meets -----

  /** A node of the menu has the symbol, and is no choice. */
  ghost predicate HasEntry(f: MenuTree.Forest, s: Symbol) {
    match f
    case Nil => false
    case Node(_, i, k, r) => (!i.isChoice && i.sym == Some(s)) || HasEntry(k, s) || HasEntry(r, s)
  }

  /** The writers meet exactly the symbols that have a menu node, choices aside; a prompt is not needed. */
  lemma {:induction false} MenuSymbolsExact(f: MenuTree.Forest, s: Symbol)
    ensures s in MenuWriter.MenuSymbols(f) <==> HasEntry(f, s)
  {
    if f.Node? {
      var v, k, r := MenuWalk.Visit(f.menu, f.item), MenuWalk.Visits(f.kids), MenuWalk.Visits(f.rest);
      MenuSymbolsExact(f.kids, s);
      MenuSymbolsExact(f.rest, s);
      assert MenuWalk.Visits(f) == [v] + (k + r);
      MenuWalk.SymbolsFirst(v, k + r);
      MenuWalk.SymbolsJoin(k, r);
    }
  }

  // ----- quoting -----

  /** Escaping puts a backslash in front of quotes and backslashes, and changes nothing else. */
  lemma EscapeExact(c: char, s: string)
    ensures Escape(s + [c]) == Escape(s) + if c == '"' || c == '\\' then ['\\', c] else [c]
    ensures Escape("") == ""
  {
    assert (s + [c])[..|s + [c]| - 1] == s;
  }

  /** Unescaping ends at the first quote that no backslash stands before; a backslash stands for the
      character behind it, whatever that is. */
  lemma UnescapeExact(c: char, s: string)
    ensures Unescape("\"" + s) == Some("")
    ensures Unescape(['\\', c] + s) == Prepend(c, Unescape(s))
    ensures c != '"' && c != '\\' ==> Unescape([c] + s) == Prepend(c, Unescape(s))
    ensures Unescape("") == None && Unescape("\\") == None
  {
    assert ("\"" + s)[0] == '"';
    assert (['\\', c] + s)[2..] == s && ([c] + s)[1..] == s;
  }
}
