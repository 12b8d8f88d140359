/** Configuration files as text: kconfig_print_symbol writes a line for each entry, and
    conf_read_simple reads the lines back. */
module ConfigText {
  import opened Expressions
  import opened SymbolGraph
  import opened EvaluatorState
  import opened Quoting
  import opened SavedConfig

  const NOT_SET := "is not set"

  // ----- writing -----

  predicate PrintsUnset(s: Symbol, value: string) {
    IsTristate(s) && value != [] && value[0] == 'n'
  }

  function UnsetLine(prefix: string, name: string): string {
    "# " + prefix + name + " " + (NOT_SET + "\n")
  }

  function AssignLine(prefix: string, name: string, value: string): string {
    prefix + name + "=" + (value + "\n")
  }

  function PrintedValue(e: Entry): string {
    if e.sym.typ == StringType then Quoted(e.text) else e.text
  }

  /** conf_write_symbol with the printer of configuration files. */
  function PrintEntry(g: Graph, prefix: string, e: Entry): string
    requires e.sym in g.info
  {
    if Untyped(e.sym) then ""
    else if PrintsUnset(e.sym, e.text) then UnsetLine(prefix, g.info[e.sym].name)
    else AssignLine(prefix, g.info[e.sym].name, PrintedValue(e))
  }

  function PrintEntries(g: Graph, prefix: string, entries: seq<Entry>): string
    requires forall e :: e in entries ==> e.sym in g.info
  {
    if entries == [] then "" else PrintEntry(g, prefix, entries[0]) + PrintEntries(g, prefix, entries[1..])
  }

  // ----- reading -----

  /** The first position of `c` from `i` on, or the length of the string. */
  function IndexOf(s: string, c: char, i: nat): (k: nat)
    requires i <= |s|
    ensures i <= k <= |s| && (k < |s| ==> s[k] == c)
    ensures forall j :: i <= j < k ==> s[j] != c
    decreases |s| - i
  {
    if i == |s| || s[i] == c then i else IndexOf(s, c, i + 1)
  }

  datatype Line = Ignored | NotSet(name: string) | Assign(name: string, value: string)

  /** The value part of a line without its end. */
  function CutEnd(s: string): string {
    var n := IndexOf(s, '\n', 0);
    if n < |s| && n > 0 && s[n - 1] == '\r' then s[..n - 1] else s[..n]
  }

  /** What conf_read_simple finds on a line. */
  function ParseLine(prefix: string, line: string): Line {
    if line != [] && line[0] == '#' then
      if |line| < 2 || !(prefix <= line[2..]) then Ignored
      else
        var p := IndexOf(line, ' ', 2 + |prefix|);
        if p < |line| && NOT_SET <= line[p + 1..] then NotSet(line[2 + |prefix|..p]) else Ignored
    else if prefix <= line then
      var p := IndexOf(line, '=', |prefix|);
      if p < |line| then Assign(line[|prefix|..p], CutEnd(line[p + 1..])) else Ignored
    else Ignored
  }

  /** The symbol table by name. */
  type Names = map<string, Symbol>

  predicate NamesConstant(name: string) {
    name == "y" || name == "m" || name == "n"
  }

  /** sym_find, for symbols that can have a user's value. The names y, m and n denote the constants,
      which have no type, so that nothing is stored for them. */
  function Find(names: Names, name: string): Option<Symbol> {
    if NamesConstant(name) || name !in names then None else Some(names[name])
  }

  /** sym_find finds something. */
  predicate Exists(names: Names, name: string) {
    NamesConstant(name) || name in names
  }

  /** The text of a value: strings have to be quoted. */
  function ValueOf(s: Symbol, value: string): Option<string> {
    if s.typ != StringType then Some(value)
    else if value == [] || value[0] != '"' then None
    else Unescape(value[1..])
  }

  function ReadLine(g: Graph, names: Names, prefix: string, u: Users, line: string): Users {
    match ParseLine(prefix, line)
    case Ignored => u
    case NotSet(name) =>
      (match Find(names, name)
       case Some(s) => if IsTristate(s) then ReadEntry(g, u, Entry(s, "n")) else u
       case None => u)
    case Assign(name, value) =>
      (match Find(names, name)
       case Some(s) => if ValueOf(s, value).Some? then ReadEntry(g, u, Entry(s, ValueOf(s, value).value)) else u
       case None => u)
  }

  /** The line names no symbol that does not exist. */
  predicate KnownLine(names: Names, prefix: string, line: string) {
    match ParseLine(prefix, line)
    case Ignored => true
    case NotSet(name) => Exists(names, name)
    case Assign(name, _) => Exists(names, name)
  }

  predicate AllKnown(names: Names, prefix: string, lines: seq<string>) {
    forall k :: 0 <= k < |lines| ==> KnownLine(names, prefix, lines[k])
  }

  lemma KnownOneMore(names: Names, prefix: string, lines: seq<string>, line: string)
    ensures AllKnown(names, prefix, lines + [line])
      <==> AllKnown(names, prefix, lines) && KnownLine(names, prefix, line)
  {
    var all := lines + [line];
    assert all[|lines|] == line;
    assert forall k :: 0 <= k < |lines| ==> all[k] == lines[k];
  }

  function ReadLines(g: Graph, names: Names, prefix: string, lines: seq<string>): Users {
    if lines == [] then ReadEntries(g, [])
    else ReadLine(g, names, prefix, ReadLines(g, names, prefix, lines[..|lines| - 1]), lines[|lines| - 1])
  }

  /** The lines of a file, each with its newline. */
  function SplitLines(text: string): seq<string>
    decreases |text|
  {
    if text == [] then []
    else
      var n := IndexOf(text, '\n', 0);
      if n == |text| then [text] else [text[..n + 1]] + SplitLines(text[n + 1..])
  }

  /** conf_read_simple for the user's configuration. */
  function ReadText(g: Graph, names: Names, prefix: string, text: string): Users {
    ReadLines(g, names, prefix, SplitLines(text))
  }

  lemma ReadLineSetting(g: Graph, names: Names, prefix: string, u: Users, line: string)
    requires Setting(g, u)
    ensures Setting(g, ReadLine(g, names, prefix, u, line))
  {
    match ParseLine(prefix, line)
    case Ignored =>
    case NotSet(name) =>
      if Find(names, name).Some? {
        ReadEntrySetting(g, u, Entry(Find(names, name).value, "n"));
      }
    case Assign(name, value) =>
      if Find(names, name).Some? && ValueOf(Find(names, name).value, value).Some? {
        ReadEntrySetting(g, u, Entry(Find(names, name).value, ValueOf(Find(names, name).value, value).value));
      }
  }

  lemma {:induction false} ReadLinesSetting(g: Graph, names: Names, prefix: string, lines: seq<string>)
    requires WellFounded(g)
    ensures Setting(g, ReadLines(g, names, prefix, lines))
  {
    if lines == [] {
      ReadEntriesSetting(g, []);
    } else {
      var front, last := lines[..|lines| - 1], lines[|lines| - 1];
      ReadLinesSetting(g, names, prefix, front);
      ReadLineSetting(g, names, prefix, ReadLines(g, names, prefix, front), last);
    }
  }

  /** Every file, well-formed or not, yields user values that the evaluator can start from. */
  lemma ReadTextSetting(g: Graph, names: Names, prefix: string, text: string)
    requires WellFounded(g)
    ensures Setting(g, ReadText(g, names, prefix, text))
  {
    ReadLinesSetting(g, names, prefix, SplitLines(text));
  }

  // ----- the round trip -----

  predicate Without(s: string, c: char) {
    forall k :: 0 <= k < |s| ==> s[k] != c
  }

  /** What a line can hold: a symbol with a usable name, and a value on one line. */
  predicate FitsLine(g: Graph, names: Names, prefix: string, e: Entry) {
    && e.sym in g.info && !Untyped(e.sym)
    && var name := g.info[e.sym].name;
    && Find(names, name) == Some(e.sym)
    && Without(name, '=') && Without(name, ' ') && Without(name, '\n') && Without(name, '\0')
    && (prefix + name == [] || (prefix + name)[0] != '#')
    && Without(e.text, '\n') && Without(e.text, '\0')
    && (e.sym.typ != StringType && e.text != [] ==> e.text[|e.text| - 1] != '\r')
  }

  predicate AllFit(g: Graph, names: Names, prefix: string, entries: seq<Entry>) {
    forall e :: e in entries ==> e.sym in g.info && FitsLine(g, names, prefix, e)
  }

  lemma {:induction false} IndexIs(s: string, c: char, i: nat, k: nat)
    requires i <= k < |s| && s[k] == c && forall j :: i <= j < k ==> s[j] != c
    ensures IndexOf(s, c, i) == k
    decreases k - i
  {
    if i < k {
      IndexIs(s, c, i + 1, k);
    }
  }

  lemma CutNewline(value: string)
    requires Without(value, '\n') && (value == [] || value[|value| - 1] != '\r')
    ensures CutEnd(value + "\n") == value
  {
    IndexIs(value + "\n", '\n', 0, |value|);
  }

  /** A field of a line up to its separator. */
  lemma Field(front: string, field: string, c: char, rest: string)
    requires Without(field, c)
    ensures var line, p := front + field + [c] + rest, |front| + |field|;
      && IndexOf(line, c, |front|) == p < |line|
      && line[|front|..p] == field && line[p + 1..] == rest && front <= line
  {
    var line, p := front + field + [c] + rest, |front| + |field|;
    assert forall j :: |front| <= j < p ==> line[j] == field[j - |front|];
    IndexIs(line, c, |front|, p);
  }

  lemma ParseUnset(prefix: string, name: string)
    requires Without(name, ' ')
    ensures ParseLine(prefix, UnsetLine(prefix, name)) == NotSet(name)
  {
    var line := UnsetLine(prefix, name);
    Field("# " + prefix, name, ' ', NOT_SET + "\n");
    Begins(prefix, name + " " + (NOT_SET + "\n"), line);
  }

  lemma Begins(prefix: string, rest: string, line: string)
    requires |line| >= 2 && line[2..] == prefix + rest
    ensures prefix <= line[2..]
  {
  }

  lemma ParseAssign(prefix: string, name: string, value: string)
    requires Without(name, '=') && (prefix + name == [] || (prefix + name)[0] != '#')
    requires Without(value, '\n') && (value == [] || value[|value| - 1] != '\r')
    ensures ParseLine(prefix, AssignLine(prefix, name, value)) == Assign(name, value)
  {
    var line := AssignLine(prefix, name, value);
    assert line[0] == if prefix + name == [] then '=' else (prefix + name)[0];
    Field(prefix, name, '=', value + "\n");
    CutNewline(value);
  }

  lemma {:induction false} EscapeWithout(s: string, c: char)
    requires Without(s, c) && c != '\\'
    ensures Without(Escape(s), c)
  {
    if s != [] {
      EscapeWithout(s[..|s| - 1], c);
    }
  }

  lemma QuotedValue(s: string)
    requires Without(s, '\n')
    ensures Without(Quoted(s), '\n') && Quoted(s)[|Quoted(s)| - 1] != '\r' && Quoted(s)[0] == '"'
    ensures Unescape(Quoted(s)[1..]) == Some(s)
  {
    EscapeWithout(s, '\n');
    assert Quoted(s)[1..] == Escape(s) + "\"" + "";
    UnescapeEscape(s, "");
  }

  /** Reading a printed line has the effect of its entry. */
  lemma PrintedLine(g: Graph, names: Names, prefix: string, u: Users, e: Entry)
    requires FitsLine(g, names, prefix, e)
    ensures ReadLine(g, names, prefix, u, PrintEntry(g, prefix, e)) == ReadEntry(g, u, e)
    ensures KnownLine(names, prefix, PrintEntry(g, prefix, e))
  {
    var name := g.info[e.sym].name;
    if PrintsUnset(e.sym, e.text) {
      ParseUnset(prefix, name);
      UnsetAsText(g, u, e);
    } else {
      ValueIsLine(e);
      ParseAssign(prefix, name, PrintedValue(e));
      ReadAssign(g, names, prefix, u, PrintEntry(g, prefix, e), name, PrintedValue(e), e);
    }
  }

  lemma ValueIsLine(e: Entry)
    requires Without(e.text, '\n') && (e.sym.typ != StringType && e.text != [] ==> e.text[|e.text| - 1] != '\r')
    ensures var value := PrintedValue(e);
      && Without(value, '\n') && (value == [] || value[|value| - 1] != '\r') && ValueOf(e.sym, value) == Some(e.text)
  {
    if e.sym.typ == StringType {
      QuotedValue(e.text);
    }
  }

  lemma ReadAssign(g: Graph, names: Names, prefix: string, u: Users, line: string, name: string, value: string,
                   e: Entry)
    requires ParseLine(prefix, line) == Assign(name, value)
    requires Find(names, name) == Some(e.sym) && ValueOf(e.sym, value) == Some(e.text)
    ensures ReadLine(g, names, prefix, u, line) == ReadEntry(g, u, e) && KnownLine(names, prefix, line)
  {
  }

  lemma UnsetAsText(g: Graph, u: Users, e: Entry)
    requires PrintsUnset(e.sym, e.text)
    ensures ReadEntry(g, u, Entry(e.sym, "n")) == ReadEntry(g, u, e)
  {
  }

  /** The end of a line. */
  predicate IsLine(line: string) {
    line != [] && line[|line| - 1] == '\n' && Without(line[..|line| - 1], '\n')
  }

  lemma EndsLine(s: string)
    requires Without(s, '\n')
    ensures IsLine(s + "\n")
  {
    assert (s + "\n")[..|s|] == s;
  }

  /** A printed entry is one line. */
  lemma PrintedIsLine(g: Graph, names: Names, prefix: string, e: Entry)
    requires FitsLine(g, names, prefix, e) && Without(prefix, '\n')
    ensures IsLine(PrintEntry(g, prefix, e))
  {
    var name := g.info[e.sym].name;
    if PrintsUnset(e.sym, e.text) {
      EndsLine("# " + prefix + name + " " + NOT_SET);
      assert UnsetLine(prefix, name) == "# " + prefix + name + " " + NOT_SET + "\n";
    } else {
      ValueIsLine(e);
      EndsLine(prefix + name + "=" + PrintedValue(e));
      assert AssignLine(prefix, name, PrintedValue(e)) == prefix + name + "=" + PrintedValue(e) + "\n";
    }
  }

  lemma SplitFirst(line: string, rest: string)
    requires IsLine(line)
    ensures SplitLines(line + rest) == [line] + SplitLines(rest)
  {
    var text, n := line + rest, |line| - 1;
    assert forall j :: 0 <= j < n ==> text[j] == line[..n][j];
    IndexIs(text, '\n', 0, n);
    assert text[..n + 1] == line && text[n + 1..] == rest;
  }

  function PrintedLines(g: Graph, prefix: string, entries: seq<Entry>): (lines: seq<string>)
    requires forall e :: e in entries ==> e.sym in g.info
    ensures |lines| == |entries|
    ensures forall k :: 0 <= k < |entries| ==> lines[k] == PrintEntry(g, prefix, entries[k])
  {
    seq(|entries|, k requires 0 <= k < |entries| => PrintEntry(g, prefix, entries[k]))
  }

  lemma {:induction false} SplitPrinted(g: Graph, names: Names, prefix: string, entries: seq<Entry>)
    requires AllFit(g, names, prefix, entries) && Without(prefix, '\n')
    ensures SplitLines(PrintEntries(g, prefix, entries)) == PrintedLines(g, prefix, entries)
  {
    if entries != [] {
      var e := entries[0];
      assert e in entries;
      PrintedIsLine(g, names, prefix, e);
      SplitFirst(PrintEntry(g, prefix, e), PrintEntries(g, prefix, entries[1..]));
      SplitPrinted(g, names, prefix, entries[1..]);
      PrintedFirst(g, prefix, entries);
    }
  }

  lemma PrintedFirst(g: Graph, prefix: string, entries: seq<Entry>)
    requires entries != [] && forall e :: e in entries ==> e.sym in g.info
    ensures entries[0].sym in g.info
    ensures PrintedLines(g, prefix, entries) ==
      [PrintEntry(g, prefix, entries[0])] + PrintedLines(g, prefix, entries[1..])
  {
    assert entries[0] in entries;
  }

  lemma ReadOneMore(g: Graph, names: Names, prefix: string, lines: seq<string>, line: string)
    ensures ReadLines(g, names, prefix, lines + [line])
      == ReadLine(g, names, prefix, ReadLines(g, names, prefix, lines), line)
  {
    assert (lines + [line])[..|lines|] == lines;
  }

  lemma {:induction false} ReadPrinted(g: Graph, names: Names, prefix: string, entries: seq<Entry>)
    requires AllFit(g, names, prefix, entries)
    ensures ReadLines(g, names, prefix, PrintedLines(g, prefix, entries)) == ReadEntries(g, entries)
  {
    if entries == [] {
      assert PrintedLines(g, prefix, entries) == [];
    } else {
      var front, e := entries[..|entries| - 1], entries[|entries| - 1];
      PrintedOneMore(g, names, prefix, entries);
      ReadPrinted(g, names, prefix, front);
      var lines := PrintedLines(g, prefix, front);
      ReadOneMore(g, names, prefix, lines, PrintEntry(g, prefix, e));
      PrintedLine(g, names, prefix, ReadLines(g, names, prefix, lines), e);
    }
  }

  lemma PrintedOneMore(g: Graph, names: Names, prefix: string, entries: seq<Entry>)
    requires AllFit(g, names, prefix, entries) && entries != []
    ensures var front, e := entries[..|entries| - 1], entries[|entries| - 1];
      && AllFit(g, names, prefix, front) && e.sym in g.info && FitsLine(g, names, prefix, e)
      && PrintedLines(g, prefix, entries) == PrintedLines(g, prefix, front) + [PrintEntry(g, prefix, e)]
  {
    assert entries[|entries| - 1] in entries;
    PrintedLast(g, prefix, entries);
  }

  lemma PrintedLast(g: Graph, prefix: string, entries: seq<Entry>)
    requires entries != [] && forall e :: e in entries ==> e.sym in g.info
    ensures var front, e := entries[..|entries| - 1], entries[|entries| - 1];
      e.sym in g.info && PrintedLines(g, prefix, entries) == PrintedLines(g, prefix, front) + [PrintEntry(g, prefix, e)]
  {
    var front, e := entries[..|entries| - 1], entries[|entries| - 1];
    assert e in entries;
    forall k | 0 <= k < |entries|
      ensures PrintedLines(g, prefix, entries)[k] == (PrintedLines(g, prefix, front) + [PrintEntry(g, prefix, e)])[k]
    {
      assert k < |front| ==> front[k] == entries[k];
    }
  }

  /** Reading printed text has the effect of the entries. */
  lemma TextRoundTrip(g: Graph, names: Names, prefix: string, entries: seq<Entry>)
    requires AllFit(g, names, prefix, entries) && Without(prefix, '\n')
    ensures ReadText(g, names, prefix, PrintEntries(g, prefix, entries)) == ReadEntries(g, entries)
  {
    SplitPrinted(g, names, prefix, entries);
    ReadPrinted(g, names, prefix, entries);
  }

  lemma PrintedKnown(g: Graph, names: Names, prefix: string, entries: seq<Entry>)
    requires AllFit(g, names, prefix, entries) && Without(prefix, '\n')
    ensures AllKnown(names, prefix, SplitLines(PrintEntries(g, prefix, entries)))
  {
    SplitPrinted(g, names, prefix, entries);
    forall k | 0 <= k < |entries|
      ensures KnownLine(names, prefix, PrintedLines(g, prefix, entries)[k])
    {
      assert entries[k] in entries;
      PrintedLine(g, names, prefix, map[], entries[k]);
    }
  }

  /** What the user's value of a symbol is after a list of entries for different symbols has been
      read: the value on its line, or the initial one. */
  predicate Restored(g: Graph, entries: seq<Entry>, u: Users, s: Symbol)
    requires s in g.info
  {
    && s in u
    && (forall e :: e in entries && e.sym == s ==> Some(u[s]) == Assigned(s, ResetUser(g.info[s]), e.text))
    && ((forall e :: e in entries ==> e.sym != s) ==> u[s] == ResetUser(g.info[s]))
  }

  predicate DistinctSymbols(entries: seq<Entry>) {
    forall j, k :: 0 <= j < k < |entries| ==> entries[j].sym != entries[k].sym
  }

  /** Entries of symbols with a line of their own, whose values are accepted. */
  predicate Accepted(g: Graph, e: Entry) {
    && e.sym in g.info && !g.info[e.sym].kind.Choice?
    && Assigned(e.sym, ResetUser(g.info[e.sym]), e.text).Some?
  }

  lemma {:induction false} MapRestored(g: Graph, entries: seq<Entry>, s: Symbol)
    requires DistinctSymbols(entries) && (forall e :: e in entries ==> Accepted(g, e))
    requires s in g.info && !g.info[s].kind.Choice?
    requires forall x :: x in g.info && g.info[x].kind.Member? && g.info[x].kind.choice in g.info ==>
      g.info[g.info[x].kind.choice].kind.Choice?
    ensures Restored(g, entries, ReadEntries(g, entries), s)
  {
    if entries != [] {
      var front, e := entries[..|entries| - 1], entries[|entries| - 1];
      assert e in entries && Accepted(g, e);
      assert forall x :: x in front ==> x.sym != e.sym;
      MapRestored(g, front, s);
      MapRestored(g, front, e.sym);
      var u := ReadEntries(g, front);
      assert u[e.sym] == ResetUser(g.info[e.sym]);
      OneEntry(g, u, e, s);
      assert forall x :: x in entries ==> x in front || x == e;
    }
  }

  lemma OneEntry(g: Graph, u: Users, e: Entry, s: Symbol)
    requires Accepted(g, e) && e.sym in u && u[e.sym] == ResetUser(g.info[e.sym])
    requires s in g.info && s in u && !g.info[s].kind.Choice?
    requires g.info[e.sym].kind.Member? && g.info[e.sym].kind.choice in g.info ==>
      g.info[g.info[e.sym].kind.choice].kind.Choice?
    ensures s in ReadEntry(g, u, e)
    ensures ReadEntry(g, u, e)[s] ==
      if s == e.sym then Assigned(s, ResetUser(g.info[s]), e.text).value else u[s]
  {
  }

  /** Printing a list of symbols with their values and reading it restores all of them. */
  lemma ListRoundTrip(g: Graph, names: Names, prefix: string, entries: seq<Entry>, s: Symbol)
    requires WellFounded(g) && AllFit(g, names, prefix, entries) && Without(prefix, '\n')
    requires DistinctSymbols(entries) && (forall e :: e in entries ==> Accepted(g, e))
    requires s in g.info && !g.info[s].kind.Choice?
    ensures Restored(g, entries, ReadText(g, names, prefix, PrintEntries(g, prefix, entries)), s)
  {
    TextRoundTrip(g, names, prefix, entries);
    forall x | x in g.info && g.info[x].kind.Member? && g.info[x].kind.choice in g.info
      ensures g.info[g.info[x].kind.choice].kind.Choice?
    {
      assert GoodSymbol(g, x);
    }
    MapRestored(g, entries, s);
  }

  // ----- savedefconfig as text -----

  /** Every value that is written fits on its line. */
  ghost predicate Writable(w: World, writer: Writer, names: Names, prefix: string)
    requires GoodWorld(w)
  {
    && Without(prefix, '\n')
    && forall s :: s in w.g.info && HasLine(w, writer, s) ==> FitsLine(w.g, names, prefix, Entry(s, TextOf(w, s)))
  }

  lemma {:induction false} EntriesAreKept(w: World, writer: Writer, nodes: seq<Symbol>, e: Entry)
    requires forall s :: s in nodes ==> s in w.g.info && s in w.plain
    requires e in SavedEntries(w, writer, nodes)
    ensures e.sym in w.g.info && e.sym in w.plain && HasLine(w, writer, e.sym) && e.text == TextOf(w, e.sym)
  {
    if nodes != [] {
      var before := nodes[..|nodes| - 1];
      if e in SavedEntries(w, writer, before) {
        EntriesAreKept(w, writer, before, e);
      }
    }
  }

  lemma KeptFit(w: World, writer: Writer, nodes: seq<Symbol>, names: Names, prefix: string)
    requires OrdinaryConfig(w, nodes) && Writable(w, writer, names, prefix)
    ensures AllFit(w.g, names, prefix, SavedEntries(w, writer, nodes))
  {
    forall e | e in SavedEntries(w, writer, nodes)
      ensures e.sym in w.g.info && FitsLine(w.g, names, prefix, e)
    {
      EntriesAreKept(w, writer, nodes, e);
      assert e == Entry(e.sym, TextOf(w, e.sym));
    }
  }

  /** The text that a writer writes. */
  ghost function FileText(w: World, writer: Writer, nodes: seq<Symbol>, names: Names, prefix: string): string
    requires OrdinaryConfig(w, nodes) && Writable(w, writer, names, prefix)
  {
    KeptFit(w, writer, nodes, names, prefix);
    PrintEntries(w.g, prefix, SavedEntries(w, writer, nodes))
  }

  /** The round trip through the text of the file. */
  lemma SavedTextRoundTrip(w: World, writer: Writer, nodes: seq<Symbol>, names: Names, prefix: string)
    requires OrdinaryConfig(w, nodes) && Writable(w, writer, names, prefix)
    ensures Setting(w.g, ReadText(w.g, names, prefix, FileText(w, writer, nodes, names, prefix)))
    ensures WorldOf(w.g, ReadText(w.g, names, prefix, FileText(w, writer, nodes, names, prefix))).plain == w.plain
      <==> !SomeLost(w, writer)
  {
    KeptFit(w, writer, nodes, names, prefix);
    TextRoundTrip(w.g, names, prefix, SavedEntries(w, writer, nodes));
    SavedConfigRoundTrip(w, writer, nodes);
  }
}
