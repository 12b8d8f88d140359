/** conf_read_simple as it runs: it resets the user's values, walks over the lines of the file, and
    stores each value in its symbol; and the writer of the lines. */
module ConfigReader {
  import opened Tristates
  import opened Expressions
  import opened SymbolGraph
  import opened EvaluatorState
  import opened CachedEvaluator
  import opened Sessions
  import opened Quoting
  import opened SavedConfig
  import opened ConfigText

  /** The symbols hold these user values. */
  predicate Holds(st: State, u: Users) {
    st.Keys == u.Keys && forall s :: s in st ==> st[s].user == u[s]
  }

  function ResetCell(g: Graph, s: Symbol, c: Cell): Cell
    requires s in g.info
  {
    c.(valid := c.valid && IsTristateConstant(s), user := ResetUser(g.info[s]))
  }

  /** The loop over all symbols at the start. The constants y, m and n are not in the symbol table
      and stay valid; they have no user's value. */
  method ResetUsers(t: SymbolTable)
    requires t.state.Keys == t.graph.info.Keys
    modifies t`state
    ensures SameButUser(Cleared(old(t.state)), t.state)
    ensures Holds(t.state, ReadEntries(t.graph, []))
  {
    ghost var was := t.state;
    var todo := t.state.Keys;
    while todo != {}
      invariant t.state.Keys == was.Keys && todo <= was.Keys
      invariant forall s :: s in was ==> t.state[s] == if s in todo then was[s] else ResetCell(t.graph, s, was[s])
      decreases todo
    {
      var s :| s in todo;
      todo := todo - {s};
      t.state := t.state[s := ResetCell(t.graph, s, t.state[s])];
    }
    forall s | s in was
      ensures t.state[s] == Cleared(was)[s].(user := t.state[s].user)
    {
    }
  }

  /** strchr */
  method FindChar(s: string, c: char, i: nat) returns (k: nat)
    requires i <= |s|
    ensures k == IndexOf(s, c, i)
  {
    k := i;
    while k < |s| && s[k] != c
      invariant i <= k <= |s| && IndexOf(s, c, i) == IndexOf(s, c, k)
    {
      k := k + 1;
    }
  }

  /** The part of conf_set_sym_val for strings: the escapes are removed in the line buffer. */
  method UnquoteValue(value: string) returns (text: Option<string>)
    requires IsText(value)
    ensures text == if value == [] || value[0] != '"' then None else Unescape(value[1..])
  {
    if value == [] || value[0] != '"' {
      return None;
    }
    var buffer := new char[|value| + 1](k => if 0 <= k < |value| then value[k] else '\0');
    assert buffer[1..|value|] == value[1..];
    var found, stop := UnescapeInPlace(buffer, 1, |value|);
    if !found {
      return None;
    }
    var k := 1;
    while buffer[k] != '\0'
      invariant 1 <= k <= stop && StringAt(buffer, k, stop)
      decreases stop - k
    {
      k := k + 1;
    }
    text := Some(buffer[1..k]);
  }

  /** conf_set_sym_val, and what follows it for the member of a choice. */
  method StoreValue(t: SymbolTable, s: Symbol, value: string, ghost u: Users)
    requires t.state.Keys == t.graph.info.Keys && IsText(value) && Holds(t.state, u)
    modifies t`state
    ensures SameButUser(old(t.state), t.state)
    ensures Holds(t.state,
                  if ValueOf(s, value).Some? then ReadEntry(t.graph, u, Entry(s, ValueOf(s, value).value)) else u)
  {
    var text := Some(value);
    if s.typ == StringType {
      text := UnquoteValue(value);
    }
    if text.Some? {
      StoreText(t, s, text.value, u);
    }
  }

  /** The assignments of conf_set_sym_val, and the code behind the label setsym. */
  method StoreText(t: SymbolTable, s: Symbol, text: string, ghost u: Users)
    requires t.state.Keys == t.graph.info.Keys && Holds(t.state, u)
    modifies t`state
    ensures SameButUser(old(t.state), t.state)
    ensures Holds(t.state, ReadEntry(t.graph, u, Entry(s, text)))
  {
    if s !in t.state {
      return;
    }
    var stored := Assigned(s, t.state[s].user, text);
    if stored.None? {
      return;
    }
    ghost var was := t.state;
    t.state := t.state[s := t.state[s].(user := stored.value)];
    HoldsUpdate(was, was, u, s, stored.value);
    if t.graph.info[s].kind.Member? && t.graph.info[s].kind.choice in t.state {
      var c := t.graph.info[s].kind.choice;
      var choice := ChoiceAfter(t.state[c].user, s, t.state[s].user.tri);
      HoldsUpdate(was, t.state, u[s := stored.value], c, choice);
      t.state := t.state[c := t.state[c].(user := choice)];
    }
  }

  /** The code behind the label setsym. */
  method ChoiceAfter(choice: UserValue, m: Symbol, tri: Tristate) returns (r: UserValue)
    ensures r == ReadForChoice(choice, m, tri)
  {
    r := choice;
    match tri {
      case No =>
      case Mod =>
        if choice.tri == Yes {
          r := r.(given := false);
        }
      case Yes =>
        r := r.(pick := Some(m));
    }
    r := r.(tri := Max(choice.tri, tri));
  }

  lemma HoldsUpdate(was: State, st: State, u: Users, s: Symbol, v: UserValue)
    requires Holds(st, u) && SameButUser(was, st) && s in st
    ensures Holds(st[s := st[s].(user := v)], u[s := v]) && SameButUser(was, st[s := st[s].(user := v)])
  {
  }

  /** One round of the loop over the lines. A symbol that does not exist marks the configuration as
      changed. */
  method ProcessLine(t: SymbolTable, names: Names, prefix: string, line: string, ghost u: Users)
    requires t.state.Keys == t.graph.info.Keys && IsText(line) && Holds(t.state, u)
    modifies t`state, t`changed
    ensures SameButUser(old(t.state), t.state)
    ensures Holds(t.state, ReadLine(t.graph, names, prefix, u, line))
    ensures t.changed == (old(t.changed) || !KnownLine(names, prefix, line))
  {
    var parsed := SplitLine(prefix, line);
    match parsed
    case Ignored =>
    case NotSet(name) =>
      var s := Find(names, name);
      if !Exists(names, name) {
        t.changed := true;
      } else if s.Some? && IsTristate(s.value) {
        StoreText(t, s.value, "n", u);
      }
    case Assign(name, value) =>
      var s := Find(names, name);
      if !Exists(names, name) {
        t.changed := true;
      } else if s.Some? {
        StoreValue(t, s.value, value, u);
      }
  }

  /** The tests and searches on a line. */
  method SplitLine(prefix: string, line: string) returns (r: Line)
    requires IsText(line)
    ensures r == ParseLine(prefix, line) && (r.Assign? ==> IsText(r.value))
  {
    if line != [] && line[0] == '#' {
      r := SplitComment(prefix, line);
      return;
    }
    if !(prefix <= line) {
      return Ignored;
    }
    var p := FindChar(line, '=', |prefix|);
    if p == |line| {
      return Ignored;
    }
    var value := DropEnd(line[p + 1..]);
    r := Assign(line[|prefix|..p], value);
  }

  method SplitComment(prefix: string, line: string) returns (r: Line)
    requires line != [] && line[0] == '#'
    ensures r == ParseLine(prefix, line) && !r.Assign?
  {
    if |line| < 2 || !(prefix <= line[2..]) {
      return Ignored;
    }
    var p := FindChar(line, ' ', 2 + |prefix|);
    if p == |line| || !(NOT_SET <= line[p + 1..]) {
      return Ignored;
    }
    return NotSet(line[2 + |prefix|..p]);
  }

  /** The end of a line is cut off. */
  method DropEnd(s: string) returns (value: string)
    ensures value == CutEnd(s) && value <= s
  {
    var n := FindChar(s, '\n', 0);
    value := s[..n];
    if n < |s| && n > 0 && s[n - 1] == '\r' {
      value := s[..n - 1];
    }
  }

  /** The text up to `pos` consists of `lines`, and they have been read. */
  predicate ReadUpTo(g: Graph, st: State, names: Names, prefix: string, text: string, pos: nat, lines: seq<string>) {
    && pos <= |text| && lines + SplitLines(text[pos..]) == SplitLines(text)
    && Holds(st, ReadLines(g, names, prefix, lines))
  }

  lemma OneMoreLine(lines: seq<string>, line: string, rest: seq<string>, more: seq<string>)
    requires rest == [line] + more
    ensures lines + [line] + more == lines + rest
  {
  }

  /** One round of the loop over the file. */
  method ReadNextLine(t: SymbolTable, names: Names, prefix: string, text: string, pos: nat, ghost lines: seq<string>)
    returns (end: nat, line: string)
    requires t.state.Keys == t.graph.info.Keys && IsText(text) && pos < |text|
    requires ReadUpTo(t.graph, t.state, names, prefix, text, pos, lines)
    modifies t`state, t`changed
    ensures SameButUser(old(t.state), t.state) && pos < end
    ensures ReadUpTo(t.graph, t.state, names, prefix, text, end, lines + [line])
    ensures t.changed == (old(t.changed) || !KnownLine(names, prefix, line))
  {
    end := LineEnd(text, pos);
    line := text[pos..end];
    ProcessLine(t, names, prefix, line, ReadLines(t.graph, names, prefix, lines));
    ReadOneMore(t.graph, names, prefix, lines, line);
    OneMoreLine(lines, line, SplitLines(text[pos..]), SplitLines(text[end..]));
  }

  /** The loop of conf_read_simple over the lines of the file. */
  method ProcessLines(t: SymbolTable, names: Names, prefix: string, text: string)
    requires t.state.Keys == t.graph.info.Keys && IsText(text)
    requires Holds(t.state, ReadEntries(t.graph, []))
    modifies t`state, t`changed
    ensures SameButUser(old(t.state), t.state)
    ensures Holds(t.state, ReadText(t.graph, names, prefix, text))
    ensures t.changed == (old(t.changed) || !AllKnown(names, prefix, SplitLines(text)))
  {
    var pos := 0;
    ghost var lines, was := [], t.state;
    while pos < |text|
      invariant SameButUser(was, t.state) && ReadUpTo(t.graph, t.state, names, prefix, text, pos, lines)
      invariant t.changed == (old(t.changed) || !AllKnown(names, prefix, lines))
    {
      var line;
      ghost var before := lines;
      pos, line := ReadNextLine(t, names, prefix, text, pos, before);
      KnownOneMore(names, prefix, before, line);
      lines := before + [line];
    }
    assert lines == SplitLines(text);
  }

  /** The end of the line that begins at `pos`. */
  method LineEnd(text: string, pos: nat) returns (end: nat)
    requires pos < |text|
    ensures pos < end <= |text| && SplitLines(text[pos..]) == [text[pos..end]] + SplitLines(text[end..])
  {
    var n := FindChar(text, '\n', pos);
    IndexShift(text, '\n', pos, 0);
    end := if n < |text| then n + 1 else n;
    FirstLine(text[pos..], text[pos..end], text[end..]);
  }

  lemma FirstLine(rest: string, line: string, others: string)
    requires rest != [] && rest == line + others
    requires |line| == if IndexOf(rest, '\n', 0) < |rest| then IndexOf(rest, '\n', 0) + 1 else |rest|
    ensures SplitLines(rest) == [line] + SplitLines(others)
  {
    assert rest[..|line|] == line && rest[|line|..] == others;
  }

  lemma {:induction false} IndexShift(s: string, c: char, pos: nat, i: nat)
    requires pos + i <= |s|
    ensures IndexOf(s[pos..], c, i) == IndexOf(s, c, pos + i) - pos
    decreases |s| - i
  {
    if pos + i < |s| && s[pos + i] != c {
      IndexShift(s, c, pos, i + 1);
    }
  }

  /** conf_read_simple for the user's configuration, on any file: afterwards the cache is empty, and
      the user's values are those of the file. The configuration counts as changed if the file names
      symbols that do not exist. */
  method ReadConfig(t: SymbolTable, names: Names, prefix: string, text: string)
    requires t.Valid({}) && IsText(text)
    modifies t
    ensures t.Valid({}) && NoneValid(t.state)
    ensures t.world.g == t.graph && t.world.u == ReadText(t.graph, names, prefix, text)
    ensures t.changed == (old(t.changed) || !AllKnown(names, prefix, SplitLines(text)))
  {
    ghost var w, was := t.world, t.state;
    assert Consistent(w, was, {});
    ResetAndProcess(t, names, prefix, text, was);
    ghost var st := t.state;
    assert t.world == w;
    ghost var w' := WorldOfText(w, was, st, names, prefix, text);
    t.world := w';
  }

  lemma WorldOfText(w: World, was: State, st: State, names: Names, prefix: string, text: string) returns (w': World)
    requires Consistent(w, was, {})
    requires SameButUser(Cleared(was), st) && Holds(st, ReadText(w.g, names, prefix, text))
    ensures Consistent(w', st, {}) && NoneValid(st) && w'.g == w.g && w'.u == ReadText(w.g, names, prefix, text)
  {
    ReadTextSetting(w.g, names, prefix, text);
    w' := WorldOf(w.g, ReadText(w.g, names, prefix, text));
    ReadIsConsistent(w, w', was, st);
  }

  method ResetAndProcess(t: SymbolTable, names: Names, prefix: string, text: string, ghost was: State)
    requires t.state.Keys == t.graph.info.Keys && IsText(text) && was == t.state
    modifies t`state, t`changed
    ensures SameButUser(Cleared(was), t.state)
    ensures Holds(t.state, ReadText(t.graph, names, prefix, text))
    ensures t.changed == (old(t.changed) || !AllKnown(names, prefix, SplitLines(text)))
  {
    ResetUsers(t);
    ProcessLines(t, names, prefix, text);
  }

  lemma ReadIsConsistent(w: World, w': World, was: State, st: State)
    requires Consistent(w, was, {}) && GoodWorld(w') && w'.g == w.g
    requires SameButUser(Cleared(was), st) && Holds(st, w'.u)
    ensures Consistent(w', st, {}) && NoneValid(st)
  {
    var b := WithUsers(was, w'.u);
    HoldsStores(w', b);
    ClearedConsistent(w, w', was, b);
    SameCleared(was, b, st, w'.u);
  }

  lemma HoldsStores(w: World, st: State)
    requires GoodWorld(w) && st.Keys == w.g.info.Keys && Holds(st, w.u)
    ensures StoresUsers(w, st)
  {
  }

  lemma SameCleared(was: State, b: State, st: State, u: Users)
    requires SameButUser(was, b) && Holds(b, u) && SameButUser(Cleared(was), st) && Holds(st, u)
    ensures st == Cleared(b)
  {
    forall s | s in st
      ensures st[s] == Cleared(b)[s]
    {
    }
  }

  function WithUsers(st: State, u: Users): (r: State)
    requires st.Keys == u.Keys
    ensures Holds(r, u) && SameButUser(st, r)
  {
    map s | s in st :: st[s].(user := u[s])
  }

  // ----- savedefconfig and defconfig, one after the other -----

  /** conf_write_symbol */
  method WriteSymbol(g: Graph, prefix: string, e: Entry) returns (line: string)
    requires e.sym in g.info && IsText(e.text)
    ensures line == PrintEntry(g, prefix, e)
  {
    var name := g.info[e.sym].name;
    if Untyped(e.sym) {
      return "";
    }
    var value := e.text;
    if e.sym.typ == StringType {
      var buffer := EscapeStringValue(value);
      value := buffer[..buffer.Length - 1];
    }
    line := if PrintsUnset(e.sym, value) then UnsetLine(prefix, name) else AssignLine(prefix, name, value);
  }

  /** The file that the lines make up. */
  method WriteLines(g: Graph, prefix: string, entries: seq<Entry>) returns (text: string)
    requires forall e :: e in entries ==> e.sym in g.info && IsText(e.text)
    ensures text == PrintEntries(g, prefix, entries)
  {
    text := "";
    for k := 0 to |entries|
      invariant text + PrintEntries(g, prefix, entries[k..]) == PrintEntries(g, prefix, entries)
    {
      assert entries[k] in entries;
      PrintNext(g, prefix, entries, k);
      var line := WriteSymbol(g, prefix, entries[k]);
      Regroup(text, line, PrintEntries(g, prefix, entries[k + 1..]));
      text := text + line;
    }
  }

  lemma Regroup<T>(a: seq<T>, b: seq<T>, c: seq<T>)
    ensures a + (b + c) == a + b + c
  {
  }

  lemma PrintNext(g: Graph, prefix: string, entries: seq<Entry>, k: nat)
    requires k < |entries| && forall e :: e in entries ==> e.sym in g.info
    ensures entries[k].sym in g.info
    ensures PrintEntries(g, prefix, entries[k..]) ==
      PrintEntry(g, prefix, entries[k]) + PrintEntries(g, prefix, entries[k + 1..])
  {
    assert entries[k] in entries && entries[k..][1..] == entries[k + 1..];
  }

  lemma {:induction false} PrintedIsText(g: Graph, names: Names, prefix: string, entries: seq<Entry>)
    requires AllFit(g, names, prefix, entries) && IsText(prefix)
    ensures IsText(PrintEntries(g, prefix, entries))
  {
    if entries != [] {
      var e := entries[0];
      assert e in entries;
      EntryIsText(g, names, prefix, e);
      PrintedIsText(g, names, prefix, entries[1..]);
      JoinedText(PrintEntry(g, prefix, e), PrintEntries(g, prefix, entries[1..]));
    }
  }

  lemma JoinedText(a: string, b: string)
    ensures IsText(a + b) <==> IsText(a) && IsText(b)
  {
    assert forall k :: 0 <= k < |a| ==> (a + b)[k] == a[k];
    assert forall k :: 0 <= k < |b| ==> (a + b)[|a| + k] == b[k];
  }

  lemma EntryIsText(g: Graph, names: Names, prefix: string, e: Entry)
    requires e.sym in g.info && FitsLine(g, names, prefix, e) && IsText(prefix)
    ensures IsText(PrintEntry(g, prefix, e))
  {
    if PrintsUnset(e.sym, e.text) {
    } else {
      if e.sym.typ == StringType {
        EscapeWithout(e.text, '\0');
      }
      assert IsText(PrintedValue(e));
    }
  }
}
