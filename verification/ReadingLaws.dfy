/** What conf_read_simple takes from a line, stated on the characters of the line. */
module ReadingLaws {
  import opened Tristates
  import opened Expressions
  import opened SymbolGraph
  import opened EvaluatorState
  import opened Quoting
  import opened SavedConfig
  import opened ConfigText

  // ----- lines -----

  /** The text up to and including the first separator. */
  lemma FieldExact(s: string, i: nat, c: char, field: string)
    requires i <= |s| && Without(field, c)
    ensures IndexOf(s, c, i) < |s| && s[i..IndexOf(s, c, i)] == field <==> field + [c] <= s[i..]
  {
    var n := IndexOf(s, c, i);
    if field + [c] <= s[i..] {
      var k := i + |field|;
      assert s[i..][..|field| + 1] == field + [c];
      assert s[k] == s[i..][|field|] == c;
      forall j | i <= j < k
        ensures s[j] != c
      {
        assert s[j] == s[i..][j - i] == field[j - i];
      }
      IndexIs(s, c, i, k);
      assert s[i..k] == field;
    }
  }

  lemma FieldIsWithout(s: string, i: nat, c: char)
    requires i <= |s|
    ensures Without(s[i..IndexOf(s, c, i)], c)
  {
  }

  /** The comment says that the symbol is not set: behind two characters stand the prefix, the name, a space and
      "is not set". What follows does not matter. */
  predicate SaysUnset(prefix: string, line: string, name: string) {
    && |line| >= 2 && line[0] == '#' && Without(name, ' ')
    && prefix + name + " " + "is not set" <= line[2..]
  }

  /** The line is an assignment: it begins with the prefix, the name and an equals sign. */
  predicate SaysValue(prefix: string, line: string, name: string) {
    && (line == [] || line[0] != '#') && Without(name, '=')
    && prefix + name + "=" <= line
  }

  lemma StartsWith(s: string, a: string, b: string)
    ensures a + b <= s <==> a <= s && b <= s[|a|..]
  {
    if a <= s && b <= s[|a|..] {
      assert s == a + s[|a|..];
      assert s[|a|..] == b + s[|a|..][|b|..];
      assert s[..|a| + |b|] == a + b;
    }
  }

  /** A line that begins with '#' sets a symbol to n if and only if it says so; any other comment is
      skipped. */
  lemma CommentExact(prefix: string, line: string, name: string)
    requires line != [] && line[0] == '#'
    ensures ParseLine(prefix, line) == NotSet(name) <==> SaysUnset(prefix, line, name)
    ensures !ParseLine(prefix, line).Assign?
  {
    if |line| >= 2 && prefix <= line[2..] {
      NamedComment(prefix, line, name);
    }
  }

  lemma NamedComment(prefix: string, line: string, name: string)
    requires |line| >= 2 && line[0] == '#' && prefix <= line[2..]
    ensures ParseLine(prefix, line) == NotSet(name) <==> SaysUnset(prefix, line, name)
  {
    var i := 2 + |prefix|;
    var p := IndexOf(line, ' ', i);
    FieldIsWithout(line, i, ' ');
    assert ParseLine(prefix, line) ==
      if p < |line| && NOT_SET <= line[p + 1..] then NotSet(line[i..p]) else Ignored;
    if Without(name, ' ') {
      FieldExact(line, i, ' ', name);
      NameAndRest(prefix, line, name, i);
    }
  }

  lemma NameAndRest(prefix: string, line: string, name: string, i: nat)
    requires |line| >= 2 && prefix <= line[2..] && i == 2 + |prefix|
    ensures prefix + name + " " + "is not set" <= line[2..] <==>
      name + [' '] <= line[i..] && "is not set" <= line[i + |name| + 1..]
  {
    var rest := line[2..][|prefix|..];
    assert rest == line[i..];
    StartsWith(line[2..], prefix, name + [' '] + "is not set");
    assert prefix + (name + [' '] + "is not set") == prefix + name + " " + "is not set";
    StartsWith(rest, name + [' '], "is not set");
    if name + [' '] <= rest {
      assert rest[|name + [' ']|..] == line[i + |name| + 1..];
    }
  }

  /** Any other line assigns a value if and only if it begins with the prefix, a name and '='; the rest of
      the line is the value. */
  lemma AssignmentExact(prefix: string, line: string, name: string)
    requires line == [] || line[0] != '#'
    ensures (exists value :: ParseLine(prefix, line) == Assign(name, value)) <==> SaysValue(prefix, line, name)
    ensures SaysValue(prefix, line, name) ==>
      ParseLine(prefix, line) == Assign(name, CutEnd(line[|prefix| + |name| + 1..]))
    ensures !ParseLine(prefix, line).NotSet?
  {
    if prefix <= line {
      var i := |prefix|;
      var p := IndexOf(line, '=', i);
      FieldIsWithout(line, i, '=');
      if Without(name, '=') {
        FieldExact(line, i, '=', name);
        StartsWith(line, prefix, name + ['=']);
        assert prefix + (name + ['=']) == prefix + name + "=";
      }
    }
  }

  /** The value ends before the newline, and before a carriage return in front of it. */
  lemma CutEndExact(value: string, rest: string)
    requires Without(value, '\n')
    ensures CutEnd(value + "\n" + rest) ==
      if value != [] && value[|value| - 1] == '\r' then value[..|value| - 1] else value
    ensures CutEnd(value) == value
  {
    var s := value + "\n" + rest;
    IndexIs(s, '\n', 0, |value|);
    assert s[..|value|] == value;
    assert IndexOf(value, '\n', 0) == |value|;
  }

  /** A line that says nothing of any symbol changes nothing, and is no reason to save again. */
  lemma OtherLinesIgnored(g: Graph, names: Names, prefix: string, u: Users, line: string)
    requires forall name :: !SaysUnset(prefix, line, name) && !SaysValue(prefix, line, name)
    ensures ReadLine(g, names, prefix, u, line) == u && KnownLine(names, prefix, line)
  {
    match ParseLine(prefix, line)
    case Ignored =>
    case NotSet(name) => CommentExact(prefix, line, name);
    case Assign(name, _) => AssignmentExact(prefix, line, name);
  }

  /** A line marks the configuration as changed if and only if it names a symbol that does not exist; y, m
      and n always do. */
  lemma KnownExact(names: Names, prefix: string, line: string, name: string)
    requires SaysUnset(prefix, line, name) || SaysValue(prefix, line, name)
    ensures KnownLine(names, prefix, line) <==> name == "y" || name == "m" || name == "n" || name in names
  {
    if SaysUnset(prefix, line, name) {
      CommentExact(prefix, line, name);
    } else {
      AssignmentExact(prefix, line, name);
    }
  }

  /** What a line does to the symbol that it names: "is not set" stands for n, and only for bool and tristate
      symbols; the value of a string has to be quoted. */
  lemma LineEffect(g: Graph, names: Names, prefix: string, u: Users, line: string, name: string, s: Symbol)
    requires Find(names, name) == Some(s)
    ensures SaysUnset(prefix, line, name) ==>
      ReadLine(g, names, prefix, u, line) == if IsTristate(s) then ReadEntry(g, u, Entry(s, "n")) else u
    ensures SaysValue(prefix, line, name) ==>
      var value := CutEnd(line[|prefix| + |name| + 1..]);
      ReadLine(g, names, prefix, u, line) ==
        if s.typ != StringType then ReadEntry(g, u, Entry(s, value))
        else if value == [] || value[0] != '"' || Unescape(value[1..]).None? then u
        else ReadEntry(g, u, Entry(s, Unescape(value[1..]).value))
  {
    if SaysUnset(prefix, line, name) {
      CommentExact(prefix, line, name);
    } else if SaysValue(prefix, line, name) {
      AssignmentExact(prefix, line, name);
    }
  }

  /** In particular a comment without " is not set". */
  lemma CommentIgnored(g: Graph, names: Names, prefix: string, u: Users, line: string)
    requires line != [] && line[0] == '#'
    requires forall p :: 0 <= p < |line| ==> !(line[p] == ' ' && "is not set" <= line[p + 1..])
    ensures ReadLine(g, names, prefix, u, line) == u && KnownLine(names, prefix, line)
  {
    forall name
      ensures !SaysUnset(prefix, line, name)
    {
      if SaysUnset(prefix, line, name) {
        SpaceAndRest(line, prefix + name);
      }
    }
    OtherLinesIgnored(g, names, prefix, u, line);
  }

  lemma SpaceAndRest(line: string, front: string)
    requires |line| >= 2 && front + " " + "is not set" <= line[2..]
    ensures |front| + 2 < |line| && line[|front| + 2] == ' ' && "is not set" <= line[|front| + 3..]
  {
    StartsWith(line[2..], front + " ", "is not set");
    assert line[2..][|front + " "|..] == line[|front| + 3..];
    assert line[2..][..|front + " "|] == front + " ";
    assert line[2..][|front|] == line[|front| + 2];
  }

  /** And a line with neither '#' nor the prefix in front, or without '='. */
  lemma ForeignIgnored(g: Graph, names: Names, prefix: string, u: Users, line: string)
    requires line == [] || line[0] != '#'
    requires !(prefix <= line) || Without(line, '=')
    ensures ReadLine(g, names, prefix, u, line) == u && KnownLine(names, prefix, line)
  {
  }

  // ----- the lines of a file -----

  function Joined(lines: seq<string>): string {
    if lines == [] then "" else lines[0] + Joined(lines[1..])
  }

  /** A line ends with its only newline. */
  predicate OneLine(line: string) {
    line != [] && Without(line[..|line| - 1], '\n')
  }

  /** Lines that make up a text: each of them but the last one ends with a newline, and none has another. */
  predicate LinesOf(lines: seq<string>, text: string) {
    && Joined(lines) == text
    && (forall k :: 0 <= k < |lines| ==> OneLine(lines[k]))
    && (forall k :: 0 <= k < |lines| - 1 ==> lines[k][|lines[k]| - 1] == '\n')
  }

  lemma LineInFront(line: string, lines: seq<string>, rest: string)
    requires LinesOf(lines, rest) && OneLine(line) && line[|line| - 1] == '\n'
    ensures LinesOf([line] + lines, line + rest)
  {
    var all := [line] + lines;
    assert all[1..] == lines;
    forall k | 0 <= k < |all|
      ensures OneLine(all[k]) && (k < |all| - 1 ==> all[k][|all[k]| - 1] == '\n')
    {
      assert k > 0 ==> all[k] == lines[k - 1];
    }
  }

  lemma {:induction false} SplitLinesExact(text: string)
    ensures LinesOf(SplitLines(text), text)
    decreases |text|
  {
    if text != [] {
      var n := IndexOf(text, '\n', 0);
      if n < |text| {
        SplitLinesExact(text[n + 1..]);
        LineInFront(text[..n + 1], SplitLines(text[n + 1..]), text[n + 1..]);
        assert text == text[..n + 1] + text[n + 1..];
      } else {
        assert Joined([text]) == text + Joined([]);
      }
    }
  }

  // ----- values -----

  /** A bool or tristate symbol takes the first letter of the value: y or n, or m if it is tristate. */
  lemma LetterExact(s: Symbol, user: UserValue, text: string, t: Tristate)
    requires IsTristate(s)
    ensures Assigned(s, user, text) == Some(user.(given := true, tri := t)) <==>
      text != [] && text[0] == TristateName(t)[0] && (t == Mod ==> s.typ == TristateType)
    ensures Assigned(s, user, text).Some? ==>
      exists t :: Assigned(s, user, text) == Some(user.(given := true, tri := t))
  {
  }

  /** Before the first line all choices count as set, and nothing else; all values are n or empty. */
  lemma ResetExact(g: Graph, s: Symbol)
    requires s in g.info
    ensures s in ReadEntries(g, [])
    ensures var u := ReadEntries(g, [])[s];
      (u.given <==> g.info[s].kind.Choice?) && u.tri == No && u.val == "" && u.pick == None
  {
  }

  /** A member is read as y last. */
  ghost predicate LastYes(g: Graph, entries: seq<Entry>, c: Symbol, k: int) {
    && 0 <= k < |entries| && SaysYes(g, entries[k], c)
    && forall j :: k < j < |entries| ==> !SaysYes(g, entries[j], c)
  }

  /** The entry sets a member of the choice to y. */
  predicate SaysYes(g: Graph, e: Entry, c: Symbol) {
    e.sym in g.info && g.info[e.sym].kind == Member(c) && IsTristate(e.sym) && e.text != [] && e.text[0] == 'y'
  }

  /** Choices and their members are no two sides of one symbol. */
  predicate Sorted(g: Graph, c: Symbol) {
    c in g.info && g.info[c].kind.Choice? && forall m :: m in g.info && g.info[m].kind == Member(c) ==> m.typ == Boolean
  }

  lemma EntryPick(g: Graph, u: Users, e: Entry, c: Symbol)
    requires Sorted(g, c) && u.Keys == g.info.Keys && e.sym != c
    ensures c in ReadEntry(g, u, e) && ReadEntry(g, u, e).Keys == g.info.Keys
    ensures ReadEntry(g, u, e)[c].pick == if SaysYes(g, e, c) then Some(e.sym) else u[c].pick
  {
  }

  /** The pick of a choice that is read from a file is the last member that the file sets to y. */
  lemma {:induction false} LastYesPicks(g: Graph, entries: seq<Entry>, c: Symbol)
    requires Sorted(g, c) && forall e :: e in entries ==> e.sym != c
    ensures ReadEntries(g, entries).Keys == g.info.Keys
    ensures forall k :: LastYes(g, entries, c, k) ==> ReadEntries(g, entries)[c].pick == Some(entries[k].sym)
    ensures (forall e :: e in entries ==> !SaysYes(g, e, c)) ==> ReadEntries(g, entries)[c].pick == None
  {
    if entries != [] {
      var front, e := entries[..|entries| - 1], entries[|entries| - 1];
      assert e in entries && forall x :: x in front ==> x in entries;
      LastYesPicks(g, front, c);
      EntryPick(g, ReadEntries(g, front), e, c);
      forall k | LastYes(g, entries, c, k)
        ensures if k == |front| then SaysYes(g, e, c) else !SaysYes(g, e, c) && LastYes(g, front, c, k)
      {
        assert entries[|front|] == e && forall j :: 0 <= j < |front| ==> front[j] == entries[j];
      }
    }
  }

  /** The value of a member that an entry gives it. */
  function ReadsAs(g: Graph, e: Entry, c: Symbol): Tristate {
    if SaysYes(g, e, c) then Yes else No
  }

  lemma EntryChoice(g: Graph, u: Users, e: Entry, c: Symbol)
    requires Sorted(g, c) && u.Keys == g.info.Keys && e.sym != c
    ensures c in ReadEntry(g, u, e)
    ensures ReadEntry(g, u, e)[c].given == u[c].given && ReadEntry(g, u, e)[c].tri == Max(u[c].tri, ReadsAs(g, e, c))
  {
  }

  /** A choice that is read from a file counts as set, and is y if and only if one of its members is. */
  lemma {:induction false} ChoiceIsRead(g: Graph, entries: seq<Entry>, c: Symbol)
    requires Sorted(g, c) && forall e :: e in entries ==> e.sym != c
    ensures c in ReadEntries(g, entries)
    ensures var u := ReadEntries(g, entries)[c];
      u.given && u.tri == if exists e :: e in entries && SaysYes(g, e, c) then Yes else No
  {
    LastYesPicks(g, entries, c);
    if entries != [] {
      var front, e := entries[..|entries| - 1], entries[|entries| - 1];
      assert forall x :: x in entries <==> x in front || x == e;
      LastYesPicks(g, front, c);
      ChoiceIsRead(g, front, c);
      EntryChoice(g, ReadEntries(g, front), e, c);
    }
  }
}
