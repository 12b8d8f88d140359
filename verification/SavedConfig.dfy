/** What savedefconfig and conf_write keep of a configuration and what reading it back restores. An
    entry is a symbol with its value as text, before the text is escaped and put on a line. */
module SavedConfig {
  import opened Tristates
  import opened Expressions
  import opened ExprEquality
  import opened SymbolGraph
  import opened SymbolValues
  import opened EvaluatorState
  import opened UserChanges
  import opened Ranges

  datatype Entry = Entry(sym: Symbol, text: string)

  // ----- writing -----

  /** The last steps of sym_get_string_default for a bool or tristate symbol. */
  function AdjustDefault(g: Graph, s: Symbol, isMember: bool, selected: Tristate, implied: Tristate): Tristate {
    var adjusted := if selected == Mod && (s.typ == Boolean || (!isMember && g.modules == No)) then Yes else selected;
    Max(adjusted, implied)
  }

  /** sym_get_string_default */
  function DefaultText(g: Graph, s: Symbol, i: Info, env: Env): string {
    if IsTristate(s) then
      var rev := if i.kind.Member? then No else ReverseDependency(g, s, i, env);
      var implied := if i.kind.Member? then No else ImpliedValue(g, s, i, env);
      TristateName(AdjustDefault(g, s, i.kind.Member?, Max(DefaultTristate(i, env), rev), implied))
    else match DefaultSource(i, env)
      case None => ""
      case Some(x) => env.val(x)
  }

  function TextOf(w: World, s: Symbol): string
    requires s in w.plain
  {
    ValueText(s.typ, w.plain[s].tri, w.plain[s].val, w.g.modules)
  }

  /** A choice settles on this member by default, and the member is y. */
  ghost predicate DefaultMember(w: World, s: Symbol)
    requires s in w.g.info && s in w.plain
  {
    var k := w.g.info[s].kind;
    && k.Member? && k.choice in w.g.info && w.g.info[k.choice].kind.Choice?
    && ChoiceDefault(w.g, w.g.info[k.choice], ChoiceIsYes(k.choice, EnvOf(w))) == Some(s)
    && s.typ == Boolean && w.plain[s].tri == Yes
  }

  /** conf_write_defconfig writes a line for the symbol. */
  ghost predicate Saved(w: World, s: Symbol)
    requires s in w.g.info && s in w.plain
  {
    && !w.g.info[s].kind.Choice? && w.plain[s].write
    && Rank(w.plain[s].visible) > Rank(w.plain[s].revDep)
    && TextOf(w, s) != DefaultText(w.g, s, w.g.info[s], EnvOf(w))
    && !DefaultMember(w, s)
  }

  /** The two writers: conf_write_defconfig keeps what it has to, conf_write all that is to be
      written. */
  datatype Writer = Minimal | Full

  /** The writer has a line for the symbol. */
  ghost predicate HasLine(w: World, writer: Writer, s: Symbol)
    requires s in w.g.info && s in w.plain
  {
    if writer == Minimal then Saved(w, s) else !w.g.info[s].kind.Choice? && w.plain[s].write
  }

  /** The lines of a writer. `nodes` are the symbols of the menu nodes in the order of
      the walk; a symbol with several menu nodes is written at the first of them. */
  ghost function SavedEntries(w: World, writer: Writer, nodes: seq<Symbol>): seq<Entry>
    requires forall s :: s in nodes ==> s in w.g.info && s in w.plain
  {
    if nodes == [] then []
    else
      var before, s := nodes[..|nodes| - 1], nodes[|nodes| - 1];
      SavedEntries(w, writer, before) + (if s !in before && HasLine(w, writer, s) then [Entry(s, TextOf(w, s))] else [])
  }

  // ----- reading -----

  /** The user's value of every symbol when conf_read_simple starts. */
  function ResetUser(i: Info): UserValue {
    UserValue(i.kind.Choice?, No, "", None)
  }

  /** conf_set_sym_val on a text that is not quoted any more; None is a rejected value. */
  function Assigned(s: Symbol, user: UserValue, text: string): Option<UserValue> {
    match s.typ
    case Boolean | TristateType =>
      if text == [] then None
      else if text[0] == 'm' && s.typ == TristateType then Some(user.(given := true, tri := Mod))
      else if text[0] == 'y' then Some(user.(given := true, tri := Yes))
      else if text[0] == 'n' then Some(user.(given := true, tri := No))
      else None
    case Integer | Hex => if ValidNumber(s.typ, text) then Some(user.(given := true, val := text)) else None
    case StringType => Some(user.(given := true, val := text))
    case UnknownType | OtherType => Some(user)
  }

  /** What the value of a member does to the user's value of its choice. */
  function ReadForChoice(choice: UserValue, m: Symbol, tri: Tristate): UserValue {
    var c :=
      match tri
      case No => choice
      case Mod => if choice.tri == Yes then choice.(given := false) else choice
      case Yes => choice.(pick := Some(m));
    c.(tri := Max(choice.tri, tri))
  }

  /** One line of conf_read_simple. */
  function ReadEntry(g: Graph, u: Users, e: Entry): Users {
    if e.sym !in g.info || e.sym !in u then u
    else match Assigned(e.sym, u[e.sym], e.text)
      case None => u
      case Some(v) =>
        var stored := u[e.sym := v];
        var k := g.info[e.sym].kind;
        if k.Member? && k.choice in stored then
          stored[k.choice := ReadForChoice(stored[k.choice], e.sym, stored[e.sym].tri)]
        else stored
  }

  /** conf_read_simple for the user's configuration. */
  function ReadEntries(g: Graph, entries: seq<Entry>): Users {
    if entries == [] then map s | s in g.info :: ResetUser(g.info[s])
    else ReadEntry(g, ReadEntries(g, entries[..|entries| - 1]), entries[|entries| - 1])
  }

  /** Whatever a line says, what the user picks for a choice is one of its members. */
  lemma ReadEntryPicks(g: Graph, u: Users, e: Entry, s: Symbol)
    requires g.info.Keys == g.rank.Keys && u.Keys == g.info.Keys && s in g.info && PicksMember(g.info[s], u[s])
    requires e.sym in g.info && g.info[e.sym].kind.Member? ==> GoodMember(g, e.sym)
    ensures s in ReadEntry(g, u, e) && PicksMember(g.info[s], ReadEntry(g, u, e)[s])
  {
  }

  lemma ReadEntrySetting(g: Graph, u: Users, e: Entry)
    requires Setting(g, u)
    ensures Setting(g, ReadEntry(g, u, e))
  {
    forall s | s in g.info
      ensures s in ReadEntry(g, u, e) && PicksMember(g.info[s], ReadEntry(g, u, e)[s])
    {
      assert PicksMember(g.info[s], u[s]) && (e.sym in g.info ==> GoodSymbol(g, e.sym));
      ReadEntryPicks(g, u, e, s);
    }
    assert ReadEntry(g, u, e).Keys == u.Keys;
  }

  lemma ResetSetting(g: Graph)
    requires WellFounded(g)
    ensures Setting(g, ReadEntries(g, []))
  {
  }

  lemma {:induction false} ReadEntriesSetting(g: Graph, entries: seq<Entry>)
    requires WellFounded(g)
    ensures Setting(g, ReadEntries(g, entries))
  {
    if entries == [] {
      ResetSetting(g);
    } else {
      var front, last := entries[..|entries| - 1], entries[|entries| - 1];
      ReadEntriesSetting(g, front);
      ReadEntrySetting(g, ReadEntries(g, front), last);
    }
  }

  // ----- the round trip -----

  /** The numbers that the calculation leaves are valid, and their range keeps them. */
  ghost predicate RangesSettle(w: World, s: Symbol)
    requires s in w.g.info && s in w.plain
  {
    s.typ == Integer || s.typ == Hex ==>
      match ActiveRange(w.g.info[s].ranges, EnvOf(w))
      case None => true
      case Some(r) =>
        Printable(s.typ, BoundValue(r.low, RangeBase(s.typ), EnvOf(w)), BoundValue(r.high, RangeBase(s.typ), EnvOf(w)))
        && BoundValue(r.low, RangeBase(s.typ), EnvOf(w)) <= BoundValue(r.high, RangeBase(s.typ), EnvOf(w))
  }

  /** What the round trip takes for granted of one symbol. Every symbol with a prompt has a menu node,
      where choices, which get no line, do not count. Choices and their members are bool already;
      members have no defaults. Only bool and tristate symbols are selected. Ranges are in order, and
      the user's numbers are valid. */
  ghost predicate Ordinary(w: World, nodes: seq<Symbol>, s: Symbol)
    requires s in w.g.info && s in w.plain && s in w.u
  {
    var i := w.g.info[s];
    && (i.kind.Member? ==> i.defaults == [])
    && (i.prompts != [] && !i.kind.Choice? ==> s in nodes)
    && (i.auto && !i.kind.Choice? ==> !w.u[s].given)
    && (!IsTristate(s) ==> i.revDep == Null)
    && RangesSettle(w, s)
    && ((s.typ == Integer || s.typ == Hex) && w.u[s].given ==> ValidNumber(s.typ, w.u[s].val))
  }

  ghost predicate OrdinaryConfig(w: World, nodes: seq<Symbol>) {
    && GoodWorld(w)
    && (forall s :: s in nodes ==> s in w.g.info)
    && forall s {:trigger Ordinary(w, nodes, s)} :: s in w.g.info ==> Ordinary(w, nodes, s)
  }

  /** The one case in which leaving out a line loses a value: the symbol is visible and selected as
      m, so that its value m cannot be changed, but the user has set it and its default is y. */
  ghost predicate Overruled(w: World, s: Symbol)
    requires s in w.g.info && s in w.plain && s in w.u
  {
    var i := w.g.info[s];
    && s.typ == TristateType && i.kind.Plain? && w.u[s].given
    && w.plain[s].visible == Mod && w.plain[s].revDep == Mod && w.plain[s].implied != Yes
    && DefaultTristate(i, EnvOf(w)) == Yes
  }

  /** The one case in which conf_write loses a value: the symbol is visible as m only, but it is y by
      default; once the y is read as the user's value, the visibility limits it. */
  ghost predicate Demoted(w: World, s: Symbol)
    requires s in w.g.info && s in w.plain
  {
    && s.typ == TristateType && w.g.info[s].kind.Plain? && !w.g.info[s].auto
    && Exceeds(w.plain[s].visible, w.plain[s].tri, w.plain[s].revDep, w.plain[s].implied)
  }

  ghost predicate Lost(w: World, writer: Writer, s: Symbol)
    requires s in w.g.info && s in w.plain && s in w.u
  {
    if writer == Minimal then Overruled(w, s) else Demoted(w, s)
  }

  /** The value can be read back from its text. The default of a number may be any text. */
  predicate Legible(w: World, s: Symbol)
    requires s in w.plain
  {
    IsTristate(s) || s.typ == StringType || ValidNumber(s.typ, w.plain[s].val)
  }

  /** What is known of the user values that are read back. */
  ghost predicate ReadBackAt(w: World, writer: Writer, nodes: seq<Symbol>, u: Users, s: Symbol)
    requires s in w.g.info && s in w.plain
  {
    && s in u
    && match w.g.info[s].kind
       case Plain => !Untyped(s) ==> u[s] == SavedUser(w, writer, nodes, s)
       case Choice(_) => PickReadBack(w, writer, nodes, s, u[s].pick)
       case Member(_) => u[s].pick == None
  }

  ghost function SavedUser(w: World, writer: Writer, nodes: seq<Symbol>, s: Symbol): UserValue
    requires s in w.g.info && s in w.plain
  {
    if s in nodes && HasLine(w, writer, s) && Legible(w, s)
    then UserValue(true, w.plain[s].tri, if IsTristate(s) then "" else w.plain[s].val, None)
    else ResetUser(w.g.info[s])
  }

  ghost predicate PickReadBack(w: World, writer: Writer, nodes: seq<Symbol>, c: Symbol, pick: Option<Symbol>) {
    match pick
    case Some(m) => PickRead(w, writer, nodes, c, m)
    case None => forall m :: m in w.g.info && m in w.plain ==> !PickRead(w, writer, nodes, c, m)
  }

  /** `m` is a member of `c` that has been saved as y. */
  ghost predicate PickRead(w: World, writer: Writer, nodes: seq<Symbol>, c: Symbol, m: Symbol) {
    && m in w.g.info && m in w.plain && w.g.info[m].kind == Member(c)
    && m in nodes && HasLine(w, writer, m) && w.plain[m].tri == Yes
  }

  /** A value is accepted when it is read, if it can be. */
  lemma KeptIsAccepted(w: World, writer: Writer, s: Symbol, user: UserValue)
    requires GoodWorld(w) && s in w.g.info && HasLine(w, writer, s) && !Untyped(s)
    ensures Assigned(s, user, TextOf(w, s)) ==
      if !Legible(w, s) then None
      else Some(if IsTristate(s) then user.(given := true, tri := w.plain[s].tri)
                else user.(given := true, val := w.plain[s].val))
  {
    if IsTristate(s) {
      TristateIsAccepted(w, s, user);
    }
  }

  lemma TristateIsAccepted(w: World, s: Symbol, user: UserValue)
    requires GoodWorld(w) && s in w.g.info && IsTristate(s)
    ensures Assigned(s, user, TextOf(w, s)) == Some(user.(given := true, tri := w.plain[s].tri))
  {
    EnvOfTyped(w);
    assert EnvOf(w).tri(s) == w.plain[s].tri;
  }

  /** A number that was clamped is valid, and the range keeps it. */
  lemma RangeKeeps(w: World, nodes: seq<Symbol>, s: Symbol, raw: string)
    requires OrdinaryConfig(w, nodes) && s in w.g.info
    ensures var val := Validated(s, w.g.info[s], raw, EnvOf(w));
      && Validated(s, w.g.info[s], val, EnvOf(w)) == val
      && (val != raw ==> ValidNumber(s.typ, val))
  {
    assert Ordinary(w, nodes, s);
    var i, env := w.g.info[s], EnvOf(w);
    if s.typ == Integer || s.typ == Hex {
      match ActiveRange(i.ranges, env)
      case None =>
      case Some(r) =>
        var low, high := BoundValue(r.low, RangeBase(s.typ), env), BoundValue(r.high, RangeBase(s.typ), env);
        ClampIdempotent(s.typ, raw, low, high);
        ClampNearest(s.typ, raw, low, high);
    }
  }

  /** A number that cannot be read is a default, or the user has not set it. */
  lemma IllegibleIsDefault(w: World, nodes: seq<Symbol>, s: Symbol)
    requires OrdinaryConfig(w, nodes) && s in w.g.info && w.g.info[s].kind.Plain? && !Untyped(s) && !Legible(w, s)
    ensures w.plain[s].visible == No || !w.u[s].given
  {
    assert Ordinary(w, nodes, s);
    PlainEquation(w, s);
    RangeKeeps(w, nodes, s, RawString(w.g, s, w.g.info[s], w.u[s], EnvOf(w)));
  }

  lemma UnsavedRead(w: World, s: Symbol)
    requires GoodWorld(w) && s in w.g.info && Untyped(s)
    ensures !w.plain[s].write
  {
    if IsTristateConstant(s) {
      CalculateEquation(w, s);
    } else {
      UntypedEquation(w, s);
    }
  }

  /** Reading back the lines gives each symbol that has one its value, and resets the others. */
  lemma {:induction false} ReadBack(w: World, writer: Writer, nodes: seq<Symbol>, before: seq<Symbol>, s: Symbol)
    requires OrdinaryConfig(w, nodes) && (forall x :: x in before ==> x in nodes) && s in w.g.info
    ensures ReadBackAt(w, writer, before, ReadEntries(w.g, SavedEntries(w, writer, before)), s)
    decreases |before|
  {
    if before != [] {
      var front, last := before[..|before| - 1], before[|before| - 1];
      assert before == front + [last] && last in before;
      ReadBack(w, writer, nodes, front, s);
      ReadBack(w, writer, nodes, front, last);
      ReadBackNext(w, writer, nodes, front, last, s);
    }
  }

  lemma ReadBackNext(w: World, writer: Writer, nodes: seq<Symbol>, front: seq<Symbol>, last: Symbol, s: Symbol)
    requires OrdinaryConfig(w, nodes) && (forall x :: x in front ==> x in nodes) && last in nodes && s in w.g.info
    requires ReadBackAt(w, writer, front, ReadEntries(w.g, SavedEntries(w, writer, front)), s)
    requires ReadBackAt(w, writer, front, ReadEntries(w.g, SavedEntries(w, writer, front)), last)
    ensures ReadBackAt(w, writer, front + [last], ReadEntries(w.g, SavedEntries(w, writer, front + [last])), s)
  {
    var u := ReadEntries(w.g, SavedEntries(w, writer, front));
    ReadNext(w, writer, front, last);
    if last !in front && HasLine(w, writer, last) {
      ReadBackStep(w, writer, nodes, front, u, last, s);
    } else {
      NoLineStep(w, writer, front, u, last, s);
    }
  }

  /** What one more menu node adds to what is read. */
  lemma SavedNext(w: World, writer: Writer, front: seq<Symbol>, last: Symbol)
    requires forall x :: x in front + [last] ==> x in w.g.info && x in w.plain
    ensures forall x :: x in front ==> x in w.g.info && x in w.plain
    ensures last in w.g.info && last in w.plain
    ensures SavedEntries(w, writer, front + [last]) == SavedEntries(w, writer, front) +
      (if last !in front && HasLine(w, writer, last) then [Entry(last, TextOf(w, last))] else [])
  {
    assert last in front + [last] && forall x :: x in front ==> x in front + [last];
    assert (front + [last])[..|front|] == front;
  }

  lemma ReadLast(g: Graph, entries: seq<Entry>, e: Entry)
    ensures ReadEntries(g, entries + [e]) == ReadEntry(g, ReadEntries(g, entries), e)
  {
    assert (entries + [e])[..|entries|] == entries;
  }

  lemma ReadNext(w: World, writer: Writer, front: seq<Symbol>, last: Symbol)
    requires forall x :: x in front + [last] ==> x in w.g.info && x in w.plain
    ensures forall x :: x in front ==> x in w.g.info && x in w.plain
    ensures last in w.g.info && last in w.plain
    ensures var u := ReadEntries(w.g, SavedEntries(w, writer, front));
      ReadEntries(w.g, SavedEntries(w, writer, front + [last])) ==
        if last !in front && HasLine(w, writer, last) then ReadEntry(w.g, u, Entry(last, TextOf(w, last))) else u
  {
    SavedNext(w, writer, front, last);
    var entries := SavedEntries(w, writer, front);
    if last !in front && HasLine(w, writer, last) {
      ReadLast(w.g, entries, Entry(last, TextOf(w, last)));
    } else {
      assert entries + [] == entries;
    }
  }

  /** A menu node without a line changes nothing. */
  lemma NoLineStep(w: World, writer: Writer, front: seq<Symbol>, u: Users, last: Symbol, s: Symbol)
    requires s in w.g.info && s in w.plain && last in w.g.info && last in w.plain
    requires last in front || !HasLine(w, writer, last)
    requires ReadBackAt(w, writer, front, u, s)
    ensures ReadBackAt(w, writer, front + [last], u, s)
  {
    forall m
      ensures PickRead(w, writer, front + [last], s, m) <==> PickRead(w, writer, front, s, m)
    {
    }
  }

  lemma ReadBackStep(w: World, writer: Writer, nodes: seq<Symbol>, front: seq<Symbol>, u: Users, last: Symbol,
                     s: Symbol)
    requires OrdinaryConfig(w, nodes) && s in w.g.info && last in nodes
    requires last !in front && HasLine(w, writer, last)
    requires ReadBackAt(w, writer, front, u, s) && ReadBackAt(w, writer, front, u, last)
    ensures ReadBackAt(w, writer, front + [last], ReadEntry(w.g, u, Entry(last, TextOf(w, last))), s)
  {
    if Untyped(last) {
      UnsavedRead(w, last);
    }
    KeptIsAccepted(w, writer, last, u[last]);
    if w.g.info[last].kind.Member? {
      MemberEquation(w, last);
    }
    if Legible(w, last) {
      LegibleStep(w, writer, front, u, last, s);
    } else {
      IllegibleStep(w, writer, front, u, last, s);
    }
  }

  /** A line that is rejected has no effect. */
  lemma IllegibleStep(w: World, writer: Writer, front: seq<Symbol>, u: Users, last: Symbol, s: Symbol)
    requires GoodWorld(w) && s in w.g.info && last in w.g.info && last !in front && !Legible(w, last)
    requires ReadBackAt(w, writer, front, u, s)
    ensures ReadBackAt(w, writer, front + [last], u, s)
  {
    if w.g.info[last].kind.Member? {
      MemberEquation(w, last);
    }
    if w.g.info[s].kind.Choice? {
      OtherReadBack(w, writer, front, s, u[s].pick, last);
    }
  }

  lemma LegibleStep(w: World, writer: Writer, front: seq<Symbol>, u: Users, last: Symbol, s: Symbol)
    requires GoodWorld(w) && s in w.g.info && last in w.g.info && last !in front && HasLine(w, writer, last)
    requires !Untyped(last) && Legible(w, last)
    requires w.g.info[last].kind.Member? ==> GoodMember(w.g, last) && w.plain[last].tri != Mod
    requires last in u && Assigned(last, u[last], TextOf(w, last)) ==
      Some(if IsTristate(last) then u[last].(given := true, tri := w.plain[last].tri)
           else u[last].(given := true, val := w.plain[last].val))
    requires ReadBackAt(w, writer, front, u, s) && ReadBackAt(w, writer, front, u, last)
    ensures ReadBackAt(w, writer, front + [last], ReadEntry(w.g, u, Entry(last, TextOf(w, last))), s)
  {
    var tri := if IsTristate(last) then w.plain[last].tri else u[last].tri;
    var val := if IsTristate(last) then u[last].val else w.plain[last].val;
    EntryEffect(w.g, u, Entry(last, TextOf(w, last)), UserValue(true, tri, val, u[last].pick), s);
    match w.g.info[s].kind
    case Plain =>
      if s == last {
        SavedText(w, s);
      }
    case Member(_) =>
    case Choice(_) =>
      if w.g.info[last].kind == Member(s) {
        MemberReadBack(w, writer, front, s, u[s], last);
      } else {
        OtherReadBack(w, writer, front, s, u[s].pick, last);
      }
  }

  /** What one accepted line does to the user's value of a symbol. */
  lemma EntryEffect(g: Graph, u: Users, e: Entry, v: UserValue, s: Symbol)
    requires e.sym in g.info && e.sym in u && s in u && s in g.info && Assigned(e.sym, u[e.sym], e.text) == Some(v)
    requires !g.info[e.sym].kind.Choice? && (g.info[e.sym].kind.Member? ==> g.info[e.sym].kind.choice != e.sym)
    ensures s in ReadEntry(g, u, e)
    ensures ReadEntry(g, u, e)[s] ==
      if s == e.sym then v
      else if g.info[e.sym].kind == Member(s) then ReadForChoice(u[s], e.sym, v.tri)
      else u[s]
  {
  }

  lemma MemberReadBack(w: World, writer: Writer, front: seq<Symbol>, c: Symbol, user: UserValue, m: Symbol)
    requires m in w.g.info && m in w.plain && w.g.info[m].kind == Member(c) && HasLine(w, writer, m)
      && w.plain[m].tri != Mod
    requires PickReadBack(w, writer, front, c, user.pick)
    ensures PickReadBack(w, writer, front + [m], c, ReadForChoice(user, m, w.plain[m].tri).pick)
  {
  }

  lemma OtherReadBack(w: World, writer: Writer, front: seq<Symbol>, c: Symbol, pick: Option<Symbol>, s: Symbol)
    requires s in w.g.info && w.g.info[s].kind != Member(c) && PickReadBack(w, writer, front, c, pick)
    ensures PickReadBack(w, writer, front + [s], c, pick)
  {
  }

  lemma SavedText(w: World, s: Symbol)
    requires GoodWorld(w) && s in w.g.info && w.g.info[s].kind.Plain? && !Untyped(s)
    ensures !IsTristate(s) ==> w.plain[s].tri == No
  {
    PlainEquation(w, s);
  }

  // ----- the values after reading back -----

  /** A saved value is accepted as it is: it differs from the default, so that the user has set it. */
  lemma SavedTristate(g: Graph, s: Symbol, i: Info, user: UserValue, env: Env)
    requires i.kind.Plain? && IsTristate(s)
    requires Rank(Visibility(g, s, i, env)) > Rank(ReverseDependency(g, s, i, env))
    requires var t := TristateResult(g, s, i, user, env); TristateName(t) != DefaultText(g, s, i, env)
    ensures var t := TristateResult(g, s, i, user, env);
      TristateResult(g, s, i, UserValue(true, t, "", None), env) == t
  {
    DefaultTextMeaning(g, s, i, env);
  }

  /** Without a line, a symbol falls back to its default; this is the value that it had unless the
      user set it while it could not be changed. */
  lemma UnsavedTristate(g: Graph, s: Symbol, i: Info, user: UserValue, env: Env)
    requires i.kind.Plain? && IsTristate(s)
    requires Visibility(g, s, i, env) == No || !user.given
      || Rank(Visibility(g, s, i, env)) <= Rank(ReverseDependency(g, s, i, env))
      || TristateName(TristateResult(g, s, i, user, env)) == DefaultText(g, s, i, env)
    ensures TristateResult(g, s, i, ResetUser(i), env) == TristateResult(g, s, i, user, env) <==>
      !(user.given && Visibility(g, s, i, env) == Mod && ReverseDependency(g, s, i, env) == Mod
        && ImpliedValue(g, s, i, env) != Yes && DefaultTristate(i, env) == Yes)
  {
    DefaultTextMeaning(g, s, i, env);
  }

  lemma UnkeptTristate(g: Graph, s: Symbol, i: Info, user: UserValue, env: Env)
    requires i.kind.Plain? && IsTristate(s) && (Visibility(g, s, i, env) == No || !user.given)
    ensures TristateResult(g, s, i, ResetUser(i), env) == TristateResult(g, s, i, user, env)
  {
  }

  /** A bool or tristate symbol outside of choices. */
  lemma TristateRestored(w: World, writer: Writer, nodes: seq<Symbol>, s: Symbol)
    requires OrdinaryConfig(w, nodes) && s in w.g.info && w.g.info[s].kind.Plain? && IsTristate(s)
    ensures TristateResult(w.g, s, w.g.info[s], SavedUser(w, writer, nodes, s), EnvOf(w)) == w.plain[s].tri
      <==> !Lost(w, writer, s)
  {
    assert Ordinary(w, nodes, s);
    PlainEquation(w, s);
    if w.plain[s].visible != No {
      PromptNeeded(w.g, s, w.g.info[s], EnvOf(w));
    }
    NeverMod(w, s);
    if writer == Minimal {
      MinimalRestored(w, nodes, s);
    } else {
      FullRestored(w, nodes, s);
    }
  }

  lemma NeverMod(w: World, s: Symbol)
    requires GoodWorld(w) && s in w.g.info
    ensures s.typ == Boolean ==> w.plain[s].tri != Mod
  {
    EnvOfTyped(w);
    assert EnvOf(w).tri(s) == w.plain[s].tri;
  }

  lemma MinimalRestored(w: World, nodes: seq<Symbol>, s: Symbol)
    requires GoodWorld(w) && s in w.g.info && w.g.info[s].kind.Plain? && IsTristate(s)
    requires (w.plain[s].visible != No ==> s in nodes) && (w.g.info[s].auto ==> !w.u[s].given)
    ensures TristateResult(w.g, s, w.g.info[s], SavedUser(w, Minimal, nodes, s), EnvOf(w)) == w.plain[s].tri
      <==> !Lost(w, Minimal, s)
  {
    PlainEquation(w, s);
    if s in nodes && HasLine(w, Minimal, s) {
      SavedTristate(w.g, s, w.g.info[s], w.u[s], EnvOf(w));
    } else {
      UnsavedTristate(w.g, s, w.g.info[s], w.u[s], EnvOf(w));
    }
  }

  lemma FullRestored(w: World, nodes: seq<Symbol>, s: Symbol)
    requires GoodWorld(w) && s in w.g.info && w.g.info[s].kind.Plain? && IsTristate(s)
    requires (w.plain[s].visible != No ==> s in nodes) && (w.g.info[s].auto ==> !w.u[s].given)
    requires s.typ == Boolean ==> w.plain[s].tri != Mod
    ensures TristateResult(w.g, s, w.g.info[s], SavedUser(w, Full, nodes, s), EnvOf(w)) == w.plain[s].tri
      <==> !Lost(w, Full, s)
  {
    PlainEquation(w, s);
    if s in nodes && HasLine(w, Full, s) {
      KeptTristate(w.g, s, w.g.info[s], w.u[s], SavedUser(w, Full, nodes, s), EnvOf(w));
    } else {
      UnkeptTristate(w.g, s, w.g.info[s], w.u[s], EnvOf(w));
    }
  }

  lemma PromptNeeded(g: Graph, s: Symbol, i: Info, env: Env)
    requires Visibility(g, s, i, env) != No
    ensures i.prompts != []
  {
  }

  /** sym_get_string_default is the value that a symbol has as long as the user does not set it, for a
      member of a choice as long as it is not visible. The range of a number is not taken into account:
      its value is the default text if and only if the range keeps that text. */
  lemma DefaultTextMeaning(g: Graph, s: Symbol, i: Info, env: Env)
    requires !i.kind.Choice? && (i.kind.Member? ==> s.typ == Boolean)
    ensures IsTristate(s) ==> DefaultText(g, s, i, env) == TristateName(TristateResult(g, s, i, ResetUser(i), env))
    ensures !IsTristate(s) ==>
      var text := DefaultText(g, s, i, env);
      StringResult(g, s, i, ResetUser(i), env) == text <==> Validated(s, i, text, env) == text
  {
    if !IsTristate(s) {
      assert DefaultText(g, s, i, env) == RawString(g, s, i, ResetUser(i), env);
    }
  }

  /** A saved text is taken over as it is. */
  lemma StringSaved(g: Graph, s: Symbol, i: Info, user: UserValue, env: Env, val: string)
    requires !IsTristate(s) && Visibility(g, s, i, env) != No
    requires val == StringResult(g, s, i, user, env) && Validated(s, i, val, env) == val
    ensures StringResult(g, s, i, UserValue(true, No, val, None), env) == val
  {
  }

  lemma StringUnsaved(g: Graph, s: Symbol, i: Info, user: UserValue, env: Env, val: string)
    requires !IsTristate(s) && !i.kind.Choice?
    requires Visibility(g, s, i, env) == No || !user.given || val == DefaultText(g, s, i, env)
    requires val == StringResult(g, s, i, user, env) && Validated(s, i, val, env) == val
    ensures StringResult(g, s, i, ResetUser(i), env) == val
  {
  }

  lemma StringHidden(g: Graph, s: Symbol, i: Info, user: UserValue, user': UserValue, env: Env)
    requires Visibility(g, s, i, env) == No
    ensures StringResult(g, s, i, user, env) == StringResult(g, s, i, user', env)
  {
  }

  /** An int, hex or string symbol. */
  lemma StringRestored(w: World, writer: Writer, nodes: seq<Symbol>, s: Symbol)
    requires OrdinaryConfig(w, nodes) && s in w.g.info && w.g.info[s].kind.Plain? && !IsTristate(s) && !Untyped(s)
    ensures StringResult(w.g, s, w.g.info[s], SavedUser(w, writer, nodes, s), EnvOf(w)) == w.plain[s].val
  {
    assert Ordinary(w, nodes, s);
    PlainEquation(w, s);
    var i, env := w.g.info[s], EnvOf(w);
    if w.plain[s].visible != No {
      PromptNeeded(w.g, s, i, env);
    }
    RangeKeeps(w, nodes, s, RawString(w.g, s, i, w.u[s], env));
    if !Legible(w, s) {
      IllegibleIsDefault(w, nodes, s);
    }
    if w.plain[s].visible == No {
      StringHidden(w.g, s, i, w.u[s], SavedUser(w, writer, nodes, s), env);
    } else if s in nodes && HasLine(w, writer, s) && Legible(w, s) {
      StringSaved(w.g, s, i, w.u[s], env, w.plain[s].val);
    } else {
      StringUnsaved(w.g, s, i, w.u[s], env, w.plain[s].val);
    }
  }

  lemma PlainRestored(w: World, writer: Writer, nodes: seq<Symbol>, s: Symbol)
    requires OrdinaryConfig(w, nodes) && s in w.g.info && w.g.info[s].kind.Plain? && !Untyped(s)
    ensures CalculateWith(w.g, SavedUser(w, writer, nodes, s), s, w.g.info[s], EnvOf(w), None) == w.plain[s]
      <==> !Lost(w, writer, s)
  {
    PlainEquation(w, s);
    PlainCalculation(w.g, SavedUser(w, writer, nodes, s), s, w.g.info[s], EnvOf(w));
    if IsTristate(s) {
      TristateRestored(w, writer, nodes, s);
    } else {
      StringRestored(w, writer, nodes, s);
    }
  }

  /** A choice picks the same member again. */
  lemma PickRestored(w: World, writer: Writer, nodes: seq<Symbol>, c: Symbol, user: UserValue)
    requires OrdinaryConfig(w, nodes) && c in w.g.info && w.g.info[c].kind.Choice? && w.plain[c].visible == Yes
    requires PickReadBack(w, writer, nodes, c, user.pick)
    ensures ChoicePick(w.g, w.g.info[c], user, ChoiceIsYes(c, EnvOf(w))) == w.plain[c].pick
  {
    var i, env := w.g.info[c], ChoiceIsYes(c, EnvOf(w));
    MembersHaveNoDefaults(w, nodes, c);
    ChoiceExclusive(w, c);
    ChoiceEquation(w, c);
    PickIsMember(w, c);
    match user.pick
    case Some(m) =>
      MemberEquation(w, m);
      MemberValue(w, c, m);
    case None =>
      if w.plain[c].pick.Some? {
        var m := w.plain[c].pick.value;
        MembersAreGood(w.g, c);
        MemberValue(w, c, m);
        if writer == Minimal {
          PickedIsDefault(w, nodes, c, m);
        } else {
          PickedIsKept(w, nodes, c, m);
        }
      } else {
        assert ChoiceDefault(w.g, i, env).None?;
      }
  }

  lemma MembersHaveNoDefaults(w: World, nodes: seq<Symbol>, c: Symbol)
    requires OrdinaryConfig(w, nodes) && c in w.g.info && w.g.info[c].kind.Choice?
    ensures forall m :: m in w.g.info[c].kind.members && m in w.g.info ==> w.g.info[m].defaults == []
  {
    MembersAreGood(w.g, c);
    forall m | m in w.g.info[c].kind.members && m in w.g.info
      ensures w.g.info[m].defaults == []
    {
      assert Ordinary(w, nodes, m);
    }
  }

  /** A picked member that has not been saved is the default of its choice. */
  lemma PickedIsDefault(w: World, nodes: seq<Symbol>, c: Symbol, m: Symbol)
    requires OrdinaryConfig(w, nodes) && c in w.g.info && w.g.info[c].kind.Choice?
    requires m in w.g.info && w.g.info[m].kind == Member(c) && w.plain[m].visible == Yes && w.plain[m].tri == Yes
    requires !PickRead(w, Minimal, nodes, c, m)
    ensures ChoiceDefault(w.g, w.g.info[c], ChoiceIsYes(c, EnvOf(w))) == Some(m)
  {
    assert Ordinary(w, nodes, m);
    MemberEquation(w, m);
    NoDefaults(w.g.info[m], EnvOf(w));
    PromptNeeded(w.g, m, w.g.info[m], EnvOf(w));
  }

  /** conf_write has a line for every visible member. */
  lemma PickedIsKept(w: World, nodes: seq<Symbol>, c: Symbol, m: Symbol)
    requires OrdinaryConfig(w, nodes) && m in w.g.info && w.g.info[m].kind == Member(c)
    requires w.plain[m].visible == Yes && w.plain[m].tri == Yes
    ensures PickRead(w, Full, nodes, c, m)
  {
    assert Ordinary(w, nodes, m);
    MemberEquation(w, m);
    PromptNeeded(w.g, m, w.g.info[m], EnvOf(w));
  }

  lemma ChoiceRestored(w: World, writer: Writer, nodes: seq<Symbol>, c: Symbol, user: UserValue)
    requires OrdinaryConfig(w, nodes) && c in w.g.info && w.g.info[c].kind.Choice?
    requires PickReadBack(w, writer, nodes, c, user.pick)
    ensures CalculateWith(w.g, user, c, w.g.info[c], EnvOf(w), None) == w.plain[c]
  {
    CalculateEquation(w, c);
    if w.plain[c].visible == Yes {
      PickRestored(w, writer, nodes, c, user);
    }
    ChoiceEquation(w, c);
    assert GoodSymbol(w.g, c);
    EnvOfTyped(w);
    ConstantValues(EnvOf(w));
    ChoiceCalculation(w.g, w.u[c], c, w.g.info[c], EnvOf(w));
    ChoiceCalculation(w.g, user, c, w.g.info[c], EnvOf(w));
    SameResult(w.g, w.u[c], user, c, w.g.info[c], EnvOf(w));
  }

  /** The old values satisfy the equation of a symbol under the user values that are read back,
      unless its value is lost. */
  lemma SymbolRestored(w: World, writer: Writer, nodes: seq<Symbol>, u: Users, s: Symbol)
    requires OrdinaryConfig(w, nodes) && s in w.g.info && ReadBackAt(w, writer, nodes, u, s)
    ensures Solves(w.g, u, w, s) <==> !Lost(w, writer, s)
  {
    match w.g.info[s].kind
    case Plain =>
      if Untyped(s) {
        CalculateEquation(w, s);
        UntypedIgnoresUser(w.g, s, w.g.info[s], EnvOf(w), w.u[s], u[s]);
      } else {
        PlainRestored(w, writer, nodes, s);
      }
    case Choice(_) =>
      ChoiceRestored(w, writer, nodes, s, u[s]);
    case Member(c) =>
      CalculateEquation(w, s);
      MemberEquation(w, s);
      MemberIgnoresUser(w.g, s, w.g.info[s], EnvOf(w), w.plain[c].pick, w.u[s], u[s]);
  }

  lemma UntypedIgnoresUser(g: Graph, s: Symbol, i: Info, env: Env, a: UserValue, b: UserValue)
    requires Untyped(s)
    ensures CalculateWith(g, a, s, i, env, None) == CalculateWith(g, b, s, i, env, None)
  {
  }

  ghost predicate SomeLost(w: World, writer: Writer)
    requires GoodWorld(w)
  {
    exists s :: s in w.g.info && Lost(w, writer, s)
  }

  lemma ReadBackSetting(w: World, writer: Writer, nodes: seq<Symbol>) returns (u: Users)
    requires OrdinaryConfig(w, nodes)
    ensures u == ReadEntries(w.g, SavedEntries(w, writer, nodes)) && Setting(w.g, u)
    ensures forall s :: s in w.g.info ==> ReadBackAt(w, writer, nodes, u, s)
  {
    u := ReadEntries(w.g, SavedEntries(w, writer, nodes));
    ReadEntriesSetting(w.g, SavedEntries(w, writer, nodes));
    forall s | s in w.g.info
      ensures ReadBackAt(w, writer, nodes, u, s)
    {
      ReadBack(w, writer, nodes, nodes, s);
    }
  }

  /** Reading the lines of either writer as the only user values and calculating again gives every
      symbol all that it had, if and only if no value is lost: for savedefconfig none that is
      overruled, for conf_write none that is demoted. */
  lemma SavedConfigRoundTrip(w: World, writer: Writer, nodes: seq<Symbol>)
    requires OrdinaryConfig(w, nodes)
    ensures Setting(w.g, ReadEntries(w.g, SavedEntries(w, writer, nodes)))
    ensures WorldOf(w.g, ReadEntries(w.g, SavedEntries(w, writer, nodes))).plain == w.plain
      <==> !SomeLost(w, writer)
  {
    var u := ReadBackSetting(w, writer, nodes);
    if s :| s in w.g.info && Lost(w, writer, s) {
      SymbolRestored(w, writer, nodes, u, s);
      OtherSolution(w, WorldOf(w.g, u), s);
    } else {
      AllRestored(w, writer, nodes, u);
    }
  }

  lemma AllRestored(w: World, writer: Writer, nodes: seq<Symbol>, u: Users)
    requires OrdinaryConfig(w, nodes) && Setting(w.g, u) && !SomeLost(w, writer)
    requires forall s :: s in w.g.info ==> ReadBackAt(w, writer, nodes, u, s)
    ensures WorldOf(w.g, u).plain == w.plain
  {
    forall s | s in w.g.info
      ensures Solves(w.g, u, w, s)
    {
      SymbolRestored(w, writer, nodes, u, s);
    }
    SolvedPlain(w, u);
  }

  /** Values that do not satisfy an equation are not the plain values. */
  lemma OtherSolution(w: World, w': World, s: Symbol)
    requires GoodWorld(w) && GoodWorld(w') && w'.g == w.g && s in w.g.info && !Solves(w.g, w'.u, w, s)
    ensures w'.plain != w.plain
  {
    if w'.plain == w.plain {
      CalculateEquation(w', s);
    }
  }

  /** In particular, nothing is lost if no symbol is tristate or modules are off, and savedefconfig
      needs only that no tristate symbol can be selected. */
  lemma BooleanRoundTrip(w: World, writer: Writer, nodes: seq<Symbol>)
    requires OrdinaryConfig(w, nodes)
    requires forall s :: s in w.g.info && s.typ == TristateType ==>
      w.g.modules == No || (writer == Minimal && w.g.info[s].revDep == Null)
    ensures WorldOf(w.g, ReadBackUsers(w, writer, nodes)).plain == w.plain
  {
    forall s | s in w.g.info
      ensures !Lost(w, writer, s)
    {
      if s.typ == TristateType && w.g.info[s].kind.Plain? {
        PlainEquation(w, s);
      }
    }
    SavedConfigRoundTrip(w, writer, nodes);
  }

  ghost function ReadBackUsers(w: World, writer: Writer, nodes: seq<Symbol>): (u: Users)
    requires OrdinaryConfig(w, nodes)
    ensures Setting(w.g, u)
  {
    SavedConfigRoundTrip(w, writer, nodes);
    ReadEntries(w.g, SavedEntries(w, writer, nodes))
  }
}
