/** sym_check_deps: a depth-first search for recursive dependencies, with the flags SYMBOL_CHECK (under
    way) and SYMBOL_CHECKED (visited). A choice and its members are searched together. */
module DependencyCheck {
  import opened Expressions
  import opened SymbolGraph

  datatype PropertyType = Prompt | DefaultValue | RangeLimit | Select | Imply | MemberList | OtherProperty

  /** A property: `visible` is its condition, `expr` its value. */
  datatype Property = Property(kind: PropertyType, visible: Nullable, expr: Nullable)

  /** What the search looks at in a symbol. */
  datatype Node = Node(kind: Kind, revDep: Nullable, props: seq<Property>)

  type Nodes = map<Symbol, Node>

  function PropertySymbols(kind: Kind, p: Property): set<Symbol> {
    if p.kind.Select? || p.kind.MemberList? then {}
    else
      SymbolsOfNullable(p.visible) + if p.kind.DefaultValue? && !kind.Choice? then SymbolsOfNullable(p.expr) else {}
  }

  function PropertiesSymbols(kind: Kind, ps: seq<Property>): set<Symbol> {
    if ps == [] then {}
    else PropertiesSymbols(kind, ps[..|ps| - 1]) + PropertySymbols(kind, ps[|ps| - 1])
  }

  /** The dependencies of a symbol: what selects it, the conditions of its other properties, and, unless
      it is a choice, its default values. */
  function Dependencies(n: Node): set<Symbol> {
    SymbolsOfNullable(n.revDep) + PropertiesSymbols(n.kind, n.props)
  }

  lemma {:induction false} PropertyInside(kind: Kind, ps: seq<Property>, k: nat)
    requires k < |ps|
    ensures PropertySymbols(kind, ps[k]) <= PropertiesSymbols(kind, ps)
  {
    if k < |ps| - 1 {
      PropertyInside(kind, ps[..|ps| - 1], k);
    }
  }

  lemma PropertiesNext(kind: Kind, ps: seq<Property>, k: nat)
    requires k < |ps|
    ensures PropertiesSymbols(kind, ps[..k + 1]) == PropertiesSymbols(kind, ps[..k]) + PropertySymbols(kind, ps[k])
  {
    assert ps[..k + 1][..k] == ps[..k];
  }

  /** What a symbol depends on, told by its properties: all that select it mention, and all that the
      conditions of its properties mention, select and the member list of a choice aside, and the default
      values, unless it is a choice. */
  lemma DependenciesExact(n: Node, x: Symbol)
    ensures x in Dependencies(n) <==>
      || x in SymbolsOfNullable(n.revDep)
      || exists p :: p in n.props && !p.kind.Select? && !p.kind.MemberList?
                     && (x in SymbolsOfNullable(p.visible)
                         || (p.kind.DefaultValue? && !n.kind.Choice? && x in SymbolsOfNullable(p.expr)))
  {
    PropertiesExact(n.kind, n.props, x);
  }

  lemma {:induction false} PropertiesExact(kind: Kind, ps: seq<Property>, x: Symbol)
    ensures x in PropertiesSymbols(kind, ps) <==> exists p :: p in ps && x in PropertySymbols(kind, p)
  {
    if ps != [] {
      var front, last := ps[..|ps| - 1], ps[|ps| - 1];
      PropertiesExact(kind, front, x);
      assert forall p :: p in ps <==> p in front || p == last;
    }
  }

  // ----- graphs, cycles and ranks -----

  type Links = map<Symbol, set<Symbol>>

  predicate Edge(g: Links, a: Symbol, b: Symbol) {
    a in g && b in g[a]
  }

  predicate EdgeAt(g: Links, p: seq<Symbol>, k: int) {
    0 <= k < |p| - 1 && Edge(g, p[k], p[k + 1])
  }

  ghost predicate IsPath(g: Links, p: seq<Symbol>) {
    forall k {:trigger EdgeAt(g, p, k)} :: 0 <= k < |p| - 1 ==> EdgeAt(g, p, k)
  }

  ghost predicate Cycle(g: Links, p: seq<Symbol>) {
    p != [] && IsPath(g, p) && Edge(g, p[|p| - 1], p[0])
  }

  ghost predicate Cyclic(g: Links) {
    exists p :: Cycle(g, p)
  }

  /** A symbol depends only on symbols of lower rank. */
  predicate RankedAt(g: Links, rank: map<Symbol, nat>, a: Symbol) {
    && a in g && a in rank
    && forall b :: b in g[a] ==> b in rank && rank[b] < rank[a]
  }

  ghost predicate Ranked(g: Links, rank: map<Symbol, nat>) {
    forall a {:trigger RankedAt(g, rank, a)} :: a in rank ==> RankedAt(g, rank, a)
  }

  /** Ranks that follow the order in which symbols are finished. */
  ghost predicate FinishOrder(g: Links, rank: map<Symbol, nat>) {
    Ranked(g, rank) && forall s :: s in rank ==> rank[s] < |rank|
  }

  /** Some symbols whose dependencies are finished are finished, all at once. */
  function Finish(rank: map<Symbol, nat>, xs: set<Symbol>): map<Symbol, nat> {
    rank + (map x | x in xs :: |rank|)
  }

  lemma FinishNext(g: Links, rank: map<Symbol, nat>, xs: set<Symbol>)
    requires FinishOrder(g, rank) && xs <= g.Keys && xs !! rank.Keys
    requires forall x :: x in xs ==> g[x] <= rank.Keys
    ensures FinishOrder(g, Finish(rank, xs)) && Finish(rank, xs).Keys == rank.Keys + xs
  {
    var rank' := Finish(rank, xs);
    forall a | a in rank'
      ensures RankedAt(g, rank', a)
    {
      assert a in rank ==> RankedAt(g, rank, a);
    }
    FinishGrows(rank, xs);
  }

  lemma FinishGrows(rank: map<Symbol, nat>, xs: set<Symbol>)
    requires xs !! rank.Keys
    ensures Finish(rank, xs).Keys == rank.Keys + xs && |Finish(rank, xs)| >= |rank|
    ensures xs != {} ==> |Finish(rank, xs)| > |rank|
  {
    assert Finish(rank, xs).Keys == rank.Keys + xs;
    assert |Finish(rank, xs)| == |rank.Keys + xs| == |rank.Keys| + |xs|;
  }

  /** Ranks go down along a path. */
  lemma {:induction false} RankFalls(g: Links, rank: map<Symbol, nat>, p: seq<Symbol>)
    requires Ranked(g, rank) && p != [] && IsPath(g, p) && p[0] in rank
    ensures p[|p| - 1] in rank && rank[p[|p| - 1]] <= rank[p[0]]
  {
    if |p| > 1 {
      assert EdgeAt(g, p, 0) && RankedAt(g, rank, p[0]);
      forall k | 0 <= k < |p| - 2
        ensures EdgeAt(g, p[1..], k)
      {
        assert EdgeAt(g, p, k + 1);
      }
      RankFalls(g, rank, p[1..]);
    }
  }

  lemma RankedEdge(g: Links, rank: map<Symbol, nat>, a: Symbol, b: Symbol)
    requires Ranked(g, rank) && a in rank && Edge(g, a, b)
    ensures b in rank && rank[b] < rank[a]
  {
    assert RankedAt(g, rank, a);
  }

  /** A graph is acyclic exactly if its symbols can be ranked; this is one half. */
  lemma RankedIsAcyclic(g: Links, rank: map<Symbol, nat>)
    requires Ranked(g, rank) && rank.Keys == g.Keys
    ensures !Cyclic(g)
  {
    if p :| Cycle(g, p) {
      assert |p| > 1 ==> EdgeAt(g, p, 0);
      RankFalls(g, rank, p);
      RankedEdge(g, rank, p[|p| - 1], p[0]);
    }
  }

  /** The part of a path above a symbol that is met again is a cycle. */
  lemma StackCycle(g: Links, p: seq<Symbol>, k: nat, s: Symbol)
    requires IsPath(g, p) && k < |p| && p[k] == s && Edge(g, p[|p| - 1], s)
    ensures Cyclic(g)
  {
    forall j | 0 <= j < |p[k..]| - 1
      ensures EdgeAt(g, p[k..], j)
    {
      assert EdgeAt(g, p, k + j);
    }
    assert Cycle(g, p[k..]);
  }

  lemma PathFront(g: Links, p: seq<Symbol>, s: Symbol)
    requires IsPath(g, p + [s])
    ensures IsPath(g, p)
  {
    forall k | 0 <= k < |p| - 1
      ensures EdgeAt(g, p, k)
    {
      assert EdgeAt(g, p + [s], k);
    }
  }

  lemma PathNext(g: Links, p: seq<Symbol>, s: Symbol)
    requires IsPath(g, p) && (p == [] || Edge(g, p[|p| - 1], s))
    ensures IsPath(g, p + [s])
  {
    forall k | 0 <= k < |p + [s]| - 1
      ensures EdgeAt(g, p + [s], k)
    {
      if k < |p| - 1 {
        assert EdgeAt(g, p, k);
      }
    }
  }

  // ----- the graph of the symbols, and that of the groups -----

  /** The symbols with their dependencies. */
  function Apart(nodes: Nodes): Links {
    map s | s in nodes :: Dependencies(nodes[s])
  }

  /** The choice of a member stands for the whole group; any other symbol stands for itself. */
  function Leader(nodes: Nodes, s: Symbol): Symbol {
    if s in nodes && nodes[s].kind.Member? then nodes[s].kind.choice else s
  }

  function Group(nodes: Nodes, l: Symbol): set<Symbol> {
    {l} + if l in nodes && nodes[l].kind.Choice? then (set m | m in nodes[l].kind.members) else {}
  }

  /** The dependencies of a symbol, apart from that of a member on its own choice. */
  function Outward(nodes: Nodes, s: Symbol): set<Symbol>
    requires s in nodes
  {
    Dependencies(nodes[s]) - if nodes[s].kind.Member? then {nodes[s].kind.choice} else {}
  }

  function GroupLinks(nodes: Nodes, l: Symbol): set<Symbol> {
    set x, y | x in Group(nodes, l) && x in nodes && y in Outward(nodes, x) :: Leader(nodes, y)
  }

  /** Each choice with its members as one: a group depends on the groups of what any of its symbols
      depends on. A dependency of a member on another one, or of a choice on a member, is a cycle. */
  function Grouped(nodes: Nodes): Links {
    map l | l in nodes && !nodes[l].kind.Member? :: GroupLinks(nodes, l)
  }

  /** Choices and members know each other, and all dependencies exist. */
  predicate ClosedAt(nodes: Nodes, s: Symbol) {
    && s in nodes && Dependencies(nodes[s]) <= nodes.Keys
    && match nodes[s].kind
       case Plain => true
       case Member(c) => c in nodes && nodes[c].kind.Choice? && s in nodes[c].kind.members
       case Choice(ms) => forall m :: m in ms ==> m in nodes && nodes[m].kind == Member(s)
  }

  ghost predicate Closed(nodes: Nodes) {
    forall s {:trigger ClosedAt(nodes, s)} :: s in nodes ==> ClosedAt(nodes, s)
  }

  lemma LeaderIsGood(nodes: Nodes, s: Symbol)
    requires Closed(nodes) && s in nodes
    ensures var l := Leader(nodes, s);
      l in nodes && !nodes[l].kind.Member? && s in Group(nodes, l) && l in Grouped(nodes)
  {
    assert ClosedAt(nodes, s);
  }

  lemma GroupHasLeader(nodes: Nodes, l: Symbol, s: Symbol)
    requires Closed(nodes) && l in nodes && !nodes[l].kind.Member? && s in Group(nodes, l)
    ensures s in nodes && Leader(nodes, s) == l
  {
    assert ClosedAt(nodes, l);
  }

  lemma GroupEdge(nodes: Nodes, x: Symbol, y: Symbol)
    requires Closed(nodes) && x in nodes && y in Outward(nodes, x)
    ensures y in nodes && Edge(Grouped(nodes), Leader(nodes, x), Leader(nodes, y))
  {
    assert ClosedAt(nodes, x);
    LeaderIsGood(nodes, x);
  }

  lemma GroupEdgeFrom(nodes: Nodes, l: Symbol, b: Symbol) returns (x: Symbol, y: Symbol)
    requires Closed(nodes) && Edge(Grouped(nodes), l, b)
    ensures x in nodes && Leader(nodes, x) == l && y in Outward(nodes, x) && y in nodes && Leader(nodes, y) == b
  {
    x, y :| x in Group(nodes, l) && x in nodes && y in Outward(nodes, x) && Leader(nodes, y) == b;
    GroupHasLeader(nodes, l, x);
    assert ClosedAt(nodes, x);
  }

  // ----- the state of a search -----

  /** While the dependencies of `x` are followed, `s` is under way: it is in the same group, and it is
      not the choice of a member, whose own dependencies are done by then. */
  predicate Blocks(nodes: Nodes, x: Symbol, s: Symbol)
    requires x in nodes && s in nodes
  {
    Leader(nodes, x) == Leader(nodes, s) && !(nodes[x].kind.Member? && nodes[s].kind.Choice?)
  }

  predicate UnderWay(nodes: Nodes, stack: seq<Symbol>, s: Symbol) {
    s in nodes && exists k :: 0 <= k < |stack| && stack[k] in nodes && Blocks(nodes, stack[k], s)
  }

  function Leaders(nodes: Nodes, stack: seq<Symbol>): (p: seq<Symbol>)
    ensures |p| == |stack| && forall k :: 0 <= k < |p| ==> p[k] == Leader(nodes, stack[k])
  {
    seq(|stack|, k requires 0 <= k < |stack| => Leader(nodes, stack[k]))
  }

  /** The flags of one symbol: groups are visited as a whole. */
  predicate FlagsAt(nodes: Nodes, check: set<Symbol>, checked: set<Symbol>, stack: seq<Symbol>, s: Symbol) {
    && (s in check <==> UnderWay(nodes, stack, s))
    && (s in checked <==> Leader(nodes, s) in checked)
  }

  /** The members of a choice are finished together, after the choice. */
  predicate LevelAt(nodes: Nodes, rank: map<Symbol, nat>, m: Symbol) {
    m in nodes && m in rank && nodes[m].kind.Member? ==>
      var c := nodes[m].kind.choice;
      && c in rank && rank[c] < rank[m]
      && forall m' :: m' in Group(nodes, c) && m' != c ==> m' in rank && rank[m'] == rank[m]
  }

  ghost predicate Leveled(nodes: Nodes, rank: map<Symbol, nat>) {
    forall m {:trigger LevelAt(nodes, rank, m)} :: LevelAt(nodes, rank, m)
  }

  /** `check` and `checked` are the flags; `stack` holds the symbols whose dependencies are being
      followed. */
  ghost predicate GoodFlags(nodes: Nodes, check: set<Symbol>, checked: set<Symbol>, stack: seq<Symbol>) {
    && checked <= nodes.Keys && check <= checked
    && (forall x :: x in stack ==> x in checked)
    && (forall s {:trigger FlagsAt(nodes, check, checked, stack, s)} :: s in nodes ==>
          FlagsAt(nodes, check, checked, stack, s))
  }

  /** As long as nothing has been reported, every symbol that is finished is ranked. */
  ghost predicate GoodRanks(nodes: Nodes, finished: set<Symbol>, reported: bool, rank: map<Symbol, nat>) {
    && (reported ==> Cyclic(Grouped(nodes)))
    && (!reported ==> rank.Keys == finished && FinishOrder(Apart(nodes), rank) && Leveled(nodes, rank))
  }

  /** Whether the state is good, as one value. */
  datatype Verdict = Sound | Unsound

  ghost function Judge(nodes: Nodes, check: set<Symbol>, checked: set<Symbol>, stack: seq<Symbol>, reported: bool,
                       rank: map<Symbol, nat>): Verdict
  {
    if GoodFlags(nodes, check, checked, stack) && GoodRanks(nodes, checked - check, reported, rank)
    then Sound
    else Unsound
  }

  ghost predicate Good(nodes: Nodes, check: set<Symbol>, checked: set<Symbol>, stack: seq<Symbol>, reported: bool,
                       rank: map<Symbol, nat>)
  {
    Judge(nodes, check, checked, stack, reported, rank).Sound?
  }

  /** What does not change while the dependencies of a symbol are followed. */
  ghost predicate Placed(nodes: Nodes, stack: seq<Symbol>) {
    Closed(nodes) && IsPath(Grouped(nodes), Leaders(nodes, stack))
  }

  /** `xs` are dependencies of the symbol on top of the stack. */
  predicate Follow(nodes: Nodes, stack: seq<Symbol>, xs: set<Symbol>) {
    stack != [] && stack[|stack| - 1] in nodes && xs <= Dependencies(nodes[stack[|stack| - 1]])
  }

  /** What the symbol on top of the stack depends on, or the choice of such a symbol. */
  predicate CanCheck(nodes: Nodes, stack: seq<Symbol>, s: Symbol) {
    && s in nodes
    && (stack == [] ||
        var top := stack[|stack| - 1];
        top in nodes && (Edge(Grouped(nodes), Leader(nodes, top), Leader(nodes, s)) || nodes[top].kind == Member(s)))
  }

  lemma FollowCanCheck(nodes: Nodes, stack: seq<Symbol>, s: Symbol)
    requires Closed(nodes) && Follow(nodes, stack, {s})
    ensures CanCheck(nodes, stack, s)
  {
    var top := stack[|stack| - 1];
    assert ClosedAt(nodes, top) && s in {s};
    if nodes[top].kind != Member(s) {
      GroupEdge(nodes, top, s);
    }
  }

  /** A symbol that is met while it is under way closes a cycle of groups. */
  lemma FoundCycle(nodes: Nodes, check: set<Symbol>, checked: set<Symbol>, stack: seq<Symbol>, s: Symbol)
    requires Placed(nodes, stack) && GoodFlags(nodes, check, checked, stack)
    requires CanCheck(nodes, stack, s) && s in check
    ensures Cyclic(Grouped(nodes))
  {
    assert FlagsAt(nodes, check, checked, stack, s);
    var k :| 0 <= k < |stack| && stack[k] in nodes && Blocks(nodes, stack[k], s);
    var last := |stack| - 1;
    if Edge(Grouped(nodes), Leader(nodes, stack[last]), Leader(nodes, s)) {
      StackCycle(Grouped(nodes), Leaders(nodes, stack), k, Leader(nodes, s));
    } else {
      assert ClosedAt(nodes, stack[last]);
      MetTwice(Grouped(nodes), Leaders(nodes, stack), k);
    }
  }

  lemma MetTwice(g: Links, p: seq<Symbol>, k: nat)
    requires IsPath(g, p) && k < |p| - 1 && p[k] == p[|p| - 1]
    ensures Cyclic(g)
  {
    var last := |p| - 1;
    assert EdgeAt(g, p, last - 1) && p == p[..last] + [p[last]];
    PathFront(g, p[..last], p[last]);
    StackCycle(g, p[..last], k, p[k]);
  }

  /** A group is marked, and its choice, or its only symbol, is put on the stack. */
  lemma Enter(nodes: Nodes, check: set<Symbol>, checked: set<Symbol>, stack: seq<Symbol>, reported: bool,
              rank: map<Symbol, nat>, l: Symbol)
    requires Placed(nodes, stack) && Good(nodes, check, checked, stack, reported, rank)
    requires CanCheck(nodes, stack, l) && !nodes[l].kind.Member? && l !in checked
    ensures Placed(nodes, stack + [l])
    ensures Good(nodes, check + Group(nodes, l), checked + Group(nodes, l), stack + [l], reported, rank)
    ensures Outside(nodes, stack, l) && checked !! Group(nodes, l)
  {
    OutsideNew(nodes, check, checked, stack, l);
    EnterGroup(nodes, check, checked, stack, l);
    EnterPath(nodes, stack, l);
    var group := Group(nodes, l);
    assert checked + group - (check + group) == checked - check;
  }

  lemma EnterGroup(nodes: Nodes, check: set<Symbol>, checked: set<Symbol>, stack: seq<Symbol>, l: Symbol)
    requires Closed(nodes) && GoodFlags(nodes, check, checked, stack) && l in nodes && !nodes[l].kind.Member?
    ensures GoodFlags(nodes, check + Group(nodes, l), checked + Group(nodes, l), stack + [l])
  {
    assert ClosedAt(nodes, l);
    forall s | s in nodes
      ensures FlagsAt(nodes, check + Group(nodes, l), checked + Group(nodes, l), stack + [l], s)
    {
      assert FlagsAt(nodes, check, checked, stack, s);
      EnterFlags(nodes, check, checked, stack, l, s);
    }
  }

  /** No symbol of the group is on the stack. */
  predicate Outside(nodes: Nodes, stack: seq<Symbol>, l: Symbol) {
    forall x :: x in stack ==> x in nodes && Leader(nodes, x) != l
  }

  lemma UnderWayNext(nodes: Nodes, stack: seq<Symbol>, x: Symbol, s: Symbol)
    requires x in nodes && s in nodes
    ensures UnderWay(nodes, stack + [x], s) <==> UnderWay(nodes, stack, s) || Blocks(nodes, x, s)
  {
    var both := stack + [x];
    assert both[|stack|] == x;
    if UnderWay(nodes, stack, s) {
      var k :| 0 <= k < |stack| && stack[k] in nodes && Blocks(nodes, stack[k], s);
      assert both[k] == stack[k];
    }
  }

  lemma OutsideNew(nodes: Nodes, check: set<Symbol>, checked: set<Symbol>, stack: seq<Symbol>, l: Symbol)
    requires Closed(nodes) && GoodFlags(nodes, check, checked, stack) && l in nodes && !nodes[l].kind.Member?
    requires l !in checked
    ensures Outside(nodes, stack, l) && checked !! Group(nodes, l)
  {
    forall x | x in checked
      ensures Leader(nodes, x) != l && x !in Group(nodes, l)
    {
      assert FlagsAt(nodes, check, checked, stack, x);
      if x in Group(nodes, l) {
        GroupHasLeader(nodes, l, x);
      }
    }
  }

  lemma EnterFlags(nodes: Nodes, check: set<Symbol>, checked: set<Symbol>, stack: seq<Symbol>, l: Symbol, s: Symbol)
    requires Closed(nodes) && l in nodes && !nodes[l].kind.Member? && s in nodes
    requires FlagsAt(nodes, check, checked, stack, s)
    ensures FlagsAt(nodes, check + Group(nodes, l), checked + Group(nodes, l), stack + [l], s)
  {
    UnderWayNext(nodes, stack, l, s);
    LeaderIsGood(nodes, s);
    if s in Group(nodes, l) {
      GroupHasLeader(nodes, l, s);
    }
    if Leader(nodes, s) in Group(nodes, l) {
      GroupHasLeader(nodes, l, Leader(nodes, s));
    }
  }

  lemma EnterPath(nodes: Nodes, stack: seq<Symbol>, l: Symbol)
    requires Closed(nodes) && IsPath(Grouped(nodes), Leaders(nodes, stack)) && CanCheck(nodes, stack, l)
    requires !nodes[l].kind.Member? && Outside(nodes, stack, l)
    ensures IsPath(Grouped(nodes), Leaders(nodes, stack + [l]))
  {
    if stack != [] {
      assert stack[|stack| - 1] in stack && ClosedAt(nodes, stack[|stack| - 1]);
    }
    PathNext(Grouped(nodes), Leaders(nodes, stack), l);
    assert Leaders(nodes, stack + [l]) == Leaders(nodes, stack) + [l];
  }

  /** The symbols that are finished when `x`, the last of its group, is. */
  function Blocked(nodes: Nodes, x: Symbol): set<Symbol>
    requires x in nodes
  {
    set s | s in Group(nodes, Leader(nodes, x)) && s in nodes && Blocks(nodes, x, s)
  }

  lemma BlockedExactly(nodes: Nodes, x: Symbol, s: Symbol)
    requires Closed(nodes) && x in nodes && s in nodes
    ensures s in Blocked(nodes, x) <==> Blocks(nodes, x, s)
  {
    LeaderIsGood(nodes, s);
  }

  lemma LeaveFlags(nodes: Nodes, check: set<Symbol>, checked: set<Symbol>, stack: seq<Symbol>, x: Symbol, s: Symbol)
    requires Closed(nodes) && x in nodes && s in nodes && Outside(nodes, stack, Leader(nodes, x))
    requires FlagsAt(nodes, check, checked, stack + [x], s)
    ensures FlagsAt(nodes, check - Blocked(nodes, x), checked, stack, s)
    ensures s in Blocked(nodes, x) ==> s in check
  {
    UnderWayNext(nodes, stack, x, s);
    BlockedExactly(nodes, x, s);
    if Blocks(nodes, x, s) {
      NotUnderWay(nodes, stack, s);
    }
  }

  lemma LeaveGroup(nodes: Nodes, check: set<Symbol>, checked: set<Symbol>, stack: seq<Symbol>, x: Symbol)
    requires Closed(nodes) && GoodFlags(nodes, check, checked, stack + [x]) && x in nodes
    requires Outside(nodes, stack, Leader(nodes, x))
    ensures GoodFlags(nodes, check - Blocked(nodes, x), checked, stack) && Blocked(nodes, x) <= check
  {
    forall s | s in nodes
      ensures FlagsAt(nodes, check - Blocked(nodes, x), checked, stack, s) && (s in Blocked(nodes, x) ==> s in check)
    {
      assert FlagsAt(nodes, check, checked, stack + [x], s);
      LeaveFlags(nodes, check, checked, stack, x, s);
    }
    assert forall y :: y in stack ==> y in stack + [x];
  }

  /** `xs` are finished: a symbol outside of choices, a choice, or all members of a choice that is
      finished already. */
  predicate CanFinish(nodes: Nodes, rank: map<Symbol, nat>, xs: set<Symbol>) {
    && xs <= nodes.Keys && xs !! rank.Keys
    && (forall x :: x in xs ==> Dependencies(nodes[x]) <= rank.Keys)
    && (forall x :: x in xs && nodes[x].kind.Member? ==>
          var c := nodes[x].kind.choice; c in rank && Group(nodes, c) - {c} <= xs)
  }

  lemma FinishRanks(nodes: Nodes, finished: set<Symbol>, rank: map<Symbol, nat>, xs: set<Symbol>)
    requires GoodRanks(nodes, finished, false, rank) && CanFinish(nodes, rank, xs)
    ensures GoodRanks(nodes, finished + xs, false, Finish(rank, xs))
  {
    FinishNext(Apart(nodes), rank, xs);
    forall m
      ensures LevelAt(nodes, Finish(rank, xs), m)
    {
      assert LevelAt(nodes, rank, m);
    }
  }

  function RankNext(reported: bool, rank: map<Symbol, nat>, xs: set<Symbol>): map<Symbol, nat> {
    if reported then rank else Finish(rank, xs)
  }

  /** The last symbols of a group are finished once all their dependencies are. */
  lemma Leave(nodes: Nodes, check: set<Symbol>, checked: set<Symbol>, stack: seq<Symbol>, reported: bool,
              rank: map<Symbol, nat>, x: Symbol, xs: set<Symbol>)
    requires Closed(nodes) && Good(nodes, check, checked, stack + [x], reported, rank)
    requires x in nodes && xs == Blocked(nodes, x)
    requires Outside(nodes, stack, Leader(nodes, x)) && (nodes[x].kind.Choice? ==> nodes[x].kind.members == [])
    requires !reported ==> forall s :: s in xs ==> Dependencies(nodes[s]) <= rank.Keys
    ensures Good(nodes, check - xs, checked, stack, reported, RankNext(reported, rank, xs))
    ensures xs <= check
  {
    LeaveGroup(nodes, check, checked, stack, x);
    if !reported {
      LeaveCanFinish(nodes, check, checked, stack, rank, x);
      MoreFinished(nodes, check, checked, rank, xs);
    }
  }

  lemma MoreFinished(nodes: Nodes, check: set<Symbol>, checked: set<Symbol>, rank: map<Symbol, nat>, xs: set<Symbol>)
    requires GoodRanks(nodes, checked - check, false, rank) && CanFinish(nodes, rank, xs)
    requires xs <= check && check <= checked
    ensures GoodRanks(nodes, checked - (check - xs), false, Finish(rank, xs))
  {
    FinishRanks(nodes, checked - check, rank, xs);
    assert checked - (check - xs) == checked - check + xs;
  }

  lemma LeaveCanFinish(nodes: Nodes, check: set<Symbol>, checked: set<Symbol>, stack: seq<Symbol>,
                       rank: map<Symbol, nat>, x: Symbol)
    requires Closed(nodes) && GoodFlags(nodes, check, checked, stack + [x]) && x in nodes
    requires Outside(nodes, stack, Leader(nodes, x)) && (nodes[x].kind.Choice? ==> nodes[x].kind.members == [])
    requires rank.Keys == checked - check && Blocked(nodes, x) <= check
    requires forall s :: s in Blocked(nodes, x) ==> Dependencies(nodes[s]) <= rank.Keys
    ensures CanFinish(nodes, rank, Blocked(nodes, x))
  {
    forall m | m in Blocked(nodes, x) && nodes[m].kind.Member?
      ensures var c := nodes[m].kind.choice; c in rank && Group(nodes, c) - {c} <= Blocked(nodes, x)
    {
      MembersBlocked(nodes, check, checked, stack, x, m);
    }
  }

  lemma MembersBlocked(nodes: Nodes, check: set<Symbol>, checked: set<Symbol>, stack: seq<Symbol>, x: Symbol, m: Symbol)
    requires Closed(nodes) && GoodFlags(nodes, check, checked, stack + [x]) && x in nodes
    requires Outside(nodes, stack, Leader(nodes, x)) && (nodes[x].kind.Choice? ==> nodes[x].kind.members == [])
    requires m in Blocked(nodes, x) && nodes[m].kind.Member?
    ensures var c := nodes[m].kind.choice;
      c in checked && c !in check && Group(nodes, c) - {c} <= Blocked(nodes, x)
  {
    var c := nodes[m].kind.choice;
    assert ClosedAt(nodes, m) && ClosedAt(nodes, x) && ClosedAt(nodes, c);
    assert nodes[x].kind == Member(c) && x in stack + [x];
    assert FlagsAt(nodes, check, checked, stack + [x], c) && FlagsAt(nodes, check, checked, stack + [x], x);
    LeaveFlags(nodes, check, checked, stack, x, c);
    UnderWayNext(nodes, stack, x, c);
    NotUnderWay(nodes, stack, c);
    forall m' | m' in Group(nodes, c) && m' != c
      ensures m' in Blocked(nodes, x)
    {
      BlockedExactly(nodes, x, m');
    }
  }

  lemma NotUnderWay(nodes: Nodes, stack: seq<Symbol>, s: Symbol)
    requires s in nodes && Outside(nodes, stack, Leader(nodes, s))
    ensures !UnderWay(nodes, stack, s)
  {
    forall k | 0 <= k < |stack| && stack[k] in nodes
      ensures !Blocks(nodes, stack[k], s)
    {
      assert stack[k] in stack;
    }
  }

  /** The dependencies of a choice are finished, and those of its members are next. */
  lemma NextPhase(nodes: Nodes, check: set<Symbol>, checked: set<Symbol>, stack: seq<Symbol>, reported: bool,
                  rank: map<Symbol, nat>, c: Symbol, m: Symbol)
    requires Closed(nodes) && Good(nodes, check, checked, stack + [c], reported, rank)
    requires c in nodes && Outside(nodes, stack, c)
    requires nodes[c].kind.Choice? && m in nodes[c].kind.members && (!reported ==> Dependencies(nodes[c]) <= rank.Keys)
    ensures Good(nodes, check - {c}, checked, stack + [m], reported, RankNext(reported, rank, {c}))
    ensures c in check
  {
    PhaseGroup(nodes, check, checked, stack, c, m);
    assert ClosedAt(nodes, c);
    if !reported {
      MoreFinished(nodes, check, checked, rank, {c});
    }
  }

  lemma PhaseGroup(nodes: Nodes, check: set<Symbol>, checked: set<Symbol>, stack: seq<Symbol>, c: Symbol, m: Symbol)
    requires Closed(nodes) && GoodFlags(nodes, check, checked, stack + [c]) && c in nodes && Outside(nodes, stack, c)
    requires nodes[c].kind.Choice? && m in nodes[c].kind.members
    ensures GoodFlags(nodes, check - {c}, checked, stack + [m]) && c in check && c in checked
  {
    assert ClosedAt(nodes, c) && ClosedAt(nodes, m);
    forall s | s in nodes
      ensures FlagsAt(nodes, check - {c}, checked, stack + [m], s)
    {
      assert FlagsAt(nodes, check, checked, stack + [c], s);
      PhaseFlags(nodes, check, checked, stack, c, m, s);
    }
    assert FlagsAt(nodes, check, checked, stack + [c], c) && FlagsAt(nodes, check, checked, stack + [c], m);
    UnderWayNext(nodes, stack, c, c);
    assert c in stack + [c] && forall x :: x in stack ==> x in stack + [c];
  }

  lemma PhaseFlags(nodes: Nodes, check: set<Symbol>, checked: set<Symbol>, stack: seq<Symbol>, c: Symbol, m: Symbol,
                   s: Symbol)
    requires Closed(nodes) && s in nodes && c in nodes && Outside(nodes, stack, c)
    requires nodes[c].kind.Choice? && m in nodes[c].kind.members
    requires FlagsAt(nodes, check, checked, stack + [c], s)
    ensures FlagsAt(nodes, check - {c}, checked, stack + [m], s)
  {
    assert ClosedAt(nodes, c) && ClosedAt(nodes, s);
    UnderWayNext(nodes, stack, c, s);
    UnderWayNext(nodes, stack, m, s);
    NotUnderWay(nodes, stack, c);
  }

  lemma NextMemberFlags(nodes: Nodes, check: set<Symbol>, checked: set<Symbol>, stack: seq<Symbol>, m: Symbol,
                        n: Symbol)
    requires Closed(nodes) && GoodFlags(nodes, check, checked, stack + [m]) && m in nodes && n in nodes
    requires nodes[m].kind.Member? && nodes[n].kind == nodes[m].kind
    ensures GoodFlags(nodes, check, checked, stack + [n])
  {
    forall s | s in nodes
      ensures FlagsAt(nodes, check, checked, stack + [n], s)
    {
      assert FlagsAt(nodes, check, checked, stack + [m], s);
      UnderWayNext(nodes, stack, m, s);
      UnderWayNext(nodes, stack, n, s);
    }
    assert m in stack + [m] && forall x :: x in stack ==> x in stack + [m];
    assert FlagsAt(nodes, check, checked, stack + [m], n) && FlagsAt(nodes, check, checked, stack + [m], m);
  }

  /** Which of its members is looked at makes no difference. */
  lemma NextMember(nodes: Nodes, check: set<Symbol>, checked: set<Symbol>, stack: seq<Symbol>, reported: bool,
                   rank: map<Symbol, nat>, c: Symbol, m: Symbol, n: Symbol)
    requires Closed(nodes) && Good(nodes, check, checked, stack + [m], reported, rank) && c in nodes
    requires nodes[c].kind.Choice? && m in nodes[c].kind.members && n in nodes[c].kind.members
    ensures Good(nodes, check, checked, stack + [n], reported, rank)
  {
    assert ClosedAt(nodes, c);
    NextMemberFlags(nodes, check, checked, stack, m, n);
  }

  /** Whether a choice or one of its members is on top makes no difference for the path. */
  lemma SameGroupPath(nodes: Nodes, stack: seq<Symbol>, x: Symbol, y: Symbol)
    requires Placed(nodes, stack + [x]) && Leader(nodes, x) == Leader(nodes, y)
    ensures Placed(nodes, stack + [y])
  {
    assert Leaders(nodes, stack + [x]) == Leaders(nodes, stack + [y]);
  }

  /** No other symbol has a rank between a choice and its members. */
  predicate CompactAt(nodes: Nodes, order: map<Symbol, nat>, c: Symbol) {
    && c in order
    && forall m, s :: m in Group(nodes, c) && m in order && s in order && s !in Group(nodes, c) ==>
         order[c] < order[s] ==> order[m] < order[s]
  }

  /** A choice has been visited, or can be searched whatever is under way. */
  predicate VisitedAt(nodes: Nodes, order: map<Symbol, nat>, checked: set<Symbol>, c: Symbol) {
    c in nodes && nodes[c].kind.Choice? ==> c in checked || CompactAt(nodes, order, c)
  }

  ghost predicate ChoicesVisited(nodes: Nodes, order: map<Symbol, nat>, checked: set<Symbol>) {
    forall c {:trigger VisitedAt(nodes, order, checked, c)} :: VisitedAt(nodes, order, checked, c)
  }

  predicate LowerAt(order: map<Symbol, nat>, x: Symbol, y: Symbol) {
    x in order && y in order && order[x] < order[y]
  }

  ghost predicate Lower(order: map<Symbol, nat>, xs: set<Symbol>, ys: set<Symbol>) {
    forall x, y {:trigger LowerAt(order, x, y)} :: x in xs && y in ys ==> LowerAt(order, x, y)
  }

  /** Nothing will be reported while `xs` are followed: all symbols can be ranked, what is under way has
      a higher rank, and the choices that have not been visited are compact. */
  ghost predicate Quiet(nodes: Nodes, order: map<Symbol, nat>, check: set<Symbol>, checked: set<Symbol>,
                        xs: set<Symbol>) {
    && Ranked(Apart(nodes), order) && nodes.Keys <= order.Keys && Leveled(nodes, order)
    && ChoicesVisited(nodes, order, checked) && Lower(order, xs, check)
  }

  lemma QuietLater(nodes: Nodes, order: map<Symbol, nat>, check: set<Symbol>, checked: set<Symbol>, xs: set<Symbol>,
                   later: set<Symbol>, ys: set<Symbol>)
    requires Quiet(nodes, order, check, checked, xs) && checked <= later && ys <= xs
    ensures Quiet(nodes, order, check, later, ys)
  {
    VisitedLater(nodes, order, checked, later);
    forall x, y | x in ys && y in check
      ensures LowerAt(order, x, y)
    {
      assert x in xs;
    }
  }

  lemma VisitedLater(nodes: Nodes, order: map<Symbol, nat>, checked: set<Symbol>, later: set<Symbol>)
    requires ChoicesVisited(nodes, order, checked) && checked <= later
    ensures ChoicesVisited(nodes, order, later)
  {
    forall c
      ensures VisitedAt(nodes, order, later, c)
    {
      assert VisitedAt(nodes, order, checked, c);
    }
  }

  /** Nothing will be reported while the choice `c` is searched: its members can be ranked together, after
      the choice and below what is under way. */
  ghost predicate QuietChoice(nodes: Nodes, order: map<Symbol, nat>, check: set<Symbol>, checked: set<Symbol>,
                              c: Symbol) {
    && Ranked(Apart(nodes), order) && nodes.Keys <= order.Keys && Leveled(nodes, order)
    && ChoicesVisited(nodes, order, checked + {c}) && Lower(order, Group(nodes, c), check)
  }

  /** The dependencies of the members of a choice. */
  function MembersSymbols(nodes: Nodes, ms: seq<Symbol>): set<Symbol> {
    if ms == [] then {}
    else
      var m := ms[|ms| - 1];
      MembersSymbols(nodes, ms[..|ms| - 1]) + if m in nodes then Dependencies(nodes[m]) else {}
  }

  lemma {:induction false} MemberInside(nodes: Nodes, ms: seq<Symbol>, m: Symbol)
    requires m in ms && m in nodes
    ensures Dependencies(nodes[m]) <= MembersSymbols(nodes, ms)
  {
    if m != ms[|ms| - 1] {
      MemberInside(nodes, ms[..|ms| - 1], m);
    }
  }

  lemma MembersNext(nodes: Nodes, ms: seq<Symbol>, k: nat)
    requires k < |ms| && ms[k] in nodes
    ensures MembersSymbols(nodes, ms[..k + 1]) == MembersSymbols(nodes, ms[..k]) + Dependencies(nodes[ms[k]])
  {
    assert ms[..k + 1][..k] == ms[..k];
  }

  class Checker {
    const nodes: Nodes
    var check: set<Symbol>
    var checked: set<Symbol>
    var stack: seq<Symbol>
    var reported: bool
    /** The order in which the symbols have been finished. */
    ghost var rank: map<Symbol, nat>
    /** Any ranks, for telling when nothing is reported. */
    ghost const order: map<Symbol, nat>

    constructor (nodes: Nodes, ghost order: map<Symbol, nat>)
      requires Closed(nodes)
      ensures this.nodes == nodes && this.order == order
      ensures Placed(nodes, stack) && Valid() && checked == check == {} && stack == [] && !reported && rank == map[]
    {
      this.nodes, this.order := nodes, order;
      check, checked, stack, reported, rank := {}, {}, [], false, map[];
    }

    ghost predicate Valid()
      reads this
    {
      Good(nodes, check, checked, stack, reported, rank)
    }

    /** A search leaves the stack as it was, and does not forget what it has seen. */
    twostate predicate Searched()
      reads this
    {
      && stack == old(stack) && check == old(check) && old(checked) <= checked
      && (old(reported) ==> reported)
    }

    /** sym_check_deps */
    method CheckDeps(s: Symbol) returns (r: Option<Symbol>)
      requires Placed(nodes, stack) && Valid() && CanCheck(nodes, stack, s)
      modifies this
      ensures Valid() && Searched()
      ensures r.Some? ==> reported
      ensures !reported ==> s in checked - check
      ensures !reported && s !in old(checked) ==> Group(nodes, Leader(nodes, s)) <= checked - check
      ensures !reported && s !in old(checked) ==> AllHighest(rank, Last(nodes, Leader(nodes, s)))
      ensures old(!reported && Quiet(nodes, order, check, checked, {s})) ==> !reported
      ensures nodes[s].kind.Choice? && s !in old(checked) ==>
        (old(!reported && QuietChoice(nodes, order, check, checked, s)) ==> !reported)
      decreases nodes.Keys - checked, if s in nodes && nodes[s].kind.Member? then 2 else 1, 1
    {
      if s in check {
        FoundCycle(nodes, check, checked, stack, s);
        assert s in {s} && !LowerAt(order, s, s);
        reported := true;
        return Some(s);
      }
      if s in checked {
        return None;
      }
      r := Visit(s);
      if r == Some(s) {
        r := None;
      }
    }

    /** The visit of a symbol for the first time; that of a member begins with its choice. */
    method Visit(s: Symbol) returns (r: Option<Symbol>)
      requires Placed(nodes, stack) && Valid() && CanCheck(nodes, stack, s) && s !in checked
      modifies this
      ensures Valid() && Searched()
      ensures r.Some? ==> reported
      ensures !reported ==> s in checked - check && Group(nodes, Leader(nodes, s)) <= checked - check
      ensures !reported ==> AllHighest(rank, Last(nodes, Leader(nodes, s)))
      ensures old(!reported && Quiet(nodes, order, check, checked, {s})) ==> !reported
      ensures old(!reported && QuietChoice(nodes, order, check, checked, s)) && nodes[s].kind.Choice? ==> !reported
      decreases nodes.Keys - checked, if s in nodes && nodes[s].kind.Member? then 2 else 1, 0
    {
      match nodes[s].kind
      case Plain =>
        PlainGroup(nodes, s);
        r := VisitPlain(s);
      case Member(c) =>
        MemberUnvisited(nodes, check, checked, stack, s);
        if Quiet(nodes, order, check, checked, {s}) {
          QuietMember(nodes, order, check, checked, s);
        }
        r := CheckDeps(c);
      case Choice(_) =>
        if Quiet(nodes, order, check, checked, {s}) {
          QuietCompact(nodes, order, check, checked, stack, s);
        }
        r := VisitChoice(s);
    }

    /** The visit of a symbol outside of choices. */
    method VisitPlain(s: Symbol) returns (r: Option<Symbol>)
      requires Placed(nodes, stack) && Valid() && CanCheck(nodes, stack, s) && s !in checked && nodes[s].kind.Plain?
      modifies this
      ensures Valid() && Searched()
      ensures r.Some? ==> reported
      ensures !reported ==> s in checked - check && Highest(rank, s)
      ensures old(!reported && Quiet(nodes, order, check, checked, {s})) ==> !reported
      decreases nodes.Keys - checked, 0
    {
      ghost var others, seen, quiet := check, checked, !reported && Quiet(nodes, order, check, checked, {s});
      PlainGroup(nodes, s);
      Mark(s);
      if quiet {
        QuietNext(nodes, order, others, seen, checked, s);
      }
      r := CheckSymDeps(s);
      DropAlone(s, others);
    }

    /** The flags of a group that is entered. */
    method Mark(l: Symbol)
      requires Placed(nodes, stack) && Valid() && CanCheck(nodes, stack, l) && l !in checked && !nodes[l].kind.Member?
      modifies this`check, this`checked
      ensures check == old(check) + Group(nodes, l) && checked == old(checked) + Group(nodes, l)
      ensures Placed(nodes, stack + [l])
      ensures Good(nodes, check, checked, stack + [l], reported, rank)
      ensures Outside(nodes, stack, l) && old(checked) !! Group(nodes, l) && old(check) !! Group(nodes, l)
    {
      Enter(nodes, check, checked, stack, reported, rank, l);
      check, checked := check + Group(nodes, l), checked + Group(nodes, l);
    }

    /** The flags of the last symbols of a group that is left. */
    method Unmark(xs: set<Symbol>)
      modifies this`check, this`rank
      ensures check == old(check) - xs && rank == RankNext(reported, old(rank), xs)
    {
      check := check - xs;
      rank := RankNext(reported, rank, xs);
    }

    /** A symbol outside of choices, or a choice without members, is finished. */
    method DropAlone(s: Symbol, ghost others: set<Symbol>)
      requires Closed(nodes) && s in nodes && (nodes[s].kind.Plain? || nodes[s].kind == Choice([]))
      requires Good(nodes, check, checked, stack + [s], reported, rank) && Outside(nodes, stack, s)
      requires !reported ==> Dependencies(nodes[s]) <= checked - check
      requires check == others + {s} && s !in others
      modifies this`check, this`rank
      ensures Valid() && check == others
      ensures !reported ==> Highest(rank, s)
    {
      LeaveAlone(nodes, check, checked, stack, reported, rank, s);
      RankHighest(reported, rank, {s});
      assert s in {s};
      Unmark({s});
      assert check == others;
    }

    /** The members of a choice are finished, all at once. */
    method DropMembers(c: Symbol, ms: seq<Symbol>, members: set<Symbol>, ghost others: set<Symbol>)
      requires Closed(nodes) && c in nodes && nodes[c].kind == Choice(ms) && ms != [] && Outside(nodes, stack, c)
      requires Good(nodes, check, checked, stack + [ms[0]], reported, rank)
      requires !reported ==> MembersSymbols(nodes, ms) <= checked - check
      requires AllOf(ms, members) && check == others + members && others !! members
      modifies this`check, this`rank
      ensures Valid() && check == others
      ensures !reported ==> AllHighest(rank, Last(nodes, c))
    {
      LeaveLast(nodes, check, checked, stack, reported, rank, c, ms, members, others);
      RankHighest(reported, rank, members);
      Unmark(members);
    }

    /** sym_check_choice_deps */
    method VisitChoice(c: Symbol) returns (r: Option<Symbol>)
      requires Placed(nodes, stack) && Valid() && CanCheck(nodes, stack, c) && c !in checked && nodes[c].kind.Choice?
      modifies this
      ensures Valid() && Searched()
      ensures r.Some? ==> reported
      ensures !reported ==> Group(nodes, c) <= checked - check && AllHighest(rank, Last(nodes, c))
      ensures old(!reported && QuietChoice(nodes, order, check, checked, c)) ==> !reported
      decreases nodes.Keys - checked, 0
    {
      var ms := nodes[c].kind.members;
      ghost var others, seen, quiet := check, checked, !reported && QuietChoice(nodes, order, check, checked, c);
      Mark(c);
      var members := set m | m in ms;
      GroupOfChoice(nodes, c, ms, members);
      if quiet {
        QuietInside(nodes, order, others, seen, checked, c);
        assert check == others + Group(nodes, c) && others + members == others + (Group(nodes, c) - {c});
      }
      r := FollowChoice(c, ms, members, others, quiet);
      assert {c} + members <= checked - others;
      if r.Some? && r.value in ms {
        r := Some(c);
      }
    }

    /** The group of a choice that is marked. */
    method FollowChoice(c: Symbol, ms: seq<Symbol>, members: set<Symbol>, ghost others: set<Symbol>, ghost quiet: bool)
      returns (r: Option<Symbol>)
      requires Placed(nodes, stack + [c]) && c in nodes && nodes[c].kind == Choice(ms) && Outside(nodes, stack, c)
      requires Good(nodes, check, checked, stack + [c], reported, rank)
      requires AllOf(ms, members) && c !in members && check == others + {c} + members && others !! {c} + members
      requires quiet ==> !reported && Quiet(nodes, order, check, checked, Dependencies(nodes[c]))
      requires quiet ==> Quiet(nodes, order, others + members, checked, MembersSymbols(nodes, ms))
      modifies this
      ensures Valid() && stack == old(stack) && check == others && old(checked) <= checked
      ensures old(reported) ==> reported
      ensures r.Some? ==> reported
      ensures quiet ==> !reported
      ensures !reported ==> AllHighest(rank, Last(nodes, c))
      decreases nodes.Keys - checked, 11
    {
      ghost var seen := checked;
      r := CheckSymDeps(c);
      if quiet {
        QuietLater(nodes, order, others + members, seen, MembersSymbols(nodes, ms), checked, MembersSymbols(nodes, ms));
      }
      r := FollowRest(c, ms, members, r, others, quiet);
    }

    method FollowRest(c: Symbol, ms: seq<Symbol>, members: set<Symbol>, first: Option<Symbol>,
                      ghost others: set<Symbol>, ghost quiet: bool)
      returns (r: Option<Symbol>)
      requires Placed(nodes, stack + [c]) && c in nodes && nodes[c].kind == Choice(ms) && Outside(nodes, stack, c)
      requires Good(nodes, check, checked, stack + [c], reported, rank)
      requires AllOf(ms, members) && c !in members && check == others + {c} + members && others !! {c} + members
      requires first.Some? ==> reported
      requires !reported ==> Dependencies(nodes[c]) <= checked - check
      requires quiet ==> !reported && Quiet(nodes, order, others + members, checked, MembersSymbols(nodes, ms))
      modifies this
      ensures Valid() && stack == old(stack) && check == others && old(checked) <= checked
      ensures old(reported) ==> reported
      ensures r.Some? ==> reported
      ensures quiet ==> !reported
      ensures !reported ==> AllHighest(rank, Last(nodes, c))
      decreases nodes.Keys - checked, 10, 2
    {
      if ms == [] {
        NoMembers(members);
        DropAlone(c, others);
        r := first;
      } else {
        r := FollowMembers(c, ms, members, first, others, quiet);
      }
    }

    method FollowMembers(c: Symbol, ms: seq<Symbol>, members: set<Symbol>, first: Option<Symbol>,
                         ghost others: set<Symbol>, ghost quiet: bool)
      returns (r: Option<Symbol>)
      requires Placed(nodes, stack + [c]) && c in nodes && nodes[c].kind == Choice(ms) && ms != []
      requires Good(nodes, check, checked, stack + [c], reported, rank) && Outside(nodes, stack, c)
      requires AllOf(ms, members) && c !in members && check == others + {c} + members
      requires others !! {c} + members
      requires first.Some? ==> reported
      requires !reported ==> Dependencies(nodes[c]) <= checked - check
      requires quiet ==> !reported && Quiet(nodes, order, others + members, checked, MembersSymbols(nodes, ms))
      modifies this
      ensures Valid() && stack == old(stack) && check == others && old(checked) <= checked
      ensures old(reported) ==> reported
      ensures r.Some? ==> reported
      ensures quiet ==> !reported
      ensures !reported ==> AllHighest(rank, Last(nodes, c))
      decreases nodes.Keys - checked, 10, 1, 1
    {
      assert others + {c} + members == others + members + {c};
      FinishChoice(c, ms[0], others + members);
      r := FinishMembers(c, ms, members, first, others, quiet);
    }

    /** What is left to do for the members. */
    method FinishMembers(c: Symbol, ms: seq<Symbol>, members: set<Symbol>, first: Option<Symbol>,
                         ghost others: set<Symbol>, ghost quiet: bool)
      returns (r: Option<Symbol>)
      requires Placed(nodes, stack + [c]) && c in nodes && nodes[c].kind == Choice(ms) && ms != []
      requires Good(nodes, check, checked, stack + [ms[0]], reported, rank) && Outside(nodes, stack, c)
      requires AllOf(ms, members) && check == others + members && others !! members
      requires first.Some? ==> reported
      requires quiet ==> !reported && Quiet(nodes, order, check, checked, MembersSymbols(nodes, ms))
      modifies this
      ensures Valid() && stack == old(stack) && check == others && old(checked) <= checked
      ensures old(reported) ==> reported
      ensures r.Some? ==> reported
      ensures quiet ==> !reported
      ensures !reported ==> AllHighest(rank, Last(nodes, c))
      decreases nodes.Keys - checked, 10, 1, 0
    {
      r := CheckRest(c, ms, first);
      DropMembers(c, ms, members, others);
    }

    /** The choice itself is finished. */
    method FinishChoice(c: Symbol, ghost m: Symbol, ghost others: set<Symbol>)
      requires Closed(nodes) && c in nodes && Good(nodes, check, checked, stack + [c], reported, rank)
      requires Outside(nodes, stack, c) && nodes[c].kind.Choice? && m in nodes[c].kind.members
      requires !reported ==> Dependencies(nodes[c]) <= checked - check
      requires check == others + {c} && c !in others
      modifies this`check, this`rank
      ensures Good(nodes, check, checked, stack + [m], reported, rank)
      ensures check == others == old(check) - {c}
    {
      NextPhase(nodes, check, checked, stack, reported, rank, c, m);
      Unmark({c});
      assert check == others;
    }

    method CheckRest(c: Symbol, ms: seq<Symbol>, first: Option<Symbol>) returns (r: Option<Symbol>)
      requires Placed(nodes, stack + [c]) && c in nodes && nodes[c].kind == Choice(ms) && ms != []
      requires Good(nodes, check, checked, stack + [ms[0]], reported, rank)
      requires first.Some? ==> reported
      modifies this
      ensures Good(nodes, check, checked, stack + [ms[0]], reported, rank) && Searched()
      ensures r.Some? ==> reported
      ensures !reported ==> MembersSymbols(nodes, ms) <= checked - check
      ensures old(!reported && Quiet(nodes, order, check, checked, MembersSymbols(nodes, ms))) ==> !reported
      decreases nodes.Keys - checked, 10, 0
    {
      r := first;
      if r.None? {
        r := CheckMembers(c, ms);
      }
    }

    /** The loop over the members. */
    method CheckMembers(c: Symbol, ms: seq<Symbol>) returns (r: Option<Symbol>)
      requires Placed(nodes, stack + [c]) && c in nodes && nodes[c].kind == Choice(ms) && ms != []
      requires Good(nodes, check, checked, stack + [ms[0]], reported, rank)
      modifies this
      ensures Good(nodes, check, checked, stack + [ms[0]], reported, rank) && Searched()
      ensures r.Some? ==> reported
      ensures !reported ==> MembersSymbols(nodes, ms) <= checked - check
      ensures old(!reported && Quiet(nodes, order, check, checked, MembersSymbols(nodes, ms))) ==> !reported
      decreases nodes.Keys - checked, 9, 1
    {
      ghost var all, seen := MembersSymbols(nodes, ms), checked;
      ghost var quiet := !reported && Quiet(nodes, order, check, checked, all);
      for k := 0 to |ms|
        invariant Good(nodes, check, checked, stack + [ms[0]], reported, rank) && Searched()
        invariant !reported ==> MembersSymbols(nodes, ms[..k]) <= checked - check
        invariant quiet ==> !reported
      {
        assert ClosedAt(nodes, c) && ms[k] in ms;
        ghost var ranked := checked - check;
        MemberInside(nodes, ms, ms[k]);
        MembersNext(nodes, ms, k);
        if quiet {
          QuietLater(nodes, order, check, seen, all, checked, Dependencies(nodes[ms[k]]));
        }
        r := CheckMember(c, ms, ms[k]);
        if r.Some? {
          return;
        }
        assert !reported ==> MembersSymbols(nodes, ms[..k]) <= ranked <= checked - check;
      }
      assert ms[..|ms|] == ms;
      r := None;
    }

    /** One round of that loop. */
    method CheckMember(c: Symbol, ms: seq<Symbol>, m: Symbol) returns (r: Option<Symbol>)
      requires Placed(nodes, stack + [c]) && c in nodes && nodes[c].kind == Choice(ms) && m in ms && m in nodes
      requires Good(nodes, check, checked, stack + [ms[0]], reported, rank)
      modifies this
      ensures Good(nodes, check, checked, stack + [ms[0]], reported, rank) && Searched()
      ensures r.Some? ==> reported
      ensures !reported ==> Dependencies(nodes[m]) <= checked - check
      ensures old(!reported && Quiet(nodes, order, check, checked, Dependencies(nodes[m]))) ==> !reported
      decreases nodes.Keys - checked, 9, 0
    {
      NextMember(nodes, check, checked, stack, reported, rank, c, ms[0], m);
      assert ClosedAt(nodes, c);
      SameGroupPath(nodes, stack, c, m);
      r := CheckSymDeps(m);
      NextMember(nodes, check, checked, stack, reported, rank, c, m, ms[0]);
    }

    /** sym_check_sym_deps, for a symbol that is marked. */
    method CheckSymDeps(s: Symbol) returns (r: Option<Symbol>)
      requires Placed(nodes, stack + [s]) && s in nodes && Good(nodes, check, checked, stack + [s], reported, rank)
      modifies this
      ensures Good(nodes, check, checked, stack + [s], reported, rank) && Searched()
      ensures r.Some? ==> reported
      ensures !reported ==> Dependencies(nodes[s]) <= checked - check
      ensures old(!reported && Quiet(nodes, order, check, checked, Dependencies(nodes[s]))) ==> !reported
      decreases nodes.Keys - checked, 8
    {
      ghost var below := stack;
      stack := stack + [s];
      r := CheckOwn(s);
      stack := stack[..|stack| - 1];
      assert stack == below;
    }

    /** Between the two changes of the stack. */
    method CheckOwn(s: Symbol) returns (r: Option<Symbol>)
      requires Placed(nodes, stack) && Valid() && s in nodes && stack != [] && stack[|stack| - 1] == s
      modifies this
      ensures Valid() && Searched()
      ensures r.Some? ==> reported
      ensures !reported ==> Dependencies(nodes[s]) <= checked - check
      ensures old(!reported && Quiet(nodes, order, check, checked, Dependencies(nodes[s]))) ==> !reported
      decreases nodes.Keys - checked, 7, 2
    {
      ghost var all := Dependencies(nodes[s]);
      ghost var seen, quiet := checked, !reported && Quiet(nodes, order, check, checked, all);
      r := CheckRevDep(s);
      if r.Some? {
        return;
      }
      if quiet {
        QuietLater(nodes, order, check, seen, all, checked, all);
      }
      ghost var ranked := checked - check;
      r := CheckProperties(s);
      assert !reported ==> SymbolsOfNullable(nodes[s].revDep) <= ranked <= checked - check;
    }

    method CheckRevDep(s: Symbol) returns (r: Option<Symbol>)
      requires Placed(nodes, stack) && Valid() && s in nodes && stack != [] && stack[|stack| - 1] == s
      modifies this
      ensures Valid() && Searched()
      ensures r.Some? ==> reported
      ensures !reported ==> SymbolsOfNullable(nodes[s].revDep) <= checked - check
      ensures old(!reported && Quiet(nodes, order, check, checked, Dependencies(nodes[s]))) ==> !reported
      decreases nodes.Keys - checked, 7, 1
    {
      ghost var all, rev := Dependencies(nodes[s]), SymbolsOfNullable(nodes[s].revDep);
      assert rev <= all;
      if !reported && Quiet(nodes, order, check, checked, all) {
        QuietLater(nodes, order, check, checked, all, checked, rev);
      }
      r := CheckNullable(nodes[s].revDep);
    }

    /** The loop of sym_check_sym_deps over the properties. */
    method CheckProperties(s: Symbol) returns (r: Option<Symbol>)
      requires Placed(nodes, stack) && Valid() && s in nodes && stack != [] && stack[|stack| - 1] == s
      modifies this
      ensures Valid() && Searched()
      ensures r.Some? ==> reported
      ensures !reported ==> PropertiesSymbols(nodes[s].kind, nodes[s].props) <= checked - check
      ensures old(!reported && Quiet(nodes, order, check, checked, Dependencies(nodes[s]))) ==> !reported
      decreases nodes.Keys - checked, 7, 0
    {
      var kind, props := nodes[s].kind, nodes[s].props;
      ghost var seen, quiet := checked, !reported && Quiet(nodes, order, check, checked, Dependencies(nodes[s]));
      for k := 0 to |props|
        invariant Valid() && Searched()
        invariant !reported ==> PropertiesSymbols(kind, props[..k]) <= checked - check
        invariant quiet ==> !reported
      {
        r := CheckNext(s, k, seen, quiet);
        if r.Some? {
          return;
        }
      }
      assert props[..|props|] == props;
      r := None;
    }

    /** One round of that loop. */
    method CheckNext(s: Symbol, k: nat, ghost seen: set<Symbol>, ghost quiet: bool) returns (r: Option<Symbol>)
      requires Placed(nodes, stack) && Valid() && s in nodes && stack != [] && stack[|stack| - 1] == s
      requires k < |nodes[s].props| && seen <= checked
      requires !reported ==> PropertiesSymbols(nodes[s].kind, nodes[s].props[..k]) <= checked - check
      requires quiet ==> !reported && Quiet(nodes, order, check, seen, Dependencies(nodes[s]))
      modifies this
      ensures Valid() && Searched()
      ensures r.Some? ==> reported
      ensures !reported ==> PropertiesSymbols(nodes[s].kind, nodes[s].props[..k + 1]) <= checked - check
      ensures quiet ==> !reported
      decreases nodes.Keys - checked, 6, 2
    {
      var kind, props := nodes[s].kind, nodes[s].props;
      ghost var ranked, own := checked - check, PropertySymbols(kind, props[k]);
      PropertyInside(kind, props, k);
      PropertiesNext(kind, props, k);
      if quiet {
        QuietLater(nodes, order, check, seen, Dependencies(nodes[s]), checked, own);
      }
      r := CheckProperty(kind, props[k]);
      assert !reported ==> PropertiesSymbols(kind, props[..k]) <= ranked <= checked - check;
    }

    /** The parts of one property. */
    method CheckProperty(kind: Kind, p: Property) returns (r: Option<Symbol>)
      requires Placed(nodes, stack) && Valid() && Follow(nodes, stack, PropertySymbols(kind, p))
      modifies this
      ensures Valid() && Searched()
      ensures r.Some? ==> reported
      ensures !reported ==> PropertySymbols(kind, p) <= checked - check
      ensures old(!reported && Quiet(nodes, order, check, checked, PropertySymbols(kind, p))) ==> !reported
      decreases nodes.Keys - checked, 6, 1
    {
      r := None;
      if p.kind.Select? || p.kind.MemberList? {
        return;
      }
      ghost var all, seen := PropertySymbols(kind, p), checked;
      ghost var quiet := !reported && Quiet(nodes, order, check, checked, all);
      if quiet {
        QuietLater(nodes, order, check, checked, all, checked, SymbolsOfNullable(p.visible));
      }
      r := CheckNullable(p.visible);
      if r.None? && p.kind.DefaultValue? && !kind.Choice? {
        ghost var ranked := checked - check;
        if quiet {
          QuietLater(nodes, order, check, seen, all, checked, SymbolsOfNullable(p.expr));
        }
        r := CheckNullable(p.expr);
        assert !reported ==> SymbolsOfNullable(p.visible) <= ranked <= checked - check;
      }
    }

    method CheckNullable(p: Nullable) returns (r: Option<Symbol>)
      requires Placed(nodes, stack) && Valid() && Follow(nodes, stack, SymbolsOfNullable(p))
      modifies this
      ensures Valid() && Searched()
      ensures r.Some? ==> reported
      ensures !reported ==> SymbolsOfNullable(p) <= checked - check
      ensures old(!reported && Quiet(nodes, order, check, checked, SymbolsOfNullable(p))) ==> !reported
      decreases nodes.Keys - checked, 6, 0
    {
      match p
      case Null => r := None;
      case Ref(e) => r := CheckExprDeps(e);
    }

    /** sym_check_expr_deps */
    method CheckExprDeps(e: Expr) returns (r: Option<Symbol>)
      requires Placed(nodes, stack) && Valid() && Follow(nodes, stack, SymbolsOf(e))
      modifies this
      ensures Valid() && Searched()
      ensures r.Some? ==> reported
      ensures !reported ==> SymbolsOf(e) <= checked - check
      ensures old(!reported && Quiet(nodes, order, check, checked, SymbolsOf(e))) ==> !reported
      decreases nodes.Keys - checked, 5, e
    {
      match e
      case Sym(s) =>
        r := CheckOperand(s);
      case Compare(_, left, right) =>
        r := CheckOperands(left, right);
      case Not(a) =>
        r := CheckExprDeps(a);
      case Bin(_, left, right) =>
        ghost var seen, quiet := checked, !reported && Quiet(nodes, order, check, checked, SymbolsOf(e));
        if quiet {
          QuietLater(nodes, order, check, checked, SymbolsOf(e), checked, SymbolsOf(left));
        }
        r := CheckExprDeps(left);
        if r.None? {
          ghost var ranked := checked - check;
          if quiet {
            QuietLater(nodes, order, check, seen, SymbolsOf(e), checked, SymbolsOf(right));
          }
          r := CheckExprDeps(right);
          assert !reported ==> SymbolsOf(left) <= ranked <= checked - check;
        }
    }

    method CheckOperands(left: Symbol, right: Symbol) returns (r: Option<Symbol>)
      requires Placed(nodes, stack) && Valid() && Follow(nodes, stack, {left, right})
      modifies this
      ensures Valid() && Searched()
      ensures r.Some? ==> reported
      ensures !reported ==> {left, right} <= checked - check
      ensures old(!reported && Quiet(nodes, order, check, checked, {left, right})) ==> !reported
      decreases nodes.Keys - checked, 4
    {
      ghost var seen, quiet := checked, !reported && Quiet(nodes, order, check, checked, {left, right});
      if quiet {
        QuietLater(nodes, order, check, checked, {left, right}, checked, {left});
      }
      r := CheckOperand(left);
      if r.None? {
        ghost var ranked := checked - check;
        if quiet {
          QuietLater(nodes, order, check, seen, {left, right}, checked, {right});
        }
        r := CheckOperand(right);
        assert !reported ==> {left} <= ranked <= checked - check;
      }
    }

    method CheckOperand(s: Symbol) returns (r: Option<Symbol>)
      requires Placed(nodes, stack) && Valid() && Follow(nodes, stack, {s})
      modifies this
      ensures Valid() && Searched()
      ensures r.Some? ==> reported
      ensures !reported ==> {s} <= checked - check
      ensures old(!reported && Quiet(nodes, order, check, checked, {s})) ==> !reported
      decreases nodes.Keys - checked, 3
    {
      FollowCanCheck(nodes, stack, s);
      r := CheckDeps(s);
    }
  }

  lemma PlainGroup(nodes: Nodes, s: Symbol)
    requires s in nodes && nodes[s].kind.Plain?
    ensures Group(nodes, s) == {s} && Leader(nodes, s) == s
  {
  }

  lemma BlockedAlone(nodes: Nodes, s: Symbol)
    requires s in nodes && (nodes[s].kind.Plain? || nodes[s].kind == Choice([]))
    ensures Blocked(nodes, s) == {s} == Group(nodes, s) && Leader(nodes, s) == s
  {
  }

  predicate Highest(rank: map<Symbol, nat>, s: Symbol) {
    s in rank && forall x :: x in rank ==> rank[x] <= rank[s]
  }

  ghost predicate AllHighest(rank: map<Symbol, nat>, xs: set<Symbol>) {
    forall x {:trigger Highest(rank, x)} :: x in xs ==> Highest(rank, x)
  }

  /** The symbols of a group that are finished last. */
  function Last(nodes: Nodes, l: Symbol): set<Symbol> {
    if l in nodes && nodes[l].kind.Choice? && nodes[l].kind.members != [] then (set m | m in nodes[l].kind.members)
    else {l}
  }

  lemma RankHighest(reported: bool, rank: map<Symbol, nat>, xs: set<Symbol>)
    requires !reported ==> forall x :: x in rank ==> rank[x] < |rank|
    ensures !reported ==> AllHighest(RankNext(reported, rank, xs), xs)
  {
  }

  /** A symbol outside of choices, or a choice without members, is left. */
  lemma LeaveAlone(nodes: Nodes, check: set<Symbol>, checked: set<Symbol>, stack: seq<Symbol>, reported: bool,
                   rank: map<Symbol, nat>, s: Symbol)
    requires Closed(nodes) && Good(nodes, check, checked, stack + [s], reported, rank)
    requires s in nodes && (nodes[s].kind.Plain? || nodes[s].kind == Choice([])) && Outside(nodes, stack, s)
    requires !reported ==> Dependencies(nodes[s]) <= rank.Keys
    ensures Good(nodes, check - {s}, checked, stack, reported, RankNext(reported, rank, {s})) && s in check
  {
    BlockedAlone(nodes, s);
    Leave(nodes, check, checked, stack, reported, rank, s, {s});
  }

  lemma LeaveLast(nodes: Nodes, check: set<Symbol>, checked: set<Symbol>, stack: seq<Symbol>, reported: bool,
                  rank: map<Symbol, nat>, c: Symbol, ms: seq<Symbol>, members: set<Symbol>, others: set<Symbol>)
    requires Closed(nodes) && c in nodes && nodes[c].kind == Choice(ms) && ms != [] && Outside(nodes, stack, c)
    requires Good(nodes, check, checked, stack + [ms[0]], reported, rank) && AllOf(ms, members)
    requires !reported ==> MembersSymbols(nodes, ms) <= rank.Keys
    requires check == others + members && others !! members
    ensures Good(nodes, check - members, checked, stack, reported, RankNext(reported, rank, members))
    ensures check - members == others
  {
    MembersBlockedAll(nodes, c, ms);
    forall m | m in members
      ensures m in nodes && Dependencies(nodes[m]) <= MembersSymbols(nodes, ms)
    {
      assert ClosedAt(nodes, c);
      MemberInside(nodes, ms, m);
    }
    Leave(nodes, check, checked, stack, reported, rank, ms[0], members);
  }

  /** `members` are the symbols of the list. */
  predicate AllOf(ms: seq<Symbol>, members: set<Symbol>) {
    members == set m | m in ms
  }

  lemma NoMembers(members: set<Symbol>)
    requires AllOf([], members)
    ensures members == {}
  {
  }

  lemma GroupOfChoice(nodes: Nodes, c: Symbol, ms: seq<Symbol>, members: set<Symbol>)
    requires Closed(nodes) && c in nodes && nodes[c].kind == Choice(ms) && AllOf(ms, members)
    ensures c !in members && Group(nodes, c) == {c} + members && Leader(nodes, c) == c
  {
    assert ClosedAt(nodes, c);
  }

  lemma MembersBlockedAll(nodes: Nodes, c: Symbol, ms: seq<Symbol>)
    requires Closed(nodes) && c in nodes && nodes[c].kind == Choice(ms) && ms != []
    ensures ms[0] in nodes && Blocked(nodes, ms[0]) == (set m | m in ms) == Group(nodes, c) - {c}
    ensures Leader(nodes, ms[0]) == c && nodes[ms[0]].kind.Member?
  {
    assert ClosedAt(nodes, c);
    forall m
      ensures m in Blocked(nodes, ms[0]) <==> m in ms
    {
      if m in ms {
        BlockedExactly(nodes, ms[0], m);
      }
    }
  }

  lemma MemberUnvisited(nodes: Nodes, check: set<Symbol>, checked: set<Symbol>, stack: seq<Symbol>, m: Symbol)
    requires Closed(nodes) && GoodFlags(nodes, check, checked, stack) && m in nodes && nodes[m].kind.Member?
    requires CanCheck(nodes, stack, m) && m !in checked
    ensures var c := nodes[m].kind.choice;
      c in nodes && nodes[c].kind.Choice? && c !in checked && CanCheck(nodes, stack, c) && Leader(nodes, m) == c
    ensures m in Group(nodes, nodes[m].kind.choice)
  {
    assert ClosedAt(nodes, m) && FlagsAt(nodes, check, checked, stack, m);
    if stack != [] {
      assert stack[|stack| - 1] in stack && ClosedAt(nodes, stack[|stack| - 1]);
    }
  }

  lemma QuietNext(nodes: Nodes, order: map<Symbol, nat>, check: set<Symbol>, checked: set<Symbol>, later: set<Symbol>,
                  s: Symbol)
    requires s in nodes && Quiet(nodes, order, check, checked, {s}) && checked <= later
    ensures Quiet(nodes, order, check + {s}, later, Dependencies(nodes[s]))
  {
    assert RankedAt(Apart(nodes), order, s);
    VisitedLater(nodes, order, checked, later);
    forall x, y | x in Dependencies(nodes[s]) && y in check + {s}
      ensures LowerAt(order, x, y)
    {
      assert s in {s} && (y in check ==> LowerAt(order, s, y));
    }
  }

  /** If a member can be followed quietly, its whole group can. */
  lemma QuietMember(nodes: Nodes, order: map<Symbol, nat>, check: set<Symbol>, checked: set<Symbol>, m: Symbol)
    requires Closed(nodes) && m in nodes && nodes[m].kind.Member? && Quiet(nodes, order, check, checked, {m})
    ensures QuietChoice(nodes, order, check, checked, nodes[m].kind.choice)
  {
    var c := nodes[m].kind.choice;
    assert ClosedAt(nodes, m) && LevelAt(nodes, order, m);
    VisitedLater(nodes, order, checked, checked + {c});
    forall x, y | x in Group(nodes, c) && y in check
      ensures LowerAt(order, x, y)
    {
      assert m in {m} && LowerAt(order, m, y);
    }
  }

  /** The same for a choice that is compact. */
  lemma QuietCompact(nodes: Nodes, order: map<Symbol, nat>, check: set<Symbol>, checked: set<Symbol>,
                     stack: seq<Symbol>, c: Symbol)
    requires Closed(nodes) && c in nodes && nodes[c].kind.Choice? && c !in checked
    requires Quiet(nodes, order, check, checked, {c}) && GoodFlags(nodes, check, checked, stack)
    ensures QuietChoice(nodes, order, check, checked, c)
  {
    assert ClosedAt(nodes, c) && VisitedAt(nodes, order, checked, c);
    VisitedLater(nodes, order, checked, checked + {c});
    forall x, y | x in Group(nodes, c) && y in check
      ensures LowerAt(order, x, y)
    {
      assert c in {c} && LowerAt(order, c, y);
      assert y in nodes && FlagsAt(nodes, check, checked, stack, y);
      assert y !in Group(nodes, c);
    }
  }

  lemma QuietInside(nodes: Nodes, order: map<Symbol, nat>, others: set<Symbol>, checked: set<Symbol>,
                    later: set<Symbol>, c: Symbol)
    requires Closed(nodes) && c in nodes && nodes[c].kind.Choice?
    requires QuietChoice(nodes, order, others, checked, c) && checked + {c} <= later
    ensures Quiet(nodes, order, others + Group(nodes, c), later, Dependencies(nodes[c]))
    ensures Quiet(nodes, order, others + (Group(nodes, c) - {c}), later, MembersSymbols(nodes, nodes[c].kind.members))
  {
    VisitedLater(nodes, order, checked + {c}, later);
    LowerChoice(nodes, order, c);
    LowerMembers(nodes, order, c);
    assert RankedAt(Apart(nodes), order, c);
    forall x, y | x in Dependencies(nodes[c]) && y in others
      ensures LowerAt(order, x, y)
    {
      assert LowerAt(order, c, y);
    }
    forall x, y | x in MembersSymbols(nodes, nodes[c].kind.members) && y in others
      ensures LowerAt(order, x, y)
    {
      var m := MemberFrom(nodes, nodes[c].kind.members, x);
      assert RankedAt(Apart(nodes), order, m) && m in Group(nodes, c) && LowerAt(order, m, y);
    }
  }

  lemma LowerChoice(nodes: Nodes, order: map<Symbol, nat>, c: Symbol)
    requires Closed(nodes) && c in nodes && nodes[c].kind.Choice?
    requires Ranked(Apart(nodes), order) && nodes.Keys <= order.Keys && Leveled(nodes, order)
    ensures Lower(order, Dependencies(nodes[c]), Group(nodes, c))
  {
    assert ClosedAt(nodes, c) && RankedAt(Apart(nodes), order, c);
    forall m | m in Group(nodes, c) && m != c
      ensures m in order && order[c] < order[m]
    {
      assert LevelAt(nodes, order, m);
    }
  }

  lemma {:induction false} MemberFrom(nodes: Nodes, ms: seq<Symbol>, x: Symbol) returns (m: Symbol)
    requires x in MembersSymbols(nodes, ms)
    ensures m in ms && m in nodes && x in Dependencies(nodes[m])
  {
    m := ms[|ms| - 1];
    if !(m in nodes && x in Dependencies(nodes[m])) {
      m := MemberFrom(nodes, ms[..|ms| - 1], x);
    }
  }

  lemma LowerMembers(nodes: Nodes, order: map<Symbol, nat>, c: Symbol)
    requires Closed(nodes) && c in nodes && nodes[c].kind.Choice?
    requires Ranked(Apart(nodes), order) && nodes.Keys <= order.Keys && Leveled(nodes, order)
    ensures Lower(order, MembersSymbols(nodes, nodes[c].kind.members), Group(nodes, c) - {c})
  {
    assert ClosedAt(nodes, c);
    forall x, y | x in MembersSymbols(nodes, nodes[c].kind.members) && y in Group(nodes, c) - {c}
      ensures LowerAt(order, x, y)
    {
      var m := MemberFrom(nodes, nodes[c].kind.members, x);
      assert ClosedAt(nodes, m) && RankedAt(Apart(nodes), order, m) && LevelAt(nodes, order, m);
    }
  }

  // ----- the check of all symbols -----

  /** A path of single dependencies from a symbol to a member of a choice. */
  ghost predicate Reaches(nodes: Nodes, s: Symbol, c: Symbol, p: seq<Symbol>) {
    && c in nodes && nodes[c].kind.Choice? && p != [] && IsPath(Apart(nodes), p)
    && p[0] == s && p[|p| - 1] in nodes[c].kind.members
  }

  /** Whoever depends on a choice, its own members aside, also depends on one of its members, if only
      indirectly. An expression cannot name a choice: a symbol gets it from the block that it stands in,
      from a member that selects it, or from a submenu below a member. */
  ghost predicate SecludedAt(nodes: Nodes, s: Symbol) {
    && s in nodes
    && forall c {:trigger c in Outward(nodes, s)} ::
         c in Outward(nodes, s) && c in nodes && nodes[c].kind.Choice? && nodes[c].kind.members != [] ==>
           exists p :: Reaches(nodes, s, c, p)
  }

  ghost predicate Secluded(nodes: Nodes) {
    forall s {:trigger SecludedAt(nodes, s)} :: s in nodes ==> SecludedAt(nodes, s)
  }

  /** The rank of a group is that of its members, which are finished together. */
  function GroupRank(nodes: Nodes, rank: map<Symbol, nat>, l: Symbol): nat {
    var last := if l in nodes && nodes[l].kind.Choice?
      && nodes[l].kind.members != [] then nodes[l].kind.members[0] else l;
    if last in rank then rank[last] else 0
  }

  function GroupRanks(nodes: Nodes, rank: map<Symbol, nat>): map<Symbol, nat> {
    map l | l in Grouped(nodes) :: GroupRank(nodes, rank, l)
  }

  /** The rank of a symbol does not exceed that of its group, and equals it unless the symbol is a
      choice. */
  lemma RankInGroup(nodes: Nodes, rank: map<Symbol, nat>, s: Symbol)
    requires Closed(nodes) && rank.Keys == nodes.Keys && Leveled(nodes, rank) && s in nodes
    ensures rank[s] <= GroupRank(nodes, rank, Leader(nodes, s))
    ensures !nodes[s].kind.Choice? ==> rank[s] == GroupRank(nodes, rank, Leader(nodes, s))
  {
    var l := Leader(nodes, s);
    LeaderIsGood(nodes, s);
    assert ClosedAt(nodes, s) && ClosedAt(nodes, l);
    if nodes[l].kind.Choice? && nodes[l].kind.members != [] {
      assert LevelAt(nodes, rank, nodes[l].kind.members[0]) && LevelAt(nodes, rank, s);
    }
  }

  /** The members of a choice that a symbol depends on are finished before it. */
  lemma MembersAreBelow(nodes: Nodes, rank: map<Symbol, nat>, x: Symbol, c: Symbol)
    requires Closed(nodes) && SecludedAt(nodes, x) && c in Outward(nodes, x)
    requires c in nodes && nodes[c].kind.Choice? && nodes[c].kind.members != []
    requires rank.Keys == nodes.Keys && Ranked(Apart(nodes), rank) && Leveled(nodes, rank)
    ensures GroupRank(nodes, rank, c) < rank[x]
  {
    var p :| Reaches(nodes, x, c, p);
    var m := p[|p| - 1];
    assert ClosedAt(nodes, c) && LevelAt(nodes, rank, m);
    assert |p| > 1 && EdgeAt(Apart(nodes), p, 0);
    forall k | 0 <= k < |p[1..]| - 1
      ensures EdgeAt(Apart(nodes), p[1..], k)
    {
      assert EdgeAt(Apart(nodes), p, k + 1);
    }
    RankedEdge(Apart(nodes), rank, x, p[1]);
    RankFalls(Apart(nodes), rank, p[1..]);
  }

  /** If the symbols are ranked apart, the groups are ranked, too. */
  lemma GroupsAreRanked(nodes: Nodes, rank: map<Symbol, nat>)
    requires Closed(nodes) && Secluded(nodes)
    requires rank.Keys == nodes.Keys && Ranked(Apart(nodes), rank) && Leveled(nodes, rank)
    ensures Ranked(Grouped(nodes), GroupRanks(nodes, rank))
  {
    forall l | l in Grouped(nodes)
      ensures RankedAt(Grouped(nodes), GroupRanks(nodes, rank), l)
    {
      forall b | b in Grouped(nodes)[l]
        ensures b in Grouped(nodes) && GroupRank(nodes, rank, b) < GroupRank(nodes, rank, l)
      {
        assert Edge(Grouped(nodes), l, b);
        var x, y := GroupEdgeFrom(nodes, l, b);
        assert RankedAt(Apart(nodes), rank, x) && SecludedAt(nodes, x);
        LeaderIsGood(nodes, y);
        RankInGroup(nodes, rank, x);
        RankInGroup(nodes, rank, y);
        if nodes[y].kind.Choice? && nodes[y].kind.members != [] {
          MembersAreBelow(nodes, rank, x, y);
        }
      }
    }
  }

  /** sym_check_deps on every symbol, in any order. What is reported is a cycle of groups; if nothing is,
      the symbols can be ranked one by one. If whoever depends on a choice depends on a member, too, the
      report is reached exactly if the groups have a cycle. */
  method CheckAll(nodes: Nodes) returns (reported: bool, ghost rank: map<Symbol, nat>)
    requires Closed(nodes)
    ensures reported ==> Cyclic(Grouped(nodes))
    ensures !reported ==> rank.Keys == nodes.Keys && Ranked(Apart(nodes), rank) && Leveled(nodes, rank)
    ensures Secluded(nodes) ==> (reported <==> Cyclic(Grouped(nodes)))
  {
    var c := new Checker(nodes, map[]);
    var todo := nodes.Keys;
    while todo != {}
      invariant c.nodes == nodes && todo <= nodes.Keys && fresh(c)
      invariant Placed(nodes, c.stack) && c.Valid() && c.stack == [] && c.check == {}
      invariant !c.reported ==> nodes.Keys - todo <= c.checked
      decreases todo
    {
      var s :| s in todo;
      todo := todo - {s};
      var r := c.CheckDeps(s);
    }
    reported, rank := c.reported, c.rank;
    if !reported && Secluded(nodes) {
      GroupsAreRanked(nodes, rank);
      RankedIsAcyclic(Grouped(nodes), GroupRanks(nodes, rank));
    }
  }

  // ----- a cycle that is found or missed -----

  const C1 := Symbol(10, Boolean, false)
  const C2 := Symbol(11, Boolean, false)
  const SHARED := Symbol(12, Boolean, false)
  const SECOND := Symbol(13, Boolean, false)

  /** A symbol with one entry in each of two choices, which is a member of the first one only, and a member
      of the second choice that depends on this symbol. */
  const ROUND: Nodes :=
    map[SYMBOL_MOD := Node(Plain, Null, []),
        C1 := Node(Choice([SHARED]), Ref(Sym(SYMBOL_MOD)), [Property(Prompt, Null, Null)]),
        C2 := Node(Choice([SECOND]), Ref(Sym(SYMBOL_MOD)), [Property(Prompt, Null, Null)]),
        SHARED := Node(Member(C1), Null, [Property(Prompt, Ref(Sym(C1)), Null), Property(Prompt, Ref(Sym(C2)), Null)]),
        SECOND := Node(Member(C2), Null, [Property(Prompt, Ref(Bin(AndOp, Sym(C2), Sym(SHARED))), Null)])]

  /** What is used of these symbols. */
  ghost predicate IsRound(nodes: Nodes) {
    && nodes.Keys == {SYMBOL_MOD, C1, C2, SHARED, SECOND} && Closed(nodes) && nodes[SYMBOL_MOD].kind.Plain?
    && nodes[C1].kind == Choice([SHARED]) && nodes[C2].kind == Choice([SECOND])
    && nodes[SHARED].kind == Member(C1) && nodes[SECOND].kind == Member(C2)
    && Dependencies(nodes[SYMBOL_MOD]) == {}
    && Dependencies(nodes[C1]) == {SYMBOL_MOD} && Dependencies(nodes[C2]) == {SYMBOL_MOD}
    && Dependencies(nodes[SHARED]) == {C1, C2} && Dependencies(nodes[SECOND]) == {C2, SHARED}
  }

  lemma OneProperty(kind: Kind, p: Property)
    ensures PropertiesSymbols(kind, [p]) == PropertySymbols(kind, p)
  {
    assert [p][..0] == [] && PropertiesSymbols(kind, []) == {};
  }

  lemma TwoProperties(kind: Kind, p: Property, q: Property)
    ensures PropertiesSymbols(kind, [p, q]) == PropertySymbols(kind, p) + PropertySymbols(kind, q)
  {
    OneProperty(kind, p);
    assert [p, q][..1] == [p];
  }

  lemma RoundChoices()
    ensures Dependencies(ROUND[C1]) == {SYMBOL_MOD} && Dependencies(ROUND[C2]) == {SYMBOL_MOD}
  {
    OneProperty(Choice([SHARED]), Property(Prompt, Null, Null));
    OneProperty(Choice([SECOND]), Property(Prompt, Null, Null));
  }

  lemma RoundMembers()
    ensures Dependencies(ROUND[SHARED]) == {C1, C2} && Dependencies(ROUND[SECOND]) == {C2, SHARED}
  {
    TwoProperties(Member(C1), Property(Prompt, Ref(Sym(C1)), Null), Property(Prompt, Ref(Sym(C2)), Null));
    OneProperty(Member(C2), Property(Prompt, Ref(Bin(AndOp, Sym(C2), Sym(SHARED))), Null));
    assert SymbolsOf(Bin(AndOp, Sym(C2), Sym(SHARED))) == {C2, SHARED};
  }

  lemma RoundClosedAt(s: Symbol)
    requires s in ROUND && Dependencies(ROUND[s]) <= ROUND.Keys
    ensures ClosedAt(ROUND, s)
  {
  }

  lemma RoundFacts()
    ensures IsRound(ROUND)
  {
    RoundChoices();
    RoundMembers();
    assert Dependencies(ROUND[SYMBOL_MOD]) == {} && ROUND.Keys == {SYMBOL_MOD, C1, C2, SHARED, SECOND};
    forall s | s in ROUND
      ensures ClosedAt(ROUND, s)
    {
      RoundClosedAt(s);
    }
  }

  const ROUND_ORDER: map<Symbol, nat> := map[SYMBOL_MOD := 0, C2 := 1, C1 := 2, SHARED := 3, SECOND := 4]

  lemma RoundGroups(nodes: Nodes)
    requires IsRound(nodes)
    ensures Group(nodes, C1) == {C1, SHARED} && Group(nodes, C2) == {C2, SECOND}
  {
  }

  lemma RoundRankedAt(nodes: Nodes, a: Symbol)
    requires IsRound(nodes) && a in nodes
    ensures RankedAt(Apart(nodes), ROUND_ORDER, a)
  {
    assert Apart(nodes)[a] == Dependencies(nodes[a]);
    assert ROUND_ORDER.Keys == {SYMBOL_MOD, C1, C2, SHARED, SECOND};
  }

  lemma RoundLevelAt(nodes: Nodes, m: Symbol)
    requires IsRound(nodes)
    ensures LevelAt(nodes, ROUND_ORDER, m)
  {
    RoundGroups(nodes);
  }

  lemma RoundIsRanked(nodes: Nodes)
    requires IsRound(nodes)
    ensures Ranked(Apart(nodes), ROUND_ORDER) && nodes.Keys <= ROUND_ORDER.Keys && Leveled(nodes, ROUND_ORDER)
  {
    assert ROUND_ORDER.Keys == {SYMBOL_MOD, C1, C2, SHARED, SECOND};
    forall a | a in ROUND_ORDER
      ensures RankedAt(Apart(nodes), ROUND_ORDER, a)
    {
      RoundRankedAt(nodes, a);
    }
    forall m
      ensures LevelAt(nodes, ROUND_ORDER, m)
    {
      RoundLevelAt(nodes, m);
    }
  }

  /** The first choice is compact. */
  lemma RoundVisited(nodes: Nodes, checked: set<Symbol>)
    requires IsRound(nodes) && C2 in checked
    ensures ChoicesVisited(nodes, ROUND_ORDER, checked)
  {
    RoundGroups(nodes);
    forall c
      ensures VisitedAt(nodes, ROUND_ORDER, checked, c)
    {
    }
  }

  lemma RoundIsCyclic(nodes: Nodes)
    requires IsRound(nodes)
    ensures Cyclic(Grouped(nodes))
  {
    var g := Grouped(nodes);
    GroupEdge(nodes, SHARED, C2);
    GroupEdge(nodes, SECOND, SHARED);
    var p := [C1, C2];
    assert EdgeAt(g, p, 0) && Cycle(g, p);
  }

  /** Nothing is under way, and nothing has been reported. */
  ghost predicate Idle(c: Checker)
    reads c
  {
    && Placed(c.nodes, c.stack) && c.Valid() && c.stack == [] && c.check == {} && !c.reported
    && Ranked(Apart(c.nodes), c.order) && c.nodes.Keys <= c.order.Keys && Leveled(c.nodes, c.order)
  }

  /** If the search begins with the second choice, the cycle is not reported: once the dependencies of that
      choice itself are done, meeting it again is no error. */
  method MissesCycle() returns (c: Checker)
    ensures fresh(c) && c.nodes == ROUND && c.checked == ROUND.Keys && !c.reported && Cyclic(Grouped(ROUND))
  {
    RoundFacts();
    RoundIsCyclic(ROUND);
    c := new Checker(ROUND, ROUND_ORDER);
    BeginWithSecond(c);
    AllVisited(c.nodes, c.check, c.checked, c.rank);
  }

  method BeginWithSecond(c: Checker)
    requires Placed(c.nodes, c.stack) && c.Valid() && c.stack == [] && c.check == {} && !c.reported
    requires IsRound(c.nodes) && c.order == ROUND_ORDER && C2 !in c.checked
    modifies c
    ensures Idle(c) && C2 in c.checked
  {
    RoundIsRanked(c.nodes);
    RoundVisited(c.nodes, c.checked + {C2});
    var r := c.CheckDeps(C2);
  }

  /** The rest is reached from there. */
  lemma AllVisited(nodes: Nodes, check: set<Symbol>, checked: set<Symbol>, rank: map<Symbol, nat>)
    requires IsRound(nodes) && Good(nodes, check, checked, [], false, rank) && check == {} && C2 in checked
    ensures checked == nodes.Keys
  {
    assert FlagsAt(nodes, check, checked, [], SECOND);
    assert RankedAt(Apart(nodes), rank, SECOND) && RankedAt(Apart(nodes), rank, SHARED);
    assert RankedAt(Apart(nodes), rank, C1);
  }

  /** If it begins with the first choice, the same cycle is reported. */
  method FindsCycle() returns (c: Checker)
    ensures fresh(c) && c.nodes == ROUND && c.reported
  {
    RoundFacts();
    c := new Checker(ROUND, ROUND_ORDER);
    BeginWithFirst(c);
  }

  method BeginWithFirst(c: Checker)
    requires Placed(c.nodes, c.stack) && c.Valid() && c.stack == [] && c.check == {} && c.checked == {}
    requires IsRound(c.nodes)
    modifies c
    ensures c.reported
  {
    var r := c.CheckDeps(C1);
    if !c.reported {
      SharedIsNotLast(c.nodes, c.check, c.checked, c.rank);
    }
  }

  /** The member of the second choice would have been finished after it. */
  lemma SharedIsNotLast(nodes: Nodes, check: set<Symbol>, checked: set<Symbol>, rank: map<Symbol, nat>)
    requires IsRound(nodes) && Good(nodes, check, checked, [], false, rank) && check == {}
    ensures !AllHighest(rank, Last(nodes, C1))
  {
    if SHARED in rank {
      assert SHARED in Last(nodes, C1);
      assert RankedAt(Apart(nodes), rank, SHARED) && C2 in rank;
      assert FlagsAt(nodes, check, checked, [], SECOND) && FlagsAt(nodes, check, checked, [], C2);
      assert RankedAt(Apart(nodes), rank, SECOND) && !Highest(rank, SHARED);
    } else {
      assert SHARED in Last(nodes, C1) && !Highest(rank, SHARED);
    }
  }

  // ----- what the check means for the calculation of values -----

  function NodeOf(i: Info): Node {
    Node(i.kind, i.revDep,
         seq(|i.prompts|, k requires 0 <= k < |i.prompts| => Property(Prompt, i.prompts[k], Null))
         + seq(|i.defaults|, k requires 0 <= k < |i.defaults| =>
             Property(DefaultValue, i.defaults[k].condition, Ref(i.defaults[k].value)))
         + seq(|i.ranges|, k requires 0 <= k < |i.ranges| => Property(RangeLimit, i.ranges[k].condition, Null)))
  }

  function NodesOf(info: map<Symbol, Info>): Nodes {
    map s | s in info :: NodeOf(info[s])
  }

  /** The operands of a calculation that the check does not look at. */
  function Unchecked(i: Info): set<Symbol> {
    RangeBounds(i.ranges) + SymbolsOfNullable(i.dirDep) + SymbolsOfNullable(i.implied)
  }

  lemma PromptInside(i: Info, x: Symbol)
    requires x in PromptSymbols(i.prompts)
    ensures x in Dependencies(NodeOf(i))
  {
    var p :| p in i.prompts && x in SymbolsOfNullable(p);
    var k :| 0 <= k < |i.prompts| && i.prompts[k] == p;
    var props := NodeOf(i).props;
    assert props[k] == Property(Prompt, p, Null);
    PropertyInside(i.kind, props, k);
  }

  lemma DefaultInside(i: Info, x: Symbol)
    requires x in DefaultConditionSymbols(i.defaults) || (!i.kind.Choice? && x in DefaultValueSymbols(i.defaults))
    ensures x in Dependencies(NodeOf(i))
  {
    var d :| d in i.defaults && (x in SymbolsOfNullable(d.condition) || (!i.kind.Choice? && x in SymbolsOf(d.value)));
    var k :| 0 <= k < |i.defaults| && i.defaults[k] == d;
    var props := NodeOf(i).props;
    assert props[|i.prompts| + k] == Property(DefaultValue, d.condition, Ref(d.value));
    PropertyInside(i.kind, props, |i.prompts| + k);
  }

  lemma RangeInside(i: Info, x: Symbol)
    requires x in RangeConditionSymbols(i.ranges)
    ensures x in Dependencies(NodeOf(i))
  {
    var r :| r in i.ranges && x in SymbolsOfNullable(r.condition);
    var k :| 0 <= k < |i.ranges| && i.ranges[k] == r;
    var props := NodeOf(i).props;
    assert props[|i.prompts| + |i.defaults| + k] == Property(RangeLimit, r.condition, Null);
    PropertyInside(i.kind, props, |i.prompts| + |i.defaults| + k);
  }

  /** Everything else that a calculation needs is a dependency. */
  lemma OperandsAreChecked(i: Info)
    ensures Operands(i) <= Dependencies(NodeOf(i)) + Unchecked(i)
  {
    forall x | x in Operands(i) && x !in Unchecked(i)
      ensures x in Dependencies(NodeOf(i))
    {
      if x in PromptSymbols(i.prompts) {
        PromptInside(i, x);
      } else if x in RangeConditionSymbols(i.ranges) {
        RangeInside(i, x);
      } else if x !in SymbolsOfNullable(i.revDep) {
        DefaultInside(i, x);
      }
    }
  }

  lemma {:induction false} PropertyFrom(kind: Kind, ps: seq<Property>, x: Symbol) returns (k: nat)
    requires x in PropertiesSymbols(kind, ps)
    ensures k < |ps| && x in PropertySymbols(kind, ps[k])
  {
    if x in PropertySymbols(kind, ps[|ps| - 1]) {
      k := |ps| - 1;
    } else {
      k := PropertyFrom(kind, ps[..|ps| - 1], x);
    }
  }

  lemma DependenciesAreOperands(i: Info)
    ensures Dependencies(NodeOf(i)) <= Operands(i)
  {
    forall x | x in Dependencies(NodeOf(i))
      ensures x in Operands(i)
    {
      if x !in SymbolsOfNullable(i.revDep) {
        var k := PropertyFrom(i.kind, NodeOf(i).props, x);
        if k < |i.prompts| {
          assert i.prompts[k] in i.prompts;
        } else if k < |i.prompts| + |i.defaults| {
          assert i.defaults[k - |i.prompts|] in i.defaults;
        } else {
          assert i.ranges[k - |i.prompts| - |i.defaults|] in i.ranges;
        }
      }
    }
  }

  /** What is known of a symbol besides: direct dependencies, imply and ranges look only at dependencies
      that are checked, and choices and members are as menu_finalize leaves them. */
  ghost predicate Covered(info: map<Symbol, Info>, s: Symbol)
    requires s in info
  {
    && Unchecked(info[s]) <= Dependencies(NodeOf(info[s]))
    && match info[s].kind
       case Plain => true
       case Choice(ms) =>
         && MandatoryChoice(s, info[s])
         && forall d :: d in info[s].defaults ==> d.value.Sym? && d.value.sym in ms
       case Member(c) =>
         s.typ == Boolean && !info[s].auto && forall p :: p in info[s].prompts ==> ChoicePrompt(c, p)
  }

  ghost predicate AllCovered(info: map<Symbol, Info>) {
    forall s {:trigger Covered(info, s)} :: s in info ==> Covered(info, s)
  }

  /** Ranks of symbols from those of their groups. */
  function Ranks(info: map<Symbol, Info>, groups: map<Symbol, nat>): map<Symbol, nat> {
    map s | s in info :: RankOf(NodesOf(info), groups, s)
  }

  function RankOf(nodes: Nodes, groups: map<Symbol, nat>, s: Symbol): nat {
    var l := Leader(nodes, s);
    2 * (if l in groups then groups[l] else 0) + if l == s then 0 else 1
  }

  /** What a symbol depends on, apart from its own choice, has a lower rank than its whole group. */
  lemma OutwardFalls(info: map<Symbol, Info>, groups: map<Symbol, nat>, x: Symbol, y: Symbol)
    requires Closed(NodesOf(info)) && x in info && y in Outward(NodesOf(info), x)
    requires groups.Keys == Grouped(NodesOf(info)).Keys && Ranked(Grouped(NodesOf(info)), groups)
    ensures y in info && RankOf(NodesOf(info), groups, y) < RankOf(NodesOf(info), groups, Leader(NodesOf(info), x))
    ensures RankOf(NodesOf(info), groups, Leader(NodesOf(info), x)) <= RankOf(NodesOf(info), groups, x)
  {
    var nodes := NodesOf(info);
    GroupEdge(nodes, x, y);
    LeaderIsGood(nodes, x);
    LeaderIsGood(nodes, y);
    RankedEdge(Grouped(nodes), groups, Leader(nodes, x), Leader(nodes, y));
  }

  lemma DependencyFalls(info: map<Symbol, Info>, groups: map<Symbol, nat>, x: Symbol, y: Symbol)
    requires Closed(NodesOf(info)) && x in info && y in Dependencies(NodeOf(info[x]))
    requires groups.Keys == Grouped(NodesOf(info)).Keys && Ranked(Grouped(NodesOf(info)), groups)
    ensures y in info && RankOf(NodesOf(info), groups, y) < RankOf(NodesOf(info), groups, x)
  {
    var nodes := NodesOf(info);
    assert ClosedAt(nodes, x);
    if nodes[x].kind.Member? && y == nodes[x].kind.choice {
      LeaderIsGood(nodes, x);
    } else {
      OutwardFalls(info, groups, x, y);
    }
  }

  /** If the groups can be ranked, the plain values are well defined. */
  lemma RankedIsWellFounded(info: map<Symbol, Info>, groups: map<Symbol, nat>, modules: Tristates.Tristate)
    requires AllCovered(info) && Closed(NodesOf(info))
    requires forall t {:trigger TristateSymbol(t)} :: TristateSymbol(t) in info && info[TristateSymbol(t)].kind == Plain
    requires groups.Keys == Grouped(NodesOf(info)).Keys && Ranked(Grouped(NodesOf(info)), groups)
    ensures WellFounded(Graph(info, Ranks(info, groups), modules))
  {
    var rank := Ranks(info, groups);
    forall s | s in info
      ensures GoodSymbol(Graph(info, rank, modules), s)
    {
      GoodByRanks(info, groups, modules, s);
    }
    AllGood(info, rank, modules);
  }

  lemma AllGood(info: map<Symbol, Info>, rank: map<Symbol, nat>, modules: Tristates.Tristate)
    requires info.Keys == rank.Keys
    requires forall t {:trigger TristateSymbol(t)} :: TristateSymbol(t) in info && info[TristateSymbol(t)].kind == Plain
    requires forall s {:trigger GoodSymbol(Graph(info, rank, modules), s)} :: s in info ==>
      GoodSymbol(Graph(info, rank, modules), s)
    ensures WellFounded(Graph(info, rank, modules))
  {
  }

  lemma GoodByRanks(info: map<Symbol, Info>, groups: map<Symbol, nat>, modules: Tristates.Tristate, s: Symbol)
    requires AllCovered(info) && Closed(NodesOf(info)) && s in info
    requires groups.Keys == Grouped(NodesOf(info)).Keys && Ranked(Grouped(NodesOf(info)), groups)
    ensures GoodSymbol(Graph(info, Ranks(info, groups), modules), s)
  {
    var g, nodes := Graph(info, Ranks(info, groups), modules), NodesOf(info);
    assert Covered(info, s) && ClosedAt(nodes, s);
    OperandsAreChecked(info[s]);
    forall x | x in Operands(info[s])
      ensures x in info && g.rank[x] < g.rank[s]
    {
      DependencyFalls(info, groups, s, x);
    }
    match info[s].kind
    case Plain =>
    case Choice(ms) =>
    case Member(c) =>
      forall x | x in PromptSymbols(info[s].prompts) - {c}
        ensures x in info && g.rank[x] < g.rank[c]
      {
        PromptInside(info[s], x);
        OutwardFalls(info, groups, s, x);
      }
      assert ClosedAt(nodes, c);
      MemberAfterChoice(info, groups, s);
  }

  lemma MemberAfterChoice(info: map<Symbol, Info>, groups: map<Symbol, nat>, m: Symbol)
    requires Closed(NodesOf(info)) && m in info && info[m].kind.Member?
    ensures var c := info[m].kind.choice;
      c in info && RankOf(NodesOf(info), groups, c) < RankOf(NodesOf(info), groups, m)
  {
    var nodes := NodesOf(info);
    assert ClosedAt(nodes, m);
    LeaderIsGood(nodes, m);
  }

  /** If nothing is reported of a table in which whoever depends on a choice depends on a member, too, its
      values are well defined. */
  lemma UnreportedIsWellFounded(info: map<Symbol, Info>, rank: map<Symbol, nat>, modules: Tristates.Tristate)
    requires AllCovered(info) && Closed(NodesOf(info)) && Secluded(NodesOf(info))
    requires forall t {:trigger TristateSymbol(t)} :: TristateSymbol(t) in info && info[TristateSymbol(t)].kind == Plain
    requires rank.Keys == info.Keys && Ranked(Apart(NodesOf(info)), rank) && Leveled(NodesOf(info), rank)
    ensures WellFounded(Graph(info, Ranks(info, GroupRanks(NodesOf(info), rank)), modules))
  {
    GroupsAreRanked(NodesOf(info), rank);
    RankedIsWellFounded(info, GroupRanks(NodesOf(info), rank), modules);
  }

  /** Conversely, the groups of a table with well-defined values have no cycle, and so nothing is reported,
      provided that members depend on nothing but what their prompts name. */
  lemma WellFoundedIsAcyclic(g: Graph)
    requires WellFounded(g)
    requires forall m :: m in g.info && g.info[m].kind.Member? ==>
      Dependencies(NodeOf(g.info[m])) <= PromptSymbols(g.info[m].prompts)
    ensures Closed(NodesOf(g.info)) && !Cyclic(Grouped(NodesOf(g.info)))
  {
    var nodes := NodesOf(g.info);
    WellFoundedIsClosed(g);
    var groups := map l | l in Grouped(nodes) :: g.rank[l];
    forall l | l in Grouped(nodes)
      ensures RankedAt(Grouped(nodes), groups, l)
    {
      forall b | b in Grouped(nodes)[l]
        ensures b in Grouped(nodes) && g.rank[b] < g.rank[l]
      {
        assert Edge(Grouped(nodes), l, b);
        var x, y := GroupEdgeFrom(nodes, l, b);
        LeaderIsGood(nodes, y);
        OutwardBelow(g, x, y);
      }
    }
    RankedIsAcyclic(Grouped(nodes), groups);
  }

  lemma WellFoundedIsClosed(g: Graph)
    requires WellFounded(g)
    ensures Closed(NodesOf(g.info))
  {
    forall s | s in g.info
      ensures ClosedAt(NodesOf(g.info), s)
    {
      assert GoodSymbol(g, s);
      DependenciesAreOperands(g.info[s]);
    }
  }

  lemma OutwardBelow(g: Graph, x: Symbol, y: Symbol)
    requires WellFounded(g) && x in g.info && y in Outward(NodesOf(g.info), x)
    requires g.info[x].kind.Member? ==> Dependencies(NodeOf(g.info[x])) <= PromptSymbols(g.info[x].prompts)
    ensures y in g.info && Leader(NodesOf(g.info), x) in g.info && Leader(NodesOf(g.info), y) in g.info
    ensures g.rank[Leader(NodesOf(g.info), y)] < g.rank[Leader(NodesOf(g.info), x)]
  {
    assert GoodSymbol(g, x);
    DependenciesAreOperands(g.info[x]);
    assert y in g.info && g.rank[y] < g.rank[Leader(NodesOf(g.info), x)];
    LeaderBelow(g, y);
  }

  lemma LeaderBelow(g: Graph, y: Symbol)
    requires WellFounded(g) && y in g.info
    ensures Leader(NodesOf(g.info), y) in g.info && g.rank[Leader(NodesOf(g.info), y)] <= g.rank[y]
  {
    assert GoodSymbol(g, y);
  }
}
