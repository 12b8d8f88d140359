/** The cached state of the symbols, and what it means for it to be consistent with the plain
    values while some calculations are under way. */
module EvaluatorState {
  import opened Tristates
  import opened Expressions
  import opened SymbolGraph

  /** The changing part of a struct symbol. `valid` is SYMBOL_VALID, `write` is SYMBOL_WRITE,
      `tri`, `val` and `pick` are curr (a choice keeps its member in curr.val). */
  datatype Cell = Cell(valid: bool, write: bool, tri: Tristate, val: string, pick: Option<Symbol>,
                       visible: Tristate, dirDep: Tristate, revDep: Tristate, implied: Tristate,
                       user: UserValue)

  type State = map<Symbol, Cell>

  /** Calculating a choice may drop the user flag of the choice itself, which has no influence on
      a mandatory choice. */
  predicate SameUser(i: Info, a: UserValue, b: UserValue) {
    if i.kind.Choice? then a.pick == b.pick else a == b
  }

  predicate Matches(c: Cell, r: Calculated) {
    && c.tri == r.tri && c.val == r.val && c.pick == r.pick
    && c.visible == r.visible && c.dirDep == r.dirDep && c.revDep == r.revDep && c.implied == r.implied
  }

  predicate MembersSeen(w: World, st: State, t: Symbol)
    requires t in w.g.info && w.g.info[t].kind.Choice?
  {
    forall m :: m in w.g.info[t].kind.members && m in st && m in w.plain ==> st[m].visible == w.plain[m].visible
  }

  /** A finished symbol holds its plain value. The members of a finished visible choice have been
      looked at, and the choice of a finished visible member is finished or being calculated. */
  predicate Settled(w: World, st: State, t: Symbol)
    requires t in w.g.info && t in st && t in w.plain
  {
    && Matches(st[t], w.plain[t])
    && (w.g.info[t].kind.Member? && st[t].visible != No ==>
          w.g.info[t].kind.choice in st && st[w.g.info[t].kind.choice].valid)
    && (w.g.info[t].kind.Choice? && st[t].visible == Yes ==> MembersSeen(w, st, t))
  }

  /** sym_calc_value leaves these alone. */
  predicate Untyped(s: Symbol) {
    s.typ == UnknownType || s.typ == OtherType
  }

  /** Fields that no calculation ever assigns keep their initial value. */
  predicate Untouched(s: Symbol, i: Info, c: Cell) {
    && (i.kind.Member? ==> c.dirDep == No && c.revDep == No && c.implied == No)
    && (Untyped(s) ==>
          c.visible == No && c.dirDep == No && c.revDep == No && c.implied == No && c.pick == None && !c.write)
  }

  /** What holds of one symbol while the symbols in `busy` are in the middle of their calculation. */
  predicate Fine(w: World, st: State, busy: set<Symbol>, t: Symbol) {
    && t in w.g.info && t in st && t in w.u && t in w.plain
    && SameUser(w.g.info[t], st[t].user, w.u[t])
    && Untouched(t, w.g.info[t], st[t])
    && (t in busy ==> st[t].valid)
    && (IsTristateConstant(t) ==> st[t].valid && t !in busy)
    && (st[t].valid && t !in busy ==> Settled(w, st, t))
  }

  ghost predicate Consistent(w: World, st: State, busy: set<Symbol>) {
    && GoodWorld(w) && st.Keys == w.g.info.Keys
    && forall t {:trigger Fine(w, st, busy, t)} :: t in w.g.info ==> Fine(w, st, busy, t)
  }

  /** What calculating symbols of a rank below `bound` does to one symbol. */
  predicate Kept(rank: nat, a: Cell, b: Cell, r: Calculated, isBusy: bool, bound: nat) {
    && (a.valid ==> b.valid)
    && (b.visible == a.visible || b.visible == r.visible)
    && (a.valid || isBusy ==>
          && b.tri == a.tri && b.val == a.val && b.pick == a.pick
          && b.dirDep == a.dirDep && b.revDep == a.revDep && b.implied == a.implied)
    && (a.valid && !isBusy ==> b.visible == a.visible && b.write == a.write)
    && (isBusy ==> b.write == a.write || (b.write && r.visible != No))
    && (!a.valid && b.valid ==> rank < bound && (!isBusy ==> b.write == r.write))
  }

  predicate KeptAt(w: World, a: State, b: State, busy: set<Symbol>, bound: nat, t: Symbol) {
    && t in w.g.rank && t in a && t in b && t in w.plain
    && Kept(w.g.rank[t], a[t], b[t], w.plain[t], t in busy, bound)
  }

  ghost predicate Frame(w: World, a: State, b: State, busy: set<Symbol>, bound: nat, except: set<Symbol>) {
    && a.Keys == w.g.info.Keys && b.Keys == w.g.info.Keys
    && forall t {:trigger KeptAt(w, a, b, busy, bound, t)} ::
         t in w.g.info && t !in except ==> KeptAt(w, a, b, busy, bound, t)
  }

  lemma FrameReflexive(w: World, a: State, busy: set<Symbol>, bound: nat)
    requires GoodWorld(w) && a.Keys == w.g.info.Keys
    ensures Frame(w, a, a, busy, bound, {})
  {
  }

  lemma FrameTransitive(w: World, a: State, b: State, c: State, busy: set<Symbol>, bound: nat, except: set<Symbol>)
    requires Frame(w, a, b, busy, bound, except) && Frame(w, b, c, busy, bound, except)
    ensures Frame(w, a, c, busy, bound, except)
  {
    forall t | t in w.g.info && t !in except
      ensures KeptAt(w, a, c, busy, bound, t)
    {
      assert KeptAt(w, a, b, busy, bound, t) && KeptAt(w, b, c, busy, bound, t);
    }
  }

  lemma FrameWeaken(w: World, a: State, b: State, busy: set<Symbol>, bound: nat, bound': nat,
                    except: set<Symbol>, except': set<Symbol>)
    requires bound <= bound' && except <= except'
    requires Frame(w, a, b, busy, bound, except)
    ensures Frame(w, a, b, busy, bound', except')
  {
    forall t | t in w.g.info && t !in except'
      ensures KeptAt(w, a, b, busy, bound', t)
    {
      assert KeptAt(w, a, b, busy, bound, t);
    }
  }

  /** `x` can be read: it is in the middle of its calculation and has the value that `env` tells,
      or it has a rank below `bound` and `env` tells its plain value. */
  predicate CanRead(w: World, st: State, busy: set<Symbol>, env: Env, bound: nat, x: Symbol) {
    && x in w.g.info && x in st && x in w.g.rank && x in w.plain
    && if x in busy then st[x].valid && env.tri(x) == st[x].tri && env.val(x) == st[x].val
       else w.g.rank[x] < bound && env.tri(x) == w.plain[x].tri && env.val(x) == w.plain[x].val
  }

  predicate RankedFrom(w: World, busy: set<Symbol>, bound: nat) {
    forall b :: b in busy ==> b in w.g.rank && bound <= w.g.rank[b]
  }

  predicate Readable(w: World, st: State, busy: set<Symbol>, env: Env, bound: nat, xs: set<Symbol>) {
    && env.modules == w.g.modules
    && RankedFrom(w, busy, bound)
    && forall x {:trigger CanRead(w, st, busy, env, bound, x)} :: x in xs ==> CanRead(w, st, busy, env, bound, x)
  }

  /** All of `xs` have been calculated. */
  predicate Evaluated(st: State, xs: set<Symbol>) {
    forall x :: x in xs ==> x in st && st[x].valid
  }

  lemma EvaluatedKept(w: World, a: State, b: State, busy: set<Symbol>, bound: nat, xs: set<Symbol>)
    requires Evaluated(a, xs) && Frame(w, a, b, busy, bound, {})
    ensures Evaluated(b, xs)
  {
    forall x | x in xs
      ensures x in b && b[x].valid
    {
      assert KeptAt(w, a, b, busy, bound, x);
    }
  }

  lemma ReadableKept(w: World, a: State, b: State, busy: set<Symbol>, env: Env, bound: nat, xs: set<Symbol>,
                     ys: set<Symbol>)
    requires Readable(w, a, busy, env, bound, xs) && Frame(w, a, b, busy, bound, {}) && ys <= xs
    ensures Readable(w, b, busy, env, bound, ys)
  {
    forall x | x in ys
      ensures CanRead(w, b, busy, env, bound, x)
    {
      assert CanRead(w, a, busy, env, bound, x);
      assert KeptAt(w, a, b, busy, bound, x);
    }
  }

  /** Changing a symbol whose calculation is under way, or has not begun, or leaving it as it is. */
  lemma Touch(w: World, st: State, busy: set<Symbol>, s: Symbol, c: Cell)
    requires Consistent(w, st, busy) && s in w.g.info
    requires c.valid == st[s].valid && (st[s].valid && s !in busy ==> c == st[s])
    requires SameUser(w.g.info[s], c.user, w.u[s]) && Untouched(s, w.g.info[s], c)
    requires c.visible == st[s].visible || c.visible == w.plain[s].visible
    ensures Consistent(w, st[s := c], busy)
  {
    assert Fine(w, st, busy, s);
    forall t | t in w.g.info
      ensures Fine(w, st[s := c], busy, t)
    {
      assert Fine(w, st, busy, t);
    }
  }

  /** A calculation begins. */
  lemma Begin(w: World, st: State, busy: set<Symbol>, s: Symbol, c: Cell)
    requires Consistent(w, st, busy) && s in w.g.info && !st[s].valid
    requires c == st[s].(valid := true)
    ensures Consistent(w, st[s := c], busy + {s}) && s !in busy && !IsTristateConstant(s)
  {
    assert Fine(w, st, busy, s);
    forall t | t in w.g.info
      ensures Fine(w, st[s := c], busy + {s}, t)
    {
      assert Fine(w, st, busy, t);
    }
  }

  /** A calculation ends. */
  lemma Finish(w: World, st: State, busy: set<Symbol>, s: Symbol)
    requires Consistent(w, st, busy + {s}) && s in w.g.info && s !in busy
    requires Settled(w, st, s)
    ensures Consistent(w, st, busy)
  {
    forall t | t in w.g.info
      ensures Fine(w, st, busy, t)
    {
      assert Fine(w, st, busy + {s}, t);
    }
  }

  /** The effect of a whole calculation of `s` on the others. */
  lemma FrameOfCalculation(w: World, a: State, b: State, c: State, busy: set<Symbol>, bound: nat, s: Symbol)
    requires GoodWorld(w) && a.Keys == w.g.info.Keys && s in w.g.info && s !in busy && w.g.rank[s] < bound
    requires !a[s].valid && s in b && b == a[s := b[s]] && Frame(w, b, c, busy + {s}, w.g.rank[s], {s})
    requires c[s].valid && c[s].visible == w.plain[s].visible && c[s].write == w.plain[s].write
    ensures Frame(w, a, c, busy, bound, {})
  {
    forall t | t in w.g.info
      ensures KeptAt(w, a, c, busy, bound, t)
    {
      if t != s {
        assert KeptAt(w, b, c, busy + {s}, w.g.rank[s], t);
      }
    }
  }
}
