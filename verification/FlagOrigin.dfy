/** Where the flag that straight-line code leaves comes from, and whether it can be true. */
module FlagOrigin {
  import opened Common
  import opened Forth
  import opened Equivalence
  import opened Effects
  import opened EffectLimits

  predicate Binds(name: string, x: string) {
    name != "_" && Lower(name) == x
  }

  /** Where a list of locals gets the value of x from: the leftmost of equal names wins. */
  function Position(names: seq<string>, x: string): (p: Option<nat>)
    ensures p.Some? ==> p.value < |names|
  {
    if names == [] then None
    else
      var k := |names| - 1;
      var p := Position(names[..k], x);
      if p.Some? then p else if Binds(names[k], x) then Some(k) else None
  }

  /** The item `d` below the top, after straight-line code, can be a true flag: it has been there before, or
      comes from a builtin or from a literal that is not zero.  Zero and the token of a word are never true. */
  predicate OpenAt(table: map<string, Eff>, n: Names, s: seq<Expr>, d: nat)
    decreases |s|
  {
    if s == [] then true
    else
      var rest := s[..|s| - 1];
      match s[|s| - 1]
      case Lit(v) => if d == 0 then v != 0 else OpenAt(table, n, rest, d - 1)
      case Tick(_) => d > 0 && OpenAt(table, n, rest, d - 1)
      case To(_) => OpenAt(table, n, rest, d + 1)
      case Locals(names) => OpenAt(table, n, rest, d + |names|)
      case WordRef(name) =>
        if Resolve(n, name) == Local then
          if d == 0 then OpenLocal(table, n, rest, Lower(name)) else OpenAt(table, n, rest, d - 1)
        else
          var eff := Lookup(table, Lower(name));
          eff.Unknown? || d < eff.outputs || OpenAt(table, n, rest, d - eff.outputs + eff.inputs)
      case _ => true
  }

  /** A local can hold a true flag. */
  predicate OpenLocal(table: map<string, Eff>, n: Names, s: seq<Expr>, x: string)
    decreases |s|
  {
    if s == [] then true
    else
      var rest := s[..|s| - 1];
      match s[|s| - 1]
      case Locals(names) =>
        (match Position(names, x)
         case Some(i) => OpenAt(table, n, rest, |names| - 1 - i)
         case None => OpenLocal(table, n, rest, x))
      case _ => OpenLocal(table, n, rest, x)
  }

  // ----- runs -----

  predicate Holds(cell: Cell) {
    cell.Number? && cell.n != 0
  }

  /** A true flag is open; where all else is true, what is open is true. */
  predicate Tracks(cell: Cell, open: bool, all: bool) {
    (Holds(cell) ==> open) && (all && open ==> Holds(cell))
  }

  /** What builtins leave is true. */
  ghost predicate Generous(m: Machine, table: map<string, Eff>) {
    forall lc, s, w :: Lookup(table, lc).Known? ==> LeavesTrue(m.prim(lc, s, w), s, Lookup(table, lc))
  }

  predicate LeavesTrue(r: PrimResult, s: seq<Cell>, eff: Eff)
    requires eff.Known?
  {
    |s| >= eff.inputs && r.Done? ==> forall j :: |s| - eff.inputs <= j < |r.stack| ==> Holds(r.stack[j])
  }

  ghost predicate StackTracks(table: map<string, Eff>, n: Names, s: seq<Expr>, stack: seq<Cell>, all: bool) {
    forall d: nat :: d < |stack| ==> Tracks(stack[|stack| - 1 - d], OpenAt(table, n, s, d), all)
  }

  ghost predicate LocalsTrack(table: map<string, Eff>, n: Names, s: seq<Expr>, locals: map<string, Cell>, all: bool) {
    forall x :: x in locals ==> Tracks(locals[x], OpenLocal(table, n, s, x), all)
  }

  /** What a list of locals binds, and what it leaves. */
  lemma {:induction false} BindValues(names: seq<string>, st: State)
    requires |st.stack| >= |names|
    ensures var o, k := BindLocals(names, st), |st.stack| - |names|;
            && o.Next? && o.state.stack == st.stack[..k] && o.state.world == st.world
            && (forall x :: x in o.state.locals ==>
                  match Position(names, x)
                  case Some(i) => o.state.locals[x] == st.stack[k + i]
                  case None => x in st.locals && o.state.locals[x] == st.locals[x])
    decreases names
  {
    if names != [] {
      var last, before := names[|names| - 1], names[..|names| - 1];
      var st1 := Pop(st);
      var st2 := if last == "_" then st1 else st1.(locals := st1.locals[Lower(last) := Top(st.stack)]);
      BindValues(before, st2);
    }
  }

  lemma TracksLast(table: map<string, Eff>, n: Names, s: seq<Expr>, e: Expr)
    ensures (s + [e])[|s + [e]| - 1] == e && (s + [e])[..|s + [e]| - 1] == s
  {}

  /** A pushed item. */
  lemma PushTracks(table: map<string, Eff>, n: Names, s: seq<Expr>, e: Expr, stack: seq<Cell>, v: Cell, all: bool)
    requires StackTracks(table, n, s, stack, all)
    requires e.Lit? || e.Tick? || (e.WordRef? && Resolve(n, e.name) == Local)
    requires Tracks(v, OpenAt(table, n, s + [e], 0), all)
    ensures StackTracks(table, n, s + [e], stack + [v], all)
  {
    TracksLast(table, n, s, e);
    forall d: nat | d < |stack + [v]|
      ensures Tracks((stack + [v])[|stack| - d], OpenAt(table, n, s + [e], d), all)
    {
      if d > 0 {
        assert (stack + [v])[|stack| - d] == stack[|stack| - 1 - (d - 1)];
        assert OpenAt(table, n, s + [e], d) == OpenAt(table, n, s, d - 1);
      }
    }
  }

  /** Items taken off. */
  lemma PopTracks(table: map<string, Eff>, n: Names, s: seq<Expr>, e: Expr, stack: seq<Cell>, all: bool)
    requires StackTracks(table, n, s, stack, all)
    requires e.To? || e.Locals?
    requires var i := if e.Locals? then |e.names| else 1; |stack| >= i
    ensures var i := if e.Locals? then |e.names| else 1; StackTracks(table, n, s + [e], stack[..|stack| - i], all)
  {
    TracksLast(table, n, s, e);
    var i := if e.Locals? then |e.names| else 1;
    var left := stack[..|stack| - i];
    forall d: nat | d < |left|
      ensures Tracks(left[|left| - 1 - d], OpenAt(table, n, s + [e], d), all)
    {
      assert left[|left| - 1 - d] == stack[|stack| - 1 - (d + i)];
      assert OpenAt(table, n, s + [e], d) == OpenAt(table, n, s, d + i);
    }
  }

  /** What a builtin leaves. */
  lemma PrimTracks(m: Machine, table: map<string, Eff>, n: Names, s: seq<Expr>, e: Expr, st: State, all: bool)
    requires Strict(m, table) && (all ==> Generous(m, table)) && StackTracks(table, n, s, st.stack, all)
    requires e.WordRef? && Resolve(n, e.name) == Builtin
    requires Lookup(table, Lower(e.name)).Known? && |st.stack| >= Lookup(table, Lower(e.name)).inputs
    ensures var r := m.prim(Lower(e.name), st.stack, st.world);
            r.Done? && StackTracks(table, n, s + [e], r.stack, all)
  {
    TracksLast(table, n, s, e);
    var lc := Lower(e.name);
    var eff, r := Lookup(table, lc), m.prim(lc, st.stack, st.world);
    assert TakesExactly(r, st.stack, eff);
    var keep := |st.stack| - eff.inputs;
    assert all ==> LeavesTrue(r, st.stack, eff);
    forall d: nat | d < |r.stack|
      ensures Tracks(r.stack[|r.stack| - 1 - d], OpenAt(table, n, s + [e], d), all)
    {
      var j := |r.stack| - 1 - d;
      if d >= eff.outputs {
        assert j < keep && r.stack[..keep][j] == st.stack[..keep][j];
        assert r.stack[j] == st.stack[|st.stack| - 1 - (d - eff.outputs + eff.inputs)];
        assert OpenAt(table, n, s + [e], d) == OpenAt(table, n, s, d - eff.outputs + eff.inputs);
      }
    }
  }

  /** Locals that no block rebinds. */
  lemma SameLocalsTrack(table: map<string, Eff>, n: Names, s: seq<Expr>, e: Expr, locals: map<string, Cell>, all: bool)
    requires LocalsTrack(table, n, s, locals, all) && !e.Locals?
    ensures LocalsTrack(table, n, s + [e], locals, all)
  {
    TracksLast(table, n, s, e);
  }

  lemma BoundLocalsTrack(table: map<string, Eff>, n: Names, s: seq<Expr>, names: seq<string>, st: State, all: bool)
    requires StackTracks(table, n, s, st.stack, all) && LocalsTrack(table, n, s, st.locals, all)
    requires |st.stack| >= |names|
    ensures BindLocals(names, st).Next?
    ensures LocalsTrack(table, n, s + [Locals(names)], BindLocals(names, st).state.locals, all)
  {
    BindValues(names, st);
    var locals, k := BindLocals(names, st).state.locals, |st.stack| - |names|;
    forall x | x in locals
      ensures Tracks(locals[x], OpenLocal(table, n, s + [Locals(names)], x), all)
    {
      OpenBound(table, n, s, names, x);
      match Position(names, x)
      case Some(i) => BoundTracks(table, n, s, names, i, st.stack, all);
      case None =>
    }
  }

  lemma OpenBound(table: map<string, Eff>, n: Names, s: seq<Expr>, names: seq<string>, x: string)
    ensures OpenLocal(table, n, s + [Locals(names)], x) ==
            match Position(names, x)
            case Some(i) => OpenAt(table, n, s, |names| - 1 - i)
            case None => OpenLocal(table, n, s, x)
  {
    TracksLast(table, n, s, Locals(names));
  }

  lemma BoundTracks(table: map<string, Eff>, n: Names, s: seq<Expr>, names: seq<string>, i: nat, stack: seq<Cell>,
                    all: bool)
    requires StackTracks(table, n, s, stack, all) && i < |names| <= |stack|
    ensures Tracks(stack[|stack| - |names| + i], OpenAt(table, n, s, |names| - 1 - i), all)
  {
    var d: nat := |names| - 1 - i;
    assert stack[|stack| - |names| + i] == stack[|stack| - 1 - d];
  }

  lemma StepTracks(m: Machine, env: Env, c: Context, s: seq<Expr>, e: Expr, st: State, all: bool, fuel: nat)
    requires Strict(m, env.table) && (all ==> Generous(m, env.table))
    requires StraightLine(env, m.NamesOf(c), [e]) && EffectLimits.Bound(m.NamesOf(c), [e], st.locals.Keys)
    requires StackTracks(env.table, m.NamesOf(c), s, st.stack, all)
    requires LocalsTrack(env.table, m.NamesOf(c), s, st.locals, all)
    requires RunExpr(m, c, e, st, fuel).Next?
    ensures var st1 := RunExpr(m, c, e, st, fuel).state;
            && StackTracks(env.table, m.NamesOf(c), s + [e], st1.stack, all)
            && LocalsTrack(env.table, m.NamesOf(c), s + [e], st1.locals, all)
  {
    var n, table := m.NamesOf(c), env.table;
    assert e in [e];
    TracksLast(table, n, s, e);
    StepExactly(m, env, c, e, st, fuel);
    match e
    case Locals(names) =>
      BindValues(names, st);
      PopTracks(table, n, s, e, st.stack, all);
      BoundLocalsTrack(table, n, s, names, st, all);
    case To(_) =>
      PopTracks(table, n, s, e, st.stack, all);
      SameLocalsTrack(table, n, s, e, st.locals, all);
    case Lit(v) =>
      PushTracks(table, n, s, e, st.stack, Number(v), all);
      SameLocalsTrack(table, n, s, e, st.locals, all);
    case Tick(name) =>
      PushTracks(table, n, s, e, st.stack, Xt(Lower(name)), all);
      SameLocalsTrack(table, n, s, e, st.locals, all);
    case WordRef(name) =>
      SameLocalsTrack(table, n, s, e, st.locals, all);
      if Resolve(n, name) == Local {
        PushTracks(table, n, s, e, st.stack, st.locals[Lower(name)], all);
      } else {
        PrimTracks(m, table, n, s, e, st, all);
      }
  }

  /** Along a run of straight-line code every item and every local is true only if it is open, and is true if
      it is open where all that was there, and all that builtins leave, is true. */
  lemma {:induction false} RunTracks(m: Machine, env: Env, c: Context, s: seq<Expr>, st: State, all: bool, fuel: nat)
    requires Strict(m, env.table) && (all ==> Generous(m, env.table))
    requires StraightLine(env, m.NamesOf(c), s) && EffectLimits.Bound(m.NamesOf(c), s, st.locals.Keys)
    requires all ==> (forall v <- st.stack :: Holds(v)) && (forall x :: x in st.locals ==> Holds(st.locals[x]))
    requires RunSeq(m, c, s, st, fuel).Next?
    ensures var st1 := RunSeq(m, c, s, st, fuel).state;
            && StackTracks(env.table, m.NamesOf(c), s, st1.stack, all)
            && LocalsTrack(env.table, m.NamesOf(c), s, st1.locals, all)
    decreases |s|
  {
    if s != [] {
      var rest, e := s[..|s| - 1], s[|s| - 1];
      assert s == rest + [e] && e in s && forall x <- rest :: x in s;
      RunConcat(m, c, rest, [e], st, fuel);
      RunTracks(m, env, c, rest, st, all, fuel);
      var st1 := RunSeq(m, c, rest, st, fuel).state;
      RunOne(m, c, e, st1, fuel);
      StraightLocals(m, env, c, rest, st, fuel);
      StepTracks(m, env, c, rest, e, st1, all, fuel);
    }
  }
}
