/** Where globals stand for memory cells, and where they do not: the first value, bytes, ticked variables
    and hidden names. */
module GlobalsLimits {
  import opened Forth
  import opened Equivalence
  import opened Escape
  import opened Globals
  import opened GlobalsMeaning
  import opened GlobalsMemory
  import opened Factor
  import opened Emit
  import opened Lifting
  import opened EmitSim

  // ----- the first value -----

  /** What is emitted where a narrow variable is declared: a zero is stored into its global. */
  function DeclareQ(x: string): seq<Token> {
    [Num(0)] + EmitGlobal(Set, x)
  }

  function DeclareAll(xs: seq<string>): seq<Token> {
    if xs == [] then [] else DeclareQ(xs[0]) + DeclareAll(xs[1..])
  }

  function Zeroed(xs: seq<string>, vals: map<string, Cell>): map<string, Cell>
    decreases xs
  {
    if xs == [] then vals else Zeroed(xs[1..], vals[xs[0] := Number(0)])
  }

  /** The declarations leave the stack alone and set each global to zero. */
  lemma {:induction false} DeclaredRuns(f: FMachine, xs: seq<string>, st: State, fuel: nat)
    requires forall x <- xs :: HasSymbol(f, {}, x)
    ensures RunQ(f, {}, DeclareAll(xs), Lift(st), fuel)
         == FNext(Lift(st.(world := st.world.(values := Zeroed(xs, st.world.values)))))
    decreases xs
  {
    if xs == [] {
      assert st.(world := st.world.(values := st.world.values)) == st;
    } else {
      var x := xs[0];
      var st1 := st.(world := st.world.(values := st.world.values[x := Number(0)]));
      assert x in xs;
      RunQConcat(f, {}, DeclareQ(x), DeclareAll(xs[1..]), Lift(st), fuel);
      RunQCons(f, {}, Num(0), EmitGlobal(Set, x), Lift(st), fuel);
      LiftPush(st, Number(0));
      SimReplace(f, {}, x, Push(st, Number(0)), fuel);
      assert Drop(st.stack + [Number(0)]) == st.stack;
      DeclaredRuns(f, xs[1..], st1, fuel);
    }
  }

  lemma {:induction false} ZeroedIs(xs: seq<string>, vals: map<string, Cell>)
    ensures forall x :: x in xs ==> x in Zeroed(xs, vals) && Zeroed(xs, vals)[x] == Number(0)
    ensures forall x :: x !in xs ==> (x in Zeroed(xs, vals) <==> x in vals)
    ensures forall x :: x !in xs && x in vals ==> Zeroed(xs, vals)[x] == vals[x]
    decreases xs
  {
    if xs != [] {
      ZeroedIs(xs[1..], vals[xs[0] := Number(0)]);
    }
  }

  /** After its declarations a program starts where globals stand for cells that hold zero, provided
      nothing in the world reaches a narrow variable yet. */
  lemma StartsFromZero(f: FMachine, xs: seq<string>, bytes: set<string>, st: State, fuel: nat)
    requires forall x <- xs :: HasSymbol(f, {}, x)
    requires bytes <= (set x | x in xs)
    requires Unreached(st.world, set x | x in xs)
    ensures var narrow := set x | x in xs;
            var o := RunQ(f, {}, DeclareAll(xs), Lift(st), fuel);
            && o.FNext? && o.state.stack == Lift(st).stack
            && ReadyWorld(narrow, bytes, o.state.world)
            && forall x <- xs :: Read(ImageOf(narrow, o.state.world), Address(x, 0)) == Number(0)
  {
    var narrow := set x | x in xs;
    DeclaredRuns(f, xs, st, fuel);
    ZeroedIs(xs, st.world.values);
    var w := st.world.(values := Zeroed(xs, st.world.values));
    forall x | x in xs
      ensures Read(ImageOf(narrow, w), Address(x, 0)) == Number(0)
    {
      PlaceRead(narrow, w, x);
    }
  }

  /** Nothing in the world reaches these variables. */
  predicate Unreached(w: World, narrow: set<string>) {
    && (forall x :: x in w.values ==> CleanCell(narrow, w.values[x]))
    && (forall a :: a in w.memory ==> CleanCell(narrow, a) && CleanCell(narrow, w.memory[a]))
    && Clean(narrow, w.rstack) && Clean(narrow, w.output)
  }

  // ----- bytes -----

  /** C@ on a narrow variable is emitted as a fetch of the whole value, which is right if and only if the
      value is a byte. */
  lemma FetchByteExactly(m: Machine, narrow: set<string>, bytes: set<string>, x: string, s: seq<Cell>, w: World)
    requires x in narrow && x in w.values
    ensures AccessOf("c@") == AccessOf("@")
    ensures (FetchByte(s + [Address(x, 0)], ImageOf(narrow, w))
             == IPrim(InMemory(narrow, bytes), AccessPrim(m, Get, x, s, w))) <==> IsByte(w.values[x])
  {
    var a, w1 := Address(x, 0), ImageOf(narrow, w);
    PlaceRead(narrow, w, x);
    InMemoryIs(narrow, bytes, w);
    assert Drop(s + [a]) == s && Top(s + [a]) == a;
    if w.values[x].Number? {
      var low := Number(w.values[x].n % 256);
      assert (s + [low])[|s|] == low && (s + [w.values[x]])[|s|] == w.values[x];
    }
  }

  /** C! on a narrow variable is emitted as a store of the whole value, which is right if and only if that
      value and the one held differ in their low bytes only. */
  lemma StoreByteExactly(m: Machine, narrow: set<string>, bytes: set<string>, x: string, s: seq<Cell>, v: Cell,
                         w: World)
    requires x in narrow && x in w.values
    ensures AccessOf("c!") == AccessOf("!")
    ensures (StoreByte(s + [v] + [Address(x, 0)], ImageOf(narrow, w))
             == IPrim(InMemory(narrow, bytes), AccessPrim(m, Set, x, s + [v], w))) <==>
            v.Number? && w.values[x].Number? && v.n / 256 == w.values[x].n / 256
  {
    var a, w1 := Address(x, 0), ImageOf(narrow, w);
    PlaceRead(narrow, w, x);
    PlaceSet(narrow, w, x, v);
    InMemoryIs(narrow, bytes, w.(values := w.values[x := v]));
    assert Drop(s + [v] + [a]) == s + [v] && Drop(s + [v]) == s && Top(s + [v] + [a]) == a && Top(s + [v]) == v;
    if v.Number? && w.values[x].Number? {
      var held := w.values[x].n;
      var b := Number(held - held % 256 + v.n % 256);
      assert w1.memory[a := b][a] == b && w1.memory[a := v][a] == v;
    }
  }

  // ----- ticked variables -----

  /** The analysis does not see a tick: a variable that is ticked can be narrow. */
  lemma TickedIsNarrow(x: string)
    requires Lower(x) == x && x != "execute" && x != "@"
    ensures Escaping([Tick(x), WordRef("execute"), WordRef("@")], {x}) == {}
    ensures GlobSeq([Tick(x), WordRef("execute"), WordRef("@")], {x}) == [Tick(x), WordRef("execute"), WordRef("@")]
  {
    var s := [Tick(x), WordRef("execute"), WordRef("@")];
    assert Lower("execute") == "execute" && Lower("@") == "@";
    assert s[1..] == [WordRef("execute"), WordRef("@")] && s[1..][1..] == [WordRef("@")];
    assert [WordRef("@")][1..] == [];
    assert Escaping([WordRef("@")], {x}) == {};
    assert Escaping(s[1..], {x}) == {};
    assert GlobSeq([WordRef("@")], {x}) == [WordRef("@")];
    assert GlobSeq(s[1..], {x}) == [WordRef("execute")] + [WordRef("@")];
  }

  /** ' X EXECUTE @ fetches the value where the token of X pushes its address, and fails where it pushes the
      symbol of a global, which is no cell. */
  lemma TickedVariable(m: Machine, g: Machine, c: Context, x: string, st: State, fuel: nat)
    requires MemoryPrims(m) && MemoryPrims(g) && c.locals == {}
    requires m.defs == map[] && m.vars == map[x := Variable(Wide)]
    requires g.defs == map[] && g.vars == map[x := Variable(Narrow)]
    requires Lower(x) == x && x != "execute" && x != "@" && x in st.world.values
    requires forall s, w :: m.prim("execute", s + [Xt(x)], w) == Done(s + [Address(x, 0)], w)
    requires forall s, w :: g.prim("execute", s + [Xt(x)], w) == PrimFault
    ensures var s, im := [Tick(x), WordRef("execute"), WordRef("@")], InMemory({x}, {});
            && RunSeq(m, c, s, IState(im, st), fuel) == Next(IState(im, Push(st, st.world.values[x])))
            && RunSeq(g, c, GlobSeq(s, {x}), st, fuel) == Fault
  {
    var im := InMemory({x}, {});
    TickedIsNarrow(x);
    TickedRun(m, c, x, IState(im, st), fuel);
    TickedRun(g, c, x, st, fuel);
    var st1 := IState(im, st);
    assert m.prim("execute", st1.stack + [Xt(x)], st1.world) == Done(st1.stack + [Address(x, 0)], st1.world);
    assert g.prim("execute", st.stack + [Xt(x)], st.world) == PrimFault;
    PlaceRead({x}, st.world, x);
    InMemoryIs({x}, {}, st.world);
    assert Drop(st1.stack + [Address(x, 0)]) == st1.stack;
  }

  lemma TickedRun(m: Machine, c: Context, x: string, st: State, fuel: nat)
    requires MemoryPrims(m) && c.locals == {} && m.Words() == {x} && Lower(x) == x && x != "execute" && x != "@"
    ensures RunSeq(m, c, [Tick(x), WordRef("execute"), WordRef("@")], st, fuel) ==
            match m.prim("execute", st.stack + [Xt(x)], st.world)
            case Done(s, w) => Ended(st, Fetch(s, w))
            case PrimUnderflow => Underflow
            case PrimFault => Fault
  {
    var s := [WordRef("execute"), WordRef("@")];
    var st1 := Push(st, Xt(x));
    assert Lower("execute") == "execute" && Lower("@") == "@";
    assert [Tick(x), WordRef("execute"), WordRef("@")] == [Tick(x)] + s && s == [WordRef("execute")] + [WordRef("@")];
    RunCons(m, c, Tick(x), s, st, fuel);
    RunCons(m, c, WordRef("execute"), [WordRef("@")], st1, fuel);
    assert RunExpr(m, c, WordRef("execute"), st1, fuel) == RunPrim(m, "execute", st1);
    match RunPrim(m, "execute", st1)
    case Next(st2) =>
      RunOne(m, c, WordRef("@"), st2, fuel);
      assert m.prim("@", st2.stack, st2.world) == SinkPrim("@", st2.stack, st2.world);
    case _ =>
  }

  // ----- hidden names -----

  /** The bodies are used as the analysis found, and their own locals hide nothing. */
  ghost predicate DefsTame(m: Machine, narrow: set<string>, bytes: set<string>) {
    forall lc :: lc in m.defs ==>
      LocalsClear(m.defs[lc].scope, narrow, bytes) && SeqFit(m.defs[lc].body, narrow, bytes)
  }

  /** The run that stops at stores that do not fit is that with globals, or stopped at one. */
  ghost predicate GlobRight(k: Machine, g: Machine, narrow: set<string>, bytes: set<string>, c: Context, s: seq<Expr>,
                            st: State, fuel: nat) {
    Seen(narrow, bytes, InMemory(narrow, bytes), RunSeq(k, c, s, IState(InMemory(narrow, bytes), st), fuel),
         RunSeq(g, c, GlobSeq(s, narrow), st, fuel))
  }

  /** A runtime with memory, the same one refusing stores that do not fit, and one with globals. */
  ghost predicate Runtimes(m: Machine, k: Machine, g: Machine, narrow: set<string>, bytes: set<string>) {
    MemoryRuntime(m, narrow, bytes) && Checks(k, m, bytes) && GlobalRuntime(g, m, narrow, bytes)
  }

  /** The pass is right for every program with these words and every body in the context. */
  ghost predicate AlwaysGlobRight(c: Context, defs: set<string>, vars: map<string, Storage>, narrow: set<string>,
                                  bytes: set<string>) {
    forall m: Machine, k: Machine, g: Machine, s, st: State, fuel: nat |
      && m.defs.Keys == defs && m.vars == vars && Runtimes(m, k, g, narrow, bytes) && DefsTame(m, narrow, bytes)
      && SeqFit(s, narrow, bytes) && Ready(narrow, InMemory(narrow, bytes), st) ::
      GlobRight(k, g, narrow, bytes, c, s, st, fuel)
  }

  /** Narrow variables are variables in lower case, none of them called like a sink. */
  predicate Laid(c: Context, defs: set<string>, vars: map<string, Storage>, narrow: set<string>, bytes: set<string>) {
    && bytes <= narrow && narrow <= vars.Keys && defs !! vars.Keys && "" !in narrow && narrow !! sinks
    && (forall x :: x in vars ==> vars[x] != Variable(Narrow))
    && (forall x <- narrow :: vars[x] == Variable(Wide) && Lower(x) == x)
  }

  /** Once some variable is narrow, the pass is right for every program and every body in a context if and
      only if no local there hides a narrow variable and no local or definition hides a sink. */
  lemma ClearExactly(c: Context, defs: set<string>, vars: map<string, Storage>, narrow: set<string>,
                     bytes: set<string>)
    requires Laid(c, defs, vars, narrow, bytes) && narrow != {}
    ensures AlwaysGlobRight(c, defs, vars, narrow, bytes) <==>
            Clear(Names(c.locals, defs + vars.Keys), narrow, bytes)
  {
    var n := Names(c.locals, defs + vars.Keys);
    if Clear(n, narrow, bytes) {
      forall m: Machine, k: Machine, g: Machine, s, st: State, fuel: nat |
        && m.defs.Keys == defs && m.vars == vars && Runtimes(m, k, g, narrow, bytes) && DefsTame(m, narrow, bytes)
        && SeqFit(s, narrow, bytes) && Ready(narrow, InMemory(narrow, bytes), st)
        ensures GlobRight(k, g, narrow, bytes, c, s, st, fuel)
      {
        ClearRight(m, k, g, narrow, bytes, c, s, st, fuel);
      }
    } else {
      UnclearFails(c, defs, vars, narrow, bytes);
    }
  }

  lemma ClearRight(m: Machine, k: Machine, g: Machine, narrow: set<string>, bytes: set<string>, c: Context,
                   s: seq<Expr>, st: State, fuel: nat)
    requires Runtimes(m, k, g, narrow, bytes) && DefsTame(m, narrow, bytes) && Clear(m.NamesOf(c), narrow, bytes)
    requires SeqFit(s, narrow, bytes) && Ready(narrow, InMemory(narrow, bytes), st)
    ensures GlobRight(k, g, narrow, bytes, c, s, st, fuel)
  {
    assert k.Words() == m.Words();
    MemoryMirrors(m, k, g, narrow, bytes);
    GlobSeqRuns(k, g, narrow, bytes, InMemory(narrow, bytes), c, s, st, fuel);
  }

  // ----- a runtime on which hidden names show -----

  function CheckedPrim(bytes: set<string>, p: string, s: seq<Cell>, w: World): PrimResult {
    if Unfit(bytes, p, s, w) then PrimFault else SinkRuntime(p, s, w)
  }

  ghost function Plain(defs: set<string>, vars: map<string, Storage>,
                       prim: (string, seq<Cell>, World) -> PrimResult): (m: Machine)
    ensures m.defs.Keys == defs && m.vars == vars && m.prim == prim && !m.restoring
    ensures forall lc :: lc in defs ==> m.defs[lc] == Defining([])
  {
    Machine(map lc | lc in defs :: Defining([]), vars, prim, false)
  }

  /** One item on the stack; every local holds an address outside the variables, and every variable seven. */
  ghost function Showing(c: Context, vars: map<string, Storage>): State {
    State([Number(5)], map x | x in c.locals :: Address("", 0),
          World(map x | x in vars :: Number(7), map[Address("", 0) := Number(42)], [], [], []))
  }

  lemma ShowingReady(c: Context, vars: map<string, Storage>, narrow: set<string>, bytes: set<string>)
    requires bytes <= narrow && narrow <= vars.Keys && "" !in narrow
    ensures Ready(narrow, InMemory(narrow, bytes), Showing(c, vars))
  {
    InMemoryIs(narrow, bytes, Showing(c, vars).world);
  }

  /** The three runtimes, without proper definitions. */
  lemma PlainRuntimes(c: Context, defs: set<string>, vars: map<string, Storage>, narrow: set<string>,
                      bytes: set<string>) returns (m: Machine, k: Machine, g: Machine)
    requires Laid(c, defs, vars, narrow, bytes)
    ensures m.defs.Keys == defs && m.vars == vars && Runtimes(m, k, g, narrow, bytes) && DefsTame(m, narrow, bytes)
    ensures k.Words() == defs + vars.Keys && k.prim == ((p, s, w) => CheckedPrim(bytes, p, s, w))
    ensures forall lc :: lc in defs ==> k.defs[lc] == Defining([])
    ensures g.prim == SinkRuntime && k.vars == vars && k.defs.Keys == defs
  {
    m := Plain(defs, vars, SinkRuntime);
    k := Plain(defs, vars, (p, s, w) => CheckedPrim(bytes, p, s, w));
    g := m.(defs := GlobDefs(m.defs, narrow), vars := GlobVars(m.vars, narrow));
    SinksDiscreet(m, narrow, bytes);
    forall s, w
      ensures PrimKept(m, g, narrow, InMemory(narrow, bytes), "execute", s, w)
    {
      assert PrimKept(m, m, narrow, InMemory(narrow, bytes), "execute", s, w);
    }
    assert k.defs == m.defs;
    forall lc | lc in m.defs
      ensures LocalsClear(m.defs[lc].scope, narrow, bytes) && SeqFit(m.defs[lc].body, narrow, bytes)
    {}
  }

  lemma UnclearFails(c: Context, defs: set<string>, vars: map<string, Storage>, narrow: set<string>,
                     bytes: set<string>)
    requires Laid(c, defs, vars, narrow, bytes) && narrow != {}
    requires !Clear(Names(c.locals, defs + vars.Keys), narrow, bytes)
    ensures !AlwaysGlobRight(c, defs, vars, narrow, bytes)
  {
    var m, k, g := PlainRuntimes(c, defs, vars, narrow, bytes);
    var x, p := Hidden(c, defs, vars, narrow, bytes);
    ShowingReady(c, vars, narrow, bytes);
    UseFits(x, p, narrow, bytes);
    HiddenWrong(k, g, narrow, bytes, c, x, p, Showing(c, vars));
    assert !GlobRight(k, g, narrow, bytes, c, [WordRef(x), WordRef(p)], Showing(c, vars), 1);
  }

  /** A variable and a sink, one of which is hidden. */
  lemma Hidden(c: Context, defs: set<string>, vars: map<string, Storage>, narrow: set<string>, bytes: set<string>)
    returns (x: string, p: string)
    requires Laid(c, defs, vars, narrow, bytes) && narrow != {}
    requires !Clear(Names(c.locals, defs + vars.Keys), narrow, bytes)
    ensures x in narrow && p in sinks && (p in byteSinks ==> x in bytes) && Lower(p) == p
    ensures (x in c.locals && p == "@") || (x !in c.locals && p in c.locals + defs + vars.Keys)
  {
    assert Lower("@") == "@" && Lower("!") == "!" && Lower("+!") == "+!" && Lower("c@") == "c@" && Lower("c!") == "c!";
    if narrow !! c.locals {
      p :| p in UsedSinks(bytes) && p in c.locals + defs + vars.Keys;
      if p in byteSinks {
        x :| x in bytes;
      } else {
        x :| x in narrow;
      }
    } else {
      x :| x in narrow && x in c.locals;
      p := "@";
    }
  }

  lemma UseFits(x: string, p: string, narrow: set<string>, bytes: set<string>)
    requires x in narrow && Lower(x) == x && p in sinks && Lower(p) == p && (p in byteSinks ==> x in bytes)
    requires narrow !! sinks
    ensures SeqFit([WordRef(x), WordRef(p)], narrow, bytes)
    ensures GlobSeq([WordRef(x), WordRef(p)], narrow) == [Global(AccessOf(p), x)]
  {
    var s := [WordRef(x), WordRef(p)];
    var t := [WordRef(p)];
    assert s[1..] == t && t[1..] == [] && s[2..] == [];
    assert IsUse(s, narrow);
    assert Escaping(t, narrow) == {} && HeadEscapes(s, narrow) == {};
    assert Escaping(s, narrow) == Inside(s[0], narrow) + HeadEscapes(s, narrow) + Escaping(t, narrow);
    assert Tame([], narrow, bytes) && !IsUse(t, narrow);
    assert Tame(t, narrow, bytes);
    assert GlobSeq(s[2..], narrow) == [];
  }

  /** A hidden word pushes something, or does nothing. */
  lemma WordShows(k: Machine, c: Context, p: string, st: State)
    requires Lower(p) == p && p in c.locals + k.Words() && st.locals.Keys == c.locals
    requires p in k.defs ==> k.defs[p] == Defining([])
    requires p in k.vars ==> k.vars[p] != Variable(Narrow) && p in st.world.values
    ensures var o := RunExpr(k, c, WordRef(p), st, 1);
            o.Next? && (o.state.stack == st.stack || |o.state.stack| == |st.stack| + 1)
  {
    if p !in c.locals {
      assert Resolve(k.NamesOf(c), p) == UserDefined;
      if p in k.defs {
        var st0 := st.(locals := map[]);
        assert BindLocals([], st0) == Next(st0);
        assert RunSeq(k, Context({}, p), [], st0, 0) == Next(st0);
        assert Call(k, p, st, 0) == Next(st);
      }
    }
  }

  /** The stack after the access to the global. */
  lemma AccessShows(g: Machine, c: Context, access: Access, x: string, st: State)
    requires g.prim == SinkRuntime && st.stack == [Number(5)] && x in st.world.values && st.world.values[x] == Number(7)
    ensures var o := RunSeq(g, c, [Global(access, x)], st, 1);
            o.Next? && o.state.stack == if access == Get then [Number(5), Number(7)] else []
  {
    RunOne(g, c, Global(access, x), st, 1);
    AccessIs(g, c, access, x, st, 1);
    assert [Number(5)] + [Number(7)] == [Number(5), Number(7)];
    assert Drop([Number(5), Number(7)]) == [Number(5)] && Drop([Number(5)]) == [];
    assert [] + [Number(12)] == [Number(12)];
  }

  lemma HiddenWrong(k: Machine, g: Machine, narrow: set<string>, bytes: set<string>, c: Context, x: string, p: string,
                    st: State)
    requires k.prim == ((p, s, w) => CheckedPrim(bytes, p, s, w)) && g.prim == SinkRuntime
    requires Laid(c, k.defs.Keys, k.vars, narrow, bytes) && st == Showing(c, k.vars)
    requires forall lc :: lc in k.defs ==> k.defs[lc] == Defining([])
    requires x in narrow && p in sinks && Lower(p) == p
    requires (x in c.locals && p == "@") || (x !in c.locals && p in c.locals + k.Words())
    ensures GlobSeq([WordRef(x), WordRef(p)], narrow) == [Global(AccessOf(p), x)] ==>
              !GlobRight(k, g, narrow, bytes, c, [WordRef(x), WordRef(p)], st, 1)
  {
    var im := InMemory(narrow, bytes);
    var st1 := IState(im, st);
    InMemoryIs(narrow, bytes, st.world);
    AccessShows(g, c, AccessOf(p), x, st);
    PairShows(k, bytes, c, x, p, st1);
  }

  /** The stack after the variable and its sink, one of them hidden. */
  lemma PairShows(k: Machine, bytes: set<string>, c: Context, x: string, p: string, st: State)
    requires k.prim == ((p, s, w) => CheckedPrim(bytes, p, s, w)) && st.stack == [Number(5)]
    requires st.locals == map y | y in c.locals :: Address("", 0)
    requires Address("", 0) in st.world.memory && st.world.memory[Address("", 0)] == Number(42)
    requires forall lc :: lc in k.defs ==> k.defs[lc] == Defining([])
    requires forall y :: y in k.vars ==> k.vars[y] != Variable(Narrow)
    requires p in k.vars ==> p in st.world.values
    requires Lower(x) == x && x !in k.defs && x in k.vars && k.vars[x] == Variable(Wide)
    requires p in sinks && Lower(p) == p
    requires (x in c.locals && p == "@") || (x !in c.locals && p in c.locals + k.Words())
    ensures var o := RunSeq(k, c, [WordRef(x), WordRef(p)], st, 1);
            o.Next? && (|o.state.stack| == 3 || (|o.state.stack| == 2 && o.state.stack[1] != Number(7)))
  {
    var v := if x in c.locals then Address("", 0) else Address(x, 0);
    var st1 := Push(st, v);
    assert [WordRef(x), WordRef(p)] == [WordRef(x)] + [WordRef(p)];
    RunCons(k, c, WordRef(x), [WordRef(p)], st, 1);
    assert x !in c.locals ==> Resolve(k.NamesOf(c), x) == UserDefined;
    assert RunExpr(k, c, WordRef(x), st, 1) == Next(st1);
    RunOne(k, c, WordRef(p), st1, 1);
    if p in c.locals + k.Words() {
      WordShows(k, c, p, st1);
    } else {
      assert Resolve(k.NamesOf(c), p) == Builtin;
      assert k.prim(p, st1.stack, st1.world) == CheckedPrim(bytes, p, st1.stack, st1.world);
      assert Drop(st1.stack) == [Number(5)];
    }
  }
}
