/** Locals and inputs that hide the words the compiler emits: what goes wrong with each. */
module EmitHidden {
  import opened Common
  import opened Forth
  import opened Equivalence
  import opened Effects
  import opened EffectSound
  import opened Factor
  import opened Scopes
  import opened Emit
  import opened Lifting
  import opened EmitSim
  import opened EmitLegible
  import Frame

  // ----- a body that is emitted wrongly -----

  /** Builtins that do nothing. */
  function IdlePrim(lc: string, stack: seq<Cell>, w: World): PrimResult {
    Done(stack, w)
  }

  const unknown := Env(map[], map[], {})

  /** Definitions that do nothing. */
  ghost function Idle(defs: set<string>, vars: map<string, Storage>): (m: Machine)
    requires NoClash(defs + vars.Keys)
    ensures m.defs.Keys == defs && m.vars == vars && m.prim == IdlePrim && m.restoring
    ensures forall lc :: lc in defs ==> m.defs[lc] == Defining([])
  {
    Machine(map lc | lc in defs :: Defining([]), vars, IdlePrim, true)
  }

  lemma IdleEmittable(m: Machine)
    requires m.prim == IdlePrim && m.restoring && NoClash(m.Words())
    requires forall lc :: lc in m.defs ==> m.defs[lc] == Defining([])
    ensures Loadable(m, unknown)
  {
    var f := EmitProgram(m);
    forall w | w in f.words && f.words[w].Colon?
      ensures LexicalQ(f.words[w].scope, {}, f.words[w].body)
    {
      var lc := Unmangled(m.Words(), w);
      assert f.words[w] == EmitNamed(m, lc);
      assert lc in m.defs && m.defs[lc] == Defining([]);
      IdleEmitted(m.Words());
    }
  }

  lemma IdleEmitted(words: set<string>)
    ensures EmitDef(Defining([]), words) == Colon({}, [])
  {
    assert Inputs(Defining([])) == [] && Scope(Defining([])) == {};
  }

  ghost predicate EmitsRight(m: Machine, scope: set<string>, c: Context, s: seq<Expr>, st: State, fuel: nat) {
    Shown(RunQ(EmitProgram(m), scope, EmitSeq(m.NamesOf(c), s), Lift(st), fuel))
    == Shown(LiftOutcome(RunSeq(m, c, s, st, fuel)))
  }

  /** Names are kept in lower case, defined once and written differently. */
  predicate Proper(c: Context, defs: set<string>, vars: map<string, Storage>) {
    && (forall x <- c.locals :: Lower(x) == x)
    && (forall w <- defs + vars.Keys :: Lower(w) == w)
    && defs !! vars.Keys && NoClash(defs + vars.Keys)
  }

  /** All locals are bound, and all globals and VALUEs set. */
  ghost function Hiding(scope: set<string>, vars: map<string, Storage>, v: int): State {
    State([Number(v)], map x | x in scope :: LocalValue(x), HeldWorld(vars))
  }

  function LocalValue(x: string): Cell {
    Number(if x == "dup" then 1 else 5)
  }

  ghost function HeldWorld(vars: map<string, Storage>): World {
    World(map x | x in vars :: Number(7), map[], [], [], [])
  }

  /** A body that is emitted wrongly where all locals are bound; without them it does not fail. */
  ghost predicate Wrong(scope: set<string>, c: Context, defs: set<string>, vars: map<string, Storage>, s: seq<Expr>,
                        v: int, fuel: nat)
    requires NoClash(defs + vars.Keys)
  {
    var m := Idle(defs, vars);
    && Admitted(m, scope, c, s)
    && !EmitsRight(m, scope, c, s, Hiding(scope, vars, v), fuel)
    && Survives(m, c, s, Hiding(scope, vars, v), fuel)
  }

  ghost predicate Admitted(m: Machine, scope: set<string>, c: Context, s: seq<Expr>) {
    && NamedSeq(m, c, s) && MatchedSeq(unknown, m.NamesOf(c), s, DupCopies(m))
    && LexicalQ(scope, scope, EmitSeq(m.NamesOf(c), s))
  }

  /** Outcomes that differ whatever the locals. */
  lemma Told(fo: FOutcome, o: Outcome)
    requires o.Next?
    requires fo == FFault || fo == FTimeout || (fo.FNext? && fo.state.stack != AsValues(o.state.stack))
    ensures Shown(fo) != Shown(LiftOutcome(o))
  {}

  /** A body of one leaf, where all locals are bound. */
  lemma LeafAdmitted(m: Machine, scope: set<string>, c: Context, e: Expr)
    requires IsLeaf(e) && NamedExpr(m, c, e) && (e.WordRef? ==> Resolve(m.NamesOf(c), e.name) != Local)
    ensures Admitted(m, scope, c, [e])
  {
    var n := m.NamesOf(c);
    assert [e][1..] == [];
    EmitCons(n, e, []);
    assert [e] + [] == [e] && EmitExpr(n, e) + [] == EmitExpr(n, e);
    forall t | t in EmitExpr(n, e)
      ensures LeafTok(t)
    {}
    LeavesLexical(scope, EmitExpr(n, e));
  }

  ghost predicate Survives(m: Machine, c: Context, s: seq<Expr>, st: State, fuel: nat) {
    forall locals :: RunSeq(m, c, s, st.(locals := locals), fuel) != Fault
  }

  // ----- the words that may be hidden -----

  /** A captured word pushes the local. */
  lemma CapturedRuns(f: FMachine, scope: set<string>, t: Token, st: State, stack: seq<Value>, fuel: nat)
    requires Spelling(t).Some? && Spelling(t).value in scope && st.locals.Keys == scope && !t.XtTok?
    ensures var fs := Lift(st).(stack := stack);
            RunTok(f, scope, t, fs, fuel) == FNext(PushV(fs, V(st.locals[Spelling(t).value])))
  {}

  /** A local with a dot is bound under another name: {: a.b :} a.b does not find it. */
  lemma DottedWrong(scope: set<string>, c: Context, defs: set<string>, vars: map<string, Storage>, x: string)
    requires Proper(c, defs, vars) && c.locals <= scope && x in c.locals && '.' in x
    ensures Wrong(scope, c, defs, vars, [Locals([x]), WordRef(x)], 1, 0)
  {
    var m, st := Idle(defs, vars), Hiding(scope, vars, 1);
    var s := [Locals([x]), WordRef(x)];
    DottedRun(m, c, x, st);
    forall locals
      ensures RunSeq(m, c, s, st.(locals := locals), 0) != Fault
    {
      DottedRun(m, c, x, st.(locals := locals));
    }
    DottedQuotation(m.NamesOf(c), x);
    DottedQuotationRun(EmitProgram(m), scope, x, st);
    assert '.' !in "dup" && x != "dup";
    assert st.locals[x] == Number(5);
    DottedNamed(m, scope, c, x);
    assert [V(Number(5))][0] != AsValues([Number(1)])[0];
    Told(RunQ(EmitProgram(m), scope, EmitSeq(m.NamesOf(c), s), Lift(st), 0), RunSeq(m, c, s, st, 0));
  }

  lemma DottedNamed(m: Machine, scope: set<string>, c: Context, x: string)
    requires x in c.locals && Lower(x) == x && '.' in x && c.locals <= scope
    ensures Admitted(m, scope, c, [Locals([x]), WordRef(x)])
  {
    DottedNames(m, c, x);
    DottedQuotation(m.NamesOf(c), x);
    DottedLexical(scope, x, Sanitized(x));
  }

  lemma DottedNames(m: Machine, c: Context, x: string)
    requires x in c.locals && Lower(x) == x
    ensures NamedSeq(m, c, [Locals([x]), WordRef(x)])
    ensures MatchedSeq(unknown, m.NamesOf(c), [Locals([x]), WordRef(x)], DupCopies(m))
  {
    assert [Locals([x]), WordRef(x)][1..] == [WordRef(x)] && [WordRef(x)][1..] == [];
    assert Resolve(m.NamesOf(c), x) == Local;
    assert NamedSeq(m, c, []) && NamedExpr(m, c, WordRef(x));
    assert MatchedSeq(unknown, m.NamesOf(c), [], DupCopies(m));
  }

  lemma DottedLexical(scope: set<string>, x: string, y: string)
    requires x in scope
    ensures LexicalQ(scope, scope, [Bind(y)] + [LocalTok(x)])
  {
    LexicalConcat(scope, scope, [Bind(y)], [LocalTok(x)]);
    LexicalOne(scope, scope, Bind(y));
    LexicalOne(scope, AfterTok(scope, Bind(y)), LocalTok(x));
  }

  lemma DottedRun(m: Machine, c: Context, x: string, st: State)
    requires x in c.locals && Lower(x) == x && '.' in x && st.stack == [Number(1)]
    ensures var o := RunSeq(m, c, [Locals([x]), WordRef(x)], st, 0); o.Next? && o.state.stack == [Number(1)]
  {
    assert [Locals([x]), WordRef(x)] == [Locals([x])] + [WordRef(x)] && [x][..0] == [];
    var st1 := Pop(st).(locals := st.locals[x := Number(1)]);
    assert BindLocals([x], st) == BindLocals([], st1);
    RunCons(m, c, Locals([x]), [WordRef(x)], st, 0);
    RunOne(m, c, WordRef(x), st1, 0);
  }

  lemma DottedQuotation(n: Names, x: string)
    requires x in n.locals && Lower(x) == x && '.' in x
    ensures EmitSeq(n, [Locals([x]), WordRef(x)]) == [Bind(Sanitized(x))] + [LocalTok(x)]
  {
    var s := [Locals([x]), WordRef(x)];
    assert s[1..] == [WordRef(x)] && [WordRef(x)][1..] == [] && [x][..0] == [];
    assert x != "_";
    assert EmitBinds([x]) == [EmitBind(x)] + EmitBinds([]);
    assert EmitSeq(n, [WordRef(x)]) == [LocalTok(x)];
  }

  lemma DottedQuotationRun(f: FMachine, scope: set<string>, x: string, st: State)
    requires '.' in x && st.stack == [Number(1)] && x in st.locals
    ensures var o := RunQ(f, scope, [Bind(Sanitized(x))] + [LocalTok(x)], Lift(st), 0);
            o.FNext? && o.state.stack == [V(st.locals[x])]
  {
    SanitizedExactly(x);
    var y := Sanitized(x);
    var fs1 := Lift(Pop(st).(locals := st.locals[y := Number(1)]));
    LiftPop(st);
    RunQCons(f, scope, Bind(y), [LocalTok(x)], Lift(st), 0);
    assert RunTok(f, scope, Bind(y), Lift(st), 0) == FNext(fs1);
    RunQOne(f, scope, LocalTok(x), fs1, 0);
    assert fs1.locals[x] == st.locals[x];
  }

  /** A builtin written under the name of a local, as NEGATE with a local called neg. */
  lemma HiddenBuiltin(scope: set<string>, c: Context, defs: set<string>, vars: map<string, Storage>, lc: string)
    requires Proper(c, defs, vars) && HidesBuiltin(scope, Names(c.locals, defs + vars.Keys), lc)
    ensures Wrong(scope, c, defs, vars, [WordRef(lc)], 2, 0)
  {
    var m, st := Idle(defs, vars), Hiding(scope, vars, 2);
    var t := PrimTok(lc, Written(lc));
    assert m.NamesOf(c) == Names(c.locals, defs + vars.Keys);
    IdleBuiltin(m, c, lc, st);
    forall locals
      ensures RunSeq(m, c, [WordRef(lc)], st.(locals := locals), 0) != Fault
    {
      IdleBuiltin(m, c, lc, st.(locals := locals));
    }
    assert [WordRef(lc)][1..] == [] && EmitSeq(m.NamesOf(c), [WordRef(lc)]) == [t];
    RunQOne(EmitProgram(m), scope, t, Lift(st), 0);
    CapturedRuns(EmitProgram(m), scope, t, st, Lift(st).stack, 0);
    LeafAdmitted(m, scope, c, WordRef(lc));
    Told(RunTok(EmitProgram(m), scope, t, Lift(st), 0), Next(st));
  }

  lemma IdleBuiltin(m: Machine, c: Context, lc: string, st: State)
    requires m.prim == IdlePrim && IsBuiltinWord(m.NamesOf(c), lc)
    ensures RunSeq(m, c, [WordRef(lc)], st, 0) == Next(st)
  {
    RunOne(m, c, WordRef(lc), st, 0);
  }

  /** A word of the program written under the name of a local, as W with a local called z-w. */
  lemma HiddenWord(scope: set<string>, c: Context, defs: set<string>, vars: map<string, Storage>, w: string)
    requires Proper(c, defs, vars) && w in defs + vars.Keys && w !in c.locals && Mangle(w) in scope
    requires w !in Narrows(vars)
    ensures Wrong(scope, c, defs, vars, [WordRef(w)], 2, 1)
  {
    var m, st := Idle(defs, vars), Hiding(scope, vars, 2);
    var t := UserTok(Mangle(w));
    assert m.NamesOf(c) == Names(c.locals, defs + vars.Keys);
    assert [WordRef(w)][1..] == [] && EmitSeq(m.NamesOf(c), [WordRef(w)]) == [t];
    assert Spelling(t) == Some(Mangle(w));
    RunQOne(EmitProgram(m), scope, t, Lift(st), 1);
    CapturedRuns(EmitProgram(m), scope, t, st, Lift(st).stack, 1);
    IdleWord(m, c, w, st);
    forall locals
      ensures RunSeq(m, c, [WordRef(w)], st.(locals := locals), 1) != Fault
    {
      IdleWord(m, c, w, st.(locals := locals));
    }
    var v := V(st.locals[Mangle(w)]);
    assert PushV(Lift(st), v).stack[1] == v;
    LiftPush(st, Address(w, 0));
    assert PushV(Lift(st), V(Address(w, 0))).stack[1] == V(Address(w, 0));
    LeafAdmitted(m, scope, c, WordRef(w));
    Told(RunTok(EmitProgram(m), scope, t, Lift(st), 1), RunSeq(m, c, [WordRef(w)], st, 1));
  }

  /** A definition that does nothing, a variable that pushes its address, a VALUE that is set. */
  lemma IdleWord(m: Machine, c: Context, w: string, st: State)
    requires w in m.Words() && w !in c.locals && Lower(w) == w && !IsNarrow(m, w)
    requires w in m.defs ==> m.defs[w] == Defining([])
    requires w in m.vars ==> w in st.world.values && st.world.values[w] == Number(7)
    ensures var o := RunSeq(m, c, [WordRef(w)], st, 1);
            o == Next(st) || o == Next(Push(st, Address(w, 0))) || o == Next(Push(st, Number(7)))
  {
    RunOne(m, c, WordRef(w), st, 1);
    assert Resolve(m.NamesOf(c), w) == UserDefined;
    if w in m.defs {
      var st0 := st.(locals := map[]);
      assert BindLocals([], st0) == Next(st0);
      assert RunSeq(m, Context({}, w), [], st0, 0) == Next(st0);
      assert Call(m, w, st, 0) == Next(st);
    }
  }

  lemma SymbolStands(scope: set<string>, c: Context, defs: set<string>, vars: map<string, Storage>, x: string)
    requires Proper(c, defs, vars) && x in Narrows(vars) && Mangle(x) !in scope
    ensures HasSymbol(EmitProgram(Idle(defs, vars)), scope, x)
  {
    var m := Idle(defs, vars);
    ProgramEmits(m);
    assert x in m.Words() && EmitNamed(m, x) == Symbol(x);
  }

  /** The symbol of a global written under the name of a local. */
  lemma HiddenSymbol(scope: set<string>, c: Context, defs: set<string>, vars: map<string, Storage>, x: string)
    requires Proper(c, defs, vars) && x in Narrows(vars) && Mangle(x) in scope
    ensures Wrong(scope, c, defs, vars, [Global(Get, x)], 2, 0)
  {
    var m, st := Idle(defs, vars), Hiding(scope, vars, 2);
    var e := Global(Get, x);
    RunOne(m, c, e, st, 0);
    assert RunSeq(m, c, [e], st, 0) == Next(Push(st, Number(7)));
    assert [e][1..] == [] && EmitSeq(m.NamesOf(c), [e]) == EmitGlobal(Get, x);
    HiddenSymbolRun(EmitProgram(m), scope, x, st);
    LeafAdmitted(m, scope, c, e);
    Told(RunQ(EmitProgram(m), scope, EmitGlobal(Get, x), Lift(st), 0), Next(Push(st, Number(7))));
  }

  lemma HiddenSymbolRun(f: FMachine, scope: set<string>, x: string, st: State)
    requires Mangle(x) in scope && st.locals.Keys == scope && |st.stack| == 1
    ensures var o := RunQ(f, scope, EmitGlobal(Get, x), Lift(st), 0);
            o == FFault || (o.FNext? && |o.state.stack| == 3)
  {
    var t, u := UserTok(Mangle(x)), Bare("get-global");
    assert Spelling(t) == Some(Mangle(x)) && Spelling(u) == Some("get-global");
    assert EmitGlobal(Get, x) == [t] + [u];
    RunQCons(f, scope, t, [u], Lift(st), 0);
    CapturedRuns(f, scope, t, st, Lift(st).stack, 0);
    HiddenThen(f, scope, u, st, V(st.locals[Mangle(x)]));
  }

  /** A word that works on globals, on top of something that is not a symbol, or hidden itself. */
  lemma HiddenThen(f: FMachine, scope: set<string>, u: Token, st: State, v: Value)
    requires u == Bare("get-global") || u == Bare("set-global")
    requires st.locals.Keys == scope && |st.stack| == 1 && (!v.Sym? || u.name in scope)
    ensures var o := RunQ(f, scope, [u], PushV(Lift(st), v), 0);
            o == FFault || (o.FNext? && |o.state.stack| == 3)
  {
    var fs := PushV(Lift(st), v);
    RunQOne(f, scope, u, fs, 0);
    PopPushed(Lift(st), v);
    assert Spelling(u) == Some(u.name);
    if u.name in scope {
      CapturedRuns(f, scope, u, st, fs.stack, 0);
    }
  }

  /** The words that work on globals, hidden. */
  lemma HiddenAccess(scope: set<string>, c: Context, defs: set<string>, vars: map<string, Storage>, x: string,
                     access: Access)
    requires Proper(c, defs, vars) && x in Narrows(vars) && Mangle(x) !in scope
    requires match access
             case Get => "get-global" in scope
             case Set => "set-global" in scope
             case Add => "+" in scope && "get-global" !in scope && "set-global" !in scope
    ensures Wrong(scope, c, defs, vars, [Global(access, x)], 2, 0)
  {
    var m, st := Idle(defs, vars), Hiding(scope, vars, 2);
    var e := Global(access, x);
    SymbolStands(scope, c, defs, vars, x);
    AccessRuns(m, c, access, x, st);
    forall locals
      ensures RunSeq(m, c, [e], st.(locals := locals), 0) != Fault
    {
      AccessRuns(m, c, access, x, st.(locals := locals));
    }
    assert [e][1..] == [] && EmitSeq(m.NamesOf(c), [e]) == EmitGlobal(access, x);
    LeafAdmitted(m, scope, c, e);
    if access == Add {
      HiddenPlus(EmitProgram(m), m, scope, x, st);
    } else {
      HiddenGetOrSet(EmitProgram(m), scope, x, access, st);
    }
    Told(RunQ(EmitProgram(m), scope, EmitGlobal(access, x), Lift(st), 0), RunSeq(m, c, [e], st, 0));
  }

  lemma AccessRuns(m: Machine, c: Context, access: Access, x: string, st: State)
    requires m.prim == IdlePrim && x in st.world.values && |st.stack| == 1
    ensures var o := RunSeq(m, c, [Global(access, x)], st, 0);
            o.Next? && |o.state.stack| == match access case Get => 2 case Set => 0 case Add => 1
  {
    RunOne(m, c, Global(access, x), st, 0);
  }

  lemma HiddenGetOrSet(f: FMachine, scope: set<string>, x: string, access: Access, st: State)
    requires HasSymbol(f, scope, x) && st.locals.Keys == scope && |st.stack| == 1
    requires access != Add && (if access == Get then "get-global" in scope else "set-global" in scope)
    ensures var o := RunQ(f, scope, EmitGlobal(access, x), Lift(st), 0);
            o == FFault || (o.FNext? && |o.state.stack| == 3)
  {
    var t, u := UserTok(Mangle(x)), Bare(if access == Get then "get-global" else "set-global");
    assert EmitGlobal(access, x) == [t] + [u];
    RunQCons(f, scope, t, [u], Lift(st), 0);
    UserRuns(f, scope, Mangle(x), Lift(st), 0);
    HiddenThen(f, scope, u, st, Sym(x));
  }

  lemma HiddenPlus(f: FMachine, m: Machine, scope: set<string>, x: string, st: State)
    requires HasSymbol(f, scope, x) && st.locals.Keys == scope && |st.stack| == 1
    requires m.prim == IdlePrim && x in st.world.values
    requires "+" in scope && "get-global" !in scope && "set-global" !in scope
    ensures var o := RunQ(f, scope, EmitGlobal(Add, x), Lift(st), 0); o.FNext? && |o.state.stack| == 2
    ensures var o := RunGlobal(m, Add, x, st); o.Next? && |o.state.stack| == 1
  {
    var p := Bare("+");
    var st1 := Push(st, st.world.values[x]);
    RunQConcat(f, scope, EmitGlobal(Get, x), [p] + EmitGlobal(Set, x), Lift(st), 0);
    SimFetch(f, scope, x, st, 0);
    RunQCons(f, scope, p, EmitGlobal(Set, x), Lift(st1), 0);
    assert Spelling(p) == Some("+");
    CapturedRuns(f, scope, p, st1, Lift(st1).stack, 0);
    LiftPush(st1, st.locals["+"]);
    SimReplace(f, scope, x, Push(st1, st.locals["+"]), 0);
    assert RunPrim(m, "+", st1) == Next(st1);
  }

  /** The store of TO, hidden. */
  lemma HiddenStore(scope: set<string>, c: Context, defs: set<string>, vars: map<string, Storage>, x: string)
    requires Proper(c, defs, vars) && x in Values(vars) && ("set-global" in scope || Holding(x) in scope)
    ensures Wrong(scope, c, defs, vars, [To(x)], 2, 0)
  {
    var m, st := Idle(defs, vars), Hiding(scope, vars, 2);
    var f, t, u := EmitProgram(m), SymTok(Holding(x), x), Bare("set-global");
    StoreRuns(m, c, x, st);
    forall locals
      ensures RunSeq(m, c, [To(x)], st.(locals := locals), 0) != Fault
    {
      StoreRuns(m, c, x, st.(locals := locals));
    }
    assert Lower(x) == x && [To(x)][1..] == [] && EmitSeq(m.NamesOf(c), [To(x)]) == [t] + [u];
    LeafAdmitted(m, scope, c, To(x));
    HiddenStoreRun(f, scope, x, st);
    Told(RunQ(f, scope, [t] + [u], Lift(st), 0), RunSeq(m, c, [To(x)], st, 0));
  }

  lemma StoreRuns(m: Machine, c: Context, x: string, st: State)
    requires |st.stack| == 1
    ensures var o := RunSeq(m, c, [To(x)], st, 0); o.Next? && o.state.stack == []
  {
    RunOne(m, c, To(x), st, 0);
  }

  lemma HiddenStoreRun(f: FMachine, scope: set<string>, x: string, st: State)
    requires st.locals.Keys == scope && |st.stack| == 1 && ("set-global" in scope || Holding(x) in scope)
    ensures var o := RunQ(f, scope, [SymTok(Holding(x), x)] + [Bare("set-global")], Lift(st), 0);
            o == FFault || (o.FNext? && |o.state.stack| == 3)
  {
    var t, u := SymTok(Holding(x), x), Bare("set-global");
    assert Spelling(t) == Some(Holding(x));
    RunQCons(f, scope, t, [u], Lift(st), 0);
    if Holding(x) in scope {
      CapturedRuns(f, scope, t, st, Lift(st).stack, 0);
      HiddenThen(f, scope, u, st, V(st.locals[Holding(x)]));
    } else {
      HiddenThen(f, scope, u, st, Sym(x));
    }
  }

  // ----- the words of WHILE and CASE -----

  const emptyWhile := BeginWhileRepeat([Lit(0)], [])
  const oneArm := Case([Arm([Lit(1)], [Lit(9)])], NoElse)
  const endlessQuot := [Num(0)] + ([ZeroP] + [IfTok([Bare("f")], [Bare("t")])])

  lemma EmptyWhileQuotation(n: Names)
    ensures EmitSeq(n, [emptyWhile]) == [LoopTok(endlessQuot)]
  {
    var pred := [Lit(0)];
    assert [emptyWhile][1..] == [] && pred[1..] == [];
    assert EmitSeq(n, pred) == [Num(0)];
    assert EmitSeq(n, []) + [Bare("t")] == [Bare("t")];
    assert EmitLoop(n, emptyWhile) == LoopTok(endlessQuot);
  }

  lemma EndlessTurn(f: FMachine, scope: set<string>, fs: FState, fuel: nat)
    requires "f" in scope && "f" in fs.locals
    ensures TurnQ(LoopTok(endlessQuot), RunQ(f, scope, endlessQuot, fs, fuel)) == FRepeat(fs)
  {
    var ift := IfTok([Bare("f")], [Bare("t")]);
    var v := V(fs.locals["f"]);
    RunQCons(f, scope, Num(0), [ZeroP] + [ift], fs, fuel);
    PopPushed(fs, V(Number(0)));
    RunQCons(f, scope, ZeroP, [ift], PushV(fs, V(Number(0))), fuel);
    PopPushed(fs, T);
    RunQOne(f, scope, ift, PushV(fs, T), fuel);
    assert Spelling(Bare("f")) == Some("f");
    RunQOne(f, scope, Bare("f"), fs, fuel);
    assert RunQ(f, scope, endlessQuot, fs, fuel) == FNext(PushV(fs, v));
    PopPushed(fs, v);
  }

  lemma {:induction false} EndlessLoop(f: FMachine, scope: set<string>, fs: FState, fuel: nat)
    requires "f" in scope && "f" in fs.locals
    ensures RunLoopQ(f, scope, LoopTok(endlessQuot), fs, fuel) == FTimeout
    decreases fuel
  {
    if fuel > 0 {
      EndlessTurn(f, scope, fs, fuel);
      EndlessLoop(f, scope, fs, fuel - 1);
    }
  }

  /** The loop does not end where a local called f is bound. */
  lemma EndlessRun(f: FMachine, scope: set<string>, fs: FState, fuel: nat)
    requires "f" in scope && "f" in fs.locals
    ensures RunTok(f, scope, LoopTok(endlessQuot), fs, fuel) == FTimeout
    ensures RunQ(f, scope, [LoopTok(endlessQuot)], fs, fuel) == FTimeout
  {
    EndlessLoop(f, scope, fs, fuel);
    RunQOne(f, scope, LoopTok(endlessQuot), fs, fuel);
  }

  /** With a local called f, BEGIN 0 WHILE REPEAT does not end. */
  lemma HiddenFalse(scope: set<string>, c: Context, defs: set<string>, vars: map<string, Storage>)
    requires Proper(c, defs, vars) && "f" in scope
    ensures Wrong(scope, c, defs, vars, [emptyWhile], 2, 1)
  {
    var m, st := Idle(defs, vars), Hiding(scope, vars, 2);
    EmptyWhileRuns(m, c, st);
    forall locals
      ensures RunSeq(m, c, [emptyWhile], st.(locals := locals), 1) != Fault
    {
      EmptyWhileRuns(m, c, st.(locals := locals));
    }
    EmptyWhileAdmitted(m, scope, c);
    EmptyWhileQuotation(m.NamesOf(c));
    EndlessRun(EmitProgram(m), scope, Lift(st), 1);
    Told(FTimeout, RunSeq(m, c, [emptyWhile], st, 1));
  }

  lemma EmptyWhileRuns(m: Machine, c: Context, st: State)
    ensures RunSeq(m, c, [emptyWhile], st, 1) == Next(st)
  {
    EmptyWhileRun(m, c, st, 1);
    RunOne(m, c, emptyWhile, st, 1);
  }

  lemma EmptyWhileRun(m: Machine, c: Context, st: State, fuel: nat)
    requires fuel > 0
    ensures RunExpr(m, c, emptyWhile, st, fuel) == Next(st)
  {
    RunOne(m, c, Lit(0), st, fuel);
    assert Drop(st.stack + [Number(0)]) == st.stack;
    assert Pop(Push(st, Number(0))) == st;
    assert LoopTurn(m, c, emptyWhile, st, fuel) == Leave(Next(st));
  }

  lemma EmptyWhileAdmitted(m: Machine, scope: set<string>, c: Context)
    ensures Admitted(m, scope, c, [emptyWhile])
  {
    assert [emptyWhile][1..] == [] && emptyWhile.pred[1..] == [];
    EmptyWhileQuotation(m.NamesOf(c));
    EndlessLexical(scope);
  }

  lemma EndlessLexical(scope: set<string>)
    ensures LexicalQ(scope, scope, [LoopTok(endlessQuot)])
  {
    var ift := IfTok([Bare("f")], [Bare("t")]);
    LeavesLexical(scope, [Bare("f")]);
    LeavesLexical(scope, [Bare("t")]);
    LeavesLexical(scope, [Num(0)] + [ZeroP]);
    LexicalOne(scope, scope, ift);
    assert endlessQuot == ([Num(0)] + [ZeroP]) + [ift];
    LexicalConcat(scope, scope, [Num(0)] + [ZeroP], [ift]);
    BindsConcat([Num(0)] + [ZeroP], [ift]);
    assert scope - BindsQ(endlessQuot) == scope;
    LexicalOne(scope, scope, LoopTok(endlessQuot));
  }

  const oneArmQuot :=
    [Bare("dup")] + ([Num(1)] + ([Bare("=")] + [IfTok([Bare("drop")] + [Num(9)], [KernelDrop])]))

  lemma OneArmQuotation(n: Names)
    ensures EmitSeq(n, [oneArm]) == oneArmQuot
  {
    assert [oneArm][1..] == [] && oneArm.arms[1..] == [];
    assert forall v :: EmitSeq(n, [Lit(v)]) == [Num(v)] by {
      forall v ensures EmitSeq(n, [Lit(v)]) == [Num(v)] {
        assert [Lit(v)][1..] == [];
      }
    }
    assert EmitCase(n, [], NoElse) == [KernelDrop];
  }

  /** What the emitted CASE leaves when one of its bare words is hidden: always the nine of its arm. */
  lemma HiddenRun(f: FMachine, scope: set<string>, st: State, v: int)
    requires st.locals.Keys == scope && st.stack == [Number(v)]
    requires forall x <- scope :: st.locals[x] == Number(if x == "dup" then 1 else 5)
    requires "=" in scope || "dup" in scope || ("drop" in scope && v == 1)
    ensures var o := RunQ(f, scope, oneArmQuot, Lift(st), 0);
            o.FNext? && |o.state.stack| >= (if "=" in scope || "dup" in scope then 1 else 2)
  {
    var fs := Lift(st);
    var ift := IfTok([Bare("drop")] + [Num(9)], [KernelDrop]);
    assert Spelling(Bare("dup")) == Some("dup") && Spelling(Bare("=")) == Some("=");
    var d := V(Number(if "dup" in scope then 1 else v));
    var fs1 := PushV(fs, d);
    RunQCons(f, scope, Bare("dup"), [Num(1)] + ([Bare("=")] + [ift]), fs, 0);
    RunQCons(f, scope, Num(1), [Bare("=")] + [ift], fs1, 0);
    var fs2 := PushV(fs1, V(Number(1)));
    PopPushed(fs1, V(Number(1)));
    PopPushed(fs, d);
    RunQCons(f, scope, Bare("="), [ift], fs2, 0);
    if "=" in scope {
      ArmChosen(f, scope, fs2, V(Number(5)));
    } else {
      assert d == V(Number(1));
      ArmChosen(f, scope, fs, T);
    }
  }

  lemma ArmChosen(f: FMachine, scope: set<string>, fs: FState, flag: Value)
    requires flag != F && |fs.stack| >= 1 && fs.locals.Keys == scope
    ensures var o := RunQ(f, scope, [IfTok([Bare("drop")] + [Num(9)], [KernelDrop])], PushV(fs, flag), 0);
            o.FNext? && |o.state.stack| == if "drop" in scope then |fs.stack| + 2 else |fs.stack|
  {
    IfTokRuns(f, scope, IfTok([Bare("drop")] + [Num(9)], [KernelDrop]), fs, flag, 0);
    assert Spelling(Bare("drop")) == Some("drop");
    RunQCons(f, scope, Bare("drop"), [Num(9)], fs, 0);
    var fs5 := if "drop" in scope then PushV(fs, V(fs.locals["drop"])) else PopV(fs);
    RunQOne(f, scope, Num(9), fs5, 0);
  }

  /** With a local called dup, drop or =, CASE 1 OF 9 ENDOF ENDCASE leaves too much. */
  lemma HiddenCase(scope: set<string>, c: Context, defs: set<string>, vars: map<string, Storage>, v: int)
    requires Proper(c, defs, vars) && ("=" in scope || "dup" in scope || "drop" in scope)
    requires v == if "=" in scope || "dup" in scope then 2 else 1
    ensures Wrong(scope, c, defs, vars, [oneArm], v, 0)
  {
    var m, st := Idle(defs, vars), Hiding(scope, vars, v);
    OneArmAdmitted(m, scope, c);
    OneArmQuotation(m.NamesOf(c));
    HiddenRun(EmitProgram(m), scope, st, v);
    OneArmRun(m, c, st, v);
    forall locals
      ensures RunSeq(m, c, [oneArm], st.(locals := locals), 0) != Fault
    {
      OneArmRun(m, c, st.(locals := locals), v);
    }
    Told(RunQ(EmitProgram(m), scope, oneArmQuot, Lift(st), 0), RunSeq(m, c, [oneArm], st, 0));
  }

  lemma OneArmAdmitted(m: Machine, scope: set<string>, c: Context)
    ensures Admitted(m, scope, c, [oneArm])
  {
    assert [oneArm][1..] == [] && oneArm.arms[1..] == [];
    OneArmMatched(m.NamesOf(c), DupCopies(m));
    OneArmQuotation(m.NamesOf(c));
    OneArmLexical(scope);
  }

  lemma OneArmLexical(scope: set<string>)
    ensures LexicalQ(scope, scope, oneArmQuot)
  {
    var ift := IfTok([Bare("drop")] + [Num(9)], [KernelDrop]);
    var first := [Bare("dup")] + [Num(1)] + [Bare("=")];
    LeavesLexical(scope, [Bare("drop")] + [Num(9)]);
    LeavesLexical(scope, [KernelDrop]);
    LeavesLexical(scope, first);
    LexicalOne(scope, scope, ift);
    LexicalConcat(scope, scope, first, [ift]);
    assert oneArmQuot == first + [ift];
  }

  lemma OneArmRun(m: Machine, c: Context, st: State, v: int)
    requires st.stack == [Number(v)]
    ensures var o := RunSeq(m, c, [oneArm], st, 0);
            o.Next? && o.state.stack == if v == 1 then [Number(9)] else []
  {
    RunOne(m, c, oneArm, st, 0);
    RunOne(m, c, Lit(1), st, 0);
    assert Drop(st.stack + [Number(1)]) == st.stack;
    assert Drop(st.stack) == [];
    RunOne(m, c, Lit(9), Pop(st), 0);
  }

  lemma OneArmMatched(n: Names, copies: bool)
    ensures MatchedSeq(unknown, n, [oneArm], copies)
  {
    assert [oneArm][1..] == [] && oneArm.arms[1..] == [];
    assert oneArm.arms[0].matchExpr[1..] == [] && oneArm.arms[0].body[1..] == [];
    assert InferBlock(unknown, n, oneArm.arms[0].matchExpr) == Known(0, 1);
  }
}
