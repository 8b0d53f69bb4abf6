/** The emitted quotations do what the bodies do. */
module EmitSim {
  import opened Common
  import opened Forth
  import opened Equivalence
  import opened Frame
  import opened Effects
  import opened EffectSound
  import opened Exits
  import opened Factor
  import opened Emit
  import opened Lifting
  import opened Preamble
  import LowerExit
  import LowerQdup

  // ----- parts of what can be emitted -----

  /** A program that can be emitted, and what it is emitted as, with one frame of locals for each word. */
  ghost predicate Emitted(f: FMachine, m: Machine, env: Env) {
    Emittable(m, env) && Emits(f, m) && !f.lexical
  }

  predicate ExprSpelled(m: Machine, scope: set<string>, c: Context, e: Expr) {
    NamedExpr(m, c, e) && Dotless(c.locals) && ClearQ(EmitExpr(m.NamesOf(c), e), scope)
  }

  predicate ElseSpelled(m: Machine, scope: set<string>, c: Context, e: Else) {
    NamedElse(m, c, e) && Dotless(c.locals) && ClearQ(EmitElse(m.NamesOf(c), e), scope)
  }

  predicate CaseSpelled(m: Machine, scope: set<string>, c: Context, arms: seq<Arm>, default: Else) {
    && NamedArms(m, c, arms) && NamedElse(m, c, default)
    && Dotless(c.locals) && ClearQ(EmitCase(m.NamesOf(c), arms, default), scope)
  }

  ghost predicate ExprOk(m: Machine, env: Env, scope: set<string>, c: Context, e: Expr) {
    ExprSpelled(m, scope, c, e) && MatchedExpr(env, m.NamesOf(c), e, DupCopies(m))
  }

  ghost predicate ElseOk(m: Machine, env: Env, scope: set<string>, c: Context, e: Else) {
    ElseSpelled(m, scope, c, e) && MatchedElse(env, m.NamesOf(c), e, DupCopies(m))
  }

  ghost predicate CaseOk(m: Machine, env: Env, scope: set<string>, c: Context, arms: seq<Arm>, default: Else) {
    && CaseSpelled(m, scope, c, arms, default)
    && MatchedArms(env, m.NamesOf(c), arms, DupCopies(m)) && MatchedElse(env, m.NamesOf(c), default, DupCopies(m))
  }

  lemma SpelledCons(m: Machine, scope: set<string>, c: Context, s: seq<Expr>)
    requires s != [] && Spelled(m, scope, c, s)
    ensures ExprSpelled(m, scope, c, s[0]) && Spelled(m, scope, c, s[1..])
  {
    ClearConcat(EmitExpr(m.NamesOf(c), s[0]), EmitSeq(m.NamesOf(c), s[1..]), scope);
  }

  lemma SpelledIf(m: Machine, scope: set<string>, c: Context, e: Expr)
    requires e.If? && ExprSpelled(m, scope, c, e)
    ensures Spelled(m, scope, c, e.thenBody) && ElseSpelled(m, scope, c, e.elseBody)
  {
    var t := EmitExpr(m.NamesOf(c), e)[1];
    assert EmitExpr(m.NamesOf(c), e) == [ZeroP] + [t];
    ClearConcat([ZeroP], [t], scope);
    ClearOne(t, scope);
    match e
    case If(_, NoElse) =>
    case If(_, ElseBody(_)) =>
  }

  lemma SpelledDefault(m: Machine, scope: set<string>, c: Context, default: Else)
    requires CaseSpelled(m, scope, c, [], default)
    ensures ElseSpelled(m, scope, c, default)
  {
    ClearConcat(EmitElse(m.NamesOf(c), default), [KernelDrop], scope);
  }

  lemma SpelledArm(m: Machine, scope: set<string>, c: Context, arms: seq<Arm>, default: Else)
    requires arms != [] && CaseSpelled(m, scope, c, arms, default)
    ensures Spelled(m, scope, c, arms[0].matchExpr) && Spelled(m, scope, c, arms[0].body)
    ensures CaseSpelled(m, scope, c, arms[1..], default)
    ensures "dup" !in scope && "=" !in scope && "drop" !in scope
  {
    var n := m.NamesOf(c);
    var q, test := EmitSeq(n, arms[0].matchExpr), EmitTest(n, arms, default);
    ClearConcat([Bare("dup")] + q, test, scope);
    ClearConcat([Bare("dup")], q, scope);
    ClearOne(Bare("dup"), scope);
    assert test[1..] == [test[1]];
    ClearOne(test[1], scope);
    ClearConcat([Bare("drop")], EmitSeq(n, arms[0].body), scope);
    ClearOne(Bare("drop"), scope);
    assert ClearTok(test[0], scope) && test[0] == Bare("=");
    assert Spelling(Bare("dup")) == Some("dup") && Spelling(Bare("drop")) == Some("drop");
    assert Spelling(Bare("=")) == Some("=");
  }

  lemma SpelledLoop(m: Machine, scope: set<string>, c: Context, e: Expr)
    requires IsLoop(e) && ExprSpelled(m, scope, c, e)
    ensures Spelled(m, scope, c, e.body)
    ensures e.BeginWhileRepeat? ==> Spelled(m, scope, c, e.pred) && "f" !in scope
  {
    var n := m.NamesOf(c);
    ClearOne(EmitLoop(n, e), scope);
    match e
    case BeginUntil(body) => ClearConcat(EmitSeq(n, body), [ZeroP], scope);
    case BeginAgain(body) => ClearConcat(EmitSeq(n, body), [Bare("t")], scope);
    case BeginWhileRepeat(pred, body) =>
      var ift := IfTok([Bare("f")], EmitSeq(n, body) + [Bare("t")]);
      ClearConcat(EmitSeq(n, pred), [ZeroP, ift], scope);
      assert [ZeroP, ift][1..] == [ift];
      ClearOne(ift, scope);
      ClearOne(Bare("f"), scope);
      assert Spelling(Bare("f")) == Some("f");
      ClearConcat(EmitSeq(n, body), [Bare("t")], scope);
    case DoLoop(_, body, kind) => ClearConcat(EmitSeq(n, body), if kind == Plus1 then [Num(1)] else [], scope);
  }

  // ----- match expressions -----

  /** A run from the selector alone that leaves the selector and one item, or does not end normally. */
  predicate AddsOne(o: Outcome, sel: Cell) {
    o == Fault || o == Timeout || (o.Next? && |o.state.stack| == 2 && o.state.stack[0] == sel)
  }

  /** On any stack, a match expression does what it does on the selector alone. */
  lemma MatchRuns(m: Machine, env: Env, c: Context, s: seq<Expr>, st: State, fuel: nat)
    requires Discreet(m, env.quiet) && Passed(m, env) && MatchOk(env, m.NamesOf(c), s, DupCopies(m))
    requires |st.stack| > 0
    ensures var sel := Top(st.stack);
            var o := RunSeq(m, c, s, st.(stack := [sel]), fuel);
            AddsOne(o, sel) && RunSeq(m, c, s, st, fuel) == UnderOutcome(Drop(st.stack), o)
  {
    var sel := Top(st.stack);
    var st0 := st.(stack := [sel]);
    if InferBlock(env, m.NamesOf(c), s) == Known(0, 1) {
      SoundSeq(m, env, c, s, st0, fuel);
      OneAdded(st0, RunSeq(m, c, s, st0, fuel), 0);
    } else {
      var st1 := Push(st0, sel);
      assert s == [s[0]] + s[1..];
      RunCons(m, c, s[0], s[1..], st0, fuel);
      assert m.prim("dup", st0.stack, st0.world) == LowerQdup.DupPrim(st0.stack, st0.world);
      assert RunExpr(m, c, s[0], st0, fuel) == Next(st1);
      SoundSeq(m, env, c, s[1..], st1, fuel);
      OneAdded(st1, RunSeq(m, c, s[1..], st1, fuel), 1);
    }
    assert Under(Drop(st.stack), st0) == st by {
      assert Drop(st.stack) + [sel] == st.stack;
    }
    FrameSeq(m, env.quiet, c, s, Drop(st.stack), st0, fuel);
  }

  lemma OneAdded(st: State, o: Outcome, i: nat)
    requires |st.stack| == 1 + i && Fits(o, st, i, 1)
    ensures AddsOne(o, st.stack[0])
  {
    if o.Next? {
      assert o.state.stack[..1][0] == st.stack[..1][0];
    }
  }

  /** Match expressions hold no EXIT, so that looking for one outside them finds all. */
  lemma {:induction false} UsesIsHolds(env: Env, n: Names, s: seq<Expr>, copies: bool)
    requires "exit" !in env.table && MatchedSeq(env, n, s, copies)
    ensures LowerExit.SeqUsesExit(n, s) == LowerExit.SeqHoldsExit(n, s)
    decreases SizeSeq(s), 1, |s|
  {
    if s != [] {
      ExprUsesIsHolds(env, n, s[0], copies);
      UsesIsHolds(env, n, s[1..], copies);
    }
  }

  lemma {:induction false} ExprUsesIsHolds(env: Env, n: Names, e: Expr, copies: bool)
    requires "exit" !in env.table && MatchedExpr(env, n, e, copies)
    ensures LowerExit.ExprUsesExit(n, e) == LowerExit.ExprHoldsExit(n, e)
    decreases SizeExpr(e), 0
  {
    match e
    case If(thenBody, elseBody) =>
      UsesIsHolds(env, n, thenBody, copies);
      ElseUsesIsHolds(env, n, elseBody, copies);
    case BeginUntil(body) => UsesIsHolds(env, n, body, copies);
    case BeginAgain(body) => UsesIsHolds(env, n, body, copies);
    case BeginWhileRepeat(pred, body) =>
      UsesIsHolds(env, n, pred, copies);
      UsesIsHolds(env, n, body, copies);
    case DoLoop(_, body, _) => UsesIsHolds(env, n, body, copies);
    case Case(arms, default) =>
      ArmsUseIsHold(env, n, arms, copies);
      ElseUsesIsHolds(env, n, default, copies);
    case _ =>
  }

  lemma {:induction false} ElseUsesIsHolds(env: Env, n: Names, e: Else, copies: bool)
    requires "exit" !in env.table && MatchedElse(env, n, e, copies)
    ensures LowerExit.ElseUsesExit(n, e) == LowerExit.ElseHoldsExit(n, e)
    decreases SizeElse(e), 0
  {
    if e.ElseBody? {
      UsesIsHolds(env, n, e.body, copies);
    }
  }

  lemma {:induction false} ArmsUseIsHold(env: Env, n: Names, arms: seq<Arm>, copies: bool)
    requires "exit" !in env.table && MatchedArms(env, n, arms, copies)
    ensures LowerExit.ArmsUseExit(n, arms) == LowerExit.ArmsHoldExit(n, arms)
    decreases SizeArms(arms), 0
  {
    if arms != [] {
      MatchHoldsNoExit(env, n, arms[0].matchExpr, copies);
      UsesIsHolds(env, n, arms[0].body, copies);
      ArmsUseIsHold(env, n, arms[1..], copies);
    }
  }

  lemma MatchHoldsNoExit(env: Env, n: Names, s: seq<Expr>, copies: bool)
    requires "exit" !in env.table && MatchOk(env, n, s, copies)
    ensures !LowerExit.SeqHoldsExit(n, s)
  {
    if InferBlock(env, n, s) == Known(0, 1) {
      KnownHoldsNoExit(env, n, s);
    } else {
      KnownHoldsNoExit(env, n, s[1..]);
    }
  }

  // ----- locals -----

  lemma SimBind(f: FMachine, scope: set<string>, name: string, st: State, fuel: nat)
    requires name == "_" || '.' !in Lower(name)
    ensures RunTok(f, scope, EmitBind(name), Lift(st), fuel) ==
            if |st.stack| == 0 then FUnderflow
            else FNext(Lift(if name == "_" then Pop(st)
                            else Pop(st).(locals := st.locals[Lower(name) := Top(st.stack)])))
  {
    SanitizedExactly(Lower(name));
    if |st.stack| > 0 {
      LiftPop(st);
    }
  }

  lemma {:induction false} SimBinds(f: FMachine, scope: set<string>, locals: set<string>, names: seq<string>, st: State,
                                    fuel: nat)
    requires Scoped(names, locals) && Dotless(locals)
    ensures RunQ(f, scope, EmitBinds(names), Lift(st), fuel) == LiftOutcome(BindLocals(names, st))
    decreases names
  {
    if names != [] {
      var last := names[|names| - 1];
      var rest := names[..|names| - 1];
      assert last in names;
      SimBind(f, scope, last, st, fuel);
      RunQCons(f, scope, EmitBind(last), EmitBinds(rest), Lift(st), fuel);
      if |st.stack| > 0 {
        SimBinds(f, scope, locals, rest,
                 if last == "_" then Pop(st) else Pop(st).(locals := st.locals[Lower(last) := Top(st.stack)]), fuel);
      }
    }
  }

  // ----- the simulation -----

  /** The emitted quotation does what the body does: same outcome, same stack, same world. */
  lemma {:induction false} SimSeq(f: FMachine, m: Machine, env: Env, scope: set<string>, c: Context, s: seq<Expr>,
                                  st: State, fuel: nat)
    requires Emitted(f, m, env) && BodyOk(m, env, scope, c, s)
    ensures RunQ(f, scope, EmitSeq(m.NamesOf(c), s), Lift(st), fuel)
         == LiftOutcome(RunSeq(m, c, s, st, fuel))
    decreases fuel, SizeSeq(s), 6, |s|
  {
    if s != [] {
      var n := m.NamesOf(c);
      SpelledCons(m, scope, c, s);
      RunQConcat(f, scope, EmitExpr(n, s[0]), EmitSeq(n, s[1..]), Lift(st), fuel);
      SimExpr(f, m, env, scope, c, s[0], st, fuel);
      match RunExpr(m, c, s[0], st, fuel)
      case Next(st1) => SimSeq(f, m, env, scope, c, s[1..], st1, fuel);
      case _ =>
    }
  }

  lemma {:induction false} SimExpr(f: FMachine, m: Machine, env: Env, scope: set<string>, c: Context, e: Expr,
                                   st: State, fuel: nat)
    requires Emitted(f, m, env) && ExprOk(m, env, scope, c, e)
    ensures RunQ(f, scope, EmitExpr(m.NamesOf(c), e), Lift(st), fuel) == LiftOutcome(RunExpr(m, c, e, st, fuel))
    decreases fuel, SizeExpr(e), 5
  {
    if IsLoop(e) {
      SimLoopExpr(f, m, env, scope, c, e, st, fuel);
    } else if e.If? {
      SimIf(f, m, env, scope, c, e, st, fuel);
    } else if e.Case? {
      SimArms(f, m, env, scope, c, e.arms, e.default, st, fuel);
    } else if e.WordRef? {
      RunQOne(f, scope, EmitWord(m.NamesOf(c), e.name), Lift(st), fuel);
      ClearOne(EmitWord(m.NamesOf(c), e.name), scope);
      SimWord(f, m, env, scope, c, e.name, st, fuel);
    } else {
      SimLeaf(f, m, scope, c, e, st, fuel);
    }
  }

  lemma SimLeaf(f: FMachine, m: Machine, scope: set<string>, c: Context, e: Expr, st: State, fuel: nat)
    requires Emits(f, m) && ExprSpelled(m, scope, c, e)
    requires e.Lit? || e.Tick? || e.To? || e.Global? || e.Locals?
    ensures RunQ(f, scope, EmitExpr(m.NamesOf(c), e), Lift(st), fuel) == LiftOutcome(RunExpr(m, c, e, st, fuel))
  {
    match e
    case Lit(_) => SimSimple(f, m, scope, c, e, st, fuel);
    case Tick(_) => SimSimple(f, m, scope, c, e, st, fuel);
    case To(_) => SimTo(f, m, scope, c, e, st, fuel);
    case Global(access, x) => SimGlobal(f, m, scope, access, x, st, fuel);
    case Locals(names) => SimBinds(f, scope, c.locals, names, st, fuel);
  }

  lemma {:induction false} SimLoopExpr(f: FMachine, m: Machine, env: Env, scope: set<string>, c: Context, e: Expr,
                                       st: State, fuel: nat)
    requires IsLoop(e) && Emitted(f, m, env) && ExprOk(m, env, scope, c, e)
    ensures RunQ(f, scope, EmitExpr(m.NamesOf(c), e), Lift(st), fuel) == LiftOutcome(RunExpr(m, c, e, st, fuel))
    decreases fuel, SizeExpr(e), 4
  {
    var t := EmitLoop(m.NamesOf(c), e);
    RunQOne(f, scope, t, Lift(st), fuel);
    if e.DoLoop? {
      if |st.stack| >= 2 && Top(st.stack).Number? && Top(Drop(st.stack)).Number? {
        SimLoop(f, m, env, scope, c, e, PushFrame(Pop(Pop(st)), Top(Drop(st.stack)).n, Top(st.stack).n), fuel);
      }
      SimDo(f, m, scope, c, e, t, st, fuel);
    } else {
      SimLoop(f, m, env, scope, c, e, st, fuel);
    }
  }

  lemma SimSimple(f: FMachine, m: Machine, scope: set<string>, c: Context, e: Expr, st: State, fuel: nat)
    requires (e.Lit? || e.Tick?) && ExprSpelled(m, scope, c, e)
    ensures RunQ(f, scope, EmitExpr(m.NamesOf(c), e), Lift(st), fuel)
         == LiftOutcome(RunExpr(m, c, e, st, fuel))
  {
    match e
    case Lit(v) =>
      RunQOne(f, scope, Num(v), Lift(st), fuel);
      LiftPush(st, Number(v));
    case Tick(name) =>
      var t := XtTok(TickName(m.NamesOf(c), name), Lower(name));
      ClearOne(t, scope);
      RunQOne(f, scope, t, Lift(st), fuel);
      LiftPush(st, Xt(Lower(name)));
  }

  /** Storing into the global whose symbol has been pushed. */
  lemma SimStore(f: FMachine, scope: set<string>, key: string, st: State, fuel: nat)
    requires "set-global" !in scope
    ensures RunQ(f, scope, [Bare("set-global")], PushV(Lift(st), Sym(key)), fuel)
         == LiftOutcome(SetValue(key, st))
  {
    var fs := PushV(Lift(st), Sym(key));
    RunQOne(f, scope, Bare("set-global"), fs, fuel);
    PopPushed(Lift(st), Sym(key));
    if |st.stack| > 0 {
      LiftPop(st);
      assert |fs.stack| >= 2 && DropV(fs.stack) == Lift(st).stack;
    }
  }

  lemma SimTo(f: FMachine, m: Machine, scope: set<string>, c: Context, e: Expr, st: State, fuel: nat)
    requires e.To? && ExprSpelled(m, scope, c, e)
    ensures RunQ(f, scope, EmitExpr(m.NamesOf(c), e), Lift(st), fuel)
         == LiftOutcome(RunExpr(m, c, e, st, fuel))
  {
    var lc := Lower(e.name);
    var t, u := SymTok(Holding(lc), lc), Bare("set-global");
    assert EmitExpr(m.NamesOf(c), e) == [t] + [u];
    ClearConcat([t], [u], scope);
    ClearOne(t, scope);
    ClearOne(u, scope);
    assert Spelling(u) == Some("set-global") && Spelling(t) == Some(Holding(lc));
    RunQCons(f, scope, t, [u], Lift(st), fuel);
    SimStore(f, scope, lc, st, fuel);
  }

  /** A program in which the word for x is the symbol of its global. */
  predicate HasSymbol(f: FMachine, scope: set<string>, x: string) {
    Mangle(x) in f.words && f.words[Mangle(x)] == Symbol(x) && Mangle(x) !in scope
  }

  lemma SimFetch(f: FMachine, scope: set<string>, x: string, st: State, fuel: nat)
    requires HasSymbol(f, scope, x) && "get-global" !in scope
    ensures RunQ(f, scope, EmitGlobal(Get, x), Lift(st), fuel) == LiftOutcome(GetValue(x, st))
  {
    var t, u := UserTok(Mangle(x)), Bare("get-global");
    assert EmitGlobal(Get, x) == [t] + [u];
    RunQCons(f, scope, t, [u], Lift(st), fuel);
    UserRuns(f, scope, Mangle(x), Lift(st), fuel);
    RunQOne(f, scope, u, PushV(Lift(st), Sym(x)), fuel);
    PopPushed(Lift(st), Sym(x));
    if x in st.world.values {
      LiftPush(st, st.world.values[x]);
    }
  }

  lemma SimReplace(f: FMachine, scope: set<string>, x: string, st: State, fuel: nat)
    requires HasSymbol(f, scope, x) && "set-global" !in scope
    ensures RunQ(f, scope, EmitGlobal(Set, x), Lift(st), fuel) == LiftOutcome(SetValue(x, st))
  {
    var t, u := UserTok(Mangle(x)), Bare("set-global");
    assert EmitGlobal(Set, x) == [t] + [u];
    RunQCons(f, scope, t, [u], Lift(st), fuel);
    UserRuns(f, scope, Mangle(x), Lift(st), fuel);
    SimStore(f, scope, x, st, fuel);
  }

  lemma ClearGlobal(access: Access, x: string, scope: set<string>)
    requires ClearQ(EmitGlobal(access, x), scope)
    ensures Mangle(x) !in scope
    ensures access != Get ==> "set-global" !in scope
    ensures access != Set ==> "get-global" !in scope
    ensures access == Add ==> "+" !in scope
  {
    var t, g, s, p := UserTok(Mangle(x)), Bare("get-global"), Bare("set-global"), Bare("+");
    assert Spelling(t) == Some(Mangle(x)) && Spelling(g) == Some("get-global");
    assert Spelling(s) == Some("set-global") && Spelling(p) == Some("+");
    assert [t, g] == [t] + [g] && [t, s] == [t] + [s];
    ClearConcat([t], [g], scope);
    ClearConcat([t], [s], scope);
    ClearConcat([t, g], [p] + [t, s], scope);
    ClearConcat([p], [t, s], scope);
    ClearOne(t, scope);
    ClearOne(g, scope);
    ClearOne(s, scope);
    ClearOne(p, scope);
  }

  lemma SimGlobal(f: FMachine, m: Machine, scope: set<string>, access: Access, x: string, st: State, fuel: nat)
    requires Emits(f, m) && IsNarrow(m, x) && ClearQ(EmitGlobal(access, x), scope)
    ensures RunQ(f, scope, EmitGlobal(access, x), Lift(st), fuel)
         == LiftOutcome(RunGlobal(m, access, x, st))
  {
    ClearGlobal(access, x, scope);
    match access
    case Get => SimFetch(f, scope, x, st, fuel);
    case Set => SimReplace(f, scope, x, st, fuel);
    case Add => SimAdd(f, m, scope, x, st, fuel);
  }

  lemma SimAdd(f: FMachine, m: Machine, scope: set<string>, x: string, st: State, fuel: nat)
    requires f.prim == m.prim && HasSymbol(f, scope, x)
    requires "set-global" !in scope && "get-global" !in scope && "+" !in scope
    ensures RunQ(f, scope, EmitGlobal(Add, x), Lift(st), fuel) == LiftOutcome(RunGlobal(m, Add, x, st))
  {
    var p := Bare("+");
    RunQConcat(f, scope, EmitGlobal(Get, x), [p] + EmitGlobal(Set, x), Lift(st), fuel);
    SimFetch(f, scope, x, st, fuel);
    match GetValue(x, st)
    case Next(st1) =>
      RunQCons(f, scope, p, EmitGlobal(Set, x), Lift(st1), fuel);
      LiftCells(st1.stack);
      assert Spelling(p) == Some("+");
      match RunPrim(m, "+", st1) {
        case Next(st2) => SimReplace(f, scope, x, st2, fuel);
        case _ =>
      }
    case _ =>
  }

  lemma SimPrim(f: FMachine, m: Machine, scope: set<string>, lc: string, w: Option<string>, st: State, fuel: nat)
    requires f.prim == m.prim && ClearTok(PrimTok(lc, w), scope)
    ensures RunTok(f, scope, PrimTok(lc, w), Lift(st), fuel) == LiftOutcome(RunPrim(m, lc, st))
  {
    LiftCells(st.stack);
  }

  lemma SimLocal(lc: string, st: State)
    ensures RunLocal(lc, Lift(st)) == LiftOutcome(if lc in st.locals then Next(Push(st, st.locals[lc])) else Fault)
  {
    if lc in st.locals { LiftPush(st, st.locals[lc]); }
  }

  lemma {:induction false} SimWord(f: FMachine, m: Machine, env: Env, scope: set<string>, c: Context, name: string,
                                   st: State, fuel: nat)
    requires Emitted(f, m, env) && NamedExpr(m, c, WordRef(name))
    requires ClearTok(EmitWord(m.NamesOf(c), name), scope)
    ensures RunTok(f, scope, EmitWord(m.NamesOf(c), name), Lift(st), fuel)
         == LiftOutcome(RunWord(m, c, name, st, fuel))
    decreases fuel, 0, 2
  {
    var lc := Lower(name);
    match Resolve(m.NamesOf(c), name)
    case Local => SimLocal(lc, st);
    case UserDefined =>
      assert Spelling(UserTok(Mangle(lc))) == Some(Mangle(lc));
      if lc in m.defs {
        SimUser(f, m, env, lc, st, fuel);
      } else {
        SimVar(f, m, lc, st, fuel);
      }
      UserWord(f, m, scope, c, name, st, fuel);
    case Return =>
    case Builtin => SimPrim(f, m, scope, lc, Written(lc), st, fuel);
  }

  /** What a word of the program does that is a definition. */
  ghost function RunDef(m: Machine, lc: string, st: State, fuel: nat): Outcome
    requires lc in m.defs
  {
    if fuel == 0 then Timeout else Call(m, lc, st, fuel - 1)
  }

  lemma {:induction false} SimUser(f: FMachine, m: Machine, env: Env, lc: string, st: State, fuel: nat)
    requires Emitted(f, m, env) && lc in m.defs
    ensures RunUser(f, Mangle(lc), Lift(st), fuel) == LiftOutcome(RunDef(m, lc, st, fuel))
    decreases fuel, 0, 1
  {
    IsColon(f, m, lc);
    forall k: nat | k + 1 == fuel
      ensures CallQ(f, Mangle(lc), Lift(st), k) == LiftOutcome(Call(m, lc, st, k))
    {
      SimCall(f, m, env, lc, st, k);
    }
    UserCalls(f, m, lc, st, fuel);
  }

  lemma UserCalls(f: FMachine, m: Machine, lc: string, st: State, fuel: nat)
    requires lc in m.defs && Mangle(lc) in f.words && f.words[Mangle(lc)].Colon?
    requires fuel > 0 ==> CallQ(f, Mangle(lc), Lift(st), fuel - 1) == LiftOutcome(Call(m, lc, st, fuel - 1))
    ensures RunUser(f, Mangle(lc), Lift(st), fuel) == LiftOutcome(RunDef(m, lc, st, fuel))
  {
    RunColon(f, Mangle(lc), Lift(st), fuel);
  }

  /** A word of the program that is not hidden: its definition is called, its data read. */
  lemma UserWord(f: FMachine, m: Machine, scope: set<string>, c: Context, name: string, st: State, fuel: nat)
    requires Resolve(m.NamesOf(c), name) == UserDefined && Mangle(Lower(name)) !in scope
    requires var lc := Lower(name);
             RunUser(f, Mangle(lc), Lift(st), fuel)
             == LiftOutcome(if lc in m.defs then RunDef(m, lc, st, fuel) else RunVar(m.vars[lc], lc, st))
    ensures RunTok(f, scope, UserTok(Mangle(Lower(name))), Lift(st), fuel) == LiftOutcome(RunWord(m, c, name, st, fuel))
  {
    UserRuns(f, scope, Mangle(Lower(name)), Lift(st), fuel);
  }

  lemma IsColon(f: FMachine, m: Machine, lc: string)
    requires Emits(f, m) && lc in m.defs
    ensures Mangle(lc) in f.words && f.words[Mangle(lc)].Colon?
  {
    ColonStands(f, m, lc);
  }

  lemma ColonStands(f: FMachine, m: Machine, lc: string)
    requires Emits(f, m) && lc in m.defs
    ensures Mangle(lc) in f.words && f.words[Mangle(lc)] == EmitNamed(m, lc) && f.words[Mangle(lc)].Colon?
  {
    assert lc in m.Words();
  }

  lemma UserRuns(f: FMachine, scope: set<string>, name: string, fs: FState, fuel: nat)
    requires name !in scope
    ensures RunTok(f, scope, UserTok(name), fs, fuel) == RunUser(f, name, fs, fuel)
  {
    assert Spelling(UserTok(name)) == Some(name);
  }

  lemma RunColon(f: FMachine, name: string, fs: FState, fuel: nat)
    requires name in f.words && f.words[name].Colon?
    ensures RunUser(f, name, fs, fuel) == if fuel == 0 then FTimeout else CallQ(f, name, fs, fuel - 1)
  {}

  lemma SimVar(f: FMachine, m: Machine, lc: string, st: State, fuel: nat)
    requires Emits(f, m) && lc in m.vars && lc !in m.defs && !IsNarrow(m, lc)
    ensures RunUser(f, Mangle(lc), Lift(st), fuel) == LiftOutcome(RunVar(m.vars[lc], lc, st))
  {
    assert lc in m.Words();
    if m.vars[lc] == Variable(Wide) {
      LiftPush(st, Address(lc, 0));
    } else if lc in st.world.values {
      LiftPush(st, st.world.values[lc]);
    }
  }

  lemma {:induction false} SimCall(f: FMachine, m: Machine, env: Env, lc: string, st: State, fuel: nat)
    requires Emitted(f, m, env) && lc in m.defs && Mangle(lc) in f.words && f.words[Mangle(lc)].Colon?
    ensures CallQ(f, Mangle(lc), Lift(st), fuel) == LiftOutcome(Call(m, lc, st, fuel))
    decreases fuel
  {
    ColonStands(f, m, lc);
    var d := m.defs[lc];
    var scope, c := Scope(d), Context(d.scope, lc);
    var body := EmitBody(m.NamesOf(c), d.body);
    SimStart(f, scope, d, body, st, fuel);
    EnterNeverExits(m, d, st);
    match Enter(m, d, st)
    case Next(entry) => SimBody(f, m, env, scope, c, d.body, st, entry, fuel);
    case _ =>
  }

  /** A call binds parameters, or inputs and pushes them back, and goes on with its body. */
  lemma SimStart(f: FMachine, scope: set<string>, d: Definition, body: seq<Token>, st: State, fuel: nat)
    requires Scoped(d.params, d.scope) && Dotless(d.scope) && Distinct(Inputs(d))
    ensures RunQ(f, scope, EmitBinds(d.params) + (Restore(Inputs(d)) + body), Lift(st.(locals := map[])), fuel)
         == ThenQ(f, scope, LiftOutcome(Start(d.params, Inputs(d), st)), body, fuel)
  {
    var st0, names := st.(locals := map[]), Inputs(d);
    if names == [] {
      assert Restore(names) + body == body;
      RunQConcat(f, scope, EmitBinds(d.params), body, Lift(st0), fuel);
      SimBinds(f, scope, d.scope, d.params, st0, fuel);
    } else {
      assert EmitBinds(d.params) + (Restore(names) + body) == Restore(names) + body;
      RunQConcat(f, scope, Restore(names), body, Lift(st0), fuel);
      DistinctRestores(f, scope, names, st0, fuel);
    }
  }

  /** The body of a call: `with-return` ends it as EXIT does. */
  lemma {:induction false} SimBody(f: FMachine, m: Machine, env: Env, scope: set<string>, c: Context, s: seq<Expr>,
                                   caller: State, entry: State, fuel: nat)
    requires Emitted(f, m, env) && BodyOk(m, env, scope, c, s)
    ensures Restored(Lift(caller), RunQ(f, scope, EmitBody(m.NamesOf(c), s), Lift(entry), fuel))
         == LiftOutcome(EndCall(m, caller, entry, RunSeq(m, c, s, entry, fuel)))
    decreases fuel, SizeSeq(s), 7
  {
    var n := m.NamesOf(c);
    SimSeq(f, m, env, scope, c, s, entry, fuel);
    if LowerExit.SeqUsesExit(n, s) {
      RunQOne(f, scope, WithReturn(EmitSeq(n, s)), Lift(entry), fuel);
    } else {
      UsesIsHolds(env, n, s, DupCopies(m));
      SeqNeverExits(m, c, s, entry, fuel);
    }
  }

  /** What `zero?` leaves is taken by the combinator behind it. */
  lemma SimIfTok(f: FMachine, scope: set<string>, t: Token, st: State, fuel: nat)
    requires t.IfTok? || t.UnlessTok?
    ensures RunQ(f, scope, [ZeroP] + [t], Lift(st), fuel) ==
            if |st.stack| == 0 then FUnderflow
            else if !Top(st.stack).Number? then FFault
            else if Top(st.stack).n != 0
            then Close(f, Lift(st), RunQ(f, scope, if t.IfTok? then t.onFalse else t.quot, Lift(Pop(st)), fuel))
            else if t.IfTok? then Close(f, Lift(st), RunQ(f, scope, t.onTrue, Lift(Pop(st)), fuel))
            else FNext(Lift(Pop(st)))
  {
    RunQCons(f, scope, ZeroP, [t], Lift(st), fuel);
    ZeroRuns(f, scope, st, fuel);
    if |st.stack| > 0 && Top(st.stack).Number? {
      IfTokRuns(f, scope, t, Lift(Pop(st)), if Top(st.stack).n == 0 then T else F, fuel);
    }
  }

  /** `zero?` turns a number into a flag. */
  lemma ZeroRuns(f: FMachine, scope: set<string>, st: State, fuel: nat)
    ensures RunTok(f, scope, ZeroP, Lift(st), fuel) ==
            if |st.stack| == 0 then FUnderflow
            else if !Top(st.stack).Number? then FFault
            else FNext(PushV(Lift(Pop(st)), if Top(st.stack).n == 0 then T else F))
  {
    if |st.stack| > 0 {
      LiftPop(st);
    }
  }

  /** A combinator takes a flag. */
  lemma IfTokRuns(f: FMachine, scope: set<string>, t: Token, fs: FState, v: Value, fuel: nat)
    requires t.IfTok? || t.UnlessTok?
    ensures RunQ(f, scope, [t], PushV(fs, v), fuel) ==
            if v == F then Close(f, fs, RunQ(f, scope, if t.IfTok? then t.onFalse else t.quot, fs, fuel))
            else if t.IfTok? then Close(f, fs, RunQ(f, scope, t.onTrue, fs, fuel))
            else FNext(fs)
  {
    RunQOne(f, scope, t, PushV(fs, v), fuel);
    PopPushed(fs, v);
  }

  lemma {:induction false} SimIf(f: FMachine, m: Machine, env: Env, scope: set<string>, c: Context, e: Expr, st: State,
                                 fuel: nat)
    requires e.If? && Emitted(f, m, env) && ExprOk(m, env, scope, c, e)
    ensures RunQ(f, scope, EmitExpr(m.NamesOf(c), e), Lift(st), fuel)
         == LiftOutcome(RunExpr(m, c, e, st, fuel))
    decreases fuel, SizeExpr(e), 4
  {
    var q := EmitExpr(m.NamesOf(c), e);
    assert q == [ZeroP] + [q[1]];
    SpelledIf(m, scope, c, e);
    SimIfTok(f, scope, q[1], st, fuel);
    if |st.stack| > 0 {
      SimSeq(f, m, env, scope, c, e.thenBody, Pop(st), fuel);
      SimElse(f, m, env, scope, c, e.elseBody, Pop(st), fuel);
    }
  }

  lemma {:induction false} SimElse(f: FMachine, m: Machine, env: Env, scope: set<string>, c: Context, e: Else,
                                   st: State, fuel: nat)
    requires Emitted(f, m, env) && ElseOk(m, env, scope, c, e)
    ensures RunQ(f, scope, EmitElse(m.NamesOf(c), e), Lift(st), fuel)
         == LiftOutcome(RunElse(m, c, e, st, fuel))
    decreases fuel, SizeElse(e), 1
  {
    match e
    case NoElse =>
    case ElseBody(body) => SimSeq(f, m, env, scope, c, body, st, fuel);
  }

  lemma {:induction false} SimArms(f: FMachine, m: Machine, env: Env, scope: set<string>, c: Context, arms: seq<Arm>,
                                   default: Else, st: State, fuel: nat)
    requires Emitted(f, m, env) && CaseOk(m, env, scope, c, arms, default)
    ensures RunQ(f, scope, EmitCase(m.NamesOf(c), arms, default), Lift(st), fuel)
         == LiftOutcome(RunArms(m, c, arms, default, st, fuel))
    decreases fuel, SizeArms(arms) + SizeElse(default), 3
  {
    var n := m.NamesOf(c);
    if arms == [] {
      SpelledDefault(m, scope, c, default);
      RunQSnoc(f, scope, EmitElse(n, default), KernelDrop, Lift(st), fuel);
      SimElse(f, m, env, scope, c, default, st, fuel);
      match RunElse(m, c, default, st, fuel)
      case Next(st1) => if |st1.stack| > 0 { LiftPop(st1); }
      case _ =>
    } else {
      SpelledArm(m, scope, c, arms, default);
      var q, test := EmitSeq(n, arms[0].matchExpr), EmitTest(n, arms, default);
      assert EmitCase(n, arms, default) == [Bare("dup")] + (q + test);
      RunQCons(f, scope, Bare("dup"), q + test, Lift(st), fuel);
      if |st.stack| > 0 {
        SimMatch(f, m, env, scope, c, arms, default, st, fuel);
      }
    }
  }

  /** The match expression of an arm runs on a copy of the selector. */
  lemma {:induction false} SimMatch(f: FMachine, m: Machine, env: Env, scope: set<string>, c: Context, arms: seq<Arm>,
                                    default: Else, st: State, fuel: nat)
    requires Emitted(f, m, env) && arms != [] && CaseOk(m, env, scope, c, arms, default) && |st.stack| > 0
    ensures var n := m.NamesOf(c);
            var q, test := EmitSeq(n, arms[0].matchExpr), EmitTest(n, arms, default);
            RunTok(f, scope, Bare("dup"), Lift(st), fuel) == FNext(Lift(Push(st, Top(st.stack)))) &&
            RunQ(f, scope, q + test, Lift(Push(st, Top(st.stack))), fuel)
            == LiftOutcome(RunArms(m, c, arms, default, st, fuel))
    decreases fuel, SizeArms(arms) + SizeElse(default), 2
  {
    var n := m.NamesOf(c);
    SpelledArm(m, scope, c, arms, default);
    var sel := Top(st.stack);
    var st2 := Push(st, sel);
    LiftPop(st);
    LiftPush(st, sel);
    assert Spelling(Bare("dup")) == Some("dup");
    RunQConcat(f, scope, EmitSeq(n, arms[0].matchExpr), EmitTest(n, arms, default), Lift(st2), fuel);
    SimSeq(f, m, env, scope, c, arms[0].matchExpr, st2, fuel);
    MatchRuns(m, env, c, arms[0].matchExpr, st, fuel);
    MatchRuns(m, env, c, arms[0].matchExpr, st2, fuel);
    assert Drop(st2.stack) == st.stack && st2.(stack := [sel]) == st.(stack := [sel]);
    match RunSeq(m, c, arms[0].matchExpr, st.(stack := [sel]), fuel)
    case Next(o) => SimTest(f, m, env, scope, c, arms, default, st, o, fuel);
    case _ =>
  }

  /** The comparison of one arm, with the selector and the match value in `o`. */
  lemma {:induction false} SimTest(f: FMachine, m: Machine, env: Env, scope: set<string>, c: Context, arms: seq<Arm>,
                                   default: Else, st: State, o: State, fuel: nat)
    requires Emitted(f, m, env) && arms != [] && CaseOk(m, env, scope, c, arms, default)
    requires |st.stack| > 0 && |o.stack| == 2 && o.stack[0] == Top(st.stack)
    requires RunSeq(m, c, arms[0].matchExpr, st, fuel) == Next(Under(Drop(st.stack), o))
    ensures RunQ(f, scope, EmitTest(m.NamesOf(c), arms, default), Lift(Under(st.stack, o)), fuel)
         == LiftOutcome(RunArms(m, c, arms, default, st, fuel))
    decreases fuel, SizeArms(arms) + SizeElse(default), 1
  {
    var n := m.NamesOf(c);
    SpelledArm(m, scope, c, arms, default);
    var sel, x := o.stack[0], o.stack[1];
    var st1, st3 := Under(Drop(st.stack), o), o.(stack := st.stack);
    assert Pop(st1) == st3 by { assert Drop(Drop(st.stack) + o.stack) == st.stack; }
    var yes, no := [Bare("drop")] + EmitSeq(n, arms[0].body), EmitCase(n, arms[1..], default);
    assert Lift(Under(st.stack, o)).stack == Lift(st3).stack + [V(sel)] + [V(x)];
    TestRuns(f, scope, yes, no, Lift(st3), V(sel), V(x), fuel);
    if x == sel {
      SimChosen(f, m, env, scope, c, arms[0].body, st3, fuel);
    } else {
      SimArms(f, m, env, scope, c, arms[1..], default, st3, fuel);
    }
  }

  /** `=` and the combinator behind it. */
  lemma TestRuns(f: FMachine, scope: set<string>, yes: seq<Token>, no: seq<Token>, fs: FState, a: Value, b: Value,
                 fuel: nat)
    requires "=" !in scope
    ensures RunQ(f, scope, [Bare("="), IfTok(yes, no)], PushV(PushV(fs, a), b), fuel)
         == Close(f, fs, RunQ(f, scope, if a == b then yes else no, fs, fuel))
  {
    var t, flag := IfTok(yes, no), if a == b then T else F;
    assert [Bare("="), t] == [Bare("=")] + [t];
    RunQCons(f, scope, Bare("="), [t], PushV(PushV(fs, a), b), fuel);
    PopPushed(PushV(fs, a), b);
    PopPushed(fs, a);
    PopPushed(fs, flag);
    assert Spelling(Bare("=")) == Some("=");
    RunQOne(f, scope, t, PushV(fs, flag), fuel);
  }

  lemma {:induction false} SimChosen(f: FMachine, m: Machine, env: Env, scope: set<string>, c: Context,
                                     body: seq<Expr>, st: State, fuel: nat)
    requires Emitted(f, m, env) && BodyOk(m, env, scope, c, body) && |st.stack| > 0 && "drop" !in scope
    ensures RunQ(f, scope, [Bare("drop")] + EmitSeq(m.NamesOf(c), body), Lift(st), fuel)
         == LiftOutcome(RunSeq(m, c, body, Pop(st), fuel))
    decreases fuel, SizeSeq(body), 7
  {
    RunQCons(f, scope, Bare("drop"), EmitSeq(m.NamesOf(c), body), Lift(st), fuel);
    assert Spelling(Bare("drop")) == Some("drop");
    LiftPop(st);
    SimSeq(f, m, env, scope, c, body, Pop(st), fuel);
  }

  /** The runtime's loop words take the limits from the stack. */
  lemma SimDo(f: FMachine, m: Machine, scope: set<string>, c: Context, e: Expr, t: Token, st: State, fuel: nat)
    requires e.DoLoop? && t.DoTok? && t.isQdo == e.isQdo
    requires |st.stack| >= 2 && Top(st.stack).Number? && Top(Drop(st.stack)).Number? ==>
               var st1 := PushFrame(Pop(Pop(st)), Top(Drop(st.stack)).n, Top(st.stack).n);
               RunLoopQ(f, scope, t, Lift(st1), fuel) == LiftOutcome(RunLoop(m, c, e, st1, fuel))
    ensures RunTok(f, scope, t, Lift(st), fuel) == LiftOutcome(RunExpr(m, c, e, st, fuel))
  {
    if |st.stack| >= 2 {
      LiftPop(st);
      LiftPop(Pop(st));
      if Top(st.stack).Number? && Top(Drop(st.stack)).Number? {
        var st1 := Pop(Pop(st));
        assert EnterLoop(Lift(st1), Top(Drop(st.stack)).n, Top(st.stack).n)
            == Lift(PushFrame(st1, Top(Drop(st.stack)).n, Top(st.stack).n));
      }
    }
  }

  /** Every turn of the loop is what its quotation does. */
  ghost predicate TurnsSim(f: FMachine, m: Machine, scope: set<string>, c: Context, e: Expr, t: Token, fuel: nat)
    requires IsLoop(e) && (t.LoopTok? || t.DoTok?)
  {
    forall st: State, k: nat | k <= fuel ::
      TurnQ(t, RunQ(f, scope, t.quot, Lift(st), k)) == LiftTurn(LoopTurn(m, c, e, st, k))
  }

  lemma {:induction false} SimTurns(f: FMachine, m: Machine, scope: set<string>, c: Context, e: Expr, t: Token,
                                    st: State, fuel: nat)
    requires IsLoop(e) && (t.LoopTok? || t.DoTok?) && TurnsSim(f, m, scope, c, e, t, fuel) && !f.lexical
    ensures RunLoopQ(f, scope, t, Lift(st), fuel) == LiftOutcome(RunLoop(m, c, e, st, fuel))
    decreases fuel
  {
    if fuel > 0 {
      assert TurnQ(t, RunQ(f, scope, t.quot, Lift(st), fuel)) == LiftTurn(LoopTurn(m, c, e, st, fuel));
      match LoopTurn(m, c, e, st, fuel)
      case Repeat(st1) => SimTurns(f, m, scope, c, e, t, st1, fuel - 1);
      case _ =>
    }
  }

  lemma {:induction false} SimLoop(f: FMachine, m: Machine, env: Env, scope: set<string>, c: Context, e: Expr,
                                   st: State, fuel: nat)
    requires IsLoop(e) && Emitted(f, m, env) && ExprOk(m, env, scope, c, e)
    ensures RunLoopQ(f, scope, EmitLoop(m.NamesOf(c), e), Lift(st), fuel)
         == LiftOutcome(RunLoop(m, c, e, st, fuel))
    decreases fuel, SizeExpr(e), 3
  {
    var t := EmitLoop(m.NamesOf(c), e);
    forall st1: State, k: nat | k <= fuel
      ensures TurnQ(t, RunQ(f, scope, t.quot, Lift(st1), k)) == LiftTurn(LoopTurn(m, c, e, st1, k))
    {
      SimTurn(f, m, env, scope, c, e, st1, k);
    }
    SimTurns(f, m, scope, c, e, t, st, fuel);
  }

  lemma {:induction false} SimTurn(f: FMachine, m: Machine, env: Env, scope: set<string>, c: Context, e: Expr,
                                   st: State, fuel: nat)
    requires IsLoop(e) && Emitted(f, m, env) && ExprOk(m, env, scope, c, e)
    ensures var t := EmitLoop(m.NamesOf(c), e);
            TurnQ(t, RunQ(f, scope, t.quot, Lift(st), fuel)) == LiftTurn(LoopTurn(m, c, e, st, fuel))
    decreases fuel, SizeExpr(e), 2
  {
    SpelledLoop(m, scope, c, e);
    match e
    case BeginUntil(body) => SimUntilTurn(f, m, env, scope, c, body, st, fuel);
    case BeginAgain(body) => SimAgainTurn(f, m, env, scope, c, body, st, fuel);
    case BeginWhileRepeat(pred, body) => SimWhile(f, m, env, scope, c, pred, body, st, fuel);
    case DoLoop(_, _, _) => SimDoTurn(f, m, env, scope, c, e, st, fuel);
  }

  lemma {:induction false} SimUntilTurn(f: FMachine, m: Machine, env: Env, scope: set<string>, c: Context,
                                        body: seq<Expr>, st: State, fuel: nat)
    requires Emitted(f, m, env) && BodyOk(m, env, scope, c, body)
    ensures forall q :: TurnQ(LoopTok(q), RunQ(f, scope, EmitSeq(m.NamesOf(c), body) + [ZeroP], Lift(st), fuel))
                     == LiftTurn(UntilTurn(RunSeq(m, c, body, st, fuel)))
    decreases fuel, SizeSeq(body), 7
  {
    RunQSnoc(f, scope, EmitSeq(m.NamesOf(c), body), ZeroP, Lift(st), fuel);
    SimSeq(f, m, env, scope, c, body, st, fuel);
    SimFlag(RunSeq(m, c, body, st, fuel));
  }

  lemma {:induction false} SimAgainTurn(f: FMachine, m: Machine, env: Env, scope: set<string>, c: Context,
                                        body: seq<Expr>, st: State, fuel: nat)
    requires Emitted(f, m, env) && BodyOk(m, env, scope, c, body)
    ensures forall q :: TurnQ(LoopTok(q), RunQ(f, scope, EmitSeq(m.NamesOf(c), body) + [Bare("t")], Lift(st), fuel))
                     == LiftTurn(AgainTurn(RunSeq(m, c, body, st, fuel)))
    decreases fuel, SizeSeq(body), 7
  {
    SimSeq(f, m, env, scope, c, body, st, fuel);
    AgainRuns(f, scope, EmitSeq(m.NamesOf(c), body), st, RunSeq(m, c, body, st, fuel), fuel);
  }

  lemma {:induction false} SimDoTurn(f: FMachine, m: Machine, env: Env, scope: set<string>, c: Context, e: Expr,
                                     st: State, fuel: nat)
    requires e.DoLoop? && Emitted(f, m, env) && BodyOk(m, env, scope, c, e.body)
    ensures var t := EmitLoop(m.NamesOf(c), e);
            TurnQ(t, RunQ(f, scope, t.quot, Lift(st), fuel)) ==
            LiftTurn(DoTurn(e.kind, RunSeq(m, c, e.body, st, fuel)))
    decreases fuel, SizeSeq(e.body), 7
  {
    var q := EmitSeq(m.NamesOf(c), e.body);
    SimSeq(f, m, env, scope, c, e.body, st, fuel);
    if e.kind == Plus1 {
      RunQSnoc(f, scope, q, Num(1), Lift(st), fuel);
    } else {
      assert q + [] == q;
    }
    SimStep(EmitLoop(m.NamesOf(c), e), e.kind, RunSeq(m, c, e.body, st, fuel));
  }

  /** What `zero?` and `loop` make of the flag that ends an UNTIL body. */
  lemma SimFlag(o: Outcome)
    ensures var r := match LiftOutcome(o)
                     case FNext(fs) => RunZero(fs)
                     case other => other;
            forall q :: TurnQ(LoopTok(q), r) == LiftTurn(UntilTurn(o))
  {
    match o
    case Next(st) =>
      if |st.stack| > 0 {
        LiftPop(st);
        PopPushed(Lift(Pop(st)), T);
        PopPushed(Lift(Pop(st)), F);
      }
    case _ =>
  }

  lemma SimStep(t: Token, kind: LoopKind, o: Outcome)
    requires t.DoTok?
    ensures var r := LiftOutcome(o);
            var r1 := if kind == Plus1 && r.FNext? then FNext(PushV(r.state, V(Number(1)))) else r;
            TurnQ(t, r1) == LiftTurn(DoTurn(kind, o))
  {
    match o
    case Next(st) =>
      if kind == Plus1 {
        PopPushed(Lift(st), V(Number(1)));
      } else if |st.stack| > 0 {
        LiftPop(st);
      }
    case _ =>
  }

  /** AGAIN goes on: the value pushed for `loop` is not f. */
  lemma AgainRuns(f: FMachine, scope: set<string>, q: seq<Token>, st: State, o: Outcome, fuel: nat)
    requires RunQ(f, scope, q, Lift(st), fuel) == LiftOutcome(o)
    ensures forall t :: TurnQ(LoopTok(t), RunQ(f, scope, q + [Bare("t")], Lift(st), fuel)) == LiftTurn(AgainTurn(o))
  {
    RunQSnoc(f, scope, q, Bare("t"), Lift(st), fuel);
    match o
    case Next(st1) =>
      assert Spelling(Bare("t")) == Some("t");
      var v := if Captured(scope, Bare("t"), Lift(st1)) then V(st1.locals["t"]) else T;
      assert RunTok(f, scope, Bare("t"), Lift(st1), fuel) == FNext(PushV(Lift(st1), v));
      PopPushed(Lift(st1), v);
    case _ =>
  }

  function EmitTested(q: seq<Token>): seq<Token> {
    [ZeroP, IfTok([Bare("f")], q + [Bare("t")])]
  }

  /** A turn of WHILE from its test on: `o` is what the body does if it is reached. */
  function TestedTurn(st: State, o: Outcome): Turn {
    match WhileTest(Next(st))
    case Repeat(_) => AgainTurn(o)
    case leave => leave
  }

  lemma TestedRuns(f: FMachine, scope: set<string>, q: seq<Token>, st: State, o: Outcome, fuel: nat)
    requires "f" !in scope
    requires WhileTest(Next(st)).Repeat? ==> RunQ(f, scope, q, Lift(Pop(st)), fuel) == LiftOutcome(o)
    ensures forall t :: TurnQ(LoopTok(t), RunQ(f, scope, EmitTested(q), Lift(st), fuel))
                     == LiftTurn(TestedTurn(st, Shut(f, st, o)))
  {
    var t := EmitTested(q)[1];
    assert EmitTested(q) == [ZeroP] + [t];
    SimIfTok(f, scope, t, st, fuel);
    if |st.stack| > 0 && Top(st.stack).Number? {
      var st2 := Pop(st);
      if Top(st.stack).n == 0 {
        RunQOne(f, scope, Bare("f"), Lift(st2), fuel);
        assert Spelling(Bare("f")) == Some("f");
        PopPushed(Lift(st2), F);
      } else {
        AgainCloses(f, scope, q, st, o, fuel);
      }
    }
  }

  lemma AgainCloses(f: FMachine, scope: set<string>, q: seq<Token>, st: State, o: Outcome, fuel: nat)
    requires |st.stack| > 0 && RunQ(f, scope, q, Lift(Pop(st)), fuel) == LiftOutcome(o)
    ensures forall t :: TurnQ(LoopTok(t), Close(f, Lift(st), RunQ(f, scope, q + [Bare("t")], Lift(Pop(st)), fuel)))
                     == LiftTurn(AgainTurn(Shut(f, st, o)))
  {
    AgainRuns(f, scope, q, Pop(st), o, fuel);
    RunQSnoc(f, scope, q, Bare("t"), Lift(Pop(st)), fuel);
    if o.Next? {
      assert Spelling(Bare("t")) == Some("t");
    }
  }

  lemma {:induction false} SimWhile(f: FMachine, m: Machine, env: Env, scope: set<string>, c: Context, pred: seq<Expr>,
                                    body: seq<Expr>, st: State, fuel: nat)
    requires Emitted(f, m, env) && BodyOk(m, env, scope, c, pred) && BodyOk(m, env, scope, c, body) && "f" !in scope
    ensures var e := BeginWhileRepeat(pred, body);
            var t := EmitLoop(m.NamesOf(c), e);
            TurnQ(t, RunQ(f, scope, t.quot, Lift(st), fuel)) == LiftTurn(LoopTurn(m, c, e, st, fuel))
    decreases fuel, SizeSeq(pred) + SizeSeq(body), 9
  {
    var n := m.NamesOf(c);
    var q := EmitSeq(n, body);
    RunQConcat(f, scope, EmitSeq(n, pred), EmitTested(q), Lift(st), fuel);
    SimSeq(f, m, env, scope, c, pred, st, fuel);
    match RunSeq(m, c, pred, st, fuel)
    case Next(st1) =>
      if WhileTest(Next(st1)).Repeat? {
        SimSeq(f, m, env, scope, c, body, Pop(st1), fuel);
      }
      TestedRuns(f, scope, q, st1, RunSeq(m, c, body, if |st1.stack| > 0 then Pop(st1) else st1, fuel), fuel);
    case _ =>
  }
}
