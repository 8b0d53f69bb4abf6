/** Inferred effects are what emitted quotations do, whatever the match expressions. */
module EmitSound {
  import opened Common
  import opened Forth
  import opened Effects
  import opened EffectSound
  import opened Factor
  import opened Emit
  import opened Lifting
  import opened EmitSim
  import LowerExit

  // ----- what is promised -----

  /** The outcome as one on cells; booleans or symbols left on the stack count as a broken promise. */
  function Ground(o: FOutcome): Outcome {
    match o
    case FNext(fs) =>
      if AllCells(fs.stack) then Next(State(AsCells(fs.stack), fs.locals, fs.world)) else Underflow
    case FReturn(_) => Underflow
    case FUnderflow => Underflow
    case FFault => Fault
    case FTimeout => Timeout
  }

  lemma GroundLift(o: Outcome)
    ensures !o.Exit? ==> Ground(LiftOutcome(o)) == o
  {
    if o.Next? {
      LiftCells(o.state.stack);
    }
  }

  /** No underflow, no `return`, only cells on the stack, nothing deeper touched, the right depth. */
  predicate FitsQ(fo: FOutcome, st: State, eff: Eff) {
    LiftOutcome(Ground(fo)) == fo && FitsEff(Ground(fo), st, eff)
  }

  lemma FitsLifted(o: Outcome, st: State, eff: Eff)
    requires FitsEff(o, st, eff)
    ensures FitsQ(LiftOutcome(o), st, eff)
  {
    GroundLift(o);
  }

  /** The emitted program has effects that inference has passed: loops are regular, match expressions
      arbitrary; and no word is written under the name of a local. */
  ghost predicate PassedQ(f: FMachine, m: Machine, env: Env) {
    && Emits(f, m) && MeetsTable(m, env.table)
    && (forall lc :: lc in m.defs ==> DefPassed(m, env, lc, m.defs[lc]))
    && (forall lc :: lc in m.vars && lc !in m.defs && Lookup(env.user, lc).Known? ==> env.user[lc] == Known(0, 1))
  }

  predicate DefPassed(m: Machine, env: Env, lc: string, d: Definition) {
    Lookup(env.user, lc).Known? ==>
      && Scoped(d.params, d.scope) && Spelled(m, Scope(d), Context(d.scope, lc), d.body)
      && Distinct(Inputs(d)) && |Inputs(d)| <= env.user[lc].inputs
      && RegularSeq(env, Names(d.scope, m.Words()), d.body, Reading.Factor)
      && RealEffect(env, m.Words(), d) == Lookup(env.user, lc)
  }

  /** The promise does not depend on the locals. */
  lemma CloseFits(f: FMachine, outer: FState, fo: FOutcome, st: State, eff: Eff)
    requires FitsQ(fo, st, eff)
    ensures FitsQ(Close(f, outer, fo), st, eff)
  {
    var o := Ground(fo);
    if o.Next? {
      GroundLift(Next(o.state.(locals := outer.locals)));
    }
  }

  // ----- soundness -----

  /** One quotation after another. */
  lemma ComposeQ(f: FMachine, scope: set<string>, p: seq<Token>, q: seq<Token>, st: State, a: Eff, b: Eff, fuel: nat)
    requires Then(a, b).Known? && |st.stack| >= Then(a, b).inputs
    requires FitsQ(RunQ(f, scope, p, Lift(st), fuel), st, a)
    requires var o := Ground(RunQ(f, scope, p, Lift(st), fuel));
             o.Next? && |o.state.stack| >= b.inputs ==> FitsQ(RunQ(f, scope, q, Lift(o.state), fuel), o.state, b)
    ensures FitsQ(RunQ(f, scope, p + q, Lift(st), fuel), st, Then(a, b))
  {
    RunQConcat(f, scope, p, q, Lift(st), fuel);
    var o := Ground(RunQ(f, scope, p, Lift(st), fuel));
    if o.Next? {
      DeepEnough(st, o.state, a, b);
      Compose(st, o.state, Ground(RunQ(f, scope, q, Lift(o.state), fuel)), a, b);
    }
  }

  /** The emitted quotation keeps the promise of the inferred effect. */
  lemma {:induction false} SoundQ(f: FMachine, m: Machine, env: Env, scope: set<string>, c: Context, s: seq<Expr>,
                                  st: State, fuel: nat)
    requires PassedQ(f, m, env) && Spelled(m, scope, c, s) && RegularSeq(env, m.NamesOf(c), s, Reading.Factor)
    requires var eff := InferBlock(env, m.NamesOf(c), s); eff.Known? && |st.stack| >= eff.inputs
    ensures FitsQ(RunQ(f, scope, EmitSeq(m.NamesOf(c), s), Lift(st), fuel), st, InferBlock(env, m.NamesOf(c), s))
    decreases fuel, SizeSeq(s), 6, |s|
  {
    var n := m.NamesOf(c);
    if s == [] {
      FitsLifted(Next(st), st, nothing);
    } else {
      SpelledCons(m, scope, c, s);
      var a, b := InferExpr(env, n, s[0]), InferBlock(env, n, s[1..]);
      ThenInputs(a, b);
      SoundExprQ(f, m, env, scope, c, s[0], st, fuel);
      var o := Ground(RunQ(f, scope, EmitExpr(n, s[0]), Lift(st), fuel));
      if o.Next? && |o.state.stack| >= b.inputs {
        SoundQ(f, m, env, scope, c, s[1..], o.state, fuel);
      }
      ComposeQ(f, scope, EmitExpr(n, s[0]), EmitSeq(n, s[1..]), st, a, b, fuel);
    }
  }

  lemma {:induction false} SoundExprQ(f: FMachine, m: Machine, env: Env, scope: set<string>, c: Context, e: Expr,
                                      st: State, fuel: nat)
    requires PassedQ(f, m, env) && ExprSpelled(m, scope, c, e) && RegularExpr(env, m.NamesOf(c), e, Reading.Factor)
    requires var eff := InferExpr(env, m.NamesOf(c), e); eff.Known? && |st.stack| >= eff.inputs
    ensures FitsQ(RunQ(f, scope, EmitExpr(m.NamesOf(c), e), Lift(st), fuel), st, InferExpr(env, m.NamesOf(c), e))
    decreases fuel, SizeExpr(e), 5
  {
    if IsLoop(e) {
      SoundLoopExprQ(f, m, env, scope, c, e, st, fuel);
    } else if e.If? {
      SoundIfQ(f, m, env, scope, c, e, st, fuel);
    } else if e.Case? {
      SoundCaseQ(f, m, env, scope, c, e.arms, e.default, st, fuel);
    } else if e.WordRef? {
      RunQOne(f, scope, EmitWord(m.NamesOf(c), e.name), Lift(st), fuel);
      ClearOne(EmitWord(m.NamesOf(c), e.name), scope);
      SoundWordQ(f, m, env, scope, c, e.name, st, fuel);
    } else {
      SimLeaf(f, m, scope, c, e, st, fuel);
      SoundLeaf(m, env, c, e, st, fuel);
      FitsLifted(RunExpr(m, c, e, st, fuel), st, InferExpr(env, m.NamesOf(c), e));
    }
  }

  lemma {:induction false} SoundWordQ(f: FMachine, m: Machine, env: Env, scope: set<string>, c: Context, name: string,
                                      st: State, fuel: nat)
    requires PassedQ(f, m, env) && NamedExpr(m, c, WordRef(name))
    requires ClearTok(EmitWord(m.NamesOf(c), name), scope)
    requires var eff := WordEffect(env, m.NamesOf(c), name); eff.Known? && |st.stack| >= eff.inputs
    ensures FitsQ(RunTok(f, scope, EmitWord(m.NamesOf(c), name), Lift(st), fuel), st,
                  WordEffect(env, m.NamesOf(c), name))
    decreases fuel, 0, 2
  {
    var lc := Lower(name);
    match Resolve(m.NamesOf(c), name)
    case Local =>
      SimLocal(lc, st);
      FitsLifted(if lc in st.locals then Next(Push(st, st.locals[lc])) else Fault, st, Known(0, 1));
    case UserDefined =>
      assert Spelling(UserTok(Mangle(lc))) == Some(Mangle(lc));
      UserRuns(f, scope, Mangle(lc), Lift(st), fuel);
      if lc in m.defs {
        SoundUserQ(f, m, env, lc, st, fuel);
      } else {
        SoundVarQ(f, m, env, lc, st, fuel);
      }
    case Return =>
      assert false;
    case Builtin =>
      SimPrim(f, m, scope, lc, Written(lc), st, fuel);
      SoundPrim(m, env, lc, st);
      FitsLifted(RunPrim(m, lc, st), st, Lookup(env.table, lc));
  }

  lemma {:induction false} SoundUserQ(f: FMachine, m: Machine, env: Env, lc: string, st: State, fuel: nat)
    requires PassedQ(f, m, env) && lc in m.defs
    requires var eff := Lookup(env.user, lc); eff.Known? && |st.stack| >= eff.inputs
    ensures FitsQ(RunUser(f, Mangle(lc), Lift(st), fuel), st, Lookup(env.user, lc))
    decreases fuel, 0, 1
  {
    ColonStands(f, m, lc);
    if fuel > 0 {
      SoundCallQ(f, m, env, lc, st, fuel - 1);
    }
    SoundColonQ(f, Mangle(lc), st, Lookup(env.user, lc), fuel);
  }

  lemma SoundColonQ(f: FMachine, name: string, st: State, eff: Eff, fuel: nat)
    requires name in f.words && f.words[name].Colon? && eff.Known? && |st.stack| >= eff.inputs
    requires fuel > 0 ==> FitsQ(CallQ(f, name, Lift(st), fuel - 1), st, eff)
    ensures FitsQ(RunUser(f, name, Lift(st), fuel), st, eff)
  {}

  lemma SoundVarQ(f: FMachine, m: Machine, env: Env, lc: string, st: State, fuel: nat)
    requires PassedQ(f, m, env) && lc in m.vars && lc !in m.defs && !IsNarrow(m, lc) && Lookup(env.user, lc).Known?
    ensures FitsQ(RunUser(f, Mangle(lc), Lift(st), fuel), st, Lookup(env.user, lc))
  {
    SimVar(f, m, lc, st, fuel);
    FitsLifted(RunVar(m.vars[lc], lc, st), st, Known(0, 1));
  }

  /** A call of an emitted definition whose effect is known. */
  lemma {:induction false} SoundCallQ(f: FMachine, m: Machine, env: Env, lc: string, st: State, fuel: nat)
    requires PassedQ(f, m, env) && lc in m.defs && Mangle(lc) in f.words && f.words[Mangle(lc)].Colon?
    requires var eff := Lookup(env.user, lc); eff.Known? && |st.stack| >= eff.inputs
    ensures FitsQ(CallQ(f, Mangle(lc), Lift(st), fuel), st, Lookup(env.user, lc))
    decreases fuel
  {
    ColonStands(f, m, lc);
    var d, eff := m.defs[lc], Lookup(env.user, lc);
    assert DefPassed(m, env, lc, d);
    var c := Context(d.scope, lc);
    var n := m.NamesOf(c);
    var body := InferBlock(env, n, d.body);
    SoundStart(d, st);
    var entry := Start(d.params, Inputs(d), st).state;
    SoundQ(f, m, env, Scope(d), c, d.body, entry, fuel);
    Uncaught(f, Scope(d), n, d.body, entry, body, fuel);
    SimStart(f, Scope(d), d, EmitBody(n, d.body), st, fuel);
    var fo := RunQ(f, Scope(d), EmitBody(n, d.body), Lift(entry), fuel);
    Compose(st.(locals := map[]), entry, Ground(fo), Known(|d.params|, 0), body);
    BackToCaller(fo, st, eff);
  }

  lemma SoundStart(d: Definition, st: State)
    requires |st.stack| >= |d.params| && |st.stack| >= |Inputs(d)|
    ensures var o := Start(d.params, Inputs(d), st);
            o.Next? && o.state.stack == st.stack[..|st.stack| - |d.params|]
  {
    SoundLocals(d.params, st.(locals := map[]));
  }

  /** Catching the `return`s of a body that does not return changes nothing but the locals. */
  lemma Uncaught(f: FMachine, scope: set<string>, n: Names, s: seq<Expr>, entry: State, eff: Eff, fuel: nat)
    requires FitsQ(RunQ(f, scope, EmitSeq(n, s), Lift(entry), fuel), entry, eff)
    ensures FitsQ(RunQ(f, scope, EmitBody(n, s), Lift(entry), fuel), entry, eff)
  {
    if LowerExit.SeqUsesExit(n, s) {
      RunQOne(f, scope, WithReturn(EmitSeq(n, s)), Lift(entry), fuel);
      CloseFits(f, Lift(entry), RunQ(f, scope, EmitSeq(n, s), Lift(entry), fuel), entry, eff);
    }
  }

  lemma BackToCaller(fo: FOutcome, st: State, eff: Eff)
    requires FitsQ(fo, st.(locals := map[]), eff)
    ensures FitsQ(Restored(Lift(st), fo), st, eff)
  {
    var o := Ground(fo);
    if o.Next? {
      GroundLift(Next(o.state.(locals := st.locals)));
    }
  }

  lemma {:induction false} SoundIfQ(f: FMachine, m: Machine, env: Env, scope: set<string>, c: Context, e: Expr,
                                    st: State, fuel: nat)
    requires e.If? && PassedQ(f, m, env) && ExprSpelled(m, scope, c, e)
    requires RegularExpr(env, m.NamesOf(c), e, Reading.Factor)
    requires var eff := InferExpr(env, m.NamesOf(c), e); eff.Known? && |st.stack| >= eff.inputs
    ensures FitsQ(RunQ(f, scope, EmitExpr(m.NamesOf(c), e), Lift(st), fuel), st, InferExpr(env, m.NamesOf(c), e))
    decreases fuel, SizeExpr(e), 4
  {
    var n := m.NamesOf(c);
    SpelledIf(m, scope, c, e);
    BranchEffects(env, n, e);
    IfBranches(f, scope, n, e, st, fuel);
    if Top(st.stack).Number? {
      var b := InferBlock(env, n, e.thenBody);
      if Top(st.stack).n != 0 {
        SoundQ(f, m, env, scope, c, e.thenBody, Pop(st), fuel);
        AfterFlag(RunQ(f, scope, EmitSeq(n, e.thenBody), Lift(Pop(st)), fuel), st, b);
        CloseFits(f, Lift(st), RunQ(f, scope, EmitSeq(n, e.thenBody), Lift(Pop(st)), fuel), st, Then(flag, b));
      } else {
        SoundElseQ(f, m, env, scope, c, e.elseBody, Pop(st), fuel);
        SameDepth(RunQ(f, scope, EmitElse(n, e.elseBody), Lift(Pop(st)), fuel), Pop(st),
                  InferElse(env, n, e.elseBody), b);
        AfterFlag(RunQ(f, scope, EmitElse(n, e.elseBody), Lift(Pop(st)), fuel), st, b);
        CloseFits(f, Lift(st), RunQ(f, scope, EmitElse(n, e.elseBody), Lift(Pop(st)), fuel), st, Then(flag, b));
      }
    }
  }

  /** What keeps the promise of ( -- ) keeps that of ( i -- i ). */
  lemma SameDepth(fo: FOutcome, st: State, eff: Eff, b: Eff)
    requires FitsQ(fo, st, eff) && b.Known? && |st.stack| >= b.inputs
    requires eff == b || (eff == nothing && b.inputs == b.outputs)
    ensures FitsQ(fo, st, b)
  {
    if eff != b {
      Widen(Ground(fo), st, 0, 0, b.inputs);
    }
  }

  /** An emitted IF runs one of its two quotations. */
  lemma IfBranches(f: FMachine, scope: set<string>, n: Names, e: Expr, st: State, fuel: nat)
    requires e.If? && |st.stack| > 0
    ensures RunQ(f, scope, EmitExpr(n, e), Lift(st), fuel) ==
            if !Top(st.stack).Number? then FFault
            else if Top(st.stack).n != 0
            then Close(f, Lift(st), RunQ(f, scope, EmitSeq(n, e.thenBody), Lift(Pop(st)), fuel))
            else Close(f, Lift(st), RunQ(f, scope, EmitElse(n, e.elseBody), Lift(Pop(st)), fuel))
  {
    var q := EmitExpr(n, e);
    assert q == [ZeroP] + [q[1]];
    SimIfTok(f, scope, q[1], st, fuel);
    IfQuotation(n, e);
  }

  lemma IfQuotation(n: Names, e: Expr)
    requires e.If?
    ensures var t := EmitExpr(n, e)[1];
            if e.elseBody == NoElse then t == UnlessTok(EmitSeq(n, e.thenBody)) && EmitElse(n, e.elseBody) == []
            else t == IfTok(EmitElse(n, e.elseBody), EmitSeq(n, e.thenBody))
  {}

  /** The branches of an IF with a known effect. */
  lemma BranchEffects(env: Env, n: Names, e: Expr)
    requires e.If? && InferExpr(env, n, e).Known?
    ensures InferBlock(env, n, e.thenBody).Known? && InferElse(env, n, e.elseBody).Known?
    ensures InferExpr(env, n, e) == Then(flag, InferBlock(env, n, e.thenBody))
    ensures var b, d := InferBlock(env, n, e.thenBody), InferElse(env, n, e.elseBody);
            d == b || (d == nothing && b.inputs == b.outputs)
  {}

  /** What a branch promises, with the flag before it. */
  lemma AfterFlag(fo: FOutcome, st: State, eff: Eff)
    requires |st.stack| > 0 && FitsQ(fo, Pop(st), eff)
    ensures FitsQ(fo, st, Then(flag, eff))
  {
    Compose(st, Pop(st), Ground(fo), flag, eff);
  }

  lemma {:induction false} SoundElseQ(f: FMachine, m: Machine, env: Env, scope: set<string>, c: Context, e: Else,
                                      st: State, fuel: nat)
    requires PassedQ(f, m, env) && ElseSpelled(m, scope, c, e) && RegularElse(env, m.NamesOf(c), e, Reading.Factor)
    requires var eff := InferElse(env, m.NamesOf(c), e); eff.Known? && |st.stack| >= eff.inputs
    ensures FitsQ(RunQ(f, scope, EmitElse(m.NamesOf(c), e), Lift(st), fuel), st, InferElse(env, m.NamesOf(c), e))
    decreases fuel, SizeElse(e), 1
  {
    match e
    case NoElse => FitsLifted(Next(st), st, nothing);
    case ElseBody(body) => SoundQ(f, m, env, scope, c, body, st, fuel);
  }

  // ----- CASE -----

  lemma {:induction false} SoundCaseQ(f: FMachine, m: Machine, env: Env, scope: set<string>, c: Context,
                                      arms: seq<Arm>, default: Else, st: State, fuel: nat)
    requires PassedQ(f, m, env) && CaseSpelled(m, scope, c, arms, default)
    requires RegularArms(env, m.NamesOf(c), arms, default, Reading.Factor)
    requires RegularElse(env, m.NamesOf(c), default, Reading.Factor)
    requires var eff := InferCase(env, m.NamesOf(c), arms, default); eff.Known? && |st.stack| >= eff.inputs
    ensures FitsQ(RunQ(f, scope, EmitCase(m.NamesOf(c), arms, default), Lift(st), fuel), st,
                  InferCase(env, m.NamesOf(c), arms, default))
    decreases fuel, SizeArms(arms) + SizeElse(default), 3
  {
    var n := m.NamesOf(c);
    if arms == [] {
      SpelledDefault(m, scope, c, default);
      var d := InferElse(env, n, default);
      ThenInputs(d, Known(1, 0));
      SoundElseQ(f, m, env, scope, c, default, st, fuel);
      var o := Ground(RunQ(f, scope, EmitElse(n, default), Lift(st), fuel));
      if o.Next? && |o.state.stack| >= 1 {
        DropRuns(f, scope, o.state, fuel);
      }
      ComposeQ(f, scope, EmitElse(n, default), [KernelDrop], st, d, Known(1, 0), fuel);
    } else {
      SoundArmQ(f, m, env, scope, c, arms, default, st, fuel);
    }
  }

  lemma DropRuns(f: FMachine, scope: set<string>, st: State, fuel: nat)
    requires |st.stack| >= 1
    ensures FitsQ(RunQ(f, scope, [KernelDrop], Lift(st), fuel), st, Known(1, 0))
  {
    RunQOne(f, scope, KernelDrop, Lift(st), fuel);
    LiftPop(st);
    FitsLifted(Next(Pop(st)), st, Known(1, 0));
  }

  lemma DupRuns(f: FMachine, scope: set<string>, st: State, fuel: nat)
    requires |st.stack| >= 1 && "dup" !in scope
    ensures FitsQ(RunQ(f, scope, [Bare("dup")], Lift(st), fuel), st, Known(1, 2))
  {
    RunQOne(f, scope, Bare("dup"), Lift(st), fuel);
    assert Spelling(Bare("dup")) == Some("dup");
    LiftPop(st);
    LiftPush(st, Top(st.stack));
    FitsLifted(Next(Push(st, Top(st.stack))), st, Known(1, 2));
  }

  /** A copy of the selector, the match expression on it, and the test. */
  function ArmEffect(m0: Eff, rest: Eff): Eff {
    Then(Then(Known(1, 2), m0), Then(Known(2, 0), rest))
  }

  lemma ArmIs(env: Env, n: Names, arms: seq<Arm>, default: Else)
    requires arms != [] && InferCase(env, n, arms, default).Known?
    ensures InferCase(env, n, arms, default)
         == ArmEffect(InferBlock(env, n, arms[0].matchExpr), Alternatives(env, n, arms, default))
  {
    var before := Then(Known(1, 2), InferBlock(env, n, arms[0].matchExpr));
    ThenAssociative(before, Known(2, 1), flag);
    ThenAssociative(before, Known(2, 0), Alternatives(env, n, arms, default));
  }

  lemma {:induction false} SoundArmQ(f: FMachine, m: Machine, env: Env, scope: set<string>, c: Context, arms: seq<Arm>,
                                     default: Else, st: State, fuel: nat)
    requires arms != [] && PassedQ(f, m, env) && CaseSpelled(m, scope, c, arms, default)
    requires RegularArms(env, m.NamesOf(c), arms, default, Reading.Factor)
    requires RegularElse(env, m.NamesOf(c), default, Reading.Factor)
    requires var eff := InferCase(env, m.NamesOf(c), arms, default); eff.Known? && |st.stack| >= eff.inputs
    ensures FitsQ(RunQ(f, scope, EmitCase(m.NamesOf(c), arms, default), Lift(st), fuel), st,
                  InferCase(env, m.NamesOf(c), arms, default))
    decreases fuel, SizeArms(arms) + SizeElse(default), 2
  {
    var n := m.NamesOf(c);
    var q, test := EmitSeq(n, arms[0].matchExpr), EmitTest(n, arms, default);
    var m0, rest := InferBlock(env, n, arms[0].matchExpr), Alternatives(env, n, arms, default);
    SpelledArm(m, scope, c, arms, default);
    CaseEffect(env, n, arms, default);
    ArmIs(env, n, arms, default);
    ThenInputs(Then(Known(1, 2), m0), Then(Known(2, 0), rest));
    ThenInputs(Known(1, 2), m0);
    DupRuns(f, scope, st, fuel);
    var o := Ground(RunQ(f, scope, [Bare("dup")], Lift(st), fuel));
    if o.Next? && |o.state.stack| >= m0.inputs {
      SoundQ(f, m, env, scope, c, arms[0].matchExpr, o.state, fuel);
    }
    ComposeQ(f, scope, [Bare("dup")], q, st, Known(1, 2), m0, fuel);
    var o2 := Ground(RunQ(f, scope, [Bare("dup")] + q, Lift(st), fuel));
    if o2.Next? && |o2.state.stack| >= Then(Known(2, 0), rest).inputs {
      SoundTestQ(f, m, env, scope, c, arms, default, o2.state, fuel);
    }
    ComposeQ(f, scope, [Bare("dup")] + q, test, st, Then(Known(1, 2), m0), Then(Known(2, 0), rest), fuel);
  }

  lemma {:induction false} SoundTestQ(f: FMachine, m: Machine, env: Env, scope: set<string>, c: Context,
                                      arms: seq<Arm>, default: Else, st: State, fuel: nat)
    requires arms != [] && PassedQ(f, m, env) && CaseSpelled(m, scope, c, arms, default)
    requires RegularArms(env, m.NamesOf(c), arms, default, Reading.Factor)
    requires RegularElse(env, m.NamesOf(c), default, Reading.Factor)
    requires InferCase(env, m.NamesOf(c), arms, default).Known?
    requires var eff := Then(Known(2, 0), Alternatives(env, m.NamesOf(c), arms, default));
             eff.Known? && |st.stack| >= eff.inputs
    ensures FitsQ(RunQ(f, scope, EmitTest(m.NamesOf(c), arms, default), Lift(st), fuel), st,
                  Then(Known(2, 0), Alternatives(env, m.NamesOf(c), arms, default)))
    decreases fuel, SizeArms(arms) + SizeElse(default), 1
  {
    var n := m.NamesOf(c);
    SpelledArm(m, scope, c, arms, default);
    CaseEffect(env, n, arms, default);
    var rest := Alternatives(env, n, arms, default);
    var st2 := Pop(Pop(st));
    var yes, no := [Bare("drop")] + EmitSeq(n, arms[0].body), EmitCase(n, arms[1..], default);
    TestRunsQ(f, scope, yes, no, st, fuel);
    if Top(st.stack) == Top(Drop(st.stack)) {
      SoundChosenQ(f, m, env, scope, c, arms[0].body, st2, fuel);
    } else {
      SoundCaseQ(f, m, env, scope, c, arms[1..], default, st2, fuel);
    }
    var fo := RunQ(f, scope, if Top(st.stack) == Top(Drop(st.stack)) then yes else no, Lift(st2), fuel);
    AfterTwo(fo, st, rest);
    CloseFits(f, Lift(st), fo, st, Then(Known(2, 0), rest));
  }

  lemma TestRunsQ(f: FMachine, scope: set<string>, yes: seq<Token>, no: seq<Token>, st: State, fuel: nat)
    requires |st.stack| >= 2 && "=" !in scope
    ensures RunQ(f, scope, [Bare("="), IfTok(yes, no)], Lift(st), fuel)
         == Close(f, Lift(st),
                  RunQ(f, scope, if Top(st.stack) == Top(Drop(st.stack)) then yes else no, Lift(Pop(Pop(st))), fuel))
  {
    var st2 := Pop(Pop(st));
    var a, b := Top(Drop(st.stack)), Top(st.stack);
    assert Lift(st).stack == Lift(st2).stack + [V(a)] + [V(b)];
    TestRuns(f, scope, yes, no, Lift(st2), V(a), V(b), fuel);
  }

  /** What follows a test promises, with the two items before it. */
  lemma AfterTwo(fo: FOutcome, st: State, eff: Eff)
    requires |st.stack| >= 2 && FitsQ(fo, Pop(Pop(st)), eff)
    ensures FitsQ(fo, st, Then(Known(2, 0), eff))
  {
    Compose(st, Pop(Pop(st)), Ground(fo), Known(2, 0), eff);
  }

  lemma ChosenRuns(f: FMachine, scope: set<string>, q: seq<Token>, st: State, fuel: nat)
    requires |st.stack| > 0 && "drop" !in scope
    ensures RunQ(f, scope, [Bare("drop")] + q, Lift(st), fuel) == RunQ(f, scope, q, Lift(Pop(st)), fuel)
  {
    RunQCons(f, scope, Bare("drop"), q, Lift(st), fuel);
    assert Spelling(Bare("drop")) == Some("drop");
    LiftPop(st);
  }

  lemma {:induction false} SoundChosenQ(f: FMachine, m: Machine, env: Env, scope: set<string>, c: Context,
                                        body: seq<Expr>, st: State, fuel: nat)
    requires PassedQ(f, m, env) && Spelled(m, scope, c, body) && RegularSeq(env, m.NamesOf(c), body, Reading.Factor)
    requires "drop" !in scope
    requires var eff := Then(Known(1, 0), InferBlock(env, m.NamesOf(c), body)); eff.Known? && |st.stack| >= eff.inputs
    ensures FitsQ(RunQ(f, scope, [Bare("drop")] + EmitSeq(m.NamesOf(c), body), Lift(st), fuel), st,
                  Then(Known(1, 0), InferBlock(env, m.NamesOf(c), body)))
    decreases fuel, SizeSeq(body), 7
  {
    ThenInputs(Known(1, 0), InferBlock(env, m.NamesOf(c), body));
    ChosenRuns(f, scope, EmitSeq(m.NamesOf(c), body), st, fuel);
    SoundQ(f, m, env, scope, c, body, Pop(st), fuel);
    AfterFlag(RunQ(f, scope, EmitSeq(m.NamesOf(c), body), Lift(Pop(st)), fuel), st,
              InferBlock(env, m.NamesOf(c), body));
  }

  // ----- loops -----

  /** A turn that is one on cells and keeps the depth. */
  ghost predicate TurnFitsQ(ft: FTurn, st: State, i: nat)
    requires |st.stack| >= i
  {
    exists t: Turn :: LiftTurn(t) == ft && TurnFits(t, st, i)
  }

  ghost predicate TurnsFitQ(f: FMachine, scope: set<string>, t: Token, i: nat, fuel: nat)
    requires t.LoopTok? || t.DoTok?
  {
    forall st: State, k: nat | k <= fuel && |st.stack| >= i ::
      TurnFitsQ(TurnQ(t, Close(f, Lift(st), RunQ(f, scope, t.quot, Lift(st), k))), st, i)
  }

  lemma CloseTurnFits(f: FMachine, outer: State, t: Token, fo: FOutcome, st: State, i: nat)
    requires (t.LoopTok? || t.DoTok?) && |st.stack| >= i && TurnFitsQ(TurnQ(t, fo), st, i)
    ensures TurnFitsQ(TurnQ(t, Close(f, Lift(outer), fo)), st, i)
  {
    var t1: Turn :| LiftTurn(t1) == TurnQ(t, fo) && TurnFits(t1, st, i);
    var t2 := ShutTurn(f, outer, t1);
    assert TurnFits(t2, st, i);
    TurnShuts(f, outer, t, fo, t1);
  }

  lemma TurnShuts(f: FMachine, outer: State, t: Token, fo: FOutcome, t1: Turn)
    requires (t.LoopTok? || t.DoTok?) && LiftTurn(t1) == TurnQ(t, fo)
    ensures LiftTurn(ShutTurn(f, outer, t1)) == TurnQ(t, Close(f, Lift(outer), fo))
  {}

  lemma {:induction false} LoopFitsQ(f: FMachine, scope: set<string>, t: Token, st: State, i: nat, fuel: nat)
    requires (t.LoopTok? || t.DoTok?) && |st.stack| >= i && TurnsFitQ(f, scope, t, i, fuel)
    ensures FitsQ(RunLoopQ(f, scope, t, Lift(st), fuel), st, Known(i, i))
    decreases fuel
  {
    if fuel > 0 {
      var ft := TurnQ(t, Close(f, Lift(st), RunQ(f, scope, t.quot, Lift(st), fuel)));
      assert TurnFitsQ(ft, st, i);
      var t1: Turn :| LiftTurn(t1) == ft && TurnFits(t1, st, i);
      match t1
      case Leave(o) => FitsLifted(o, st, Known(i, i));
      case Repeat(st1) =>
        LoopFitsQ(f, scope, t, st1, i, fuel - 1);
        Chain(st, st1, Ground(RunLoopQ(f, scope, t, Lift(st1), fuel - 1)), i);
    }
  }

  /** A regular loop with a known effect, whose turns need at most i items. */
  predicate LoopKnownQ(env: Env, n: Names, e: Expr, i: nat) {
    IsLoop(e) && RegularExpr(env, n, e, Reading.Factor) && InferExpr(env, n, e).Known? &&
    match e
    case DoLoop(_, body, _) => InferBlock(env, n, body).inputs == i
    case _ => InferExpr(env, n, e).inputs == i
  }

  lemma {:induction false} SoundLoopExprQ(f: FMachine, m: Machine, env: Env, scope: set<string>, c: Context, e: Expr,
                                          st: State, fuel: nat)
    requires IsLoop(e) && PassedQ(f, m, env) && ExprSpelled(m, scope, c, e)
    requires RegularExpr(env, m.NamesOf(c), e, Reading.Factor)
    requires var eff := InferExpr(env, m.NamesOf(c), e); eff.Known? && |st.stack| >= eff.inputs
    ensures FitsQ(RunQ(f, scope, EmitExpr(m.NamesOf(c), e), Lift(st), fuel), st, InferExpr(env, m.NamesOf(c), e))
    decreases fuel, SizeExpr(e), 4
  {
    var n := m.NamesOf(c);
    var t := EmitLoop(n, e);
    RunQOne(f, scope, t, Lift(st), fuel);
    if e.DoLoop? {
      var i := InferBlock(env, n, e.body).inputs;
      SoundLoopQ(f, m, env, scope, c, e, i, fuel);
      DoRunsQ(f, scope, t, st, i, fuel);
    } else {
      var i := InferExpr(env, n, e).inputs;
      SoundLoopQ(f, m, env, scope, c, e, i, fuel);
      LoopFitsQ(f, scope, t, st, i, fuel);
    }
  }

  lemma DoRunsQ(f: FMachine, scope: set<string>, t: Token, st: State, i: nat, fuel: nat)
    requires t.DoTok? && |st.stack| >= i + 2 && TurnsFitQ(f, scope, t, i, fuel)
    ensures FitsQ(RunTok(f, scope, t, Lift(st), fuel), st, Known(2 + i, i))
  {
    LiftPop(st);
    LiftPop(Pop(st));
    var st1 := Pop(Pop(st));
    if Top(st.stack).Number? && Top(Drop(st.stack)).Number? {
      var start, limit := Top(st.stack).n, Top(Drop(st.stack)).n;
      if t.isQdo && limit == start {
        FitsLifted(Next(st1), st1, Known(i, i));
        AfterBoundsQ(FNext(Lift(st1)), st, st1, i);
      } else {
        var st2 := PushFrame(st1, limit, start);
        assert EnterLoop(Lift(st1), limit, start) == Lift(st2);
        LoopFitsQ(f, scope, t, st2, i, fuel);
        AfterBoundsQ(RunLoopQ(f, scope, t, Lift(st2), fuel), st, st2, i);
      }
    }
  }

  lemma AfterBoundsQ(fo: FOutcome, st: State, st1: State, i: nat)
    requires |st.stack| >= i + 2 && st1.stack == Pop(Pop(st)).stack && FitsQ(fo, st1, Known(i, i))
    ensures FitsQ(fo, st, Known(2 + i, i))
  {
    AfterBounds(st, st1, Ground(fo), i);
  }

  lemma {:induction false} SoundLoopQ(f: FMachine, m: Machine, env: Env, scope: set<string>, c: Context, e: Expr,
                                      i: nat, fuel: nat)
    requires PassedQ(f, m, env) && LoopKnownQ(env, m.NamesOf(c), e, i) && ExprSpelled(m, scope, c, e)
    ensures TurnsFitQ(f, scope, EmitLoop(m.NamesOf(c), e), i, fuel)
    decreases fuel, SizeExpr(e), 3
  {
    var t := EmitLoop(m.NamesOf(c), e);
    forall st: State, k: nat | k <= fuel && |st.stack| >= i
      ensures TurnFitsQ(TurnQ(t, Close(f, Lift(st), RunQ(f, scope, t.quot, Lift(st), k))), st, i)
    {
      SoundTurnQ(f, m, env, scope, c, e, st, i, k);
      CloseTurnFits(f, st, t, RunQ(f, scope, t.quot, Lift(st), k), st, i);
    }
  }

  lemma {:induction false} SoundTurnQ(f: FMachine, m: Machine, env: Env, scope: set<string>, c: Context, e: Expr,
                                      st: State, i: nat, fuel: nat)
    requires PassedQ(f, m, env) && LoopKnownQ(env, m.NamesOf(c), e, i) && ExprSpelled(m, scope, c, e) && |st.stack| >= i
    ensures var t := EmitLoop(m.NamesOf(c), e);
            TurnFitsQ(TurnQ(t, RunQ(f, scope, t.quot, Lift(st), fuel)), st, i)
    decreases fuel, SizeExpr(e), 2
  {
    SpelledLoop(m, scope, c, e);
    match e
    case BeginUntil(body) => SoundUntilQ(f, m, env, scope, c, body, st, i, fuel);
    case BeginWhileRepeat(pred, body) => SoundWhileQ(f, m, env, scope, c, pred, body, st, i, fuel);
    case DoLoop(isQdo, body, _) => SoundDoQ(f, m, env, scope, c, isQdo, body, st, i, fuel);
  }

  lemma {:induction false} SoundUntilQ(f: FMachine, m: Machine, env: Env, scope: set<string>, c: Context,
                                       body: seq<Expr>, st: State, i: nat, fuel: nat)
    requires PassedQ(f, m, env) && Spelled(m, scope, c, body) && RegularSeq(env, m.NamesOf(c), body, Reading.Factor)
    requires InferBlock(env, m.NamesOf(c), body) == Known(i, i + 1) && |st.stack| >= i
    ensures var t := EmitLoop(m.NamesOf(c), BeginUntil(body));
            TurnFitsQ(TurnQ(t, RunQ(f, scope, t.quot, Lift(st), fuel)), st, i)
    decreases fuel, SizeSeq(body), 7
  {
    var q := EmitSeq(m.NamesOf(c), body);
    SoundQ(f, m, env, scope, c, body, st, fuel);
    var o := Ground(RunQ(f, scope, q, Lift(st), fuel));
    RunQSnoc(f, scope, q, ZeroP, Lift(st), fuel);
    SimFlag(o);
    FlagTaken(st, o, i);
    assert LiftTurn(UntilTurn(o)) == TurnQ(LoopTok(q + [ZeroP]), RunQ(f, scope, q + [ZeroP], Lift(st), fuel));
  }

  lemma StepFits(st: State, o: Outcome, i: nat)
    requires |st.stack| >= i && Fits(o, st, i, i)
    ensures TurnFits(DoTurn(Plus1, o), st, i)
  {}

  lemma {:induction false} SoundDoQ(f: FMachine, m: Machine, env: Env, scope: set<string>, c: Context, isQdo: bool,
                                    body: seq<Expr>, st: State, i: nat, fuel: nat)
    requires PassedQ(f, m, env) && Spelled(m, scope, c, body) && RegularSeq(env, m.NamesOf(c), body, Reading.Factor)
    requires InferBlock(env, m.NamesOf(c), body) == Known(i, i) && |st.stack| >= i
    ensures var t := EmitLoop(m.NamesOf(c), DoLoop(isQdo, body, Plus1));
            TurnFitsQ(TurnQ(t, RunQ(f, scope, t.quot, Lift(st), fuel)), st, i)
    decreases fuel, SizeSeq(body), 7
  {
    var q := EmitSeq(m.NamesOf(c), body);
    var t := DoTok(isQdo, q + [Num(1)]);
    SoundQ(f, m, env, scope, c, body, st, fuel);
    var o := Ground(RunQ(f, scope, q, Lift(st), fuel));
    RunQSnoc(f, scope, q, Num(1), Lift(st), fuel);
    SimStep(t, Plus1, o);
    StepFits(st, o, i);
    assert LiftTurn(DoTurn(Plus1, o)) == TurnQ(t, RunQ(f, scope, t.quot, Lift(st), fuel));
  }

  lemma {:induction false} SoundWhileQ(f: FMachine, m: Machine, env: Env, scope: set<string>, c: Context,
                                       pred: seq<Expr>, body: seq<Expr>, st: State, i: nat, fuel: nat)
    requires PassedQ(f, m, env) && Spelled(m, scope, c, pred) && Spelled(m, scope, c, body) && "f" !in scope
    requires |st.stack| >= i
    requires RegularSeq(env, m.NamesOf(c), pred, Reading.Factor) && RegularSeq(env, m.NamesOf(c), body, Reading.Factor)
    requires var p := InferBlock(env, m.NamesOf(c), pred); p.Known? && p.outputs == p.inputs + 1 && p.inputs <= i
    requires var b := InferBlock(env, m.NamesOf(c), body); b.Known? && b.inputs == b.outputs && b.inputs <= i
    ensures var t := EmitLoop(m.NamesOf(c), BeginWhileRepeat(pred, body));
            TurnFitsQ(TurnQ(t, RunQ(f, scope, t.quot, Lift(st), fuel)), st, i)
    decreases fuel, SizeSeq(pred) + SizeSeq(body), 7
  {
    var n := m.NamesOf(c);
    var p, q := EmitSeq(n, pred), EmitSeq(n, body);
    var t := LoopTok(p + EmitTested(q));
    var pe := InferBlock(env, n, pred);
    SoundQ(f, m, env, scope, c, pred, st, fuel);
    var o := Ground(RunQ(f, scope, p, Lift(st), fuel));
    Widen(o, st, pe.inputs, pe.outputs, i - pe.inputs);
    FlagTaken(st, o, i);
    RunQConcat(f, scope, p, EmitTested(q), Lift(st), fuel);
    if o.Next? {
      SoundTestedQ(f, m, env, scope, c, body, st, o.state, i, fuel, t);
    } else {
      assert LiftTurn(Leave(o)) == TurnQ(t, RunQ(f, scope, t.quot, Lift(st), fuel));
    }
  }

  /** The turn of a WHILE from its test on. */
  lemma {:induction false} SoundTestedQ(f: FMachine, m: Machine, env: Env, scope: set<string>, c: Context,
                                        body: seq<Expr>, st: State, st1: State, i: nat, fuel: nat, t: Token)
    requires PassedQ(f, m, env) && Spelled(m, scope, c, body) && "f" !in scope && t.LoopTok?
    requires RegularSeq(env, m.NamesOf(c), body, Reading.Factor)
    requires var b := InferBlock(env, m.NamesOf(c), body); b.Known? && b.inputs == b.outputs && b.inputs <= i
    requires |st.stack| >= i && Fits(Next(st1), st, i, i + 1) && TurnFits(WhileTest(Next(st1)), st, i)
    ensures TurnFitsQ(TurnQ(t, RunQ(f, scope, EmitTested(EmitSeq(m.NamesOf(c), body)), Lift(st1), fuel)), st, i)
    decreases fuel, SizeSeq(body), 7
  {
    var n := m.NamesOf(c);
    var q, b, st2 := EmitSeq(n, body), InferBlock(env, n, body), Pop(st1);
    var o := Ground(RunQ(f, scope, q, Lift(st2), fuel));
    if WhileTest(Next(st1)).Repeat? {
      SoundQ(f, m, env, scope, c, body, st2, fuel);
      Widen(o, st2, b.inputs, b.outputs, i - b.inputs);
      Chain(st, st2, o, i);
    }
    TestedRuns(f, scope, q, st1, o, fuel);
    assert TurnFits(TestedTurn(st1, Shut(f, st1, o)), st, i);
    assert t == LoopTok(t.quot);
    assert TurnQ(t, RunQ(f, scope, EmitTested(q), Lift(st1), fuel)) == LiftTurn(TestedTurn(st1, Shut(f, st1, o)));
  }
}
