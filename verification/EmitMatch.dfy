/** Match expressions, which emitted code runs on a copy of the selector: exactly when that is right. */
module EmitMatch {
  import opened Common
  import opened Forth
  import opened Equivalence
  import opened Effects
  import opened EffectSound
  import opened Telltale
  import opened Spying
  import opened EffectLimits
  import opened Factor
  import opened Scopes
  import opened Emit
  import opened Lifting
  import opened EmitSim
  import opened EmitHidden
  import opened Frame
  import LowerQdup

  /** CASE <s> OF 9 ENDOF 0 ENDCASE. */
  function Choice(s: seq<Expr>): Expr {
    Case([Arm(s, [Lit(9)])], ElseBody([Lit(0)]))
  }

  /** A Factor runtime without definitions, whose builtins meet the table and look at nothing deeper. */
  ghost predicate Plain(m: Machine, table: map<string, Eff>) {
    m.defs == map[] && m.vars == map[] && m.restoring && Framed(m) && MeetsTable(m, table)
  }

  /** Emission of the CASE is right on all those runtimes. */
  ghost predicate MatchRight(table: map<string, Eff>, s: seq<Expr>) {
    forall m: Machine, st: State, fuel: nat | Plain(m, table) :: EmitsRight(m, {}, nowhere, [Choice(s)], st, fuel)
  }

  lemma {:induction false} ClearNone(q: seq<Token>)
    ensures ClearQ(q, {})
    decreases q
  {
    if q != [] {
      ClearNoneTok(q[0]);
      ClearNone(q[1..]);
    }
  }

  lemma {:induction false} ClearNoneTok(t: Token)
    ensures ClearTok(t, {})
    decreases t
  {
    match t
    case IfTok(a, b) =>
      ClearNone(a);
      ClearNone(b);
    case UnlessTok(q) => ClearNone(q);
    case LoopTok(q) => ClearNone(q);
    case DoTok(_, q) => ClearNone(q);
    case WithReturn(q) => ClearNone(q);
    case _ =>
  }

  lemma {:induction false} PlainOk(m: Machine, env: Env, s: seq<Expr>)
    requires m.defs == map[] && m.vars == map[] && PlainCode(env, noNames, s)
    ensures BodyOk(m, env, {}, nowhere, s) && RegularSeq(env, noNames, s, Ans)
    decreases s
  {
    ClearNone(EmitSeq(m.NamesOf(nowhere), s));
    if s != [] {
      assert s[0] in s;
      PlainOk(m, env, s[1..]);
    }
  }

  lemma PlainEmittable(m: Machine, table: map<string, Eff>)
    requires Plain(m, table)
    ensures Emittable(m, Env(map[], table, {})) && Emits(Frames(EmitProgram(m)), m)
  {
    FramesEmit(m);
  }

  /** Plain code is emitted word by word. */
  lemma {:induction false} SimPlain(f: FMachine, m: Machine, env: Env, s: seq<Expr>, st: State, fuel: nat)
    requires f.prim == m.prim && m.defs == map[] && m.vars == map[] && PlainCode(env, noNames, s)
    ensures RunQ(f, {}, EmitSeq(noNames, s), Lift(st), fuel) == LiftOutcome(RunSeq(m, nowhere, s, st, fuel))
    decreases s
  {
    if s != [] {
      assert s[0] in s && m.NamesOf(nowhere) == noNames;
      SimPlainStep(f, m, env, s[0], st, fuel);
      RunQConcat(f, {}, EmitExpr(noNames, s[0]), EmitSeq(noNames, s[1..]), Lift(st), fuel);
      var o := RunExpr(m, nowhere, s[0], st, fuel);
      if o.Next? {
        SimPlain(f, m, env, s[1..], o.state, fuel);
      }
    }
  }

  lemma SimPlainStep(f: FMachine, m: Machine, env: Env, e: Expr, st: State, fuel: nat)
    requires f.prim == m.prim && m.NamesOf(nowhere) == noNames
    requires e.Lit? || (e.WordRef? && IsTabled(env, noNames, e.name))
    ensures RunQ(f, {}, EmitExpr(noNames, e), Lift(st), fuel) == LiftOutcome(RunExpr(m, nowhere, e, st, fuel))
    ensures !RunExpr(m, nowhere, e, st, fuel).Exit?
  {
    if e.Lit? {
      RunQOne(f, {}, Num(e.value), Lift(st), fuel);
      LiftPush(st, Number(e.value));
    } else {
      RunQOne(f, {}, EmitWord(noNames, e.name), Lift(st), fuel);
      SimPrim(f, m, {}, Lower(e.name), Written(Lower(e.name)), st, fuel);
    }
  }

  lemma {:induction false} PlainLeaves(env: Env, s: seq<Expr>)
    requires PlainCode(env, noNames, s)
    ensures forall t <- EmitSeq(noNames, s) :: LeafTok(t)
    decreases s
  {
    if s != [] {
      assert s[0] in s;
      PlainLeaves(env, s[1..]);
    }
  }

  lemma ChoiceLexical(env: Env, s: seq<Expr>)
    requires PlainCode(env, noNames, s)
    ensures LexicalQ({}, {}, EmitSeq(noNames, [Choice(s)]))
  {
    var yes, no := [Bare("drop")] + [Num(9)], [Num(0)] + [KernelDrop];
    var first := [Bare("dup")] + EmitSeq(noNames, s) + [Bare("=")];
    ChoiceQuotation(s);
    PlainLeaves(env, s);
    LeavesLexical({}, first);
    LeavesLexical({}, yes);
    LeavesLexical({}, no);
    LexicalOne({}, {}, IfTok(yes, no));
    LexicalConcat({}, {}, first, [IfTok(yes, no)]);
    assert EmitSeq(noNames, [Choice(s)]) == first + [IfTok(yes, no)];
  }

  /** A match expression of literals and builtins that ends in a builtin is emitted rightly, on every
      runtime whose builtins meet their table, if and only if its inferred effect is ( -- x ) and no builtin
      in it sees the whole stack. */
  lemma MatchExactly(table: map<string, Eff>, s: seq<Expr>)
    requires EndsInBuiltin(table, s)
    ensures MatchRight(table, s) <==>
            InferBlock(Env(map[], table, {}), noNames, s) == Known(0, 1) && QuietSeq({}, noNames, s)
  {
    if InferBlock(Env(map[], table, {}), noNames, s) != Known(0, 1) {
      ReachesFails(table, s);
    } else if QuietSeq({}, noNames, s) {
      AddsAlwaysRight(table, s);
    } else {
      SeesFails(table, s);
    }
  }

  lemma AddsAlwaysRight(table: map<string, Eff>, s: seq<Expr>)
    requires PlainCode(Env(map[], table, {}), noNames, s) && QuietSeq({}, noNames, s)
    requires InferBlock(Env(map[], table, {}), noNames, s) == Known(0, 1)
    ensures MatchRight(table, s)
  {
    forall m: Machine, st: State, fuel: nat | Plain(m, table)
      ensures EmitsRight(m, {}, nowhere, [Choice(s)], st, fuel)
    {
      AddsRight(m, table, s, st, fuel);
    }
  }

  lemma ReachesFails(table: map<string, Eff>, s: seq<Expr>)
    requires EndsInBuiltin(table, s)
    requires InferBlock(Env(map[], table, {}), noNames, s) != Known(0, 1)
    ensures !MatchRight(table, s)
  {
    var m, st := ReachesWrong(table, s);
    assert !EmitsRight(m, {}, nowhere, [Choice(s)], st, 0);
  }

  lemma AddsRight(m: Machine, table: map<string, Eff>, s: seq<Expr>, st: State, fuel: nat)
    requires Plain(m, table) && PlainCode(Env(map[], table, {}), noNames, s) && QuietSeq({}, noNames, s)
    requires InferBlock(Env(map[], table, {}), noNames, s) == Known(0, 1)
    ensures EmitsRight(m, {}, nowhere, [Choice(s)], st, fuel)
  {
    var f := EmitProgram(m);
    PlainEmittable(m, table);
    ChoiceOk(m, Env(map[], table, {}), s);
    SimSeq(Frames(f), m, Env(map[], table, {}), {}, nowhere, [Choice(s)], st, fuel);
    assert LexicalProgram(f);
    ChoiceLexical(Env(map[], table, {}), s);
    ScopesAgree(f, {}, {}, EmitSeq(noNames, [Choice(s)]), Lift(st), fuel);
    assert m.NamesOf(nowhere) == noNames;
  }

  lemma ReachesWrong(table: map<string, Eff>, s: seq<Expr>) returns (m: Machine, st: State)
    requires EndsInBuiltin(table, s)
    requires InferBlock(Env(map[], table, {}), noNames, s) != Known(0, 1)
    ensures Plain(m, table) && !EmitsRight(m, {}, nowhere, [Choice(s)], st, 0)
  {
    var env := Env(map[], table, {});
    m := Machine(map[], map[], (lc: string, stack: seq<Cell>, w: World) => NewPrim(table, lc, stack, w), true);
    TellsMeets(m, table);
    var made := MakeSeq(env, s, Made(0, [], 0));
    MadeIs(env, s);
    TopIsNew(env, noNames, s);
    MakeOwn(env, s, Made(0, [], 0));
    st := Asker(made);
    if |made.items| >= 2 {
      ManyDiffer(m, env, s, made, st);
    } else {
      OneDiffers(m, env, s, made, st);
    }
  }

  lemma ChoiceOk(m: Machine, env: Env, s: seq<Expr>)
    requires m.defs == map[] && m.vars == map[] && PlainCode(env, noNames, s) && QuietSeq(env.quiet, noNames, s)
    requires InferBlock(env, noNames, s) == Known(0, 1)
    ensures BodyOk(m, env, {}, nowhere, [Choice(s)])
  {
    var e := Choice(s);
    assert m.NamesOf(nowhere) == noNames;
    ClearNone(EmitSeq(noNames, [e]));
    assert [e][1..] == [];
    ChoiceNamed(m, env, s);
    ChoiceMatched(m, env, s);
  }

  lemma ChoiceNamed(m: Machine, env: Env, s: seq<Expr>)
    requires m.defs == map[] && m.vars == map[] && PlainCode(env, noNames, s)
    ensures NamedExpr(m, nowhere, Choice(s))
  {
    var arms := Choice(s).arms;
    PlainOk(m, env, s);
    PlainOk(m, env, [Lit(9)]);
    PlainOk(m, env, [Lit(0)]);
    assert arms[0] == Arm(s, [Lit(9)]) && arms[1..] == [];
    assert NamedArms(m, nowhere, []);
  }

  lemma ChoiceMatched(m: Machine, env: Env, s: seq<Expr>)
    requires m.defs == map[] && m.vars == map[] && PlainCode(env, noNames, s) && QuietSeq(env.quiet, noNames, s)
    requires InferBlock(env, noNames, s) == Known(0, 1)
    ensures MatchedExpr(env, noNames, Choice(s), DupCopies(m))
  {
    var arms := Choice(s).arms;
    PlainOk(m, env, s);
    PlainOk(m, env, [Lit(9)]);
    PlainOk(m, env, [Lit(0)]);
    assert m.NamesOf(nowhere) == noNames;
    assert arms[0] == Arm(s, [Lit(9)]) && arms[1..] == [];
    assert MatchOk(env, noNames, s, DupCopies(m));
    assert MatchedArms(env, noNames, [], DupCopies(m));
  }

  lemma MadeIs(env: Env, s: seq<Expr>)
    requires PlainCode(env, noNames, s)
    ensures MadeEffect(MakeSeq(env, s, Made(0, [], 0))) == InferBlock(env, noNames, s)
  {
    MakeEffect(env, noNames, s, Made(0, [], 0));
    ThenIdentity(InferBlock(env, noNames, s));
  }

  // ----- both runs of a choice -----

  /** The standard's run, once the match expression has left `found`. */
  function AnsChoice(found: State): Outcome {
    if |found.stack| < 2 then Underflow
    else if Top(found.stack) == Top(Drop(found.stack)) then Next(Push(Pop(Pop(found)), Number(9)))
    else Next(Pop(found))
  }

  lemma RunChoice(m: Machine, s: seq<Expr>, st: State, found: State)
    requires |st.stack| > 0 && RunSeq(m, nowhere, s, st, 0) == Next(found)
    ensures RunSeq(m, nowhere, [Choice(s)], st, 0) == AnsChoice(found)
  {
    var arms, d := [Arm(s, [Lit(9)])], ElseBody([Lit(0)]);
    RunOne(m, nowhere, Choice(s), st, 0);
    assert arms[1..] == [];
    if |found.stack| >= 2 {
      RunOne(m, nowhere, Lit(9), Pop(Pop(found)), 0);
      RunEnd(m, Pop(found));
    }
    assert RunArms(m, nowhere, arms, d, st, 0) == AnsChoice(found);
  }

  lemma RunEnd(m: Machine, st: State)
    ensures RunArms(m, nowhere, [], ElseBody([Lit(0)]), st, 0) == Next(st)
  {
    RunOne(m, nowhere, Lit(0), st, 0);
    assert Drop(st.stack + [Number(0)]) == st.stack;
  }

  /** The emitted run, once the match expression has left `found` on top of a copy of the selector. */
  function FactorChoice(found: State): Outcome {
    if |found.stack| < 3 then Underflow
    else if Top(found.stack) == Top(Drop(found.stack)) then Next(Push(Pop(Pop(Pop(found))), Number(9)))
    else Next(Pop(Pop(found)))
  }

  lemma ChoiceQuotation(s: seq<Expr>)
    ensures EmitSeq(noNames, [Choice(s)])
         == [Bare("dup")] +
            (EmitSeq(noNames, s) + [Bare("="), IfTok([Bare("drop")] + [Num(9)], [Num(0)] + [KernelDrop])])
  {
    var e := Choice(s);
    var arms, d := e.arms, e.default;
    assert [e][1..] == [] && arms[1..] == [];
    assert [Lit(9)][1..] == [] && [Lit(0)][1..] == [];
    assert EmitSeq(noNames, [Lit(9)]) == [Num(9)] && EmitSeq(noNames, [Lit(0)]) == [Num(0)];
    assert EmitCase(noNames, [], d) == [Num(0)] + [KernelDrop];
    assert EmitTest(noNames, arms, d) == [Bare("="), IfTok([Bare("drop")] + [Num(9)], [Num(0)] + [KernelDrop])];
    assert EmitExpr(noNames, e) == [Bare("dup")] + EmitSeq(noNames, s) + EmitTest(noNames, arms, d);
    assert EmitSeq(noNames, [e]) == EmitExpr(noNames, e) + [];
  }

  lemma RunChoiceQ(f: FMachine, s: seq<Expr>, st: State, found: State)
    requires |st.stack| > 0 && |found.stack| >= 3
    requires RunQ(f, {}, EmitSeq(noNames, s), Lift(Push(st, Top(st.stack))), 0) == FNext(Lift(found))
    ensures RunQ(f, {}, EmitSeq(noNames, [Choice(s)]), Lift(st), 0) == LiftOutcome(FactorChoice(found))
  {
    var yes, no := [Bare("drop")] + [Num(9)], [Num(0)] + [KernelDrop];
    var q, test := EmitSeq(noNames, s), [Bare("="), IfTok(yes, no)];
    ChoiceQuotation(s);
    LiftPop(st);
    LiftPush(st, Top(st.stack));
    RunQCons(f, {}, Bare("dup"), q + test, Lift(st), 0);
    RunQConcat(f, {}, q, test, Lift(Push(st, Top(st.stack))), 0);
    ChoiceTest(f, found);
  }

  lemma ChoiceTest(f: FMachine, found: State)
    requires |found.stack| >= 3
    ensures RunQ(f, {}, [Bare("="), IfTok([Bare("drop")] + [Num(9)], [Num(0)] + [KernelDrop])], Lift(found), 0)
         == LiftOutcome(FactorChoice(found))
  {
    var rest := Pop(Pop(found));
    var a, b := Top(Drop(found.stack)), Top(found.stack);
    assert Lift(found).stack == Lift(rest).stack + [V(a)] + [V(b)];
    TestRuns(f, {}, [Bare("drop")] + [Num(9)], [Num(0)] + [KernelDrop], Lift(rest), V(a), V(b), 0);
    ChosenRun(f, rest);
    SkippedRun(f, rest);
  }

  lemma ChosenRun(f: FMachine, st: State)
    requires |st.stack| > 0
    ensures RunQ(f, {}, [Bare("drop")] + [Num(9)], Lift(st), 0) == FNext(Lift(Push(Pop(st), Number(9))))
  {
    RunQCons(f, {}, Bare("drop"), [Num(9)], Lift(st), 0);
    LiftPop(st);
    RunQOne(f, {}, Num(9), Lift(Pop(st)), 0);
    LiftPush(Pop(st), Number(9));
  }

  lemma SkippedRun(f: FMachine, st: State)
    ensures RunQ(f, {}, [Num(0)] + [KernelDrop], Lift(st), 0) == FNext(Lift(st))
  {
    RunQCons(f, {}, Num(0), [KernelDrop], Lift(st), 0);
    RunQOne(f, {}, KernelDrop, PushV(Lift(st), V(Number(0))), 0);
    PopPushed(Lift(st), V(Number(0)));
  }

  // ----- a stack that tells the two apart -----

  /** As many items as the match expression takes, and one more below them; if it leaves one item, that
      item is the one below. */
  function Asker(made: Made): State {
    var below := if |made.items| == 1 then made.items[0] else Address("caller", 0);
    State([below] + seq(made.taken, i => Address("caller", 0)), map[], World(map[], map[], [], [], []))
  }

  /** What the match expression leaves on the selector, and on a copy of it. */
  lemma BothFound(m: Machine, env: Env, s: seq<Expr>, made: Made, st: State) returns (a: State, b: State)
    requires Plain(m, env.table) && env.user == map[] && Tells(m, env.table) && PlainCode(env, noNames, s)
    requires made == MakeSeq(env, s, Made(0, [], 0)) && st == Asker(made)
    ensures RunSeq(m, nowhere, s, st, 0) == Next(a) && a.stack == st.stack[..1] + made.items
    ensures RunQ(EmitProgram(m), {}, EmitSeq(noNames, s), Lift(Push(st, Top(st.stack))), 0) == FNext(Lift(b))
    ensures b.stack == (st.stack + [Top(st.stack)])[..2] + made.items
  {
    var zero, st2 := Made(0, [], 0), Push(st, Top(st.stack));
    assert m.NamesOf(nowhere) == noNames;
    assert st.stack[..|st.stack|] + [] == st.stack && st2.stack[..|st2.stack|] + [] == st2.stack;
    MakeRun(m, env, nowhere, s, st.stack, st, zero, 0);
    MakeRun(m, env, nowhere, s, st2.stack, st2, zero, 0);
    a, b := RunSeq(m, nowhere, s, st, 0).state, RunSeq(m, nowhere, s, st2, 0).state;
    PlainEmittable(m, env.table);
    PlainOk(m, env, s);
    SimPlain(EmitProgram(m), m, env, s, st2, 0);
  }

  lemma ManyDiffer(m: Machine, env: Env, s: seq<Expr>, made: Made, st: State)
    requires Plain(m, env.table) && env.user == map[] && Tells(m, env.table) && PlainCode(env, noNames, s)
    requires made == MakeSeq(env, s, Made(0, [], 0)) && st == Asker(made) && |made.items| >= 2 && Own(made)
    requires made.items[|made.items| - 2] != made.items[|made.items| - 1]
    ensures !EmitsRight(m, {}, nowhere, [Choice(s)], st, 0)
  {
    var a, b := BothFound(m, env, s, made, st);
    RunChoice(m, s, st, a);
    RunChoiceQ(EmitProgram(m), s, st, b);
    ManyTold(made, st, a, b);
    assert m.NamesOf(nowhere) == noNames;
  }

  lemma ManyTold(made: Made, st: State, a: State, b: State)
    requires st == Asker(made) && |made.items| >= 2 && Own(made)
    requires made.items[|made.items| - 2] != made.items[|made.items| - 1]
    requires a.stack == st.stack[..1] + made.items && b.stack == (st.stack + [Top(st.stack)])[..2] + made.items
    ensures Shown(LiftOutcome(AnsChoice(a))) != Shown(LiftOutcome(FactorChoice(b)))
  {
    var ans, factor := AnsChoice(a), FactorChoice(b);
    assert made.items[0] in made.items;
    assert ans.state.stack[1] == made.items[0];
    assert factor.state.stack[1] == Address("caller", 0);
    assert Lift(ans.state).stack[1] != Lift(factor.state).stack[1];
  }

  lemma OneDiffers(m: Machine, env: Env, s: seq<Expr>, made: Made, st: State)
    requires Plain(m, env.table) && env.user == map[] && Tells(m, env.table) && PlainCode(env, noNames, s)
    requires made == MakeSeq(env, s, Made(0, [], 0)) && st == Asker(made) && |made.items| == 1 && made.taken >= 1
    requires made.items[0].Address? && made.items[0].name == "new"
    ensures !EmitsRight(m, {}, nowhere, [Choice(s)], st, 0)
  {
    var a, b := BothFound(m, env, s, made, st);
    RunChoice(m, s, st, a);
    RunChoiceQ(EmitProgram(m), s, st, b);
    OneTold(made, st, a, b);
    assert m.NamesOf(nowhere) == noNames;
  }

  lemma OneTold(made: Made, st: State, a: State, b: State)
    requires st == Asker(made) && |made.items| == 1 && made.taken >= 1
    requires made.items[0].Address? && made.items[0].name == "new"
    requires a.stack == st.stack[..1] + made.items && b.stack == (st.stack + [Top(st.stack)])[..2] + made.items
    ensures Shown(LiftOutcome(AnsChoice(a))) != Shown(LiftOutcome(FactorChoice(b)))
  {
    var x := made.items[0];
    assert a.stack == [x, x] && b.stack == [x, Address("caller", 0), x];
    var ans, factor := AnsChoice(a), FactorChoice(b);
    assert ans.state.stack[0] == Number(9) && factor.state.stack[0] == x;
    assert Lift(ans.state).stack[0] != Lift(factor.state).stack[0];
  }

  // ----- builtins that see the whole stack -----

  lemma SpiesPlain(m: Machine, table: map<string, Eff>)
    requires m.defs == map[] && m.vars == map[] && m.restoring && Spies(m, table)
    requires "exit" !in table && "recurse" !in table
    ensures Plain(m, table)
  {
    SpiesMeet(m, table);
  }

  lemma SeesFails(table: map<string, Eff>, s: seq<Expr>)
    requires EndsInBuiltin(table, s) && !QuietSeq({}, noNames, s)
    requires InferBlock(Env(map[], table, {}), noNames, s) == Known(0, 1)
    ensures !MatchRight(table, s)
  {
    var env := Env(map[], table, {});
    var m := Machine(map[], map[], (lc: string, stack: seq<Cell>, w: World) => SpyPrim(table, lc, stack, w), true);
    var st := State([Number(0)], map[], World(map[], map[], [], [], []));
    SpiesPlain(m, table);
    SeesWrong(m, env, s, st);
    assert !EmitsRight(m, {}, nowhere, [Choice(s)], st, 0);
  }

  lemma SeesWrong(m: Machine, env: Env, s: seq<Expr>, st: State)
    requires Plain(m, env.table) && env.user == map[] && env.quiet == {} && Spies(m, env.table)
    requires PlainCode(env, noNames, s) && !QuietSeq({}, noNames, s)
    requires InferBlock(env, noNames, s) == Known(0, 1) && |st.stack| == 1
    ensures !EmitsRight(m, {}, nowhere, [Choice(s)], st, 0)
  {
    var st' := Push(st, Top(st.stack));
    assert m.NamesOf(nowhere) == noNames;
    SpyRun(m, env, s, st, st', 0);
    var a, b := RunSeq(m, nowhere, s, st, 0).state, RunSeq(m, nowhere, s, st', 0).state;
    PlainEmittable(m, env.table);
    PlainOk(m, env, s);
    SimPlain(EmitProgram(m), m, env, s, st', 0);
    RunChoice(m, s, st, a);
    RunChoiceQ(EmitProgram(m), s, st, b);
    assert AnsChoice(a).state.world == a.world && FactorChoice(b).state.world == b.world;
  }

  const depthMatch := [WordRef("depth")]

  /** CASE DEPTH OF 9 ENDOF 0 ENDCASE on the item 1: the depth is 1, so that the standard takes the arm and
      leaves 9.  The emitted chain finds a copy of the selector below DEPTH, which gives 2, and takes the
      default.  By its effect the match expression is ( -- x ). */
  lemma DepthMatchExample(m: Machine, env: Env, st: State)
    requires Plain(m, env.table) && env.user == map[] && env.quiet == {} && "depth" in env.table
    requires env.table["depth"] == Known(0, 1) && forall s, w :: m.prim("depth", s, w) == Done(s + [Number(|s|)], w)
    requires st.stack == [Number(1)]
    ensures InferBlock(env, noNames, depthMatch) == Known(0, 1)
    ensures RunSeq(m, nowhere, [Choice(depthMatch)], st, 0) == Next(st.(stack := [Number(9)]))
    ensures RunQ(EmitProgram(m), {}, EmitSeq(noNames, [Choice(depthMatch)]), Lift(st), 0) == FNext(Lift(st))
  {
    DepthInferred(env);
    DepthRuns(m, st);
    RunChoice(m, depthMatch, st, Push(st, Number(1)));
    DepthQuotation(m, env, Push(st, Number(1)));
    RunChoiceQ(EmitProgram(m), depthMatch, st, Push(Push(st, Number(1)), Number(2)));
    DepthChosen(st);
  }

  lemma DepthInferred(env: Env)
    requires "depth" in env.table && env.table["depth"] == Known(0, 1)
    ensures InferBlock(env, noNames, depthMatch) == Known(0, 1)
    ensures "exit" !in env.table && "recurse" !in env.table ==> PlainCode(env, noNames, depthMatch)
  {
    assert depthMatch[1..] == [] && Lower("depth") == "depth";
    assert InferExpr(env, noNames, WordRef("depth")) == Known(0, 1);
  }

  lemma DepthQuotation(m: Machine, env: Env, st: State)
    requires Plain(m, env.table) && env.user == map[] && env.quiet == {} && PlainCode(env, noNames, depthMatch)
    requires forall s, w :: m.prim("depth", s, w) == Done(s + [Number(|s|)], w)
    ensures RunQ(EmitProgram(m), {}, EmitSeq(noNames, depthMatch), Lift(st), 0)
         == FNext(Lift(Push(st, Number(|st.stack|))))
  {
    assert m.NamesOf(nowhere) == noNames;
    DepthRuns(m, st);
    PlainEmittable(m, env.table);
    PlainOk(m, env, depthMatch);
    SimPlain(EmitProgram(m), m, env, depthMatch, st, 0);
  }

  lemma DepthRuns(m: Machine, st: State)
    requires m.defs == map[] && m.vars == map[]
    requires forall s, w :: m.prim("depth", s, w) == Done(s + [Number(|s|)], w)
    ensures RunSeq(m, nowhere, depthMatch, st, 0) == Next(Push(st, Number(|st.stack|)))
  {
    assert m.NamesOf(nowhere) == noNames && Lower("depth") == "depth";
    assert m.prim("depth", st.stack, st.world) == Done(st.stack + [Number(|st.stack|)], st.world);
    RunOne(m, nowhere, WordRef("depth"), st, 0);
  }

  lemma DepthChosen(st: State)
    requires st.stack == [Number(1)]
    ensures AnsChoice(Push(st, Number(1))) == Next(st.(stack := [Number(9)]))
    ensures FactorChoice(Push(Push(st, Number(1)), Number(2))) == Next(st)
  {
    var a, b := Push(st, Number(1)), Push(Push(st, Number(1)), Number(2));
    assert Push(Pop(Pop(a)), Number(9)).stack == [Number(9)];
    assert Pop(Pop(b)) == st;
  }

  // ----- an example -----

  const dropFive := [WordRef("drop"), Lit(5)]
  const dropCase := [Case([Arm(dropFive, [Lit(9)])], NoElse)]

  lemma RunDropFive(m: Machine, c: Context, st: State, fuel: nat)
    requires m.Words() == {} && c.locals == {} && |st.stack| > 0
    requires forall s, w :: m.prim("drop", s, w) == LowerQdup.DropPrim(s, w)
    ensures RunSeq(m, c, dropFive, st, fuel) == Next(Push(Pop(st), Number(5)))
  {
    assert Lower("drop") == "drop";
    assert dropFive == [WordRef("drop")] + [Lit(5)];
    RunCons(m, c, WordRef("drop"), [Lit(5)], st, fuel);
    assert m.prim("drop", st.stack, st.world) == LowerQdup.DropPrim(st.stack, st.world);
    RunOne(m, c, Lit(5), Pop(st), fuel);
  }

  lemma DropFiveQuotation()
    ensures EmitSeq(noNames, dropFive) == [PrimTok("drop", Written("drop"))] + [Num(5)]
    ensures EmitSeq(noNames, dropCase)
         == [Bare("dup")] + (EmitSeq(noNames, dropFive) + [Bare("="), IfTok([Bare("drop")] + [Num(9)], [KernelDrop])])
  {
    assert Lower("drop") == "drop";
    var e := dropCase[0];
    assert dropFive[1..] == [Lit(5)] && [Lit(5)][1..] == [] && [Lit(9)][1..] == [] && dropCase[1..] == [];
    assert EmitExpr(noNames, dropFive[0]) == [PrimTok("drop", Written("drop"))];
    assert EmitSeq(noNames, [Lit(5)]) == [Num(5)] && EmitSeq(noNames, [Lit(9)]) == [Num(9)];
    assert e.arms[1..] == [] && EmitCase(noNames, [], NoElse) == [KernelDrop];
    assert EmitTest(noNames, e.arms, NoElse) == [Bare("="), IfTok([Bare("drop")] + [Num(9)], [KernelDrop])];
    assert EmitExpr(noNames, e) == [Bare("dup")] + EmitSeq(noNames, dropFive) + EmitTest(noNames, e.arms, NoElse);
    assert EmitSeq(noNames, dropCase) == EmitExpr(noNames, e) + [];
  }

  /** CASE DROP 5 OF 9 ENDOF ENDCASE on 5 1: under the standard the five below the selector is matched and
      nine is left; the emitted code drops its copy of the selector, finds no match and leaves nothing. */
  lemma DropMatchExample(m: Machine, c: Context, st: State, fuel: nat)
    requires m.defs == map[] && m.vars == map[] && c.locals == {} && st.stack == [Number(5), Number(1)]
    requires forall s, w :: m.prim("drop", s, w) == LowerQdup.DropPrim(s, w)
    ensures RunSeq(m, c, dropCase, st, fuel) == Next(st.(stack := [Number(9)]))
    ensures RunQ(EmitProgram(m), {}, EmitSeq(noNames, dropCase), Lift(st), fuel)
         == FNext(Lift(st.(stack := [])))
  {
    assert m.Words() == {};
    RunDropFive(m, c, st, fuel);
    var found := Push(Pop(st), Number(5));
    assert found.stack == [Number(5), Number(5)];
    RunOne(m, c, dropCase[0], st, fuel);
    RunOne(m, c, Lit(9), Pop(Pop(found)), fuel);
    assert Push(Pop(Pop(found)), Number(9)).stack == [Number(9)];
    DropFiveQuotation();
    DropCaseRun(EmitProgram(m), m, st, fuel);
  }

  lemma DropCaseRun(f: FMachine, m: Machine, st: State, fuel: nat)
    requires f.prim == m.prim && st.stack == [Number(5), Number(1)]
    requires forall s, w :: m.prim("drop", s, w) == LowerQdup.DropPrim(s, w)
    ensures RunQ(f, {}, [Bare("dup")] + ([PrimTok("drop", Written("drop"))] + [Num(5)] +
                                         [Bare("="), IfTok([Bare("drop")] + [Num(9)], [KernelDrop])]), Lift(st), fuel)
         == FNext(Lift(st.(stack := [])))
  {
    var d, yes, no := PrimTok("drop", Written("drop")), [Bare("drop")] + [Num(9)], [KernelDrop];
    var test := [Bare("="), IfTok(yes, no)];
    var st2 := Push(st, Number(1));
    assert [d] + [Num(5)] + test == [d] + ([Num(5)] + test);
    RunQCons(f, {}, Bare("dup"), [d] + ([Num(5)] + test), Lift(st), fuel);
    LiftPush(st, Number(1));
    RunQCons(f, {}, d, [Num(5)] + test, Lift(st2), fuel);
    SimPrim(f, m, {}, "drop", Written("drop"), st2, fuel);
    assert m.prim("drop", st2.stack, st2.world) == LowerQdup.DropPrim(st2.stack, st2.world);
    assert Drop(st2.stack) == st.stack;
    RunQCons(f, {}, Num(5), test, Lift(st), fuel);
    DropTestRun(f, st, fuel);
  }

  lemma DropTestRun(f: FMachine, st: State, fuel: nat)
    requires st.stack == [Number(5), Number(1)]
    ensures RunQ(f, {}, [Bare("="), IfTok([Bare("drop")] + [Num(9)], [KernelDrop])],
                 PushV(Lift(st), V(Number(5))), fuel)
         == FNext(Lift(st.(stack := [])))
  {
    var st3 := st.(stack := [Number(5)]);
    assert PushV(Lift(st), V(Number(5))).stack == Lift(st3).stack + [V(Number(1))] + [V(Number(5))];
    TestRuns(f, {}, [Bare("drop")] + [Num(9)], [KernelDrop], Lift(st3), V(Number(1)), V(Number(5)), fuel);
    RunQOne(f, {}, KernelDrop, Lift(st3), fuel);
    LiftPop(st3);
    assert Pop(st3) == st.(stack := []);
  }
}
