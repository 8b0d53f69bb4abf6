/** Where the inputs that a call binds on entry are felt: an input that hides a word, and calls from a
    stack that is too shallow for them. */
module EmitInputs {
  import opened Common
  import opened Forth
  import opened Equivalence
  import opened Effects
  import opened EffectLimits
  import opened Factor
  import opened Emit
  import opened Lifting
  import opened Preamble
  import opened Runtimes
  import opened EmitSim
  import opened EmitHidden
  import opened EmitLimits
  import LowerExit
  import LowerQdup

  // ----- an input that hides a word -----

  const hangs := Definition([], {"x"}, Effect(["f"], 1), None,
                            [Lit(1), WordRef("drop"), Locals(["x"]), emptyWhile, WordRef("x")])

  const hangsQuot :=
    [Num(1)] + ([PrimTok("drop", Some("drop"))] + ([Bind("x")] + ([LoopTok(endlessQuot)] + [LocalTok("x")])))

  lemma HangsInputs()
    ensures Inputs(hangs) == ["f"]
  {
    assert hangs.body[1..][1..][0] == Locals(["x"]);
    assert ExprBindsLocals(Locals(["x"]));
    assert BindsLocals(hangs.body[1..][1..]);
    assert Lower("f") == "f" && '.' !in "f";
    assert InputName("f") == "f";
    assert BindsLocals(hangs.body[1..]) && BindsLocals(hangs.body);
    assert |Inputs(hangs)| == 1 && Inputs(hangs)[0] == InputName("f");
  }

  const hangsNames := Names({"x"}, {"w"})

  lemma HangsParts()
    ensures EmitExpr(hangsNames, Locals(["x"])) == [Bind("x")]
    ensures EmitExpr(hangsNames, WordRef("drop")) == [PrimTok("drop", Some("drop"))]
    ensures EmitExpr(hangsNames, WordRef("x")) == [LocalTok("x")]
    ensures EmitExpr(hangsNames, emptyWhile) == [LoopTok(endlessQuot)]
  {
    assert Lower("x") == "x" && Lower("drop") == "drop";
    assert Written("drop") == Some("drop");
    SanitizedExactly("x");
    assert ["x"][..0] == [];
    assert EmitBinds(["x"]) == [EmitBind("x")] + EmitBinds([]);
    EmptyWhileQuotation(hangsNames);
    EmitCons(hangsNames, emptyWhile, []);
    assert [emptyWhile] + [] == [emptyWhile];
  }

  lemma HangsBody()
    ensures EmitSeq(hangsNames, hangs.body) == hangsQuot
  {
    var n, s := hangsNames, hangs.body;
    HangsParts();
    assert s[4..] == [s[4]] + [] && s[3..] == [s[3]] + s[4..] && s[2..] == [s[2]] + s[3..];
    assert s[1..] == [s[1]] + s[2..] && s == [s[0]] + s[1..];
    EmitCons(n, s[4], []);
    EmitCons(n, s[3], s[4..]);
    EmitCons(n, s[2], s[3..]);
    EmitCons(n, s[1], s[2..]);
    EmitCons(n, s[0], s[1..]);
  }

  lemma HangsExitFree()
    ensures !LowerExit.SeqUsesExit(hangsNames, hangs.body)
  {
    var n, s := hangsNames, hangs.body;
    assert Lower("x") == "x" && Lower("drop") == "drop";
    assert s[4..][1..] == [] && s[3..][1..] == s[4..] && s[2..][1..] == s[3..] && s[1..][1..] == s[2..];
    assert !LowerExit.SeqUsesExit(n, s[4..]);
    assert !LowerExit.SeqUsesExit(n, [Lit(0)]) by { assert [Lit(0)][1..] == []; }
    assert !LowerExit.ExprUsesExit(n, emptyWhile);
    assert !LowerExit.SeqUsesExit(n, s[3..]);
    assert !LowerExit.SeqUsesExit(n, s[2..]);
    assert !LowerExit.SeqUsesExit(n, s[1..]);
  }

  lemma HangsEmitted()
    ensures EmitDef(hangs, {"w"}) == Colon({"x", "f"}, Restore(["f"]) + hangsQuot)
  {
    HangsInputs();
    HangsBody();
    HangsExitFree();
    assert Scope(hangs) == {"x", "f"};
    assert EmitBinds([]) + (Restore(["f"]) + hangsQuot) == Restore(["f"]) + hangsQuot;
  }

  lemma HangsQuotRun(f: FMachine, st: State, fuel: nat)
    requires |st.stack| > 0 && "f" in st.locals
    requires forall s, w :: f.prim("drop", s, w) == LowerQdup.DropPrim(s, w)
    ensures RunQ(f, {"x", "f"}, hangsQuot, Lift(st), fuel) == FTimeout
  {
    var scope: set<string> := {"x", "f"};
    var st1 := Push(st, Number(1));
    var d, rest := PrimTok("drop", Some("drop")), [LoopTok(endlessQuot)] + [LocalTok("x")];
    RunQCons(f, scope, Num(1), [d] + ([Bind("x")] + rest), Lift(st), fuel);
    LiftPush(st, Number(1));
    RunQCons(f, scope, d, [Bind("x")] + rest, Lift(st1), fuel);
    assert "drop" != "x" && "drop" != "f";
    LiftCells(st1.stack);
    assert f.prim("drop", st1.stack, st1.world) == LowerQdup.DropPrim(st1.stack, st1.world);
    assert RunTok(f, scope, d, Lift(st1), fuel) == FNext(Lift(st));
    RunQCons(f, scope, Bind("x"), rest, Lift(st), fuel);
    LiftPop(st);
    var st2 := Pop(st).(locals := st.locals["x" := Top(st.stack)]);
    RunQCons(f, scope, LoopTok(endlessQuot), [LocalTok("x")], Lift(st2), fuel);
    EndlessRun(f, scope, Lift(st2), fuel);
  }

  lemma HangsRun(m: Machine, st: State, fuel: nat)
    requires m.defs == map["w" := hangs] && m.vars == map[] && !m.restoring && |st.stack| > 0 && fuel > 0
    requires forall s, w :: m.prim("drop", s, w) == LowerQdup.DropPrim(s, w)
    ensures Call(m, "w", st, fuel) == Next(st)
  {
    var c, s := Context({"x"}, "w"), hangs.body;
    var st0 := st.(locals := map[]);
    assert BindLocals([], st0) == Next(st0);
    assert s == [s[0]] + ([s[1]] + s[2..]);
    HangsStart(m, c, s[2..], st0, fuel);
    HangsRest(m, c, st0, fuel);
    assert Enter(m, hangs, st) == Next(st0);
  }

  lemma HangsStart(m: Machine, c: Context, rest: seq<Expr>, st: State, fuel: nat)
    requires m.Words() == {"w"} && c.locals == {"x"}
    requires forall s, w :: m.prim("drop", s, w) == LowerQdup.DropPrim(s, w)
    ensures RunSeq(m, c, [Lit(1)] + ([WordRef("drop")] + rest), st, fuel) == RunSeq(m, c, rest, st, fuel)
  {
    var st1 := Push(st, Number(1));
    assert Lower("drop") == "drop";
    RunCons(m, c, Lit(1), [WordRef("drop")] + rest, st, fuel);
    RunCons(m, c, WordRef("drop"), rest, st1, fuel);
    assert m.prim("drop", st1.stack, st1.world) == LowerQdup.DropPrim(st1.stack, st1.world);
    assert Drop(st.stack + [Number(1)]) == st.stack;
    assert RunExpr(m, c, WordRef("drop"), st1, fuel) == Next(st);
  }

  lemma HangsRest(m: Machine, c: Context, st: State, fuel: nat)
    requires c.locals == {"x"} && |st.stack| > 0 && fuel > 0
    ensures var o := RunSeq(m, c, hangs.body[2..], st, fuel);
            o.Next? && o.state.stack == st.stack && o.state.world == st.world
  {
    var s, st2 := hangs.body, Pop(st).(locals := st.locals["x" := Top(st.stack)]);
    assert Lower("x") == "x";
    assert s[2..] == [s[2]] + ([s[3]] + [s[4]]);
    RunCons(m, c, s[2], [s[3]] + [s[4]], st, fuel);
    OneLocal(st);
    RunCons(m, c, s[3], [s[4]], st2, fuel);
    EmptyWhileRun(m, c, st2, fuel);
    RunOne(m, c, s[4], st2, fuel);
    assert Push(st2, Top(st.stack)).stack == st.stack;
  }

  lemma OneLocal(st: State)
    requires |st.stack| > 0
    ensures BindLocals(["x"], st) == Next(Pop(st).(locals := st.locals["x" := Top(st.stack)]))
  {
    assert Lower("x") == "x" && ["x"][..0] == [];
  }

  /** : w ( f -- n ) 1 DROP {: x :} BEGIN 0 WHILE REPEAT x ; ends with its item where it was under the
      standard.  What is emitted never ends: WHILE ends its loop with the word f, and the input f has hidden
      it. */
  lemma FalseInputHangs(m: Machine, st: State, fuel: nat)
    requires m.defs == map["w" := hangs] && m.vars == map[] && !m.restoring && |st.stack| > 0
    requires forall s, w :: m.prim("drop", s, w) == LowerQdup.DropPrim(s, w)
    ensures fuel > 0 ==> Call(m, "w", st, fuel) == Next(st)
    ensures RunUser(EmitProgram(m), Mangle("w"), Lift(st), fuel) == FTimeout
  {
    if fuel > 0 {
      HangsRun(m, st, fuel);
    }
    HangsStands(m);
    HangsUser(EmitProgram(m), st, fuel);
  }

  lemma HangsUser(f: FMachine, st: State, fuel: nat)
    requires Mangle("w") in f.words && f.words[Mangle("w")] == Colon({"x", "f"}, Restore(["f"]) + hangsQuot)
    requires |st.stack| > 0 && forall s, w :: f.prim("drop", s, w) == LowerQdup.DropPrim(s, w)
    ensures RunUser(f, Mangle("w"), Lift(st), fuel) == FTimeout
  {
    if fuel > 0 {
      RunColon(f, Mangle("w"), Lift(st), fuel);
      HangsCall(f, st, fuel - 1);
    }
  }

  lemma HangsStands(m: Machine)
    requires m.defs == map["w" := hangs] && m.vars == map[]
    ensures Mangle("w") in EmitProgram(m).words
    ensures EmitProgram(m).words[Mangle("w")] == Colon({"x", "f"}, Restore(["f"]) + hangsQuot)
  {
    HangsEmitted();
    assert m.Words() == {"w"} && "w" in m.Words();
    ProgramEmits(m);
  }

  lemma HangsCall(f: FMachine, st: State, fuel: nat)
    requires Mangle("w") in f.words && f.words[Mangle("w")] == Colon({"x", "f"}, Restore(["f"]) + hangsQuot)
    requires |st.stack| > 0 && forall s, w :: f.prim("drop", s, w) == LowerQdup.DropPrim(s, w)
    ensures CallQ(f, Mangle("w"), Lift(st), fuel) == FTimeout
  {
    var st0 := st.(locals := map[]);
    PreambleThen(f, {"x", "f"}, ["f"], hangsQuot, st0, fuel);
    BoundKeys(["f"], st0.stack[|st0.stack| - 1..], map[]);
    assert "f" in InputLocals(["f"], st0);
    HangsQuotRun(f, Shift(InputLocals(["f"], st0), st0), fuel);
  }

  // ----- calls from a shallow stack -----

  /** A call that underflows under the standard does so on the Factor runtime, and the other way round. */
  ghost predicate UnderflowsAlike(m: Machine, lc: string, st: State, fuel: nat)
    requires lc in m.defs
  {
    Call(m.(restoring := false), lc, st, fuel) == Underflow <==> Call(m.(restoring := true), lc, st, fuel) == Underflow
  }

  lemma UnderflowsExactly(m: Machine, env: Env, lc: string, st: State, fuel: nat)
    requires StraightDef(m, env, lc)
    ensures var d := m.defs[lc];
            var body := InferBlock(env, Names(d.scope, m.Words()), d.body);
            && body.Known?
            && (UnderflowsAlike(m, lc, st, fuel) <==>
                |st.stack| < |d.params| + body.inputs || |st.stack| >= |Inputs(d)|)
  {
    forall b: bool
      ensures StraightDef(m.(restoring := b), env, lc) && m.(restoring := b).Words() == m.Words()
    {}
    CallExactly(m.(restoring := false), env, lc, st, fuel);
    CallExactly(m.(restoring := true), env, lc, st, fuel);
  }

  /** A definition of straight-line code underflows from the same stacks under the standard and on the
      Factor runtime if and only if it does not declare more inputs than it takes. */
  lemma ShallowExactly(m: Machine, env: Env, lc: string, fuel: nat)
    requires StraightDef(m, env, lc)
    ensures var d := m.defs[lc];
            var body := InferBlock(env, Names(d.scope, m.Words()), d.body);
            && body.Known?
            && ((forall st: State :: UnderflowsAlike(m, lc, st, fuel)) <==>
                |Inputs(d)| <= |d.params| + body.inputs)
  {
    var d := m.defs[lc];
    StraightKnown(env, Names(d.scope, m.Words()), d.body);
    var need := |d.params| + InferBlock(env, Names(d.scope, m.Words()), d.body).inputs;
    forall st: State
      ensures UnderflowsAlike(m, lc, st, fuel) <==> |st.stack| < need || |st.stack| >= |Inputs(d)|
    {
      UnderflowsExactly(m, env, lc, st, fuel);
    }
    var st := State(Zeros(need), map[], World(map[], map[], [], [], []));
    assert UnderflowsAlike(m, lc, st, fuel) <==> need >= |Inputs(d)|;
  }
}
