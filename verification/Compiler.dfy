/** From the source program to the emitted one. */
module Compiler {
  import opened Forth
  import opened Frame
  import opened Effects
  import opened EffectSound
  import opened Exits
  import opened Runtimes
  import opened ExitMeaning
  import opened Globals
  import opened GlobalsMeaning
  import opened GlobalsMemory
  import opened Factor
  import opened Scopes
  import opened Emit
  import opened Lifting
  import opened EmitSim
  import Pipeline
  import LowerExitNormal
  import Escape

  // ----- without globals -----

  /** The desugared and lowered program under the standard. */
  ghost function Lowered(m: Machine): Machine {
    m.(defs := Pipeline.CompileDefs(m.defs, m.Words()))
  }

  /** The same program on the Factor runtime, where EXIT restores the stack. */
  ghost function Compiled(m: Machine): Machine {
    Lowered(m).(restoring := true)
  }

  lemma SameNames(m: Machine, c: Context)
    ensures Lowered(m).Words() == m.Words() && Compiled(m).Words() == m.Words()
    ensures Lowered(m).NamesOf(c) == m.NamesOf(c) && Compiled(m).NamesOf(c) == m.NamesOf(c)
  {
    assert Lowered(m).defs.Keys == m.defs.Keys;
  }

  /** What the passes need of the program: nothing the desugarings use is hidden, CASEs that hold EXIT end
      their definitions, the exits that are left are even, and the result can be emitted. */
  ghost predicate Accepted(m: Machine, env: Env) {
    !m.restoring && Pipeline.Compilable(m) && EvenProgram(Lowered(m), env) && Loadable(Compiled(m), env)
  }

  /** The passes before emission keep every run on the Factor runtime too, but for the slack of inputs bound
      on entry. */
  lemma PassesPreserve(m: Machine, env: Env, c: Context, s: seq<Expr>, st: State, fuel: nat)
    requires !m.restoring && Pipeline.Compilable(m) && EvenProgram(Lowered(m), env)
    ensures Agrees(SlackOf(Lowered(m)), map[], RunSeq(m, c, s, st, fuel), RunSeq(Compiled(m), c, s, st, fuel))
  {
    Pipeline.CompilePreserves(m, c, s, st, fuel);
    RestoringAgrees(Lowered(m), env, c, s, st, fuel);
  }

  /** An emitted run answers to one under the standard: it ends in the same way with the same stack and world,
      but for the slack. */
  predicate Answers(k: Slack, o: Outcome, fo: FOutcome) {
    (k.unbound && o == Fault) || (k.shallow && fo == FUnderflow) || Shown(fo) == Shown(LiftOutcome(o))
  }

  /** A body that can be emitted and reads its locals where they are bound. */
  ghost predicate Admitted(m: Machine, env: Env, c: Context, s: seq<Expr>, st: State) {
    BodyOk(m, env, c.locals, c, s) && LexicalQ(c.locals, st.locals.Keys, EmitSeq(m.NamesOf(c), s))
  }

  /** What is emitted for a body. */
  ghost function RunEmitted(m: Machine, c: Context, s: seq<Expr>, st: State, fuel: nat): FOutcome {
    RunQ(EmitProgram(m), c.locals, EmitSeq(m.NamesOf(c), s), Lift(st), fuel)
  }

  /** It does what the body does on the Factor runtime. */
  lemma SimEmitted(m: Machine, env: Env, c: Context, s: seq<Expr>, st: State, fuel: nat)
    requires Loadable(m, env) && Admitted(m, env, c, s, st)
    ensures Shown(RunEmitted(m, c, s, st, fuel)) == Shown(LiftOutcome(RunSeq(m, c, s, st, fuel)))
  {
    var f, q := EmitProgram(m), EmitSeq(m.NamesOf(c), s);
    ScopesAgree(f, c.locals, st.locals.Keys, q, Lift(st), fuel);
    FramesEmit(m);
    SimSeq(Frames(f), m, env, c.locals, c, s, st, fuel);
  }

  lemma AnswersLifted(k: Slack, o: Outcome, o': Outcome)
    requires Agrees(k, map[], o, o')
    ensures forall fo :: Shown(fo) == Shown(LiftOutcome(o')) ==> Answers(k, o, fo)
  {
    ShiftNothing(o);
    assert Shown(FUnderflow) == FUnderflow;
  }

  /** A run that keeps the promise of an effect has not underflowed. */
  lemma DeepLifted(k: Slack, o: Outcome, o': Outcome, st: State, eff: Eff)
    requires Agrees(k, map[], o, o') && FitsEff(o', st, eff)
    ensures forall fo :: Shown(fo) == Shown(LiftOutcome(o')) ==> Answers(Slack(false, k.unbound), o, fo)
  {
    ShiftNothing(o);
  }

  /** The emitted program does what the source program means under the standard: it ends in the corresponding
      way, unless a call finds fewer items than the inputs it binds on entry, or the source reads a local that
      is not bound and has the name of such an input. */
  lemma CompilerCorrect(m: Machine, env: Env, c: Context, s: seq<Expr>, st: State, fuel: nat)
    requires Accepted(m, env) && Admitted(Compiled(m), env, c, s, st)
    ensures Answers(SlackOf(Lowered(m)), RunSeq(m, c, s, st, fuel),
                    RunEmitted(Compiled(m), c, s, st, fuel))
  {
    SameNames(m, c);
    PassesPreserve(m, env, c, s, st, fuel);
    SimEmitted(Compiled(m), env, c, s, st, fuel);
    AnswersLifted(SlackOf(Lowered(m)), RunSeq(m, c, s, st, fuel), RunSeq(Compiled(m), c, s, st, fuel));
  }

  /** No definition binds inputs on entry. */
  ghost predicate NoInputs(m: Machine) {
    forall lc :: lc in m.defs ==> Inputs(m.defs[lc]) == []
  }

  /** Where no definition binds inputs on entry the two always correspond. */
  lemma NoSlack(m: Machine)
    requires NoInputs(m)
    ensures SlackOf(m) == Slack(false, false)
  {}

  /** From a stack as deep as a known effect asks no call is too shallow: the emitted program ends as the
      source program does, unless the latter reads a local that is not bound. */
  lemma KnownCorrect(m: Machine, env: Env, c: Context, s: seq<Expr>, st: State, fuel: nat)
    requires Accepted(m, env) && Admitted(Compiled(m), env, c, s, st) && RegularSeq(env, m.NamesOf(c), s, Ans)
    requires var eff := InferBlock(env, m.NamesOf(c), s); eff.Known? && |st.stack| >= eff.inputs
    ensures Answers(Slack(false, SlackOf(Lowered(m)).unbound), RunSeq(m, c, s, st, fuel),
                    RunEmitted(Compiled(m), c, s, st, fuel))
  {
    SameNames(m, c);
    PassesPreserve(m, env, c, s, st, fuel);
    SimEmitted(Compiled(m), env, c, s, st, fuel);
    SoundSeq(Compiled(m), env, c, s, st, fuel);
    DeepLifted(SlackOf(Lowered(m)), RunSeq(m, c, s, st, fuel), RunSeq(Compiled(m), c, s, st, fuel), st,
               InferBlock(env, m.NamesOf(c), s));
  }

  /** Where loops and match expressions hold no EXIT, nothing has to be known about exits. */
  lemma CleanCorrect(m: Machine, env: Env, c: Context, s: seq<Expr>, st: State, fuel: nat)
    requires !m.restoring && Pipeline.Compilable(m)
    requires forall lc :: lc in m.defs ==>
               LowerExitNormal.Clean(Names(m.defs[lc].scope, m.Words()), Pipeline.Desugar(m.defs[lc].body, lc))
    requires Loadable(Compiled(m), env) && Admitted(Compiled(m), env, c, s, st)
    ensures Answers(SlackOf(Lowered(m)), RunSeq(m, c, s, st, fuel),
                    RunEmitted(Compiled(m), c, s, st, fuel))
  {
    CleanEven(m);
    SameNames(m, c);
    PassesPreserve(m, Env(map[], map[], {}), c, s, st, fuel);
    SimEmitted(Compiled(m), env, c, s, st, fuel);
    AnswersLifted(SlackOf(Lowered(m)), RunSeq(m, c, s, st, fuel), RunSeq(Compiled(m), c, s, st, fuel));
  }

  lemma CallEmitted(m: Machine, env: Env, lc: string, st: State, fuel: nat)
    requires Loadable(Compiled(m), env) && lc in m.defs
    ensures lc in Compiled(m).defs
    ensures Mangle(lc) in EmitProgram(Compiled(m)).words && EmitProgram(Compiled(m)).words[Mangle(lc)].Colon?
    ensures CallQ(EmitProgram(Compiled(m)), Mangle(lc), Lift(st), fuel) == LiftOutcome(Call(Compiled(m), lc, st, fuel))
  {
    var f := EmitProgram(Compiled(m));
    assert lc in Compiled(m).defs;
    FramesEmit(Compiled(m));
    ColonStands(Frames(f), Compiled(m), lc);
    ScopesCallAgrees(f, Mangle(lc), Lift(st), fuel);
    SimCall(Frames(f), Compiled(m), env, lc, st, fuel);
  }

  /** A call of a definition: what its parameters, or the inputs it binds on entry, do to the stack is part
      of it. */
  lemma CallCorrect(m: Machine, env: Env, lc: string, st: State, fuel: nat)
    requires Accepted(m, env) && lc in m.defs
    ensures Mangle(lc) in EmitProgram(Compiled(m)).words && EmitProgram(Compiled(m)).words[Mangle(lc)].Colon?
    ensures Answers(SlackOf(Lowered(m)), Call(m, lc, st, fuel),
                    CallQ(EmitProgram(Compiled(m)), Mangle(lc), Lift(st), fuel))
  {
    CallEmitted(m, env, lc, st, fuel);
    CompiledCall(m, env, lc, st, fuel);
    AnswersLifted(SlackOf(Lowered(m)), Call(m, lc, st, fuel), Call(Compiled(m), lc, st, fuel));
  }

  lemma CompiledCall(m: Machine, env: Env, lc: string, st: State, fuel: nat)
    requires !m.restoring && Pipeline.Compilable(m) && EvenProgram(Lowered(m), env) && lc in m.defs
    ensures lc in Compiled(m).defs
    ensures Agrees(SlackOf(Lowered(m)), map[], Call(m, lc, st, fuel), Call(Compiled(m), lc, st, fuel))
  {
    Pipeline.CompileCalls(m, lc, st, fuel);
    RestoringCalls(Lowered(m), env, lc, st, fuel);
  }

  /** A call with a known effect from a stack that is deep enough for it. */
  lemma KnownCallCorrect(m: Machine, env: Env, lc: string, st: State, fuel: nat)
    requires Accepted(m, env) && lc in m.defs
    requires Lookup(env.user, lc).Known? && |st.stack| >= Lookup(env.user, lc).inputs
    ensures Mangle(lc) in EmitProgram(Compiled(m)).words && EmitProgram(Compiled(m)).words[Mangle(lc)].Colon?
    ensures Answers(Slack(false, SlackOf(Lowered(m)).unbound), Call(m, lc, st, fuel),
                    CallQ(EmitProgram(Compiled(m)), Mangle(lc), Lift(st), fuel))
  {
    CallEmitted(m, env, lc, st, fuel);
    CompiledCall(m, env, lc, st, fuel);
    SoundCall(Compiled(m), env, lc, st, fuel);
    DeepLifted(SlackOf(Lowered(m)), Call(m, lc, st, fuel), Call(Compiled(m), lc, st, fuel), st, Lookup(env.user, lc));
  }

  // ----- runs that end -----

  /** With enough fuel the run ends this way. */
  ghost predicate Ends(m: Machine, c: Context, s: seq<Expr>, st: State, o: Outcome) {
    o != Timeout && exists fuel: nat :: RunSeq(m, c, s, st, fuel) == o
  }

  /** A run ends in one way only, however much fuel it is given. */
  lemma EndsOnce(m: Machine, c: Context, s: seq<Expr>, st: State, o: Outcome, o': Outcome)
    requires Ends(m, c, s, st, o) && Ends(m, c, s, st, o')
    ensures o == o'
  {
    var a: nat :| RunSeq(m, c, s, st, a) == o;
    var b: nat :| RunSeq(m, c, s, st, b) == o';
    if a <= b {
      MoreFuelSeq(m, c, s, st, a, b);
    } else {
      MoreFuelSeq(m, c, s, st, b, a);
    }
  }

  ghost predicate EndsInto(m: Machine, c: Context, s: seq<Expr>, st: State, fo: FOutcome) {
    fo != FTimeout && exists fuel: nat :: RunEmitted(Compiled(m), c, s, st, fuel) == fo
  }

  lemma EndsEmitted(m: Machine, env: Env, c: Context, s: seq<Expr>, st: State, o: Outcome) returns (fo: FOutcome)
    requires Accepted(m, env) && Admitted(Compiled(m), env, c, s, st) && Ends(m, c, s, st, o)
    requires !(SlackOf(Lowered(m)).unbound && o == Fault)
    ensures EndsInto(m, c, s, st, fo) && Answers(SlackOf(Lowered(m)), o, fo)
  {
    var fuel: nat :| RunSeq(m, c, s, st, fuel) == o;
    CompilerCorrect(m, env, c, s, st, fuel);
    fo := RunEmitted(Compiled(m), c, s, st, fuel);
  }

  lemma EmittedEnds(m: Machine, env: Env, c: Context, s: seq<Expr>, st: State, fo: FOutcome) returns (o: Outcome)
    requires Accepted(m, env) && Admitted(Compiled(m), env, c, s, st) && EndsInto(m, c, s, st, fo)
    requires !(SlackOf(Lowered(m)).shallow && fo == FUnderflow)
    ensures Ends(m, c, s, st, o) && Answers(SlackOf(Lowered(m)), o, fo)
  {
    var fuel: nat :| RunEmitted(Compiled(m), c, s, st, fuel) == fo;
    CompilerCorrect(m, env, c, s, st, fuel);
    o := RunSeq(m, c, s, st, fuel);
  }

  /** The emitted program ends when the source program does, unless that faults, the source program when the
      emitted one does, unless that underflows, and in the corresponding way; where no definition binds
      inputs on entry without exception.  By `EndsOnce` there is no other way. */
  lemma CompiledEnds(m: Machine, env: Env, c: Context, s: seq<Expr>, st: State)
    requires Accepted(m, env) && Admitted(Compiled(m), env, c, s, st)
    ensures var k := SlackOf(Lowered(m));
            && (forall o :: Ends(m, c, s, st, o) && !(k.unbound && o == Fault) ==>
                              exists fo :: EndsInto(m, c, s, st, fo) && Answers(k, o, fo))
            && (forall fo :: EndsInto(m, c, s, st, fo) && !(k.shallow && fo == FUnderflow) ==>
                               exists o :: Ends(m, c, s, st, o) && Answers(k, o, fo))
  {
    var k := SlackOf(Lowered(m));
    forall o | Ends(m, c, s, st, o) && !(k.unbound && o == Fault)
      ensures exists fo :: EndsInto(m, c, s, st, fo) && Answers(k, o, fo)
    {
      var fo := EndsEmitted(m, env, c, s, st, o);
    }
    forall fo | EndsInto(m, c, s, st, fo) && !(k.shallow && fo == FUnderflow)
      ensures exists o :: Ends(m, c, s, st, o) && Answers(k, o, fo)
    {
      var o := EmittedEnds(m, env, c, s, st, fo);
    }
  }

  // ----- with globals -----

  /** The whole compiler: the passes, narrow variables made into globals, and emission.  Unless a value that
      does not fit a byte is stored to a variable accessed by bytes, the emitted program does on globals
      what the source program means on addresses and memory, but for the slack. */
  lemma GlobalsCorrect(m: Machine, k: Machine, g: Machine, narrow: set<string>, bytes: set<string>, env: Env,
                       genv: Env, c: Context, s: seq<Expr>, st: State, fuel: nat)
    requires !m.restoring && Pipeline.Compilable(m) && EvenProgram(Lowered(m), env)
    requires MemoryRuntime(m, narrow, bytes) && Checks(k, Compiled(m), bytes)
    requires GlobalRuntime(g, Compiled(m), narrow, bytes) && Usable(Compiled(m), narrow, bytes, c, s, st)
    requires RunSeq(k, c, s, IState(InMemory(narrow, bytes), st), fuel) != Fault
    requires Loadable(g, genv) && Admitted(g, genv, c, GlobSeq(s, narrow), st)
    ensures var o := RunSeq(g, c, GlobSeq(s, narrow), st, fuel);
            && Shown(RunEmitted(g, c, GlobSeq(s, narrow), st, fuel)) == Shown(LiftOutcome(o))
            && Agrees(SlackOf(Lowered(m)), map[], RunSeq(m, c, s, IState(InMemory(narrow, bytes), st), fuel),
                      IOutcome(InMemory(narrow, bytes), o))
  {
    SameNames(m, c);
    GlobalNames(g, m, narrow, bytes, c);
    CompiledMemory(m, narrow, bytes);
    PassesPreserve(m, env, c, s, IState(InMemory(narrow, bytes), st), fuel);
    GlobalsPreserve(Compiled(m), k, g, narrow, bytes, c, s, st, fuel);
    SimEmitted(g, genv, c, GlobSeq(s, narrow), st, fuel);
  }

  lemma GlobalNames(g: Machine, m: Machine, narrow: set<string>, bytes: set<string>, c: Context)
    requires GlobalRuntime(g, Compiled(m), narrow, bytes)
    ensures g.NamesOf(c) == m.NamesOf(c)
  {
    SameNames(m, c);
    assert g.defs.Keys == Compiled(m).defs.Keys && g.vars.Keys == Compiled(m).vars.Keys;
  }

  lemma CompiledMemory(m: Machine, narrow: set<string>, bytes: set<string>)
    requires MemoryRuntime(m, narrow, bytes)
    ensures MemoryRuntime(Compiled(m), narrow, bytes)
  {
    var im := InMemory(narrow, bytes);
    assert Lowered(m).defs.Keys == m.defs.Keys;
    forall p, s, w | p != "execute"
      ensures PrimKept(Compiled(m), Compiled(m), narrow, im, p, s, w)
    {
      assert PrimKept(m, m, narrow, im, p, s, w);
    }
    forall p, s, w | p in Escape.sinks
      ensures Compiled(m).prim(p, s, w) == SinkPrim(p, s, w)
    {
      assert m.prim(p, s, w) == SinkPrim(p, s, w);
    }
  }
}
