/** Inferred effects are what bodies do: no underflow, nothing deeper touched, the right depth. */
module EffectSound {
  import opened Forth
  import opened Effects

  // ----- what an effect promises -----

  /** The outcome of a run from `st` keeps the promise of the effect ( i -- o ). */
  predicate Fits(out: Outcome, st: State, i: nat, o: nat)
    requires |st.stack| >= i
  {
    match out
    case Next(st1) =>
      && |st1.stack| == |st.stack| - i + o
      && st1.stack[..|st.stack| - i] == st.stack[..|st.stack| - i]
    case Fault => true
    case Timeout => true
    case _ => false
  }

  predicate FitsEff(out: Outcome, st: State, eff: Eff) {
    eff.Known? && |st.stack| >= eff.inputs && Fits(out, st, eff.inputs, eff.outputs)
  }

  /** More inputs may be claimed if they are given back. */
  lemma Widen(out: Outcome, st: State, i: nat, o: nat, k: nat)
    requires |st.stack| >= i + k && Fits(out, st, i, o)
    ensures Fits(out, st, i + k, o + k)
  {
    match out
    case Next(st1) =>
      var n := |st.stack| - i;
      assert st1.stack[..n][..n - k] == st1.stack[..n - k];
      assert st.stack[..n][..n - k] == st.stack[..n - k];
    case _ =>
  }

  lemma Compose(st: State, st1: State, out: Outcome, a: Eff, b: Eff)
    requires a.Known? && b.Known? && |st.stack| >= Then(a, b).inputs
    requires FitsEff(Next(st1), st, a)
    requires |st1.stack| >= b.inputs && Fits(out, st1, b.inputs, b.outputs)
    ensures FitsEff(out, st, Then(a, b))
  {
    match out
    case Next(st2) =>
      var t := Then(a, b);
      var p, q := |st.stack| - a.inputs, |st1.stack| - b.inputs;
      var r := |st.stack| - t.inputs;
      assert r <= p && r <= q;
      assert st2.stack[..q][..r] == st2.stack[..r] && st1.stack[..q][..r] == st1.stack[..r];
      assert st1.stack[..p][..r] == st1.stack[..r] && st.stack[..p][..r] == st.stack[..r];
    case _ =>
  }

  lemma DeepEnough(st: State, st1: State, a: Eff, b: Eff)
    requires a.Known? && b.Known? && |st.stack| >= Then(a, b).inputs
    requires FitsEff(Next(st1), st, a)
    ensures |st1.stack| >= b.inputs
  {}

  // ----- programs that inference has passed -----

  /** Every builtin in the table does what the table says, or fails otherwise than by underflow. */
  ghost predicate MeetsTable(m: Machine, table: map<string, Eff>) {
    && "exit" !in table && "recurse" !in table
    && forall lc, s, w :: lc in table ==> PrimFits(m.prim(lc, s, w), s, table[lc])
  }

  predicate PrimFits(r: PrimResult, s: seq<Cell>, eff: Eff) {
    eff.Known? && |s| >= eff.inputs ==>
      match r
      case Done(s1, _) => |s1| == |s| - eff.inputs + eff.outputs && s1[..|s| - eff.inputs] == s[..|s| - eff.inputs]
      case PrimFault => true
      case PrimUnderflow => false
  }

  /** The effect of calling a definition: its parameters are taken off the stack before the body runs. */
  function RealEffect(env: Env, words: set<string>, d: Definition): Eff {
    Then(Known(|d.params|, 0), InferBlock(env, Names(d.scope, words), d.body))
  }

  /** The effect that callers use, if known, is that of the call. */
  predicate DefChecked(env: Env, words: set<string>, d: Definition, eff: Eff) {
    eff.Known? ==> RegularSeq(env, Names(d.scope, words), d.body, Ans) && RealEffect(env, words, d) == eff
  }

  /** A match expression finds the selector itself under the standard, and a copy of it in emitted code. */
  datatype Reading = Ans | Factor

  /** What the formulas leave out: UNTIL bodies that leave more than the flag, +LOOP and, under the
      standard, match expressions that reach deeper than a copy of the selector would make them. */
  predicate RegularSeq(env: Env, n: Names, s: seq<Expr>, r: Reading)
    decreases SizeSeq(s), 1, |s|
  {
    s != [] ==> RegularExpr(env, n, s[0], r) && RegularSeq(env, n, s[1..], r)
  }

  predicate RegularExpr(env: Env, n: Names, e: Expr, r: Reading)
    decreases SizeExpr(e), 0
  {
    match e
    case If(thenBody, elseBody) => RegularSeq(env, n, thenBody, r) && RegularElse(env, n, elseBody, r)
    case BeginUntil(body) => RegularSeq(env, n, body, r) && OneMore(InferBlock(env, n, body))
    case BeginAgain(body) => RegularSeq(env, n, body, r)
    case BeginWhileRepeat(pred, body) => RegularSeq(env, n, pred, r) && RegularSeq(env, n, body, r)
    case DoLoop(_, body, kind) => RegularSeq(env, n, body, r) && kind == Plus1
    case Case(arms, default) => RegularArms(env, n, arms, default, r) && RegularElse(env, n, default, r)
    case _ => true
  }

  predicate OneMore(eff: Eff) {
    eff.Known? ==> eff.outputs == eff.inputs + 1
  }

  predicate RegularElse(env: Env, n: Names, e: Else, r: Reading)
    decreases SizeElse(e), 0
  {
    e.ElseBody? ==> RegularSeq(env, n, e.body, r)
  }

  predicate RegularArms(env: Env, n: Names, arms: seq<Arm>, default: Else, r: Reading)
    decreases SizeArms(arms), 0
  {
    arms != [] ==>
      && RegularSeq(env, n, arms[0].matchExpr, r) && RegularSeq(env, n, arms[0].body, r)
      && (r == Ans ==> MatchFits(env, n, arms, default)) && RegularArms(env, n, arms[1..], default, r)
  }

  /** The test of an arm on the selector itself: what the match expression leaves is compared with the
      item below it, which stays. */
  function AnsTest(matchEffect: Eff): Eff {
    Then(Then(Known(1, 1), matchEffect), Known(2, 1))
  }

  /** What follows the test of the first arm, if all alternatives agree. */
  function Alternatives(env: Env, n: Names, arms: seq<Arm>, default: Else): Eff
    requires arms != []
  {
    Join(Then(Known(1, 0), InferBlock(env, n, arms[0].body)), InferCase(env, n, arms[1..], default))
  }

  /** What the standard makes of a CASE, where alternatives agree. */
  function AnsCase(env: Env, n: Names, arms: seq<Arm>, default: Else): Eff
    requires arms != []
  {
    Then(AnsTest(InferBlock(env, n, arms[0].matchExpr)), Alternatives(env, n, arms, default))
  }

  /** The claimed inputs suffice for the test on the selector itself. */
  predicate MatchFits(env: Env, n: Names, arms: seq<Arm>, default: Else)
    requires arms != []
  {
    var claimed := InferCase(env, n, arms, default);
    claimed.Known? ==> AnsCase(env, n, arms, default).inputs <= claimed.inputs
  }

  /** The inputs that a call binds are among those its effect takes. */
  predicate Covered(m: Machine, d: Definition, eff: Eff) {
    eff.Known? ==> |m.Preamble(d)| <= eff.inputs
  }

  ghost predicate Passed(m: Machine, env: Env) {
    && MeetsTable(m, env.table)
    && (forall lc :: lc in m.defs ==> DefChecked(env, m.Words(), m.defs[lc], Lookup(env.user, lc)))
    && (forall lc :: lc in m.defs ==> Covered(m, m.defs[lc], Lookup(env.user, lc)))
    && (forall lc :: lc in m.vars && lc !in m.defs && Lookup(env.user, lc).Known? ==> env.user[lc] == Known(0, 1))
  }

  // ----- soundness -----

  lemma {:induction false} SoundSeq(m: Machine, env: Env, c: Context, s: seq<Expr>, st: State, fuel: nat)
    requires Passed(m, env) && RegularSeq(env, m.NamesOf(c), s, Ans)
    requires var eff := InferBlock(env, m.NamesOf(c), s); eff.Known? && |st.stack| >= eff.inputs
    ensures FitsEff(RunSeq(m, c, s, st, fuel), st, InferBlock(env, m.NamesOf(c), s))
    decreases fuel, SizeSeq(s), 6, |s|
  {
    if s != [] {
      var n := m.NamesOf(c);
      var a, b := InferExpr(env, n, s[0]), InferBlock(env, n, s[1..]);
      SoundExpr(m, env, c, s[0], st, fuel);
      match RunExpr(m, c, s[0], st, fuel)
      case Next(st1) =>
        DeepEnough(st, st1, a, b);
        SoundSeq(m, env, c, s[1..], st1, fuel);
        Compose(st, st1, RunSeq(m, c, s[1..], st1, fuel), a, b);
      case _ =>
    }
  }

  lemma {:induction false} SoundExpr(m: Machine, env: Env, c: Context, e: Expr, st: State, fuel: nat)
    requires Passed(m, env) && RegularExpr(env, m.NamesOf(c), e, Ans)
    requires var eff := InferExpr(env, m.NamesOf(c), e); eff.Known? && |st.stack| >= eff.inputs
    ensures FitsEff(RunExpr(m, c, e, st, fuel), st, InferExpr(env, m.NamesOf(c), e))
    decreases fuel, SizeExpr(e), 5
  {
    if e.If? {
      SoundIf(m, env, c, e, st, fuel);
    } else if e.Case? {
      SoundArms(m, env, c, e.arms, e.default, st, fuel);
    } else if e.DoLoop? {
      SoundDo(m, env, c, e, st, fuel);
    } else if IsLoop(e) {
      SoundLoop(m, env, c, e, st, InferExpr(env, m.NamesOf(c), e).inputs, fuel);
    } else if e.WordRef? {
      SoundWord(m, env, c, e.name, st, fuel);
    } else {
      SoundLeaf(m, env, c, e, st, fuel);
    }
  }

  lemma SoundLeaf(m: Machine, env: Env, c: Context, e: Expr, st: State, fuel: nat)
    requires e.Lit? || e.Tick? || e.To? || e.Global? || e.Locals?
    requires MeetsTable(m, env.table)
    requires var eff := InferExpr(env, m.NamesOf(c), e); eff.Known? && |st.stack| >= eff.inputs
    ensures FitsEff(RunExpr(m, c, e, st, fuel), st, InferExpr(env, m.NamesOf(c), e))
  {
    match e
    case Global(access, x) => SoundGlobal(m, env, access, x, st);
    case Locals(names) => SoundLocals(names, st);
    case _ =>
  }

  lemma {:induction false} SoundDo(m: Machine, env: Env, c: Context, e: Expr, st: State, fuel: nat)
    requires e.DoLoop? && Passed(m, env) && RegularExpr(env, m.NamesOf(c), e, Ans)
    requires var eff := InferExpr(env, m.NamesOf(c), e); eff.Known? && |st.stack| >= eff.inputs
    ensures FitsEff(RunExpr(m, c, e, st, fuel), st, InferExpr(env, m.NamesOf(c), e))
    decreases fuel, SizeExpr(e), 5, 0
  {
    var i := InferBlock(env, m.NamesOf(c), e.body).inputs;
    DoRuns(m, c, e, st, fuel);
    if Top(st.stack).Number? && Top(Drop(st.stack)).Number? {
      SoundLoop(m, env, c, e, DoEntry(st), i, fuel);
      AfterBounds(st, DoEntry(st), RunLoop(m, c, e, DoEntry(st), fuel), i);
      AfterBounds(st, Pop(Pop(st)), Next(Pop(Pop(st))), i);
    }
  }

  /** The state in which a DO starts its first turn. */
  function DoEntry(st: State): State
    requires |st.stack| >= 2 && Top(st.stack).Number? && Top(Drop(st.stack)).Number?
  {
    PushFrame(Pop(Pop(st)), Top(Drop(st.stack)).n, Top(st.stack).n)
  }

  lemma DoRuns(m: Machine, c: Context, e: Expr, st: State, fuel: nat)
    requires e.DoLoop? && |st.stack| >= 2
    ensures RunExpr(m, c, e, st, fuel) ==
            if !Top(st.stack).Number? || !Top(Drop(st.stack)).Number? then Fault
            else if e.isQdo && Top(Drop(st.stack)).n == Top(st.stack).n then Next(Pop(Pop(st)))
            else RunLoop(m, c, e, DoEntry(st), fuel)
  {}

  /** What runs without the two bounds promises, with them. */
  lemma AfterBounds(st: State, st2: State, o: Outcome, i: nat)
    requires |st.stack| >= i + 2 && st2.stack == Pop(Pop(st)).stack && Fits(o, st2, i, i)
    ensures FitsEff(o, st, Known(2 + i, i))
  {
    var n := |st.stack|;
    assert st2.stack == st.stack[..n - 2];
    match o
    case Next(st1) =>
      assert st1.stack[..n - 2 - i] == st2.stack[..n - 2 - i] == st.stack[..n - 2 - i];
    case _ =>
  }

  lemma {:induction false} SoundLocals(names: seq<string>, st: State)
    requires |st.stack| >= |names|
    ensures BindLocals(names, st).Next? && BindLocals(names, st).state.stack == st.stack[..|st.stack| - |names|]
    decreases names
  {
    if names != [] {
      var last := names[|names| - 1];
      var st1 := Pop(st);
      SoundLocals(names[..|names| - 1],
                  if last == "_" then st1 else st1.(locals := st1.locals[Lower(last) := Top(st.stack)]));
    }
  }

  lemma {:induction false} SoundWord(m: Machine, env: Env, c: Context, name: string, st: State, fuel: nat)
    requires Passed(m, env)
    requires var eff := WordEffect(env, m.NamesOf(c), name); eff.Known? && |st.stack| >= eff.inputs
    ensures FitsEff(RunWord(m, c, name, st, fuel), st, WordEffect(env, m.NamesOf(c), name))
    decreases fuel, 0, 0
  {
    var lc := Lower(name);
    match Resolve(m.NamesOf(c), name)
    case UserDefined => if lc in m.defs && fuel > 0 { SoundCall(m, env, lc, st, fuel - 1); }
    case Builtin => SoundPrim(m, env, lc, st);
    case _ =>
  }

  lemma SoundPrim(m: Machine, env: Env, lc: string, st: State)
    requires MeetsTable(m, env.table)
    requires var eff := Lookup(env.table, lc); eff.Known? && |st.stack| >= eff.inputs
    ensures FitsEff(RunPrim(m, lc, st), st, Lookup(env.table, lc))
  {
    assert PrimFits(m.prim(lc, st.stack, st.world), st.stack, env.table[lc]);
  }

  lemma SoundGlobal(m: Machine, env: Env, access: Access, name: string, st: State)
    requires MeetsTable(m, env.table)
    requires var eff := GlobalEffect(env, access); eff.Known? && |st.stack| >= eff.inputs
    ensures FitsEff(RunGlobal(m, access, name, st), st, GlobalEffect(env, access))
  {
    if access == Add && name in st.world.values {
      var plus := Lookup(env.table, "+");
      var st1 := Push(st, st.world.values[name]);
      DeepEnough(st, st1, Known(0, 1), plus);
      SoundPrim(m, env, "+", st1);
      match RunPrim(m, "+", st1)
      case Next(st2) =>
        Compose(st, st1, Next(st2), Known(0, 1), plus);
        DeepEnough(st, st2, Then(Known(0, 1), plus), Known(1, 0));
        Compose(st, st2, SetValue(name, st2), Then(Known(0, 1), plus), Known(1, 0));
      case _ =>
    }
  }

  /** What the start of a call leaves on the stack. */
  lemma SoundEnter(m: Machine, d: Definition, st: State)
    requires |st.stack| >= |d.params| && |st.stack| >= |m.Preamble(d)|
    ensures Enter(m, d, st).Next? && Enter(m, d, st).state.stack == st.stack[..|st.stack| - |d.params|]
  {
    SoundLocals(d.params, st.(locals := map[]));
  }

  /** Running a definition whose effect is known, from a stack at least as deep as its inputs. */
  lemma {:induction false} SoundCall(m: Machine, env: Env, lc: string, st: State, fuel: nat)
    requires Passed(m, env) && lc in m.defs
    requires Lookup(env.user, lc).Known? && |st.stack| >= Lookup(env.user, lc).inputs
    ensures FitsEff(Call(m, lc, st, fuel), st, Lookup(env.user, lc))
    decreases fuel
  {
    var d, eff := m.defs[lc], Lookup(env.user, lc);
    assert DefChecked(env, m.Words(), d, eff) && Covered(m, d, eff);
    SoundEnter(m, d, st);
    var entry := Enter(m, d, st).state;
    var c := Context(d.scope, lc);
    var o := RunSeq(m, c, d.body, entry, fuel);
    SoundSeq(m, env, c, d.body, entry, fuel);
    Compose(st, entry, o, Known(|d.params|, 0), InferBlock(env, Names(d.scope, m.Words()), d.body));
  }

  lemma {:induction false} SoundIf(m: Machine, env: Env, c: Context, e: Expr, st: State, fuel: nat)
    requires e.If? && Passed(m, env) && RegularExpr(env, m.NamesOf(c), e, Ans)
    requires var eff := InferExpr(env, m.NamesOf(c), e); eff.Known? && |st.stack| >= eff.inputs
    ensures FitsEff(RunExpr(m, c, e, st, fuel), st, InferExpr(env, m.NamesOf(c), e))
    decreases fuel, SizeExpr(e), 4
  {
    var n := m.NamesOf(c);
    match e
    case If(thenBody, elseBody) =>
      var b := InferBlock(env, n, thenBody);
      if !Top(st.stack).Number? {
      } else if Top(st.stack).n != 0 {
        SoundSeq(m, env, c, thenBody, Pop(st), fuel);
        Compose(st, Pop(st), RunSeq(m, c, thenBody, Pop(st), fuel), flag, b);
      } else {
        if elseBody.ElseBody? {
          SoundElse(m, env, c, elseBody, Pop(st), fuel);
        }
        Compose(st, Pop(st), RunElse(m, c, elseBody, Pop(st), fuel), flag, b);
      }
  }

  lemma {:induction false} SoundElse(m: Machine, env: Env, c: Context, e: Else, st: State, fuel: nat)
    requires Passed(m, env) && RegularElse(env, m.NamesOf(c), e, Ans)
    requires var eff := InferElse(env, m.NamesOf(c), e); eff.Known? && |st.stack| >= eff.inputs
    ensures FitsEff(RunElse(m, c, e, st, fuel), st, InferElse(env, m.NamesOf(c), e))
    decreases fuel, SizeElse(e), 1
  {
    match e
    case NoElse =>
    case ElseBody(body) => SoundSeq(m, env, c, body, st, fuel);
  }

  /** The parts of a CASE whose effect is known. */
  lemma CaseEffect(env: Env, n: Names, arms: seq<Arm>, default: Else)
    requires arms != [] && InferCase(env, n, arms, default).Known?
    ensures InferBlock(env, n, arms[0].matchExpr).Known?
    ensures Alternatives(env, n, arms, default).Known?
    ensures InferCase(env, n, arms[1..], default) == Alternatives(env, n, arms, default)
    ensures Then(Known(1, 0), InferBlock(env, n, arms[0].body)) == Alternatives(env, n, arms, default)
    ensures var a, b := AnsCase(env, n, arms, default), InferCase(env, n, arms, default);
            a.Known? && a.outputs + b.inputs == b.outputs + a.inputs
  {
    TestNets(InferBlock(env, n, arms[0].matchExpr), Alternatives(env, n, arms, default));
  }

  /** A test on a copy and one on the selector change the depth alike. */
  lemma TestNets(m0: Eff, rest: Eff)
    requires m0.Known? && rest.Known?
    ensures var a := Then(AnsTest(m0), rest);
            var b := Then(Then(Then(Then(Known(1, 2), m0), Known(2, 1)), flag), rest);
            a.Known? && b.Known? && a.outputs + b.inputs == b.outputs + a.inputs
  {
    var i, o, k := m0.inputs, m0.outputs, if m0.inputs >= 1 then m0.inputs else 1;
    assert Then(Known(1, 1), m0) == Known(k, o + k - i);
  }

  lemma ThenInputs(a: Eff, b: Eff)
    requires Then(a, b).Known?
    ensures a.Known? && b.Known? && Then(a, b).inputs >= a.inputs
  {}

  lemma {:induction false} SoundArms(m: Machine, env: Env, c: Context, arms: seq<Arm>, default: Else, st: State,
                                     fuel: nat)
    requires Passed(m, env)
    requires RegularArms(env, m.NamesOf(c), arms, default, Ans) && RegularElse(env, m.NamesOf(c), default, Ans)
    requires var eff := InferCase(env, m.NamesOf(c), arms, default); eff.Known? && |st.stack| >= eff.inputs
    ensures FitsEff(RunArms(m, c, arms, default, st, fuel), st, InferCase(env, m.NamesOf(c), arms, default))
    decreases fuel, SizeArms(arms) + SizeElse(default), 4
  {
    var n := m.NamesOf(c);
    if arms == [] {
      SoundDefault(m, env, c, default, st, fuel);
    } else {
      CaseEffect(env, n, arms, default);
      SoundArm(m, env, c, arms, default, st, fuel);
      Widened(RunArms(m, c, arms, default, st, fuel), st, AnsCase(env, n, arms, default),
              InferCase(env, n, arms, default));
    }
  }

  lemma Widened(out: Outcome, st: State, a: Eff, b: Eff)
    requires FitsEff(out, st, a) && b.Known? && a.inputs <= b.inputs <= |st.stack|
    requires a.outputs + b.inputs == b.outputs + a.inputs
    ensures FitsEff(out, st, b)
  {
    Widen(out, st, a.inputs, a.outputs, b.inputs - a.inputs);
  }

  /** The first arm of a CASE does what the standard makes of it. */
  lemma {:induction false} SoundArm(m: Machine, env: Env, c: Context, arms: seq<Arm>, default: Else, st: State,
                                    fuel: nat)
    requires arms != [] && Passed(m, env) && InferCase(env, m.NamesOf(c), arms, default).Known?
    requires RegularSeq(env, m.NamesOf(c), arms[0].matchExpr, Ans) && RegularSeq(env, m.NamesOf(c), arms[0].body, Ans)
    requires RegularArms(env, m.NamesOf(c), arms[1..], default, Ans) && RegularElse(env, m.NamesOf(c), default, Ans)
    requires AnsCase(env, m.NamesOf(c), arms, default).Known? ==>
               |st.stack| >= AnsCase(env, m.NamesOf(c), arms, default).inputs
    ensures FitsEff(RunArms(m, c, arms, default, st, fuel), st, AnsCase(env, m.NamesOf(c), arms, default))
    decreases fuel, SizeArms(arms) + SizeElse(default), 3
  {
    var n := m.NamesOf(c);
    CaseEffect(env, n, arms, default);
    var m0, rest := InferBlock(env, n, arms[0].matchExpr), Alternatives(env, n, arms, default);
    var o := RunSeq(m, c, arms[0].matchExpr, st, fuel);
    ThenInputs(AnsTest(m0), rest);
    TestInputs(m0);
    SoundSeq(m, env, c, arms[0].matchExpr, st, fuel);
    Tested(st, o, m0);
    if o.Next? {
      SoundTest(m, env, c, arms, default, st, o.state, fuel);
    }
  }

  lemma TestInputs(m0: Eff)
    requires m0.Known?
    ensures AnsTest(m0).Known? && AnsTest(m0).inputs >= 1 && AnsTest(m0).inputs >= m0.inputs
    ensures AnsTest(m0).inputs >= Then(Known(1, 1), m0).inputs
  {}

  /** What a match expression leaves is deep enough for the comparison. */
  lemma Tested(st: State, o: Outcome, m0: Eff)
    requires m0.Known? && AnsTest(m0).Known? && |st.stack| >= AnsTest(m0).inputs && FitsEff(o, st, m0)
    requires AnsTest(m0).inputs >= Then(Known(1, 1), m0).inputs && |st.stack| >= 1
    ensures o.Next? ==> |o.state.stack| >= 2 && FitsEff(Next(Pop(o.state)), st, AnsTest(m0))
    ensures !o.Next? ==> forall i: nat, k: nat | i <= |st.stack| :: Fits(o, st, i, k)
  {
    var before := Then(Known(1, 1), m0);
    match o
    case Next(st1) =>
      Compose(st, st, o, Known(1, 1), m0);
      DeepEnough(st, st1, before, Known(2, 1));
      Compose(st, st1, Next(Pop(st1)), before, Known(2, 1));
    case _ =>
  }

  /** The default, and the drop of the selector at ENDCASE. */
  lemma {:induction false} SoundDefault(m: Machine, env: Env, c: Context, default: Else, st: State, fuel: nat)
    requires Passed(m, env) && RegularElse(env, m.NamesOf(c), default, Ans)
    requires var eff := Then(InferElse(env, m.NamesOf(c), default), Known(1, 0)); eff.Known? && |st.stack| >= eff.inputs
    ensures FitsEff(RunArms(m, c, [], default, st, fuel), st, Then(InferElse(env, m.NamesOf(c), default), Known(1, 0)))
    decreases fuel, SizeElse(default), 2
  {
    var eff := InferElse(env, m.NamesOf(c), default);
    SoundElse(m, env, c, default, st, fuel);
    match RunElse(m, c, default, st, fuel)
    case Next(st1) =>
      DeepEnough(st, st1, eff, Known(1, 0));
      Compose(st, st1, Next(Pop(st1)), eff, Known(1, 0));
    case _ =>
  }

  /** The comparison, on the item left by the match expression and the one below. */
  lemma {:induction false} SoundTest(m: Machine, env: Env, c: Context, arms: seq<Arm>, default: Else, st: State,
                                     st1: State, fuel: nat)
    requires arms != [] && Passed(m, env) && InferCase(env, m.NamesOf(c), arms, default).Known?
    requires RegularSeq(env, m.NamesOf(c), arms[0].body, Ans)
    requires RegularArms(env, m.NamesOf(c), arms[1..], default, Ans) && RegularElse(env, m.NamesOf(c), default, Ans)
    requires var m0 := InferBlock(env, m.NamesOf(c), arms[0].matchExpr);
             |st1.stack| >= 2 && FitsEff(Next(Pop(st1)), st, AnsTest(m0))
    requires AnsCase(env, m.NamesOf(c), arms, default).Known? ==>
               |st.stack| >= AnsCase(env, m.NamesOf(c), arms, default).inputs
    requires |st.stack| > 0 && RunSeq(m, c, arms[0].matchExpr, st, fuel) == Next(st1)
    ensures FitsEff(RunArms(m, c, arms, default, st, fuel), st, AnsCase(env, m.NamesOf(c), arms, default))
    decreases fuel, SizeArms(arms) + SizeElse(default), 2
  {
    var n := m.NamesOf(c);
    CaseEffect(env, n, arms, default);
    var test, rest := AnsTest(InferBlock(env, n, arms[0].matchExpr)), Alternatives(env, n, arms, default);
    var st2 := Pop(st1);
    DeepEnough(st, st2, test, rest);
    var o := AfterTest(m, c, arms, default, st1, fuel);
    if Top(st1.stack) == Top(Drop(st1.stack)) {
      SoundChosen(m, env, c, arms[0].body, st2, fuel);
    } else {
      SoundArms(m, env, c, arms[1..], default, st2, fuel);
    }
    Compose(st, st2, o, test, rest);
  }

  /** How a CASE goes on from the comparison. */
  ghost function AfterTest(m: Machine, c: Context, arms: seq<Arm>, default: Else, st1: State, fuel: nat): Outcome
    requires arms != [] && |st1.stack| >= 2
  {
    if Top(st1.stack) == Top(Drop(st1.stack)) then RunSeq(m, c, arms[0].body, Pop(Pop(st1)), fuel)
    else RunArms(m, c, arms[1..], default, Pop(st1), fuel)
  }

  /** The body of a chosen arm, and the drop of the selector before it. */
  lemma {:induction false} SoundChosen(m: Machine, env: Env, c: Context, body: seq<Expr>, st: State, fuel: nat)
    requires Passed(m, env) && RegularSeq(env, m.NamesOf(c), body, Ans)
    requires var eff := Then(Known(1, 0), InferBlock(env, m.NamesOf(c), body)); eff.Known? && |st.stack| >= eff.inputs
    ensures FitsEff(RunSeq(m, c, body, Pop(st), fuel), st, Then(Known(1, 0), InferBlock(env, m.NamesOf(c), body)))
    decreases fuel, SizeSeq(body), 7
  {
    var b := InferBlock(env, m.NamesOf(c), body);
    DeepEnough(st, Pop(st), Known(1, 0), b);
    SoundSeq(m, env, c, body, Pop(st), fuel);
    Compose(st, Pop(st), RunSeq(m, c, body, Pop(st), fuel), Known(1, 0), b);
  }

  predicate TurnFits(t: Turn, st: State, i: nat)
    requires |st.stack| >= i
  {
    match t
    case Leave(o) => Fits(o, st, i, i)
    case Repeat(st1) => Fits(Next(st1), st, i, i)
  }

  ghost predicate TurnsFit(m: Machine, c: Context, e: Expr, i: nat, fuel: nat)
    requires IsLoop(e)
  {
    forall st: State, f: nat :: f <= fuel && |st.stack| >= i ==> TurnFits(LoopTurn(m, c, e, st, f), st, i)
  }

  lemma Chain(st: State, st1: State, out: Outcome, i: nat)
    requires |st.stack| >= i && Fits(Next(st1), st, i, i) && Fits(out, st1, i, i)
    ensures Fits(out, st, i, i)
  {}

  lemma {:induction false} LoopFits(m: Machine, c: Context, e: Expr, st: State, i: nat, fuel: nat)
    requires IsLoop(e) && |st.stack| >= i && TurnsFit(m, c, e, i, fuel)
    ensures Fits(RunLoop(m, c, e, st, fuel), st, i, i)
    decreases fuel
  {
    if fuel > 0 {
      var t := LoopTurn(m, c, e, st, fuel);
      assert TurnFits(t, st, i);
      if t.Repeat? {
        LoopFits(m, c, e, t.state, i, fuel - 1);
        Chain(st, t.state, RunLoop(m, c, e, t.state, fuel - 1), i);
      }
    }
  }

  /** A loop that inference knows keeps the depth in every turn. */
  lemma {:induction false} SoundLoop(m: Machine, env: Env, c: Context, e: Expr, st: State, i: nat, fuel: nat)
    requires IsLoop(e) && |st.stack| >= i
    requires Passed(m, env) && LoopKnown(env, m.NamesOf(c), e, i)
    ensures Fits(RunLoop(m, c, e, st, fuel), st, i, i)
    decreases fuel, SizeExpr(e), 4
  {
    forall st1: State, f: nat | f <= fuel && |st1.stack| >= i
      ensures TurnFits(LoopTurn(m, c, e, st1, f), st1, i)
    {
      SoundTurn(m, env, c, e, st1, i, f);
    }
    LoopFits(m, c, e, st, i, fuel);
  }

  /** A regular loop with a known effect, whose turns need at most i items. */
  predicate LoopKnown(env: Env, n: Names, e: Expr, i: nat) {
    IsLoop(e) && RegularExpr(env, n, e, Ans) && InferExpr(env, n, e).Known? &&
    match e
    case DoLoop(_, body, _) => InferBlock(env, n, body).inputs == i
    case _ => InferExpr(env, n, e).inputs == i
  }

  lemma {:induction false} SoundTurn(m: Machine, env: Env, c: Context, e: Expr, st: State, i: nat, fuel: nat)
    requires Passed(m, env) && LoopKnown(env, m.NamesOf(c), e, i) && |st.stack| >= i
    ensures TurnFits(LoopTurn(m, c, e, st, fuel), st, i)
    decreases fuel, SizeExpr(e), 3
  {
    var n := m.NamesOf(c);
    match e
    case BeginUntil(body) =>
      SoundSeq(m, env, c, body, st, fuel);
      FlagTaken(st, RunSeq(m, c, body, st, fuel), i);
    case BeginWhileRepeat(pred, body) => SoundWhile(m, env, c, pred, body, st, i, fuel);
    case DoLoop(_, body, _) =>
      SoundSeq(m, env, c, body, st, fuel);
  }

  lemma {:induction false} SoundWhile(m: Machine, env: Env, c: Context, pred: seq<Expr>, body: seq<Expr>, st: State,
                                      i: nat, fuel: nat)
    requires Passed(m, env) && |st.stack| >= i
    requires RegularSeq(env, m.NamesOf(c), pred, Ans) && RegularSeq(env, m.NamesOf(c), body, Ans)
    requires var p := InferBlock(env, m.NamesOf(c), pred); p.Known? && p.outputs == p.inputs + 1 && p.inputs <= i
    requires var b := InferBlock(env, m.NamesOf(c), body); b.Known? && b.inputs == b.outputs && b.inputs <= i
    ensures TurnFits(LoopTurn(m, c, BeginWhileRepeat(pred, body), st, fuel), st, i)
    decreases fuel, SizeSeq(pred) + SizeSeq(body), 7
  {
    var p := InferBlock(env, m.NamesOf(c), pred);
    var o := RunSeq(m, c, pred, st, fuel);
    SoundSeq(m, env, c, pred, st, fuel);
    Widen(o, st, p.inputs, p.outputs, i - p.inputs);
    FlagTaken(st, o, i);
    var t := WhileTest(o);
    if t.Repeat? {
      SoundBody(m, env, c, body, st, t.state, i, fuel);
      assert LoopTurn(m, c, BeginWhileRepeat(pred, body), st, fuel) == AgainTurn(RunSeq(m, c, body, t.state, fuel));
    } else {
      assert LoopTurn(m, c, BeginWhileRepeat(pred, body), st, fuel) == t;
    }
  }

  /** The body of a WHILE, run from a state that has kept the depth so far. */
  lemma {:induction false} SoundBody(m: Machine, env: Env, c: Context, body: seq<Expr>, st: State, st1: State, i: nat,
                                     fuel: nat)
    requires Passed(m, env) && RegularSeq(env, m.NamesOf(c), body, Ans)
    requires |st.stack| >= i && Fits(Next(st1), st, i, i)
    requires var b := InferBlock(env, m.NamesOf(c), body); b.Known? && b.inputs == b.outputs && b.inputs <= i
    ensures TurnFits(AgainTurn(RunSeq(m, c, body, st1, fuel)), st, i)
    decreases fuel, SizeSeq(body), 7
  {
    var b := InferBlock(env, m.NamesOf(c), body);
    var o := RunSeq(m, c, body, st1, fuel);
    SoundSeq(m, env, c, body, st1, fuel);
    Widen(o, st1, b.inputs, b.outputs, i - b.inputs);
    Chain(st, st1, o, i);
  }

  /** Taking the flag off ( i -- i+1 ) leaves ( i -- i ). */
  lemma FlagTaken(st: State, o: Outcome, i: nat)
    requires |st.stack| >= i && Fits(o, st, i, i + 1)
    ensures TurnFits(UntilTurn(o), st, i) && TurnFits(WhileTest(o), st, i)
  {
    match o
    case Next(st1) =>
      Compose(st, st1, Next(Pop(st1)), Known(i, i + 1), Known(1, 0));
    case _ =>
  }
}
