/** Where inferred effects are exact, and where they are wrong: +LOOP, UNTIL bodies that leave more than
    the flag, match expressions, and parameters. */
module EffectLimits {
  import opened Common
  import opened Forth
  import opened Equivalence
  import opened Effects
  import opened EffectSound
  import opened EffectInfer

  // ----- straight-line code -----

  /** Literals, ticks, TO, locals blocks, locals and builtins of the table. */
  predicate StraightLine(env: Env, n: Names, s: seq<Expr>) {
    forall e <- s ::
      e.Lit? || e.Tick? || e.To? || e.Locals? ||
      (e.WordRef? && (Resolve(n, e.name) == Local || IsTabled(env, n, e.name)))
  }

  predicate IsTabled(env: Env, n: Names, name: string) {
    Resolve(n, name) == Builtin && Lower(name) != "recurse" && Lookup(env.table, Lower(name)).Known?
  }

  /** The locals that a body reads have been bound. */
  predicate Bound(n: Names, s: seq<Expr>, have: set<string>) {
    forall e <- s :: e.WordRef? && Resolve(n, e.name) == Local ==> Lower(e.name) in have
  }

  function Zeros(n: nat): (s: seq<Cell>)
    ensures |s| == n
  {
    seq(n, i => Number(0))
  }

  /** A builtin that takes exactly its inputs, leaves its outputs, and runs out of items with less. */
  predicate TakesExactly(r: PrimResult, s: seq<Cell>, eff: Eff)
    requires eff.Known?
  {
    if |s| < eff.inputs then r == PrimUnderflow
    else
      && r.Done? && |r.stack| == |s| - eff.inputs + eff.outputs
      && r.stack[..|s| - eff.inputs] == s[..|s| - eff.inputs]
  }

  /** The builtins of the table do just what it says, with any items and on any world. */
  ghost predicate Strict(m: Machine, table: map<string, Eff>) {
    forall lc, s, w :: Lookup(table, lc).Known? ==> TakesExactly(m.prim(lc, s, w), s, Lookup(table, lc))
  }

  /** The names that a list of locals binds. */
  function BoundBy(names: seq<string>): set<string> {
    set i | 0 <= i < |names| && names[i] != "_" :: Lower(names[i])
  }

  lemma {:induction false} BindExactly(names: seq<string>, st: State)
    ensures BindLocals(names, st) == Underflow <==> |st.stack| < |names|
    ensures |st.stack| >= |names| ==>
              var o := BindLocals(names, st);
              && o.Next? && |o.state.stack| == |st.stack| - |names|
              && st.locals.Keys + BoundBy(names) <= o.state.locals.Keys
    decreases names
  {
    if names != [] && |st.stack| > 0 {
      var last := names[|names| - 1];
      var st1 := Pop(st);
      var st2 := if last == "_" then st1 else st1.(locals := st1.locals[Lower(last) := Top(st.stack)]);
      BindExactly(names[..|names| - 1], st2);
      forall x | x in BoundBy(names)
        ensures x in st2.locals.Keys + BoundBy(names[..|names| - 1])
      {
        var i :| 0 <= i < |names| && names[i] != "_" && Lower(names[i]) == x;
        assert i < |names| - 1 ==> names[..|names| - 1][i] == names[i];
      }
    }
  }

  lemma StepExactly(m: Machine, env: Env, c: Context, e: Expr, st: State, fuel: nat)
    requires Strict(m, env.table) && StraightLine(env, m.NamesOf(c), [e]) && Bound(m.NamesOf(c), [e], st.locals.Keys)
    ensures var eff, o := InferExpr(env, m.NamesOf(c), e), RunExpr(m, c, e, st, fuel);
            && eff.Known?
            && (o == Underflow <==> |st.stack| < eff.inputs)
            && (o != Underflow ==>
                  && o.Next? && |o.state.stack| == |st.stack| - eff.inputs + eff.outputs
                  && st.locals.Keys <= o.state.locals.Keys)
  {
    assert e in [e];
    match e
    case WordRef(name) =>
      if Resolve(m.NamesOf(c), name) != Local {
        assert TakesExactly(m.prim(Lower(name), st.stack, st.world), st.stack, Lookup(env.table, Lower(name)));
      }
    case Locals(names) => BindExactly(names, st);
    case _ =>
  }

  /** The effect of straight-line code is known and exact: on builtins that take just what the table says,
      a run underflows if and only if the stack is shallower than the inferred inputs, and otherwise ends
      at the inferred depth. */
  lemma {:induction false} StraightExactly(m: Machine, env: Env, c: Context, s: seq<Expr>, st: State, fuel: nat)
    requires Strict(m, env.table) && StraightLine(env, m.NamesOf(c), s) && Bound(m.NamesOf(c), s, st.locals.Keys)
    ensures var eff, o := InferBlock(env, m.NamesOf(c), s), RunSeq(m, c, s, st, fuel);
            && eff.Known?
            && (o == Underflow <==> |st.stack| < eff.inputs)
            && (o != Underflow ==> o.Next? && |o.state.stack| == |st.stack| - eff.inputs + eff.outputs)
    decreases s
  {
    if s != [] {
      assert s[0] in s;
      StepExactly(m, env, c, s[0], st, fuel);
      var o := RunExpr(m, c, s[0], st, fuel);
      if o.Next? {
        StraightExactly(m, env, c, s[1..], o.state, fuel);
      } else {
        StraightKnown(env, m.NamesOf(c), s[1..]);
      }
    }
  }

  lemma {:induction false} StraightKnown(env: Env, n: Names, s: seq<Expr>)
    requires StraightLine(env, n, s)
    ensures InferBlock(env, n, s).Known?
    decreases s
  {
    if s != [] {
      assert s[0] in s;
      StraightKnown(env, n, s[1..]);
    }
  }

  // ----- UNTIL -----

  /** The number of turns a loop takes, including the last. */
  ghost function Turns(m: Machine, c: Context, e: Expr, st: State, fuel: nat): nat
    requires IsLoop(e)
    decreases fuel
  {
    if fuel == 0 then 0
    else
      match LoopTurn(m, c, e, st, fuel)
      case Leave(_) => 1
      case Repeat(st1) => 1 + Turns(m, c, e, st1, fuel - 1)
  }

  /** Each turn of an UNTIL whose body has the effect ( i -- o ) adds o - 1 - i items. */
  lemma {:induction false} UntilTurnDepth(m: Machine, env: Env, c: Context, body: seq<Expr>, st: State, fuel: nat)
    requires Passed(m, env) && RegularSeq(env, m.NamesOf(c), body, Ans)
    requires var b := InferBlock(env, m.NamesOf(c), body); b.Known? && b.outputs > b.inputs && |st.stack| >= b.inputs
    ensures var b := InferBlock(env, m.NamesOf(c), body);
            match LoopTurn(m, c, BeginUntil(body), st, fuel)
            case Leave(o) => Fits(o, st, b.inputs, b.outputs - 1)
            case Repeat(st1) => Fits(Next(st1), st, b.inputs, b.outputs - 1)
  {
    SoundSeq(m, env, c, body, st, fuel);
    FlagOff(st, RunSeq(m, c, body, st, fuel), InferBlock(env, m.NamesOf(c), body));
  }

  lemma FlagOff(st: State, o: Outcome, b: Eff)
    requires b.Known? && b.outputs > b.inputs && FitsEff(o, st, b)
    ensures match UntilTurn(o)
            case Leave(o1) => Fits(o1, st, b.inputs, b.outputs - 1)
            case Repeat(st1) => Fits(Next(st1), st, b.inputs, b.outputs - 1)
  {
    if o.Next? {
      Compose(st, o.state, Next(Pop(o.state)), b, Known(1, 0));
    }
  }

  /** The effect claimed for an UNTIL whose body leaves ( i -- o ) is right for a run if and only if the
      body leaves just the flag, or the loop takes a single turn. */
  lemma {:induction false} UntilExactly(m: Machine, env: Env, c: Context, body: seq<Expr>, st: State, fuel: nat)
    requires Passed(m, env) && RegularSeq(env, m.NamesOf(c), body, Ans)
    requires var b := InferBlock(env, m.NamesOf(c), body); b.Known? && b.outputs > b.inputs && |st.stack| >= b.inputs
    requires RunLoop(m, c, BeginUntil(body), st, fuel).Next?
    ensures var b := InferBlock(env, m.NamesOf(c), body);
            var o := RunLoop(m, c, BeginUntil(body), st, fuel);
            && InferExpr(env, m.NamesOf(c), BeginUntil(body)) == Known(b.inputs, b.outputs - 1)
            && |o.state.stack| >= |st.stack| - b.inputs + b.outputs - 1
            && (Fits(o, st, b.inputs, b.outputs - 1)
                <==> b.outputs == b.inputs + 1 || Turns(m, c, BeginUntil(body), st, fuel) == 1)
    decreases fuel
  {
    var b := InferBlock(env, m.NamesOf(c), body);
    UntilTurnDepth(m, env, c, body, st, fuel);
    match LoopTurn(m, c, BeginUntil(body), st, fuel)
    case Leave(o) =>
    case Repeat(st1) =>
      UntilExactly(m, env, c, body, st1, fuel - 1);
      var o := RunLoop(m, c, BeginUntil(body), st1, fuel - 1);
      assert Turns(m, c, BeginUntil(body), st1, fuel - 1) >= 1;
      if b.outputs == b.inputs + 1 {
        Chain(st, st1, o, b.inputs);
      }
  }

  // ----- +LOOP -----

  lemma PlusTurn(m: Machine, env: Env, c: Context, e: Expr, st: State, fuel: nat)
    requires Passed(m, env) && e.DoLoop? && e.kind == PlusN && RegularSeq(env, m.NamesOf(c), e.body, Ans)
    requires var b := InferBlock(env, m.NamesOf(c), e.body); b.Known? && b.inputs == b.outputs && |st.stack| >= b.inputs
    ensures match LoopTurn(m, c, e, st, fuel)
            case Leave(Next(st1)) => |st1.stack| + 1 == |st.stack|
            case Leave(Exit(_)) => false
            case Leave(_) => true
            case Repeat(st1) => |st1.stack| + 1 == |st.stack|
  {
    SoundSeq(m, env, c, e.body, st, fuel);
  }

  /** A +LOOP with a known effect loses an item in every turn, so that, from a stack deep enough for its
      turns, no run that ends keeps the promise of that effect. */
  lemma {:induction false} PlusLoopNeverFits(m: Machine, env: Env, c: Context, e: Expr, st: State, fuel: nat)
    requires Passed(m, env) && e.DoLoop? && e.kind == PlusN && RegularSeq(env, m.NamesOf(c), e.body, Ans)
    requires var b := InferBlock(env, m.NamesOf(c), e.body);
             b.Known? && b.inputs == b.outputs && |st.stack| >= b.inputs + fuel
    ensures var b := InferBlock(env, m.NamesOf(c), e.body);
            var o := RunLoop(m, c, e, st, fuel);
            && InferExpr(env, m.NamesOf(c), e) == Known(b.inputs + 2, b.outputs)
            && (o.Next? ==> |o.state.stack| < |st.stack|)
            && (Fits(o, st, b.inputs, b.outputs) ==> o == Fault || o == Timeout)
    decreases fuel
  {
    if fuel > 0 {
      PlusTurn(m, env, c, e, st, fuel);
      var t := LoopTurn(m, c, e, st, fuel);
      if t.Repeat? {
        assert RunLoop(m, c, e, st, fuel) == RunLoop(m, c, e, t.state, fuel - 1);
        PlusLoopNeverFits(m, env, c, e, t.state, fuel - 1);
      } else {
        assert RunLoop(m, c, e, st, fuel) == t.outcome;
      }
    }
  }

  // ----- CASE -----

  /** A CASE of one arm, all of whose parts are straight-line code. */
  predicate StraightCase(env: Env, n: Names, arm: Arm, default: seq<Expr>, have: set<string>) {
    && StraightLine(env, n, arm.matchExpr) && StraightLine(env, n, arm.body) && StraightLine(env, n, default)
    && Bound(n, arm.matchExpr, have) && Bound(n, arm.body, have) && Bound(n, default, have)
    && InferCase(env, n, [arm], ElseBody(default)).Known?
  }

  /** Such a CASE, run under the standard on builtins that take just what the table says, underflows if
      and only if the stack is shallower than `AnsCase` asks. */
  lemma CaseUnderflows(m: Machine, env: Env, c: Context, arm: Arm, default: seq<Expr>, st: State, fuel: nat)
    requires Strict(m, env.table) && StraightCase(env, m.NamesOf(c), arm, default, st.locals.Keys)
    ensures AnsCase(env, m.NamesOf(c), [arm], ElseBody(default)).Known?
    ensures RunArms(m, c, [arm], ElseBody(default), st, fuel) == Underflow <==>
            |st.stack| < AnsCase(env, m.NamesOf(c), [arm], ElseBody(default)).inputs
  {
    var n := m.NamesOf(c);
    var d := ElseBody(default);
    CaseEffect(env, n, [arm], d);
    TestInputs(InferBlock(env, n, arm.matchExpr));
    ThenInputs(AnsTest(InferBlock(env, n, arm.matchExpr)), Alternatives(env, n, [arm], d));
    if |st.stack| > 0 {
      StraightLocals(m, env, c, arm.matchExpr, st, fuel);
      StraightExactly(m, env, c, arm.matchExpr, st, fuel);
      var o := RunSeq(m, c, arm.matchExpr, st, fuel);
      if o.Next? && |o.state.stack| >= 2 {
        EitherWay(m, env, c, arm, default, o.state, fuel);
      }
    }
  }

  lemma {:induction false} StraightLocals(m: Machine, env: Env, c: Context, s: seq<Expr>, st: State, fuel: nat)
    requires Strict(m, env.table) && StraightLine(env, m.NamesOf(c), s) && Bound(m.NamesOf(c), s, st.locals.Keys)
    ensures var o := RunSeq(m, c, s, st, fuel); o.Next? ==> st.locals.Keys <= o.state.locals.Keys
    decreases s
  {
    if s != [] {
      assert s[0] in s;
      StepExactly(m, env, c, s[0], st, fuel);
      var o := RunExpr(m, c, s[0], st, fuel);
      if o.Next? {
        StraightLocals(m, env, c, s[1..], o.state, fuel);
      }
    }
  }

  /** Both ways of going on after the test need the same depth. */
  lemma EitherWay(m: Machine, env: Env, c: Context, arm: Arm, default: seq<Expr>, st: State, fuel: nat)
    requires Strict(m, env.table) && StraightCase(env, m.NamesOf(c), arm, default, st.locals.Keys) && |st.stack| >= 2
    ensures var rest := Alternatives(env, m.NamesOf(c), [arm], ElseBody(default));
            && rest.Known?
            && (RunSeq(m, c, arm.body, Pop(Pop(st)), fuel) == Underflow <==> |st.stack| - 1 < rest.inputs)
            && (RunArms(m, c, [], ElseBody(default), Pop(st), fuel) == Underflow <==> |st.stack| - 1 < rest.inputs)
  {
    var n := m.NamesOf(c);
    CaseEffect(env, n, [arm], ElseBody(default));
    assert [arm][1..] == [];
    StraightExactly(m, env, c, arm.body, Pop(Pop(st)), fuel);
    StraightExactly(m, env, c, default, Pop(st), fuel);
  }

  /** The inputs inferred for a CASE of straight-line parts are enough on every stack if and only if
      `MatchFits`: a match expression works on a copy of the selector in the inferred effect, and on the
      selector under the standard. */
  lemma CaseExactly(m: Machine, env: Env, c: Context, arm: Arm, default: seq<Expr>, locals: map<string, Cell>,
                    w: World, fuel: nat)
    requires Strict(m, env.table) && StraightCase(env, m.NamesOf(c), arm, default, locals.Keys)
    ensures (forall stack | |stack| >= InferCase(env, m.NamesOf(c), [arm], ElseBody(default)).inputs ::
               RunArms(m, c, [arm], ElseBody(default), State(stack, locals, w), fuel) != Underflow)
            <==> MatchFits(env, m.NamesOf(c), [arm], ElseBody(default))
  {
    var n, d := m.NamesOf(c), ElseBody(default);
    var claimed := InferCase(env, n, [arm], d);
    var st := State(Zeros(claimed.inputs), locals, w);
    CaseUnderflows(m, env, c, arm, default, st, fuel);
    forall stack: seq<Cell> | |stack| >= claimed.inputs && MatchFits(env, n, [arm], d)
      ensures RunArms(m, c, [arm], d, State(stack, locals, w), fuel) != Underflow
    {
      CaseUnderflows(m, env, c, arm, default, State(stack, locals, w), fuel);
    }
  }

  lemma TuckInferred(env: Env, n: Names)
    requires Lookup(env.table, "tuck") == Known(2, 3) && Resolve(n, "tuck") == Builtin
    ensures InferCase(env, n, [tuckArm], NoElse) == Known(1, 0)
  {
    assert Lower("tuck") == "tuck";
    var e := tuckArm.matchExpr[0];
    assert tuckArm.matchExpr[1..] == [] && tuckArm.body == [];
    assert InferBlock(env, n, tuckArm.matchExpr) == Then(InferExpr(env, n, e), nothing);
    assert InferBlock(env, n, tuckArm.matchExpr) == Known(2, 3);
    assert [tuckArm][0] == tuckArm && [tuckArm][1..] == [];
    assert InferCase(env, n, [], NoElse) == Known(1, 0);
  }

  const tuckArm := Arm([WordRef("tuck")], [])

  lemma TuckRun(m: Machine, env: Env, c: Context, st: State, fuel: nat)
    requires Strict(m, env.table) && Lookup(env.table, "tuck") == Known(2, 3)
    requires Resolve(m.NamesOf(c), "tuck") == Builtin && |st.stack| == 1
    ensures RunSeq(m, c, tuckArm.matchExpr, st, fuel) == Underflow
  {
    assert Lower("tuck") == "tuck";
    RunOne(m, c, WordRef("tuck"), st, fuel);
    assert TakesExactly(m.prim("tuck", st.stack, st.world), st.stack, Lookup(env.table, "tuck"));
  }

  lemma MatchUnderflows(m: Machine, c: Context, arms: seq<Arm>, default: Else, st: State, fuel: nat)
    requires arms != [] && RunSeq(m, c, arms[0].matchExpr, st, fuel) == Underflow
    ensures RunArms(m, c, arms, default, st, fuel) == Underflow
  {}

  /** CASE TUCK OF ENDOF ENDCASE is inferred as ( x -- ), and underflows on a single item. */
  lemma TuckUnderflows(m: Machine, env: Env, c: Context, st: State, fuel: nat)
    requires Strict(m, env.table) && Lookup(env.table, "tuck") == Known(2, 3)
    requires Resolve(m.NamesOf(c), "tuck") == Builtin && |st.stack| == 1
    ensures InferCase(env, m.NamesOf(c), [tuckArm], NoElse) == Known(1, 0)
    ensures RunArms(m, c, [tuckArm], NoElse, st, fuel) == Underflow
  {
    TuckInferred(env, m.NamesOf(c));
    TuckRun(m, env, c, st, fuel);
    MatchUnderflows(m, c, [tuckArm], NoElse, st, fuel);
  }

  // ----- parameters -----

  const greedy := Definition(["a"], {"a"}, Effect(["n"], 0), None, [To("x")])

  lemma GreedyEffect(env: Env, n: Names)
    ensures InferBlock(env, n, greedy.body) == Known(1, 0)
  {
    assert greedy.body[1..] == [];
    assert InferExpr(env, n, To("x")) == Known(1, 0);
    ThenIdentity(Known(1, 0));
  }

  /** Its parameter takes the only item. */
  lemma GreedyEnters(m: Machine, st: State)
    requires |st.stack| == 1
    ensures var o := Enter(m, greedy, st); o.Next? && o.state.stack == []
  {
    var st0 := st.(locals := map[]);
    assert greedy.params[..0] == [];
    assert BindLocals(greedy.params, st0) == Next(Pop(st0).(locals := map[Lower("a") := Top(st.stack)]));
  }

  /** : w ( n -- ) {: a :} TO x ; passes the check, and runs out of items. */
  lemma ParametersUnchecked(m: Machine, env: Env, st: State, fuel: nat)
    requires m.defs == map["w" := greedy] && |st.stack| == 1
    ensures Check("w", greedy, InferBlock(env, Names(greedy.scope, m.Words()), greedy.body)) == []
    ensures Call(m, "w", st, fuel) == Underflow
  {
    GreedyEffect(env, Names(greedy.scope, m.Words()));
    GreedyEnters(m, st);
    var entry := Enter(m, greedy, st).state;
    RunOne(m, Context({"a"}, "w"), To("x"), entry, fuel);
  }

  /** A definition whose body is straight-line code that reads no locals but its parameters. */
  ghost predicate StraightDef(m: Machine, env: Env, lc: string) {
    && Strict(m, env.table) && lc in m.defs
    && StraightLine(env, Names(m.defs[lc].scope, m.Words()), m.defs[lc].body)
    && Bound(Names(m.defs[lc].scope, m.Words()), m.defs[lc].body, BoundBy(m.defs[lc].params))
  }

  /** What a call needs: its parameters and below them what the body takes, and the inputs it binds on
      entry. */
  lemma CallExactly(m: Machine, env: Env, lc: string, st: State, fuel: nat)
    requires StraightDef(m, env, lc)
    ensures var d := m.defs[lc];
            var body, o := InferBlock(env, Names(d.scope, m.Words()), d.body), Call(m, lc, st, fuel);
            && body.Known?
            && (o == Underflow <==> |st.stack| < Max(|d.params| + body.inputs, |m.Preamble(d)|))
            && (o != Underflow ==>
                  o.Next? && |o.state.stack| == |st.stack| - |d.params| - body.inputs + body.outputs)
  {
    var d := m.defs[lc];
    EnterExactly(m, d, st);
    StraightKnown(env, Names(d.scope, m.Words()), d.body);
    match Enter(m, d, st)
    case Next(entry) => StraightExactly(m, env, Context(d.scope, lc), d.body, entry, fuel);
    case _ =>
  }

  lemma EnterExactly(m: Machine, d: Definition, st: State)
    ensures Enter(m, d, st) == Underflow <==> |st.stack| < Max(|d.params|, |m.Preamble(d)|)
    ensures |st.stack| >= Max(|d.params|, |m.Preamble(d)|) ==>
              var o := Enter(m, d, st);
              o.Next? && |o.state.stack| == |st.stack| - |d.params| && BoundBy(d.params) <= o.state.locals.Keys
  {
    BindExactly(d.params, st.(locals := map[]));
  }

  /** Every call from a stack that holds `i` items ends without underflow, `o` items deep above the rest. */
  ghost predicate CallsKeep(m: Machine, lc: string, i: nat, o: nat, fuel: nat)
    requires lc in m.defs
  {
    forall st: State | |st.stack| >= i ::
      var out := Call(m, lc, st, fuel); out.Next? && |out.state.stack| == |st.stack| - i + o
  }

  /** The effect ( i -- o ) covers what calls need, and has the net effect of the parameters and the body. */
  predicate Nets(m: Machine, d: Definition, body: Eff, i: nat, o: nat) {
    && body.Known? && |d.params| + body.inputs <= i && |m.Preamble(d)| <= i
    && body.outputs + i == o + |d.params| + body.inputs
  }

  lemma KeepExactly(m: Machine, env: Env, lc: string, i: nat, o: nat, fuel: nat)
    requires StraightDef(m, env, lc)
    ensures var d := m.defs[lc];
            var body := InferBlock(env, Names(d.scope, m.Words()), d.body);
            body.Known? && (CallsKeep(m, lc, i, o, fuel) <==> Nets(m, d, body, i, o))
  {
    var st := State(Zeros(i), map[], World(map[], map[], [], [], []));
    CallExactly(m, env, lc, st, fuel);
    forall st1: State | |st1.stack| >= i
      ensures var d := m.defs[lc];
              var body, out := InferBlock(env, Names(d.scope, m.Words()), d.body), Call(m, lc, st1, fuel);
              Nets(m, d, body, i, o) ==> out.Next? && |out.state.stack| == |st1.stack| - i + o
    {
      CallExactly(m, env, lc, st1, fuel);
    }
  }

  /** Where parameters are concerned the check lets through declarations that are wrong: the calls of a
      definition with a passed declaration do what it declares if and only if its declared inputs count
      the parameters and what the body takes besides. */
  lemma CheckExactly(m: Machine, env: Env, name: string, lc: string, fuel: nat)
    requires StraightDef(m, env, lc) && m.defs[lc].declared.Effect?
    requires Check(name, m.defs[lc], InferBlock(env, Names(m.defs[lc].scope, m.Words()), m.defs[lc].body)) == []
    ensures var d := m.defs[lc];
            CallsKeep(m, lc, |d.declared.inputs|, d.declared.outputs, fuel) <==>
            ParamsCounted(d, InferBlock(env, Names(d.scope, m.Words()), d.body))
  {
    KeepExactly(m, env, lc, |m.defs[lc].declared.inputs|, m.defs[lc].declared.outputs, fuel);
  }

  /** Without a declared effect, callers are given the effect of the body alone, which its calls keep if
      and only if there are no parameters, and the inputs bound on entry are covered, as they are where
      inference has counted them. */
  lemma UndeclaredExactly(m: Machine, env: Env, lc: string, fuel: nat)
    requires StraightDef(m, env, lc)
    ensures var d := m.defs[lc];
            var body := InferBlock(env, Names(d.scope, m.Words()), d.body);
            && body.Known?
            && (CallsKeep(m, lc, body.inputs, body.outputs, fuel) <==> d.params == [] && Covered(m, d, body))
            && (d.declared.Undeclared? && Annotated(d, body) ==> Covered(m, d, body))
  {
    var d := m.defs[lc];
    StraightKnown(env, Names(d.scope, m.Words()), d.body);
    var body := InferBlock(env, Names(d.scope, m.Words()), d.body);
    KeepExactly(m, env, lc, body.inputs, body.outputs, fuel);
  }
}
