/** Which UNTIL loops keep the promise of their claimed effect on every runtime. */
module UntilLimits {
  import opened Forth
  import opened Equivalence
  import opened Effects
  import opened EffectSound
  import opened EffectLimits
  import opened Telltale
  import opened ExitMeaning

  /** A machine without definitions, whose builtins meet the table. */
  ghost predicate Standalone(m: Machine, table: map<string, Eff>) {
    m.defs == map[] && m.vars == map[] && MeetsTable(m, table)
  }

  /** The loop keeps the promise of ( i -- o ) on all those machines, from every stack that is deep enough. */
  ghost predicate AlwaysFits(table: map<string, Eff>, body: seq<Expr>, i: nat, o: nat) {
    forall m: Machine, st: State, fuel: nat | Standalone(m, table) && |st.stack| >= i ::
      Fits(RunLoop(m, nowhere, BeginUntil(body), st, fuel), st, i, o)
  }

  /** The effect claimed for an UNTIL whose body is plain code that ends in a builtin is right, on every machine
      that meets the table and from every stack, if and only if the body leaves just the flag. */
  lemma UntilAlways(table: map<string, Eff>, body: seq<Expr>)
    requires EndsInBuiltin(table, body)
    requires var b := InferBlock(Env(map[], table, {}), noNames, body); b.Known? && b.outputs > b.inputs
    ensures var b, eff := InferBlock(Env(map[], table, {}), noNames, body),
                          InferExpr(Env(map[], table, {}), noNames, BeginUntil(body));
            eff.Known? && (AlwaysFits(table, body, eff.inputs, eff.outputs) <==> b.outputs == b.inputs + 1)
  {
    var env := Env(map[], table, {});
    var b := InferBlock(env, noNames, body);
    if b.outputs == b.inputs + 1 {
      forall m: Machine, st: State, fuel: nat | Standalone(m, table) && |st.stack| >= b.inputs
        ensures Fits(RunLoop(m, nowhere, BeginUntil(body), st, fuel), st, b.inputs, b.outputs - 1)
      {
        FlagAlone(m, env, body, st, fuel);
      }
    } else {
      MoreFails(table, body);
    }
  }

  lemma FlagAlone(m: Machine, env: Env, body: seq<Expr>, st: State, fuel: nat)
    requires Standalone(m, env.table) && env.user == map[] && PlainCode(env, noNames, body)
    requires var b := InferBlock(env, noNames, body); b.Known? && b.outputs == b.inputs + 1 && |st.stack| >= b.inputs
    ensures var b := InferBlock(env, noNames, body);
            Fits(RunLoop(m, nowhere, BeginUntil(body), st, fuel), st, b.inputs, b.inputs)
  {
    assert m.NamesOf(nowhere) == noNames;
    PlainRegular(env, noNames, body);
    SoundExpr(m, env, nowhere, BeginUntil(body), st, fuel);
  }

  // ----- a loop that takes a second turn -----

  /** Builtins that leave zeros in their first k runs and ones afterwards. */
  function TogglePrim(table: map<string, Eff>, k: nat, lc: string, s: seq<Cell>, w: World): PrimResult {
    var eff := Lookup(table, lc);
    if eff == Unknown then PrimFault
    else if |s| < eff.inputs then PrimUnderflow
    else
      Done(s[..|s| - eff.inputs] + seq(eff.outputs, i => Number(if |w.output| < k then 0 else 1)),
           w.(output := w.output + [Number(0)]))
  }

  ghost predicate Toggles(m: Machine, table: map<string, Eff>, k: nat) {
    forall lc, s, w :: m.prim(lc, s, w) == TogglePrim(table, k, lc, s, w)
  }

  /** How many builtins plain code runs. */
  function Calls(s: seq<Expr>): nat {
    if s == [] then 0 else (if s[0].WordRef? then 1 else 0) + Calls(s[1..])
  }

  lemma {:induction false} CallsConcat(s: seq<Expr>, t: seq<Expr>)
    ensures Calls(s + t) == Calls(s) + Calls(t)
    decreases s
  {
    if s == [] {
      assert s + t == t;
    } else {
      assert (s + t)[0] == s[0] && (s + t)[1..] == s[1..] + t;
      CallsConcat(s[1..], t);
    }
  }

  lemma ToggleStep(m: Machine, env: Env, k: nat, e: Expr, st: State, fuel: nat)
    requires m.NamesOf(nowhere) == noNames && Toggles(m, env.table, k) && PlainCode(env, noNames, [e])
    requires InferExpr(env, noNames, e).Known? && |st.stack| >= InferExpr(env, noNames, e).inputs
    ensures var o, eff := RunExpr(m, nowhere, e, st, fuel), InferExpr(env, noNames, e);
            && o.Next? && |o.state.stack| == |st.stack| - eff.inputs + eff.outputs
            && |o.state.world.output| == |st.world.output| + (if e.WordRef? then 1 else 0)
            && (e.WordRef? && eff.outputs >= 1 ==>
                  Top(o.state.stack) == Number(if |st.world.output| < k then 0 else 1))
  {
    assert e in [e];
    if e.WordRef? {
      var lc := Lower(e.name);
      assert m.prim(lc, st.stack, st.world) == TogglePrim(env.table, k, lc, st.stack, st.world);
    }
  }

  lemma {:induction false} ToggleRun(m: Machine, env: Env, k: nat, s: seq<Expr>, st: State, fuel: nat)
    requires m.NamesOf(nowhere) == noNames && Toggles(m, env.table, k) && PlainCode(env, noNames, s)
    requires InferBlock(env, noNames, s).Known? && |st.stack| >= InferBlock(env, noNames, s).inputs
    ensures var o, eff := RunSeq(m, nowhere, s, st, fuel), InferBlock(env, noNames, s);
            && o.Next? && |o.state.stack| == |st.stack| - eff.inputs + eff.outputs
            && |o.state.world.output| == |st.world.output| + Calls(s)
    decreases s
  {
    if s != [] {
      assert s[0] in s;
      ToggleStep(m, env, k, s[0], st, fuel);
      ToggleRun(m, env, k, s[1..], RunExpr(m, nowhere, s[0], st, fuel).state, fuel);
    }
  }

  /** The flag that plain code ending in a builtin leaves. */
  lemma ToggleFlag(m: Machine, env: Env, k: nat, s: seq<Expr>, st: State, fuel: nat)
    requires m.NamesOf(nowhere) == noNames && Toggles(m, env.table, k) && env.user == map[] && env.quiet == {}
    requires EndsInBuiltin(env.table, s)
    requires InferBlock(env, noNames, s).Known? && |st.stack| >= InferBlock(env, noNames, s).inputs
    ensures Calls(s) >= 1
    ensures var o := RunSeq(m, nowhere, s, st, fuel);
            o.Next? && |o.state.stack| >= 1 &&
            Top(o.state.stack) == Number(if |st.world.output| + Calls(s) - 1 < k then 0 else 1)
  {
    var n := |s| - 1;
    var first, last := s[..n], s[n];
    assert s == first + [last] && last in s;
    var a, e := InferBlock(env, noNames, first), InferExpr(env, noNames, last);
    InferConcat(env, noNames, first, [last]);
    assert [last][1..] == [];
    ThenIdentity(e);
    CallsConcat(first, [last]);
    RunConcat(m, nowhere, first, [last], st, fuel);
    ToggleRun(m, env, k, first, st, fuel);
    var st1 := RunSeq(m, nowhere, first, st, fuel).state;
    RunOne(m, nowhere, last, st1, fuel);
    ToggleStep(m, env, k, last, st1, fuel);
  }

  lemma TogglesMeet(m: Machine, table: map<string, Eff>, k: nat)
    requires Toggles(m, table, k) && "exit" !in table && "recurse" !in table
    ensures MeetsTable(m, table)
  {
    forall lc, s, w | lc in table
      ensures PrimFits(m.prim(lc, s, w), s, table[lc])
    {
      assert m.prim(lc, s, w) == TogglePrim(table, k, lc, s, w);
    }
  }

  lemma MoreFails(table: map<string, Eff>, body: seq<Expr>)
    requires EndsInBuiltin(table, body)
    requires var b := InferBlock(Env(map[], table, {}), noNames, body); b.Known? && b.outputs > b.inputs + 1
    ensures var b := InferBlock(Env(map[], table, {}), noNames, body);
            !AlwaysFits(table, body, b.inputs, b.outputs - 1)
  {
    var env, k := Env(map[], table, {}), Calls(body);
    var b := InferBlock(env, noNames, body);
    var m := Machine(map[], map[], (lc: string, s: seq<Cell>, w: World) => TogglePrim(table, k, lc, s, w), false);
    var st := State(Zeros(b.inputs), map[], World(map[], map[], [], [], []));
    TogglesMeet(m, table, k);
    TwoTurns(m, env, body, st);
    assert !Fits(RunLoop(m, nowhere, BeginUntil(body), st, 2), st, b.inputs, b.outputs - 1);
  }

  /** The loop goes on once, and leaves what its body leaves besides the flag twice. */
  lemma TwoTurns(m: Machine, env: Env, body: seq<Expr>, st: State)
    requires m.NamesOf(nowhere) == noNames && Toggles(m, env.table, Calls(body)) && env.user == map[] && env.quiet == {}
    requires EndsInBuiltin(env.table, body) && st.world.output == []
    requires var b := InferBlock(env, noNames, body); b.Known? && b.outputs > b.inputs && |st.stack| == b.inputs
    ensures var b := InferBlock(env, noNames, body);
            var o := RunLoop(m, nowhere, BeginUntil(body), st, 2);
            o.Next? && |o.state.stack| == |st.stack| + 2 * (b.outputs - 1 - b.inputs)
  {
    var e, k := BeginUntil(body), Calls(body);
    ToggleFlag(m, env, k, body, st, 2);
    ToggleRun(m, env, k, body, st, 2);
    var st1 := Pop(RunSeq(m, nowhere, body, st, 2).state);
    assert LoopTurn(m, nowhere, e, st, 2) == Repeat(st1);
    ToggleFlag(m, env, k, body, st1, 1);
    ToggleRun(m, env, k, body, st1, 1);
    var st2 := Pop(RunSeq(m, nowhere, body, st1, 1).state);
    assert LoopTurn(m, nowhere, e, st1, 1) == Leave(Next(st2));
    assert RunLoop(m, nowhere, e, st1, 1) == Next(st2);
  }
}
