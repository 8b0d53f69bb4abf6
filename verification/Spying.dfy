/** A runtime on which the builtins that see the whole stack tell a run from the same run one item deeper. */
module Spying {
  import opened Forth
  import opened Frame
  import opened Effects
  import opened EffectSound
  import opened EffectLimits
  import opened Telltale

  /** Builtins that take what the table says; those that see the whole stack report its depth. */
  function SpyPrim(table: map<string, Eff>, lc: string, s: seq<Cell>, w: World): PrimResult {
    var eff := Lookup(table, lc);
    if eff == Unknown then PrimFault
    else if |s| < eff.inputs then PrimUnderflow
    else
      Done(s[..|s| - eff.inputs] + Zeros(eff.outputs),
           if lc in stackReaders then w.(output := w.output + [Number(|s|)]) else w)
  }

  ghost predicate Spies(m: Machine, table: map<string, Eff>) {
    forall lc, s, w :: m.prim(lc, s, w) == SpyPrim(table, lc, s, w)
  }

  lemma SpyFramed(table: map<string, Eff>, lc: string, below: seq<Cell>, s: seq<Cell>, w: World)
    requires lc !in stackReaders && !SpyPrim(table, lc, s, w).PrimUnderflow?
    ensures SpyPrim(table, lc, below + s, w) == UnderPrim(below, SpyPrim(table, lc, s, w))
  {
    var eff := Lookup(table, lc);
    if eff.Known? {
      var keep := |s| - eff.inputs;
      assert (below + s)[..|below| + keep] == below + s[..keep];
      assert below + s[..keep] + Zeros(eff.outputs) == below + (s[..keep] + Zeros(eff.outputs));
    }
  }

  lemma SpiesMeet(m: Machine, table: map<string, Eff>)
    requires Spies(m, table) && "exit" !in table && "recurse" !in table
    ensures MeetsTable(m, table) && Framed(m)
  {
    forall lc, s, w | lc in table
      ensures PrimFits(m.prim(lc, s, w), s, table[lc])
    {
      assert m.prim(lc, s, w) == SpyPrim(table, lc, s, w);
    }
    forall lc, below, s, w | lc !in stackReaders && !m.prim(lc, s, w).PrimUnderflow?
      ensures m.prim(lc, below + s, w) == UnderPrim(below, m.prim(lc, s, w))
    {
      assert m.prim(lc, s, w) == SpyPrim(table, lc, s, w);
      assert m.prim(lc, below + s, w) == SpyPrim(table, lc, below + s, w);
      SpyFramed(table, lc, below, s, w);
    }
  }

  /** Two states, the second one item deeper, that have reported as often. */
  predicate Deeper(st: State, st': State) {
    |st'.stack| == |st.stack| + 1 && |st'.world.output| == |st.world.output|
  }

  /** The two runs of one word or literal stay one item apart; a report tells them apart for good. */
  lemma SpyStep(m: Machine, env: Env, e: Expr, st: State, st': State, fuel: nat)
    requires m.NamesOf(nowhere) == noNames && Spies(m, env.table) && PlainCode(env, noNames, [e]) && Deeper(st, st')
    requires |st.stack| >= InferExpr(env, noNames, e).inputs
    ensures var o, o', eff := RunExpr(m, nowhere, e, st, fuel), RunExpr(m, nowhere, e, st', fuel),
                              InferExpr(env, noNames, e);
            && eff.Known? && o.Next? && o'.Next? && Deeper(o.state, o'.state)
            && |o.state.stack| == |st.stack| - eff.inputs + eff.outputs
            && (st.world.output != st'.world.output || !QuietExpr({}, noNames, e) ==>
                  o.state.world.output != o'.state.world.output)
  {
    assert e in [e];
    if e.WordRef? {
      var lc := Lower(e.name);
      assert m.prim(lc, st.stack, st.world) == SpyPrim(env.table, lc, st.stack, st.world);
      assert m.prim(lc, st'.stack, st'.world) == SpyPrim(env.table, lc, st'.stack, st'.world);
      LastReport(st.world.output, st'.world.output, |st.stack|, |st'.stack|);
    }
  }

  lemma LastReport(a: seq<Cell>, b: seq<Cell>, x: int, y: int)
    requires |a| == |b|
    ensures a != b || x != y ==> a + [Number(x)] != b + [Number(y)]
  {
    if a + [Number(x)] == b + [Number(y)] {
      assert (a + [Number(x)])[|a|] == (b + [Number(y)])[|b|];
      assert (a + [Number(x)])[..|a|] == a && (b + [Number(y)])[..|b|] == b;
    }
  }

  lemma {:induction false} SpyRun(m: Machine, env: Env, s: seq<Expr>, st: State, st': State, fuel: nat)
    requires m.NamesOf(nowhere) == noNames && Spies(m, env.table) && PlainCode(env, noNames, s) && Deeper(st, st')
    requires InferBlock(env, noNames, s).Known? && |st.stack| >= InferBlock(env, noNames, s).inputs
    ensures var o, o', eff := RunSeq(m, nowhere, s, st, fuel), RunSeq(m, nowhere, s, st', fuel),
                              InferBlock(env, noNames, s);
            && o.Next? && o'.Next? && Deeper(o.state, o'.state)
            && |o.state.stack| == |st.stack| - eff.inputs + eff.outputs
            && (st.world.output != st'.world.output || !QuietSeq({}, noNames, s) ==>
                  o.state.world.output != o'.state.world.output)
    decreases s
  {
    if s != [] {
      assert s[0] in s;
      SpyStep(m, env, s[0], st, st', fuel);
      var o, o' := RunExpr(m, nowhere, s[0], st, fuel), RunExpr(m, nowhere, s[0], st', fuel);
      SpyRun(m, env, s[1..], o.state, o'.state, fuel);
    }
  }
}
