/** What the emitted program looks like: which definitions still catch a return. */
module CompiledShape {
  import opened Forth
  import opened LowerExit
  import opened LowerExitNormal
  import opened Factor
  import opened Emit
  import opened Returns
  import opened Compiler
  import opened PipelineComplete
  import Pipeline

  /** Every definition has gone through all passes, and the rest of the program is as it was. */
  lemma CompiledDefs(m: Machine)
    ensures Compiled(m) == m.(defs := Compiled(m).defs, restoring := true)
    ensures Compiled(m).defs.Keys == m.defs.Keys
    ensures forall lc :: lc in m.defs ==> Completed(lc, m.Words(), m.defs[lc], Compiled(m).defs[lc])
  {
    CompiledComplete(m.defs, m.Words());
  }

  /** A definition whose EXITs all lie outside loops and match expressions is emitted without any: nothing in
      it returns early, and it has no need to catch a return. */
  lemma CleanUncaught(m: Machine, lc: string)
    requires lc in m.defs && Clean(Names(m.defs[lc].scope, m.Words()), Pipeline.Desugar(m.defs[lc].body, lc))
    ensures lc in Compiled(m).defs
    ensures var d, words := Compiled(m).defs[lc], m.Words();
            var n := Names(d.scope, words);
            && !SeqHoldsExit(n, d.body) && GuardedQ(EmitSeq(n, d.body))
            && EmitDef(d, words)
               == Colon(Scope(d), EmitBinds(d.params) + (Restore(Inputs(d)) + EmitSeq(n, d.body)))
  {
    CompiledDefs(m);
    var n, d := Names(m.defs[lc].scope, m.Words()), Compiled(m).defs[lc];
    CleanLosesExit(n, Pipeline.Desugar(m.defs[lc].body, lc));
    UsesHolds(n, d.body);
    EmitGuarded(n, d.body);
  }

  lemma {:induction false} UsesHolds(n: Names, s: seq<Expr>)
    requires !SeqHoldsExit(n, s)
    ensures !SeqUsesExit(n, s)
    decreases SizeSeq(s), 1, |s|
  {
    if s != [] {
      UsesHoldsIn(n, s[0]);
      UsesHolds(n, s[1..]);
    }
  }

  lemma {:induction false} UsesHoldsIn(n: Names, e: Expr)
    requires !ExprHoldsExit(n, e)
    ensures !ExprUsesExit(n, e)
    decreases SizeExpr(e), 0
  {
    match e
    case If(thenBody, elseBody) =>
      UsesHolds(n, thenBody);
      UsesHoldsElse(n, elseBody);
    case BeginUntil(body) => UsesHolds(n, body);
    case BeginAgain(body) => UsesHolds(n, body);
    case BeginWhileRepeat(pred, body) =>
      UsesHolds(n, pred);
      UsesHolds(n, body);
    case DoLoop(_, body, _) => UsesHolds(n, body);
    case Case(arms, default) =>
      UsesHoldsArms(n, arms);
      UsesHoldsElse(n, default);
    case _ =>
  }

  lemma {:induction false} UsesHoldsElse(n: Names, e: Else)
    requires !ElseHoldsExit(n, e)
    ensures !ElseUsesExit(n, e)
    decreases SizeElse(e), 0
  {
    match e
    case NoElse =>
    case ElseBody(body) => UsesHolds(n, body);
  }

  lemma {:induction false} UsesHoldsArms(n: Names, arms: seq<Arm>)
    requires !ArmsHoldExit(n, arms)
    ensures !ArmsUseExit(n, arms)
    decreases SizeArms(arms), 0
  {
    if arms != [] {
      UsesHolds(n, arms[0].body);
      UsesHoldsArms(n, arms[1..]);
    }
  }
}
