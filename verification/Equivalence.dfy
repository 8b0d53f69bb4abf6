/** When two programs are interchangeable: facts about running that every compiler pass uses. */
module Equivalence {
  import opened Forth

  // ----- sequences -----

  lemma {:induction false} SizeConcat(a: seq<Expr>, b: seq<Expr>)
    ensures SizeSeq(a + b) == SizeSeq(a) + SizeSeq(b)
  {
    if a == [] {
      assert a + b == b;
    } else {
      assert (a + b)[1..] == a[1..] + b;
      SizeConcat(a[1..], b);
    }
  }

  /** A body followed by another runs the second where the first ends normally. */
  ghost function AndThen(m: Machine, c: Context, o: Outcome, s: seq<Expr>, fuel: nat): Outcome {
    match o
    case Next(st) => RunSeq(m, c, s, st, fuel)
    case other => other
  }

  lemma {:induction false} RunConcat(m: Machine, c: Context, a: seq<Expr>, b: seq<Expr>, st: State, fuel: nat)
    ensures RunSeq(m, c, a + b, st, fuel) == AndThen(m, c, RunSeq(m, c, a, st, fuel), b, fuel)
    decreases a
  {
    if a == [] {
      assert a + b == b;
    } else {
      assert (a + b)[0] == a[0] && (a + b)[1..] == a[1..] + b;
      match RunExpr(m, c, a[0], st, fuel)
      case Next(st1) => RunConcat(m, c, a[1..], b, st1, fuel);
      case _ =>
    }
  }

  lemma RunOne(m: Machine, c: Context, e: Expr, st: State, fuel: nat)
    ensures RunSeq(m, c, [e], st, fuel) == RunExpr(m, c, e, st, fuel)
  {
    assert [e][1..] == [];
    match RunExpr(m, c, e, st, fuel)
    case Next(st1) => assert RunSeq(m, c, [], st1, fuel) == Next(st1);
    case _ =>
  }

  /** A body that starts with e. */
  lemma RunCons(m: Machine, c: Context, e: Expr, rest: seq<Expr>, st: State, fuel: nat)
    ensures RunSeq(m, c, [e] + rest, st, fuel) == AndThen(m, c, RunExpr(m, c, e, st, fuel), rest, fuel)
  {
    RunConcat(m, c, [e], rest, st, fuel);
    RunOne(m, c, e, st, fuel);
  }

  // ----- programs -----

  /** Machines that run the standard with the same builtins, whose definitions have the same names,
      parameters and scopes; bodies may differ. */
  ghost predicate Redefines(m: Machine, m': Machine) {
    && !m.restoring && !m'.restoring && m'.prim == m.prim && m'.vars == m.vars
    && m'.defs.Keys == m.defs.Keys
    && forall lc :: lc in m.defs ==> m'.defs[lc].params == m.defs[lc].params && m'.defs[lc].scope == m.defs[lc].scope
  }

  /** Every call of less fuel gives the same outcome on both machines. */
  ghost predicate CallsAgree(m: Machine, m': Machine, fuel: nat) {
    m.defs.Keys == m'.defs.Keys &&
    forall lc, st, f: nat :: lc in m.defs && f < fuel ==> Call(m, lc, st, f) == Call(m', lc, st, f)
  }

  /** Machines whose calls agree run every body alike. */
  lemma {:induction false} SeqAgrees(m: Machine, m': Machine, c: Context, s: seq<Expr>, st: State, fuel: nat)
    requires Redefines(m, m') && CallsAgree(m, m', fuel)
    ensures RunSeq(m, c, s, st, fuel) == RunSeq(m', c, s, st, fuel)
    decreases fuel, SizeSeq(s), 6, |s|
  {
    if s != [] {
      ExprAgrees(m, m', c, s[0], st, fuel);
      match RunExpr(m, c, s[0], st, fuel)
      case Next(st1) => SeqAgrees(m, m', c, s[1..], st1, fuel);
      case _ =>
    }
  }

  lemma {:induction false} ExprAgrees(m: Machine, m': Machine, c: Context, e: Expr, st: State, fuel: nat)
    requires Redefines(m, m') && CallsAgree(m, m', fuel)
    ensures RunExpr(m, c, e, st, fuel) == RunExpr(m', c, e, st, fuel)
    decreases fuel, SizeExpr(e), 5
  {
    match e
    case If(_, _) => IfAgrees(m, m', c, e, st, fuel);
    case Case(arms, default) =>
      ArmsAgree(m, m', c, arms, default, st, fuel);
    case DoLoop(_, _, _) => DoAgrees(m, m', c, e, st, fuel);
    case BeginUntil(_) => LoopAgrees(m, m', c, e, st, fuel);
    case BeginAgain(_) => LoopAgrees(m, m', c, e, st, fuel);
    case BeginWhileRepeat(_, _) => LoopAgrees(m, m', c, e, st, fuel);
    case WordRef(name) => WordAgrees(m, m', c, name, st, fuel);
    case _ =>
  }

  lemma {:induction false} IfAgrees(m: Machine, m': Machine, c: Context, e: Expr, st: State, fuel: nat)
    requires e.If? && Redefines(m, m') && CallsAgree(m, m', fuel)
    ensures RunExpr(m, c, e, st, fuel) == RunExpr(m', c, e, st, fuel)
    decreases fuel, SizeExpr(e), 5, 0
  {
    if |st.stack| > 0 {
      SeqAgrees(m, m', c, e.thenBody, Pop(st), fuel);
      ElseAgrees(m, m', c, e.elseBody, Pop(st), fuel);
    }
  }

  lemma {:induction false} DoAgrees(m: Machine, m': Machine, c: Context, e: Expr, st: State, fuel: nat)
    requires e.DoLoop? && Redefines(m, m') && CallsAgree(m, m', fuel)
    ensures RunExpr(m, c, e, st, fuel) == RunExpr(m', c, e, st, fuel)
    decreases fuel, SizeExpr(e), 5, 0
  {
    if |st.stack| >= 2 && Top(st.stack).Number? && Top(Drop(st.stack)).Number? {
      LoopAgrees(m, m', c, e, PushFrame(Pop(Pop(st)), Top(Drop(st.stack)).n, Top(st.stack).n), fuel);
    }
  }

  lemma WordAgrees(m: Machine, m': Machine, c: Context, name: string, st: State, fuel: nat)
    requires Redefines(m, m') && CallsAgree(m, m', fuel)
    ensures RunWord(m, c, name, st, fuel) == RunWord(m', c, name, st, fuel)
  {
    assert m.NamesOf(c) == m'.NamesOf(c);
    if fuel > 0 {
      var f: nat := fuel - 1;
      assert forall lc :: lc in m.defs ==> Call(m, lc, st, f) == Call(m', lc, st, f);
    }
  }

  lemma {:induction false} ElseAgrees(m: Machine, m': Machine, c: Context, e: Else, st: State, fuel: nat)
    requires Redefines(m, m') && CallsAgree(m, m', fuel)
    ensures RunElse(m, c, e, st, fuel) == RunElse(m', c, e, st, fuel)
    decreases fuel, SizeElse(e), 1
  {
    match e
    case NoElse =>
    case ElseBody(body) => SeqAgrees(m, m', c, body, st, fuel);
  }

  lemma {:induction false} ArmsAgree(m: Machine, m': Machine, c: Context, arms: seq<Arm>, default: Else, st: State,
                                     fuel: nat)
    requires Redefines(m, m') && CallsAgree(m, m', fuel)
    ensures RunArms(m, c, arms, default, st, fuel) == RunArms(m', c, arms, default, st, fuel)
    decreases fuel, SizeArms(arms) + SizeElse(default), 2
  {
    if arms == [] {
      ElseAgrees(m, m', c, default, st, fuel);
    } else {
      SeqAgrees(m, m', c, arms[0].matchExpr, st, fuel);
      match RunSeq(m, c, arms[0].matchExpr, st, fuel)
      case Next(st1) =>
        if |st1.stack| >= 2 {
          SeqAgrees(m, m', c, arms[0].body, Pop(Pop(st1)), fuel);
          ArmsAgree(m, m', c, arms[1..], default, Pop(st1), fuel);
        }
      case _ =>
    }
  }

  lemma {:induction false} LoopAgrees(m: Machine, m': Machine, c: Context, e: Expr, st: State, fuel: nat)
    requires IsLoop(e) && Redefines(m, m') && CallsAgree(m, m', fuel)
    ensures RunLoop(m, c, e, st, fuel) == RunLoop(m', c, e, st, fuel)
    decreases fuel, SizeExpr(e), 4
  {
    if fuel > 0 {
      TurnAgrees(m, m', c, e, st, fuel);
      match LoopTurn(m, c, e, st, fuel)
      case Repeat(st1) => LoopAgrees(m, m', c, e, st1, fuel - 1);
      case _ =>
    }
  }

  lemma {:induction false} TurnAgrees(m: Machine, m': Machine, c: Context, e: Expr, st: State, fuel: nat)
    requires IsLoop(e) && Redefines(m, m') && CallsAgree(m, m', fuel)
    ensures LoopTurn(m, c, e, st, fuel) == LoopTurn(m', c, e, st, fuel)
    decreases fuel, SizeExpr(e), 3
  {
    match e
    case BeginUntil(body) => SeqAgrees(m, m', c, body, st, fuel);
    case BeginAgain(body) => SeqAgrees(m, m', c, body, st, fuel);
    case DoLoop(_, body, _) => SeqAgrees(m, m', c, body, st, fuel);
    case BeginWhileRepeat(pred, body) =>
      SeqAgrees(m, m', c, pred, st, fuel);
      match WhileTest(RunSeq(m, c, pred, st, fuel))
      case Repeat(st1) => SeqAgrees(m, m', c, body, st1, fuel);
      case _ =>
  }

  /** Each new body ends a new call as the old one ends an old call, both run on the old machine. */
  ghost predicate BodiesAgree(m: Machine, m': Machine) {
    Redefines(m, m') &&
    forall lc, caller, entry, f: nat :: lc in m.defs ==>
      EndCall(m', caller, entry, RunSeq(m, Context(m.defs[lc].scope, lc), m'.defs[lc].body, entry, f))
      == EndCall(m, caller, entry, RunSeq(m, Context(m.defs[lc].scope, lc), m.defs[lc].body, entry, f))
  }

  lemma {:induction false} AllCallsAgree(m: Machine, m': Machine, fuel: nat)
    requires BodiesAgree(m, m')
    ensures CallsAgree(m, m', fuel)
  {
    if fuel > 0 {
      var f: nat := fuel - 1;
      AllCallsAgree(m, m', f);
      forall lc, st | lc in m.defs
        ensures Call(m, lc, st, f) == Call(m', lc, st, f)
      {
        var d, d' := m.defs[lc], m'.defs[lc];
        assert Enter(m', d', st) == Enter(m, d, st);
        match Enter(m, d, st)
        case Next(entry) =>
          SeqAgrees(m, m', Context(d.scope, lc), d'.body, entry, f);
          assert EndCall(m', st, entry, RunSeq(m, Context(m.defs[lc].scope, lc), m'.defs[lc].body, entry, f))
              == EndCall(m, st, entry, RunSeq(m, Context(m.defs[lc].scope, lc), m.defs[lc].body, entry, f));
        case _ =>
      }
    }
  }

  /** If every new body agrees with the old one, the whole programs agree: every body runs alike on
      both machines, with the same fuel. */
  lemma ProgramsAgree(m: Machine, m': Machine, c: Context, s: seq<Expr>, st: State, fuel: nat)
    requires BodiesAgree(m, m')
    ensures RunSeq(m', c, s, st, fuel) == RunSeq(m, c, s, st, fuel)
  {
    AllCallsAgree(m, m', fuel);
    SeqAgrees(m, m', c, s, st, fuel);
  }
}
