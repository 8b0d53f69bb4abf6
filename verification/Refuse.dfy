/** A machine whose builtins sometimes refuse to work runs like the other one until one does. */
module Refuse {
  import opened Forth

  /** The same program; each call of a builtin fails, or does what it does on m. */
  ghost predicate Refuses(k: Machine, m: Machine) {
    && k.defs == m.defs && k.vars == m.vars && k.restoring == m.restoring
    && forall p, s, w :: k.prim(p, s, w) == PrimFault || k.prim(p, s, w) == m.prim(p, s, w)
  }

  predicate Until(o: Outcome, full: Outcome) {
    o == Fault || o == full
  }

  lemma {:induction false} SeqUntil(k: Machine, m: Machine, c: Context, s: seq<Expr>, st: State, fuel: nat)
    requires Refuses(k, m)
    ensures Until(RunSeq(k, c, s, st, fuel), RunSeq(m, c, s, st, fuel))
    decreases fuel, SizeSeq(s), 6, |s|
  {
    if s != [] {
      ExprUntil(k, m, c, s[0], st, fuel);
      match RunExpr(k, c, s[0], st, fuel)
      case Next(st1) => SeqUntil(k, m, c, s[1..], st1, fuel);
      case _ =>
    }
  }

  lemma {:induction false} ExprUntil(k: Machine, m: Machine, c: Context, e: Expr, st: State, fuel: nat)
    requires Refuses(k, m)
    ensures Until(RunExpr(k, c, e, st, fuel), RunExpr(m, c, e, st, fuel))
    decreases fuel, SizeExpr(e), 5
  {
    match e
    case WordRef(name) => WordUntil(k, m, c, name, st, fuel);
    case If(thenBody, elseBody) =>
      if |st.stack| > 0 {
        SeqUntil(k, m, c, thenBody, Pop(st), fuel);
        ElseUntil(k, m, c, elseBody, Pop(st), fuel);
      }
    case Case(arms, default) => ArmsUntil(k, m, c, arms, default, st, fuel);
    case DoLoop(_, _, _) =>
      if |st.stack| >= 2 && Top(st.stack).Number? && Top(Drop(st.stack)).Number? {
        LoopUntil(k, m, c, e, PushFrame(Pop(Pop(st)), Top(Drop(st.stack)).n, Top(st.stack).n), fuel);
      }
    case BeginUntil(_) => LoopUntil(k, m, c, e, st, fuel);
    case BeginAgain(_) => LoopUntil(k, m, c, e, st, fuel);
    case BeginWhileRepeat(_, _) => LoopUntil(k, m, c, e, st, fuel);
    case Global(access, x) =>
      if access == Add && x in st.world.values {
        PrimUntil(k, m, "+", Push(st, st.world.values[x]));
      }
    case _ =>
  }

  lemma PrimUntil(k: Machine, m: Machine, lc: string, st: State)
    requires Refuses(k, m)
    ensures Until(RunPrim(k, lc, st), RunPrim(m, lc, st))
  {
    var r := k.prim(lc, st.stack, st.world);
    assert r == PrimFault || r == m.prim(lc, st.stack, st.world);
  }

  lemma {:induction false} ElseUntil(k: Machine, m: Machine, c: Context, e: Else, st: State, fuel: nat)
    requires Refuses(k, m)
    ensures Until(RunElse(k, c, e, st, fuel), RunElse(m, c, e, st, fuel))
    decreases fuel, SizeElse(e), 1
  {
    match e
    case NoElse =>
    case ElseBody(body) => SeqUntil(k, m, c, body, st, fuel);
  }

  lemma {:induction false} WordUntil(k: Machine, m: Machine, c: Context, name: string, st: State, fuel: nat)
    requires Refuses(k, m)
    ensures Until(RunWord(k, c, name, st, fuel), RunWord(m, c, name, st, fuel))
    decreases fuel, 0, 0
  {
    var lc := Lower(name);
    assert k.NamesOf(c) == m.NamesOf(c);
    match Resolve(m.NamesOf(c), name)
    case UserDefined => if lc in m.defs && fuel > 0 { CallUntil(k, m, lc, st, fuel - 1); }
    case Builtin =>
      if lc != "recurse" {
        PrimUntil(k, m, lc, st);
      } else if Lower(c.self) in m.defs && fuel > 0 {
        CallUntil(k, m, Lower(c.self), st, fuel - 1);
      }
    case _ =>
  }

  lemma {:induction false} CallUntil(k: Machine, m: Machine, lc: string, st: State, fuel: nat)
    requires Refuses(k, m) && lc in m.defs
    ensures Until(Call(k, lc, st, fuel), Call(m, lc, st, fuel))
    decreases fuel
  {
    var d := m.defs[lc];
    match Enter(m, d, st)
    case Next(entry) => SeqUntil(k, m, Context(d.scope, lc), d.body, entry, fuel);
    case _ =>
  }

  lemma {:induction false} ArmsUntil(k: Machine, m: Machine, c: Context, arms: seq<Arm>, default: Else, st: State,
                                     fuel: nat)
    requires Refuses(k, m)
    ensures Until(RunArms(k, c, arms, default, st, fuel), RunArms(m, c, arms, default, st, fuel))
    decreases fuel, SizeArms(arms) + SizeElse(default), 2
  {
    if arms == [] {
      ElseUntil(k, m, c, default, st, fuel);
    } else {
      SeqUntil(k, m, c, arms[0].matchExpr, st, fuel);
      match RunSeq(k, c, arms[0].matchExpr, st, fuel)
      case Next(st1) =>
        if |st1.stack| >= 2 {
          SeqUntil(k, m, c, arms[0].body, Pop(Pop(st1)), fuel);
          ArmsUntil(k, m, c, arms[1..], default, Pop(st1), fuel);
        }
      case _ =>
    }
  }

  lemma {:induction false} LoopUntil(k: Machine, m: Machine, c: Context, e: Expr, st: State, fuel: nat)
    requires IsLoop(e) && Refuses(k, m)
    ensures Until(RunLoop(k, c, e, st, fuel), RunLoop(m, c, e, st, fuel))
    decreases fuel, SizeExpr(e), 4
  {
    if fuel > 0 {
      TurnUntil(k, m, c, e, st, fuel);
      match LoopTurn(k, c, e, st, fuel)
      case Repeat(st1) => LoopUntil(k, m, c, e, st1, fuel - 1);
      case _ =>
    }
  }

  lemma {:induction false} TurnUntil(k: Machine, m: Machine, c: Context, e: Expr, st: State, fuel: nat)
    requires IsLoop(e) && Refuses(k, m)
    ensures var t := LoopTurn(k, c, e, st, fuel); t == Leave(Fault) || t == LoopTurn(m, c, e, st, fuel)
    decreases fuel, SizeExpr(e), 3
  {
    match e
    case BeginUntil(body) => SeqUntil(k, m, c, body, st, fuel);
    case BeginAgain(body) => SeqUntil(k, m, c, body, st, fuel);
    case DoLoop(_, body, _) => SeqUntil(k, m, c, body, st, fuel);
    case BeginWhileRepeat(pred, body) =>
      SeqUntil(k, m, c, pred, st, fuel);
      match WhileTest(RunSeq(k, c, pred, st, fuel)) {
        case Repeat(st1) => SeqUntil(k, m, c, body, st1, fuel);
        case _ =>
      }
  }
}
