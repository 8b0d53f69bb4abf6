/** What it means that a body does not say RECURSE: it runs alike in every definition. */
module RecurseGone {
  import opened Forth
  import opened LowerRecurse

  // ----- the rewriting changes just the bodies that say RECURSE -----

  /** The pass changes a body if and only if the body says RECURSE. */
  lemma {:induction false} SawExactly(s: seq<Expr>, target: string)
    requires Lower(target) != "recurse"
    ensures SawSeq(s) <==> RecurseSeq(s, target) != s
  {
    if SawSeq(s) {
      RecurseLeavesNone(s, target);
    } else {
      UnseenSame(s, target);
    }
  }

  lemma {:induction false} UnseenSame(s: seq<Expr>, target: string)
    requires !SawSeq(s)
    ensures RecurseSeq(s, target) == s
    decreases SizeSeq(s), 1, |s|
  {
    if s != [] {
      UnseenSameExpr(s[0], target);
      UnseenSame(s[1..], target);
    }
  }

  lemma {:induction false} UnseenSameExpr(e: Expr, target: string)
    requires !SawExpr(e)
    ensures RecurseExpr(e, target) == e
    decreases SizeExpr(e), 0, 0
  {
    match e
    case If(thenBody, elseBody) =>
      UnseenSame(thenBody, target);
      UnseenSameElse(elseBody, target);
    case BeginUntil(body) => UnseenSame(body, target);
    case BeginAgain(body) => UnseenSame(body, target);
    case BeginWhileRepeat(pred, body) =>
      UnseenSame(pred, target);
      UnseenSame(body, target);
    case DoLoop(_, body, _) => UnseenSame(body, target);
    case Case(arms, default) =>
      UnseenSameArms(arms, target);
      UnseenSameElse(default, target);
    case _ =>
  }

  lemma {:induction false} UnseenSameElse(e: Else, target: string)
    requires !SawElse(e)
    ensures RecurseElse(e, target) == e
    decreases SizeElse(e), 0, 0
  {
    match e
    case NoElse =>
    case ElseBody(body) => UnseenSame(body, target);
  }

  lemma {:induction false} UnseenSameArms(arms: seq<Arm>, target: string)
    requires !SawArms(arms)
    ensures RecurseArms(arms, target) == arms
    decreases SizeArms(arms), 0, 0
  {
    if arms != [] {
      UnseenSame(arms[0].matchExpr, target);
      UnseenSame(arms[0].body, target);
      UnseenSameArms(arms[1..], target);
    }
  }

  // ----- a body that does not say RECURSE -----

  /** A body without RECURSE does not depend on the definition that it is in. */
  lemma {:induction false} SelfIgnored(m: Machine, c: Context, self: string, s: seq<Expr>, st: State, fuel: nat)
    requires !SawSeq(s)
    ensures RunSeq(m, c.(self := self), s, st, fuel) == RunSeq(m, c, s, st, fuel)
    decreases fuel, SizeSeq(s), 6, |s|
  {
    if s != [] {
      SelfIgnoredIn(m, c, self, s[0], st, fuel);
      match RunExpr(m, c, s[0], st, fuel)
      case Next(st1) => SelfIgnored(m, c, self, s[1..], st1, fuel);
      case _ =>
    }
  }

  lemma {:induction false} SelfIgnoredIn(m: Machine, c: Context, self: string, e: Expr, st: State, fuel: nat)
    requires !SawExpr(e)
    ensures RunExpr(m, c.(self := self), e, st, fuel) == RunExpr(m, c, e, st, fuel)
    decreases fuel, SizeExpr(e), 5
  {
    match e
    case WordRef(name) => SelfIgnoredWord(m, c, self, name, st, fuel);
    case If(thenBody, elseBody) =>
      if |st.stack| > 0 {
        SelfIgnored(m, c, self, thenBody, Pop(st), fuel);
        SelfIgnoredElse(m, c, self, elseBody, Pop(st), fuel);
      }
    case Case(arms, default) => SelfIgnoredArms(m, c, self, arms, default, st, fuel);
    case DoLoop(_, _, _) =>
      if |st.stack| >= 2 && Top(st.stack).Number? && Top(Drop(st.stack)).Number? {
        SelfIgnoredLoop(m, c, self, e, PushFrame(Pop(Pop(st)), Top(Drop(st.stack)).n, Top(st.stack).n), fuel);
      }
    case BeginUntil(_) => SelfIgnoredLoop(m, c, self, e, st, fuel);
    case BeginAgain(_) => SelfIgnoredLoop(m, c, self, e, st, fuel);
    case BeginWhileRepeat(_, _) => SelfIgnoredLoop(m, c, self, e, st, fuel);
    case _ =>
  }

  lemma SelfIgnoredWord(m: Machine, c: Context, self: string, name: string, st: State, fuel: nat)
    requires Lower(name) != "recurse"
    ensures RunWord(m, c.(self := self), name, st, fuel) == RunWord(m, c, name, st, fuel)
  {
    assert m.NamesOf(c.(self := self)) == m.NamesOf(c);
  }

  lemma {:induction false} SelfIgnoredElse(m: Machine, c: Context, self: string, e: Else, st: State, fuel: nat)
    requires !SawElse(e)
    ensures RunElse(m, c.(self := self), e, st, fuel) == RunElse(m, c, e, st, fuel)
    decreases fuel, SizeElse(e), 1
  {
    match e
    case NoElse =>
    case ElseBody(body) => SelfIgnored(m, c, self, body, st, fuel);
  }

  lemma {:induction false} SelfIgnoredArms(m: Machine, c: Context, self: string, arms: seq<Arm>, default: Else,
                                           st: State, fuel: nat)
    requires !SawArms(arms) && !SawElse(default)
    ensures RunArms(m, c.(self := self), arms, default, st, fuel) == RunArms(m, c, arms, default, st, fuel)
    decreases fuel, SizeArms(arms) + SizeElse(default), 2
  {
    if arms == [] {
      SelfIgnoredElse(m, c, self, default, st, fuel);
    } else {
      SelfIgnored(m, c, self, arms[0].matchExpr, st, fuel);
      match RunSeq(m, c, arms[0].matchExpr, st, fuel)
      case Next(st1) =>
        if |st1.stack| >= 2 {
          SelfIgnored(m, c, self, arms[0].body, Pop(Pop(st1)), fuel);
          SelfIgnoredArms(m, c, self, arms[1..], default, Pop(st1), fuel);
        }
      case _ =>
    }
  }

  lemma {:induction false} SelfIgnoredLoop(m: Machine, c: Context, self: string, e: Expr, st: State, fuel: nat)
    requires IsLoop(e) && !SawExpr(e)
    ensures RunLoop(m, c.(self := self), e, st, fuel) == RunLoop(m, c, e, st, fuel)
    decreases fuel, SizeExpr(e), 4
  {
    if fuel > 0 {
      SelfIgnoredTurn(m, c, self, e, st, fuel);
      match LoopTurn(m, c, e, st, fuel)
      case Repeat(st1) => SelfIgnoredLoop(m, c, self, e, st1, fuel - 1);
      case _ =>
    }
  }

  lemma {:induction false} SelfIgnoredTurn(m: Machine, c: Context, self: string, e: Expr, st: State, fuel: nat)
    requires IsLoop(e) && !SawExpr(e)
    ensures LoopTurn(m, c.(self := self), e, st, fuel) == LoopTurn(m, c, e, st, fuel)
    decreases fuel, SizeExpr(e), 3
  {
    match e
    case BeginUntil(body) => SelfIgnored(m, c, self, body, st, fuel);
    case BeginAgain(body) => SelfIgnored(m, c, self, body, st, fuel);
    case DoLoop(_, body, _) => SelfIgnored(m, c, self, body, st, fuel);
    case BeginWhileRepeat(pred, body) =>
      SelfIgnored(m, c, self, pred, st, fuel);
      match WhileTest(RunSeq(m, c, pred, st, fuel))
      case Repeat(st1) => SelfIgnored(m, c, self, body, st1, fuel);
      case _ =>
  }

  /** A rewritten body runs as its definition does, in whatever definition it stands. */
  lemma RewrittenAnywhere(m: Machine, c: Context, self: string, s: seq<Expr>, st: State, fuel: nat)
    requires Lower(c.self) in m.defs && SelfVisible(c, m.Words()) && Lower(c.self) != "recurse"
    ensures RunSeq(m, c.(self := self), RecurseSeq(s, c.self), st, fuel) == RunSeq(m, c, s, st, fuel)
  {
    RecurseLeavesNone(s, c.self);
    SelfIgnored(m, c, self, RecurseSeq(s, c.self), st, fuel);
    RecursePreserves(m, c, s);
  }
}
