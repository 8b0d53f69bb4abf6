/** Bodies that run alike may replace each other inside any construct. */
module Congruence {
  import opened Forth
  import opened Equivalence

  ghost predicate SameSeq(m: Machine, c: Context, a: seq<Expr>, b: seq<Expr>) {
    forall st, fuel :: RunSeq(m, c, a, st, fuel) == RunSeq(m, c, b, st, fuel)
  }

  ghost predicate SameExpr(m: Machine, c: Context, a: Expr, b: Expr) {
    forall st, fuel :: RunExpr(m, c, a, st, fuel) == RunExpr(m, c, b, st, fuel)
  }

  ghost predicate SameElse(m: Machine, c: Context, a: Else, b: Else) {
    forall st, fuel :: RunElse(m, c, a, st, fuel) == RunElse(m, c, b, st, fuel)
  }

  ghost predicate SameArms(m: Machine, c: Context, a: seq<Arm>, b: seq<Arm>)
    decreases |a|
  {
    |a| == |b| &&
    (a != [] ==>
      SameSeq(m, c, a[0].matchExpr, b[0].matchExpr) && SameSeq(m, c, a[0].body, b[0].body) &&
      SameArms(m, c, a[1..], b[1..]))
  }

  lemma SameCons(m: Machine, c: Context, e: Expr, e': Expr, s: seq<Expr>, s': seq<Expr>)
    requires SameExpr(m, c, e, e') && SameSeq(m, c, s, s')
    ensures SameSeq(m, c, [e] + s, [e'] + s')
  {
    forall st, fuel
      ensures RunSeq(m, c, [e] + s, st, fuel) == RunSeq(m, c, [e'] + s', st, fuel)
    {
      RunCons(m, c, e, s, st, fuel);
      RunCons(m, c, e', s', st, fuel);
    }
  }

  lemma SameConcat(m: Machine, c: Context, a: seq<Expr>, a': seq<Expr>, b: seq<Expr>, b': seq<Expr>)
    requires SameSeq(m, c, a, a') && SameSeq(m, c, b, b')
    ensures SameSeq(m, c, a + b, a' + b')
  {
    forall st, fuel
      ensures RunSeq(m, c, a + b, st, fuel) == RunSeq(m, c, a' + b', st, fuel)
    {
      RunConcat(m, c, a, b, st, fuel);
      RunConcat(m, c, a', b', st, fuel);
    }
  }

  lemma SameElseBody(m: Machine, c: Context, s: seq<Expr>, s': seq<Expr>)
    requires SameSeq(m, c, s, s')
    ensures SameElse(m, c, ElseBody(s), ElseBody(s'))
  {}

  lemma SameIf(m: Machine, c: Context, t: seq<Expr>, t': seq<Expr>, f: Else, f': Else)
    requires SameSeq(m, c, t, t') && SameElse(m, c, f, f')
    ensures SameExpr(m, c, If(t, f), If(t', f'))
  {}

  lemma {:induction false} SameRunArms(m: Machine, c: Context, arms: seq<Arm>, arms': seq<Arm>, d: Else, d': Else,
                                       st: State, fuel: nat)
    requires SameArms(m, c, arms, arms') && SameElse(m, c, d, d')
    ensures RunArms(m, c, arms, d, st, fuel) == RunArms(m, c, arms', d', st, fuel)
    decreases |arms|
  {
    if arms != [] {
      match RunSeq(m, c, arms[0].matchExpr, st, fuel)
      case Next(st1) =>
        if |st1.stack| >= 2 {
          SameRunArms(m, c, arms[1..], arms'[1..], d, d', Pop(st1), fuel);
        }
      case _ =>
    }
  }

  lemma SameCase(m: Machine, c: Context, arms: seq<Arm>, arms': seq<Arm>, d: Else, d': Else)
    requires SameArms(m, c, arms, arms') && SameElse(m, c, d, d')
    ensures SameExpr(m, c, Case(arms, d), Case(arms', d'))
  {
    forall st, fuel
      ensures RunExpr(m, c, Case(arms, d), st, fuel) == RunExpr(m, c, Case(arms', d'), st, fuel)
    {
      SameRunArms(m, c, arms, arms', d, d', st, fuel);
    }
  }

  /** Loops of one kind whose bodies run alike. */
  ghost predicate SameParts(m: Machine, c: Context, a: Expr, b: Expr) {
    match a
    case BeginUntil(body) => b.BeginUntil? && SameSeq(m, c, body, b.body)
    case BeginAgain(body) => b.BeginAgain? && SameSeq(m, c, body, b.body)
    case BeginWhileRepeat(pred, body) =>
      b.BeginWhileRepeat? && SameSeq(m, c, pred, b.pred) && SameSeq(m, c, body, b.body)
    case DoLoop(isQdo, body, kind) =>
      b.DoLoop? && b.isQdo == isQdo && b.kind == kind && SameSeq(m, c, body, b.body)
    case _ => false
  }

  lemma SameTurn(m: Machine, c: Context, a: Expr, b: Expr, st: State, fuel: nat)
    requires IsLoop(a) && SameParts(m, c, a, b)
    ensures LoopTurn(m, c, a, st, fuel) == LoopTurn(m, c, b, st, fuel)
  {
    match a
    case BeginUntil(body) => assert RunSeq(m, c, body, st, fuel) == RunSeq(m, c, b.body, st, fuel);
    case BeginAgain(body) => assert RunSeq(m, c, body, st, fuel) == RunSeq(m, c, b.body, st, fuel);
    case BeginWhileRepeat(pred, body) => assert RunSeq(m, c, pred, st, fuel) == RunSeq(m, c, b.pred, st, fuel);
    case DoLoop(isQdo, body, kind) => assert RunSeq(m, c, body, st, fuel) == RunSeq(m, c, b.body, st, fuel);
  }

  lemma {:induction false} SameRunLoop(m: Machine, c: Context, a: Expr, b: Expr, st: State, fuel: nat)
    requires IsLoop(a) && SameParts(m, c, a, b)
    ensures RunLoop(m, c, a, st, fuel) == RunLoop(m, c, b, st, fuel)
    decreases fuel
  {
    if fuel > 0 {
      SameTurn(m, c, a, b, st, fuel);
      match LoopTurn(m, c, a, st, fuel)
      case Repeat(st1) => SameRunLoop(m, c, a, b, st1, fuel - 1);
      case _ =>
    }
  }

  lemma SameLoop(m: Machine, c: Context, a: Expr, b: Expr)
    requires IsLoop(a) && SameParts(m, c, a, b)
    ensures SameExpr(m, c, a, b)
  {
    forall st, fuel
      ensures RunExpr(m, c, a, st, fuel) == RunExpr(m, c, b, st, fuel)
    {
      if a.DoLoop? {
        if |st.stack| >= 2 && Top(st.stack).Number? && Top(Drop(st.stack)).Number? {
          SameRunLoop(m, c, a, b, PushFrame(Pop(Pop(st)), Top(Drop(st.stack)).n, Top(st.stack).n), fuel);
        }
      } else {
        SameRunLoop(m, c, a, b, st, fuel);
      }
    }
  }
}
