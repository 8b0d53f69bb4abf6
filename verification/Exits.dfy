/** What EXIT finds on the stack: bodies that never exit, and bodies whose exits all find the stack as it
    was on entry. */
module Exits {
  import opened Forth
  import opened Equivalence
  import opened Effects
  import opened EffectSound
  import opened LowerExit

  // ----- bodies without EXIT do not exit -----

  /** A body that holds no EXIT does not exit, whatever it calls. */
  lemma {:induction false} SeqNeverExits(m: Machine, c: Context, s: seq<Expr>, st: State, fuel: nat)
    requires !SeqHoldsExit(m.NamesOf(c), s)
    ensures !RunSeq(m, c, s, st, fuel).Exit?
    decreases fuel, SizeSeq(s), 6, |s|
  {
    if s != [] {
      ExprNeverExits(m, c, s[0], st, fuel);
      match RunExpr(m, c, s[0], st, fuel)
      case Next(st1) => SeqNeverExits(m, c, s[1..], st1, fuel);
      case _ =>
    }
  }

  lemma {:induction false} BindNeverExits(names: seq<string>, st: State)
    ensures !BindLocals(names, st).Exit?
    decreases names
  {
    if names != [] && |st.stack| > 0 {
      var last := names[|names| - 1];
      var st1 := Pop(st);
      BindNeverExits(names[..|names| - 1],
                     if last == "_" then st1 else st1.(locals := st1.locals[Lower(last) := Top(st.stack)]));
    }
  }

  lemma EnterNeverExits(m: Machine, d: Definition, st: State)
    ensures !Enter(m, d, st).Exit?
  {
    BindNeverExits(d.params, st.(locals := map[]));
  }

  lemma CallNeverExits(m: Machine, lc: string, st: State, fuel: nat)
    requires lc in m.defs
    ensures !Call(m, lc, st, fuel).Exit?
  {
    EnterNeverExits(m, m.defs[lc], st);
  }

  lemma WordNeverExits(m: Machine, c: Context, name: string, st: State, fuel: nat)
    requires Resolve(m.NamesOf(c), name) != Return
    ensures !RunWord(m, c, name, st, fuel).Exit?
  {
    if fuel > 0 {
      if Lower(name) in m.defs {
        CallNeverExits(m, Lower(name), st, fuel - 1);
      }
      if Lower(c.self) in m.defs {
        CallNeverExits(m, Lower(c.self), st, fuel - 1);
      }
    }
  }

  lemma {:induction false} ExprNeverExits(m: Machine, c: Context, e: Expr, st: State, fuel: nat)
    requires !ExprHoldsExit(m.NamesOf(c), e)
    ensures !RunExpr(m, c, e, st, fuel).Exit?
    decreases fuel, SizeExpr(e), 5
  {
    match e
    case WordRef(name) => WordNeverExits(m, c, name, st, fuel);
    case If(thenBody, elseBody) =>
      if |st.stack| > 0 {
        SeqNeverExits(m, c, thenBody, Pop(st), fuel);
        ElseNeverExits(m, c, elseBody, Pop(st), fuel);
      }
    case Case(arms, default) => ArmsNeverExit(m, c, arms, default, st, fuel);
    case DoLoop(_, _, _) =>
      if |st.stack| >= 2 && Top(st.stack).Number? && Top(Drop(st.stack)).Number? {
        LoopNeverExits(m, c, e, PushFrame(Pop(Pop(st)), Top(Drop(st.stack)).n, Top(st.stack).n), fuel);
      }
    case BeginUntil(_) => LoopNeverExits(m, c, e, st, fuel);
    case BeginAgain(_) => LoopNeverExits(m, c, e, st, fuel);
    case BeginWhileRepeat(_, _) => LoopNeverExits(m, c, e, st, fuel);
    case Locals(names) => BindNeverExits(names, st);
    case _ =>
  }

  lemma {:induction false} ElseNeverExits(m: Machine, c: Context, e: Else, st: State, fuel: nat)
    requires !ElseHoldsExit(m.NamesOf(c), e)
    ensures !RunElse(m, c, e, st, fuel).Exit?
    decreases fuel, SizeElse(e), 1
  {
    match e
    case NoElse =>
    case ElseBody(body) => SeqNeverExits(m, c, body, st, fuel);
  }

  lemma {:induction false} ArmsNeverExit(m: Machine, c: Context, arms: seq<Arm>, default: Else, st: State, fuel: nat)
    requires !ArmsHoldExit(m.NamesOf(c), arms) && !ElseHoldsExit(m.NamesOf(c), default)
    ensures !RunArms(m, c, arms, default, st, fuel).Exit?
    decreases fuel, SizeArms(arms) + SizeElse(default), 2
  {
    if arms == [] {
      ElseNeverExits(m, c, default, st, fuel);
    } else {
      SeqNeverExits(m, c, arms[0].matchExpr, st, fuel);
      match RunSeq(m, c, arms[0].matchExpr, st, fuel)
      case Next(st1) =>
        if |st1.stack| >= 2 {
          SeqNeverExits(m, c, arms[0].body, Pop(Pop(st1)), fuel);
          ArmsNeverExit(m, c, arms[1..], default, Pop(st1), fuel);
        }
      case _ =>
    }
  }

  lemma {:induction false} LoopNeverExits(m: Machine, c: Context, e: Expr, st: State, fuel: nat)
    requires IsLoop(e) && !ExprHoldsExit(m.NamesOf(c), e)
    ensures !RunLoop(m, c, e, st, fuel).Exit?
    decreases fuel, SizeExpr(e), 4
  {
    if fuel > 0 {
      match e {
        case BeginUntil(body) => SeqNeverExits(m, c, body, st, fuel);
        case BeginAgain(body) => SeqNeverExits(m, c, body, st, fuel);
        case DoLoop(_, body, _) => SeqNeverExits(m, c, body, st, fuel);
        case BeginWhileRepeat(pred, body) =>
          SeqNeverExits(m, c, pred, st, fuel);
          match WhileTest(RunSeq(m, c, pred, st, fuel)) {
            case Repeat(st1) => SeqNeverExits(m, c, body, st1, fuel);
            case _ =>
          }
      }
      match LoopTurn(m, c, e, st, fuel)
      case Repeat(st1) => LoopNeverExits(m, c, e, st1, fuel - 1);
      case _ =>
    }
  }

  /** Code with a known effect holds no EXIT, which has none. */
  lemma {:induction false} KnownHoldsNoExit(env: Env, n: Names, s: seq<Expr>)
    requires "exit" !in env.table && InferBlock(env, n, s).Known?
    ensures !SeqHoldsExit(n, s)
    decreases SizeSeq(s), 1, |s|
  {
    if s != [] {
      KnownExprHoldsNoExit(env, n, s[0]);
      KnownHoldsNoExit(env, n, s[1..]);
    }
  }

  lemma {:induction false} KnownExprHoldsNoExit(env: Env, n: Names, e: Expr)
    requires "exit" !in env.table && InferExpr(env, n, e).Known?
    ensures !ExprHoldsExit(n, e)
    decreases SizeExpr(e), 0
  {
    if e.If? {
      IfEffect(env, n, e.thenBody, e.elseBody);
      KnownBranchesHoldNoExit(env, n, e.thenBody, e.elseBody);
      IfHolds(n, e.thenBody, e.elseBody);
    } else if e.Case? {
      KnownCaseHoldsNoExit(env, n, e.arms, e.default);
    } else if IsLoop(e) {
      KnownHoldsNoExit(env, n, e.body);
      if e.BeginWhileRepeat? {
        KnownHoldsNoExit(env, n, e.pred);
      }
    }
  }

  lemma {:induction false} KnownBranchesHoldNoExit(env: Env, n: Names, t: seq<Expr>, f: Else)
    requires "exit" !in env.table && InferBlock(env, n, t).Known?
    requires f.ElseBody? ==> InferBlock(env, n, f.body).Known?
    ensures !SeqHoldsExit(n, t) && (f.ElseBody? ==> !SeqHoldsExit(n, f.body))
    decreases SizeSeq(t) + SizeElse(f), 2
  {
    KnownHoldsNoExit(env, n, t);
    if f.ElseBody? {
      KnownHoldsNoExit(env, n, f.body);
    }
  }

  lemma IfEffect(env: Env, n: Names, t: seq<Expr>, f: Else)
    requires InferExpr(env, n, If(t, f)).Known?
    ensures InferBlock(env, n, t).Known? && (f.ElseBody? ==> InferBlock(env, n, f.body).Known?)
  {}

  lemma IfHolds(n: Names, t: seq<Expr>, f: Else)
    ensures ExprHoldsExit(n, If(t, f)) <==> SeqHoldsExit(n, t) || (f.ElseBody? && SeqHoldsExit(n, f.body))
  {}

  lemma {:induction false} KnownCaseHoldsNoExit(env: Env, n: Names, arms: seq<Arm>, default: Else)
    requires "exit" !in env.table && InferCase(env, n, arms, default).Known?
    ensures !ArmsHoldExit(n, arms) && !ElseHoldsExit(n, default)
    decreases SizeArms(arms) + SizeElse(default), 1
  {
    if arms != [] {
      CaseEffect(env, n, arms, default);
      KnownHoldsNoExit(env, n, arms[0].matchExpr);
      KnownHoldsNoExit(env, n, arms[0].body);
      KnownCaseHoldsNoExit(env, n, arms[1..], default);
    } else if default.ElseBody? {
      KnownHoldsNoExit(env, n, default.body);
    }
  }

  // ----- the height of the stack above the caller's items -----

  /** How far the stack has grown since entry: unreachable, by a known number of items above an
      untouched stack, unknown, or, once an EXIT may be taken at another height than zero, uneven. */
  datatype Height = Never | At(items: nat) | Lost | Uneven

  /** The height after either of two paths. */
  function Meet(a: Height, b: Height): Height {
    if a.Uneven? || b.Uneven? then Uneven
    else if a.Never? then b
    else if b.Never? then a
    else if a == b then a
    else Lost
  }

  /** The height after an expression without EXIT, from its inferred effect. */
  function Calm(env: Env, n: Names, h: Height, e: Expr): Height {
    match h
    case At(k) =>
      var eff := InferExpr(env, n, e);
      if eff.Known? && RegularExpr(env, n, e, Ans) && eff.inputs <= k then At(k - eff.inputs + eff.outputs) else Lost
    case _ => h
  }

  function HeightSeq(env: Env, n: Names, h: Height, s: seq<Expr>): Height
    decreases SizeSeq(s), 2, |s|
  {
    if s == [] then h else HeightSeq(env, n, HeightExpr(env, n, h, s[0]), s[1..])
  }

  function HeightExpr(env: Env, n: Names, h: Height, e: Expr): Height
    decreases SizeExpr(e), 1
  {
    if h.Never? || h.Uneven? || !ExprHoldsExit(n, e) then Calm(env, n, h, e)
    else if h.Lost? then Uneven
    else
      match e
      case WordRef(_) => if h == At(0) then Never else Uneven
      case If(thenBody, elseBody) =>
        if h.items == 0 then Uneven
        else Meet(HeightSeq(env, n, At(h.items - 1), thenBody), HeightElse(env, n, At(h.items - 1), elseBody))
      case Case(arms, default) => HeightArms(env, n, h, arms, default)
      case DoLoop(_, _, _) => if h.items < 2 then Uneven else HeightLoop(env, n, h.items - 2, e)
      case _ => if IsLoop(e) then HeightLoop(env, n, h.items, e) else Uneven
  }

  function HeightElse(env: Env, n: Names, h: Height, e: Else): Height
    decreases SizeElse(e), 0
  {
    match e
    case NoElse => h
    case ElseBody(body) => HeightSeq(env, n, h, body)
  }

  /** A match expression leaves its value on the selector; a match takes both, a mismatch the value. */
  function HeightArms(env: Env, n: Names, h: Height, arms: seq<Arm>, default: Else): Height
    decreases SizeArms(arms) + SizeElse(default), 1
  {
    if arms == [] then Selector(HeightElse(env, n, h, default))
    else
      match HeightSeq(env, n, h, arms[0].matchExpr)
      case At(k) =>
        if k < 2 || h == At(0) then Uneven
        else
          Meet(HeightSeq(env, n, At(k - 2), arms[0].body), HeightArms(env, n, At(k - 1), arms[1..], default))
      case Never => Never
      case _ => Uneven
  }

  /** ENDCASE drops the selector. */
  function Selector(h: Height): Height {
    match h
    case At(k) => if k == 0 then Lost else At(k - 1)
    case _ => h
  }

  /** A loop all of whose turns start k items up: every turn that goes on must come back there. */
  function HeightLoop(env: Env, n: Names, k: nat, e: Expr): Height
    requires IsLoop(e)
    decreases SizeExpr(e), 0
  {
    match e
    case BeginUntil(body) =>
      (match HeightSeq(env, n, At(k), body)
       case At(j) => if j == k + 1 then At(k) else Uneven
       case Never => Never
       case _ => Uneven)
    case BeginAgain(body) => Back(HeightSeq(env, n, At(k), body), k, Never)
    case BeginWhileRepeat(pred, body) =>
      (match HeightSeq(env, n, At(k), pred)
       case At(j) => if j == k + 1 then Back(HeightSeq(env, n, At(k), body), k, At(k)) else Uneven
       case Never => Never
       case _ => Uneven)
    case DoLoop(_, body, kind) =>
      Back(HeightSeq(env, n, At(k), body), if kind == PlusN then k + 1 else k, At(k))
  }

  function Back(h: Height, k: nat, after: Height): Height {
    if h == At(k) || h.Never? then after else Uneven
  }

  /** Every EXIT that the body can take finds no item above the caller's, and those untouched. */
  predicate Even(env: Env, n: Names, s: seq<Expr>) {
    !HeightSeq(env, n, At(0), s).Uneven?
  }

  // ----- what a height promises -----

  predicate Stands(h: Height, base: seq<Cell>, stack: seq<Cell>) {
    h.At? ==> |stack| == |base| + h.items && stack[..|base|] == base
  }

  /** An exit leaves just the caller's items, and a normal end stands at the height. */
  predicate Keeps(h: Height, base: seq<Cell>, o: Outcome) {
    match o
    case Exit(st) => st.stack == base
    case Next(st) => !h.Never? && Stands(h, base, st.stack)
    case _ => true
  }

  lemma {:induction false} Absorbed(env: Env, n: Names, h: Height, s: seq<Expr>)
    requires h.Never? || h.Uneven?
    ensures HeightSeq(env, n, h, s) == h
    decreases |s|
  {
    if s != [] {
      Absorbed(env, n, h, s[1..]);
    }
  }

  lemma {:induction false} KeepsSeq(m: Machine, env: Env, c: Context, h: Height, s: seq<Expr>, base: seq<Cell>,
                                    st: State, fuel: nat)
    requires Passed(m, env) && !h.Never? && Stands(h, base, st.stack)
    requires !HeightSeq(env, m.NamesOf(c), h, s).Uneven?
    ensures Keeps(HeightSeq(env, m.NamesOf(c), h, s), base, RunSeq(m, c, s, st, fuel))
    decreases fuel, SizeSeq(s), 6, |s|
  {
    if s != [] {
      var n := m.NamesOf(c);
      var h1 := HeightExpr(env, n, h, s[0]);
      if h1.Never? || h1.Uneven? {
        Absorbed(env, n, h1, s[1..]);
      }
      KeepsExpr(m, env, c, h, s[0], base, st, fuel);
      match RunExpr(m, c, s[0], st, fuel)
      case Next(st1) => KeepsSeq(m, env, c, h1, s[1..], base, st1, fuel);
      case _ =>
    }
  }

  lemma KeepsCalm(m: Machine, env: Env, c: Context, h: Height, e: Expr, base: seq<Cell>, st: State, fuel: nat)
    requires Passed(m, env) && !h.Never? && Stands(h, base, st.stack) && !ExprHoldsExit(m.NamesOf(c), e)
    ensures Keeps(Calm(env, m.NamesOf(c), h, e), base, RunExpr(m, c, e, st, fuel))
  {
    ExprNeverExits(m, c, e, st, fuel);
    var eff, o := InferExpr(env, m.NamesOf(c), e), RunExpr(m, c, e, st, fuel);
    if Calm(env, m.NamesOf(c), h, e).At? && o.Next? {
      SoundExpr(m, env, c, e, st, fuel);
      var kept := |st.stack| - eff.inputs;
      assert o.state.stack[..kept][..|base|] == o.state.stack[..|base|];
      assert st.stack[..kept][..|base|] == st.stack[..|base|];
    }
  }

  lemma StandsPop(k: nat, base: seq<Cell>, stack: seq<Cell>)
    requires Stands(At(k), base, stack) && k > 0
    ensures Stands(At(k - 1), base, Drop(stack))
  {
    assert Drop(stack)[..|base|] == stack[..|base|];
  }

  lemma StandsAtZero(base: seq<Cell>, stack: seq<Cell>)
    requires Stands(At(0), base, stack)
    ensures stack == base
  {
    assert stack[..|base|] == stack;
  }

  lemma {:induction false} KeepsExpr(m: Machine, env: Env, c: Context, h: Height, e: Expr, base: seq<Cell>, st: State,
                                     fuel: nat)
    requires Passed(m, env) && !h.Never? && Stands(h, base, st.stack)
    requires !HeightExpr(env, m.NamesOf(c), h, e).Uneven?
    ensures Keeps(HeightExpr(env, m.NamesOf(c), h, e), base, RunExpr(m, c, e, st, fuel))
    decreases fuel, SizeExpr(e), 5
  {
    if !ExprHoldsExit(m.NamesOf(c), e) {
      KeepsCalm(m, env, c, h, e, base, st, fuel);
    } else {
      match e
      case WordRef(_) =>
        StandsAtZero(base, st.stack);
        assert RunExpr(m, c, e, st, fuel) == Exit(st);
      case If(_, _) => KeepsIf(m, env, c, h.items, e, base, st, fuel);
      case Case(arms, default) => KeepsArms(m, env, c, h, arms, default, base, st, fuel);
      case DoLoop(_, _, _) => KeepsDo(m, env, c, h.items, e, base, st, fuel);
      case BeginUntil(_) => KeepsLoop(m, env, c, h.items, e, base, st, fuel);
      case BeginAgain(_) => KeepsLoop(m, env, c, h.items, e, base, st, fuel);
      case BeginWhileRepeat(_, _) => KeepsLoop(m, env, c, h.items, e, base, st, fuel);
    }
  }

  lemma {:induction false} KeepsIf(m: Machine, env: Env, c: Context, k: nat, e: Expr, base: seq<Cell>, st: State,
                                   fuel: nat)
    requires e.If? && Passed(m, env) && Stands(At(k), base, st.stack) && ExprHoldsExit(m.NamesOf(c), e)
    requires !HeightExpr(env, m.NamesOf(c), At(k), e).Uneven?
    ensures Keeps(HeightExpr(env, m.NamesOf(c), At(k), e), base, RunExpr(m, c, e, st, fuel))
    decreases fuel, SizeExpr(e), 4
  {
    StandsPop(k, base, st.stack);
    KeepsSeq(m, env, c, At(k - 1), e.thenBody, base, Pop(st), fuel);
    KeepsElse(m, env, c, At(k - 1), e.elseBody, base, Pop(st), fuel);
  }

  lemma {:induction false} KeepsElse(m: Machine, env: Env, c: Context, h: Height, e: Else, base: seq<Cell>, st: State,
                                     fuel: nat)
    requires Passed(m, env) && !h.Never? && Stands(h, base, st.stack)
    requires !HeightElse(env, m.NamesOf(c), h, e).Uneven?
    ensures Keeps(HeightElse(env, m.NamesOf(c), h, e), base, RunElse(m, c, e, st, fuel))
    decreases fuel, SizeElse(e), 1
  {
    match e
    case NoElse =>
    case ElseBody(body) => KeepsSeq(m, env, c, h, body, base, st, fuel);
  }

  lemma {:induction false} KeepsArms(m: Machine, env: Env, c: Context, h: Height, arms: seq<Arm>, default: Else,
                                     base: seq<Cell>, st: State, fuel: nat)
    requires Passed(m, env) && h.At? && Stands(h, base, st.stack)
    requires !HeightArms(env, m.NamesOf(c), h, arms, default).Uneven?
    ensures Keeps(HeightArms(env, m.NamesOf(c), h, arms, default), base, RunArms(m, c, arms, default, st, fuel))
    decreases fuel, SizeArms(arms) + SizeElse(default), 2
  {
    var n := m.NamesOf(c);
    if arms == [] {
      KeepsElse(m, env, c, h, default, base, st, fuel);
      var d := HeightElse(env, n, h, default);
      match RunElse(m, c, default, st, fuel)
      case Next(st1) => if d.At? && d.items > 0 { StandsPop(d.items, base, st1.stack); }
      case _ =>
    } else {
      var h1 := HeightSeq(env, n, h, arms[0].matchExpr);
      KeepsSeq(m, env, c, h, arms[0].matchExpr, base, st, fuel);
      match RunSeq(m, c, arms[0].matchExpr, st, fuel)
      case Next(st1) =>
        StandsPop(h1.items, base, st1.stack);
        StandsPop(h1.items - 1, base, Drop(st1.stack));
        KeepsSeq(m, env, c, At(h1.items - 2), arms[0].body, base, Pop(Pop(st1)), fuel);
        KeepsArms(m, env, c, At(h1.items - 1), arms[1..], default, base, Pop(st1), fuel);
      case _ =>
    }
  }

  lemma {:induction false} KeepsDo(m: Machine, env: Env, c: Context, k: nat, e: Expr, base: seq<Cell>, st: State,
                                   fuel: nat)
    requires e.DoLoop? && Passed(m, env) && Stands(At(k), base, st.stack) && ExprHoldsExit(m.NamesOf(c), e)
    requires !HeightExpr(env, m.NamesOf(c), At(k), e).Uneven?
    ensures Keeps(HeightExpr(env, m.NamesOf(c), At(k), e), base, RunExpr(m, c, e, st, fuel))
    decreases fuel, SizeExpr(e), 4, 1
  {
    StandsPop(k, base, st.stack);
    StandsPop(k - 1, base, Drop(st.stack));
    if Top(st.stack).Number? && Top(Drop(st.stack)).Number? {
      var start, limit := Top(st.stack).n, Top(Drop(st.stack)).n;
      if !(e.isQdo && limit == start) {
        KeepsLoop(m, env, c, k - 2, e, base, PushFrame(Pop(Pop(st)), limit, start), fuel);
      }
    }
  }

  lemma {:induction false} KeepsLoop(m: Machine, env: Env, c: Context, k: nat, e: Expr, base: seq<Cell>, st: State,
                                     fuel: nat)
    requires IsLoop(e) && Passed(m, env) && Stands(At(k), base, st.stack)
    requires !HeightLoop(env, m.NamesOf(c), k, e).Uneven?
    ensures Keeps(HeightLoop(env, m.NamesOf(c), k, e), base, RunLoop(m, c, e, st, fuel))
    decreases fuel, SizeExpr(e), 4, 0
  {
    if fuel > 0 {
      KeepsTurn(m, env, c, k, e, base, st, fuel);
      match LoopTurn(m, c, e, st, fuel)
      case Repeat(st1) => KeepsLoop(m, env, c, k, e, base, st1, fuel - 1);
      case _ =>
    }
  }

  /** One turn: it leaves as the loop does, or goes on at the height of the loop. */
  lemma {:induction false} KeepsTurn(m: Machine, env: Env, c: Context, k: nat, e: Expr, base: seq<Cell>, st: State,
                                     fuel: nat)
    requires IsLoop(e) && Passed(m, env) && Stands(At(k), base, st.stack)
    requires !HeightLoop(env, m.NamesOf(c), k, e).Uneven?
    ensures match LoopTurn(m, c, e, st, fuel)
            case Leave(o) => Keeps(HeightLoop(env, m.NamesOf(c), k, e), base, o)
            case Repeat(st1) => Stands(At(k), base, st1.stack)
    decreases fuel, SizeExpr(e), 3
  {
    match e
    case BeginUntil(body) =>
      KeepsSeq(m, env, c, At(k), body, base, st, fuel);
      FlagTaken(k, base, RunSeq(m, c, body, st, fuel));
    case BeginAgain(body) => KeepsSeq(m, env, c, At(k), body, base, st, fuel);
    case BeginWhileRepeat(pred, body) =>
      KeepsSeq(m, env, c, At(k), pred, base, st, fuel);
      FlagTaken(k, base, RunSeq(m, c, pred, st, fuel));
      match WhileTest(RunSeq(m, c, pred, st, fuel)) {
        case Repeat(st1) => KeepsSeq(m, env, c, At(k), body, base, st1, fuel);
        case _ =>
      }
    case DoLoop(_, body, kind) =>
      KeepsSeq(m, env, c, At(k), body, base, st, fuel);
      FlagTaken(k, base, RunSeq(m, c, body, st, fuel));
  }

  lemma FlagTaken(k: nat, base: seq<Cell>, o: Outcome)
    ensures o.Next? && Stands(At(k + 1), base, o.state.stack) ==> Stands(At(k), base, Pop(o.state).stack)
  {
    if o.Next? && Stands(At(k + 1), base, o.state.stack) {
      StandsPop(k + 1, base, o.state.stack);
    }
  }

  // ----- even bodies -----

  /** A body that holds no EXIT is even, whatever is known of its effects. */
  lemma {:induction false} ExitFreeEven(env: Env, n: Names, h: Height, s: seq<Expr>)
    requires !SeqHoldsExit(n, s) && !h.Uneven?
    ensures !HeightSeq(env, n, h, s).Uneven?
    decreases |s|
  {
    if s != [] {
      ExitFreeEven(env, n, HeightExpr(env, n, h, s[0]), s[1..]);
    }
  }

  /** An exit of an even body finds the stack as it was on entry to the body. */
  lemma EvenLevel(m: Machine, env: Env, c: Context, s: seq<Expr>, entry: State, fuel: nat)
    requires Passed(m, env) && Even(env, m.NamesOf(c), s)
    ensures var o := RunSeq(m, c, s, entry, fuel); o.Exit? ==> o.state.stack == entry.stack
  {
    assert entry.stack[..|entry.stack|] == entry.stack;
    KeepsSeq(m, env, c, At(0), s, entry.stack, entry, fuel);
  }
}
