/** Lowering EXIT preserves meaning where every CASE that holds EXIT ends its definition. */
module LowerExitMeaning {
  import opened Forth
  import opened Equivalence
  import opened LowerExit

  // ----- concatenation -----

  lemma {:induction false} UsesConcat(n: Names, a: seq<Expr>, b: seq<Expr>)
    ensures SeqUsesExit(n, a + b) <==> SeqUsesExit(n, a) || SeqUsesExit(n, b)
    decreases a
  {
    if a == [] {
      assert a + b == b;
    } else {
      assert (a + b)[1..] == a[1..] + b;
      UsesConcat(n, a[1..], b);
    }
  }

  lemma {:induction false} StripsConcat(n: Names, a: seq<Expr>, b: seq<Expr>)
    ensures SeqStrips(n, a + b) <==> SeqStrips(n, a) || SeqStrips(n, b)
    decreases a
  {
    if a == [] {
      assert a + b == b;
    } else {
      assert (a + b)[1..] == a[1..] + b;
      StripsConcat(n, a[1..], b);
    }
  }

  predicate LastWith(n: Names, tail: seq<Expr>, last: bool) {
    Inert(n, tail) && (tail == [] ==> last)
  }

  lemma {:induction false} CaseOkConcat(n: Names, a: seq<Expr>, b: seq<Expr>, last: bool)
    requires CaseOk(n, a, LastWith(n, b, last)) && CaseOk(n, b, last)
    ensures CaseOk(n, a + b, last)
    decreases a
  {
    if a == [] {
      assert a + b == b;
    } else {
      assert (a + b)[0] == a[0] && (a + b)[1..] == a[1..] + b;
      if !IsExitWord(n, a[0]) {
        CaseOkConcat(n, a[1..], b, last);
        if a[1..] == [] {
          assert a[1..] + b == b;
        } else {
          assert (a[1..] + b)[0] == a[1..][0];
        }
      }
    }
  }

  // ----- bodies without EXIT satisfy every condition -----

  lemma {:induction false} SeqPure(n: Names, s: seq<Expr>, last: bool)
    requires !SeqUsesExit(n, s)
    ensures CaseOk(n, s, last) && !SeqStrips(n, s)
    decreases SizeSeq(s), 1, |s|
  {
    if s != [] {
      ExprPure(n, s[0], LastWith(n, s[1..], last));
      SeqPure(n, s[1..], last);
    }
  }

  lemma {:induction false} ExprPure(n: Names, e: Expr, last: bool)
    requires !ExprUsesExit(n, e)
    ensures ExprCaseOk(n, e, last) && !ExprStrips(n, e)
    decreases SizeExpr(e), 0
  {
    match e
    case If(thenBody, elseBody) =>
      SeqPure(n, thenBody, last);
      ElsePure(n, elseBody, last);
    case Case(arms, default) =>
      ArmsPure(n, arms);
      ElsePure(n, default, last);
    case _ =>
  }

  lemma {:induction false} ElsePure(n: Names, e: Else, last: bool)
    requires !ElseUsesExit(n, e)
    ensures ElseCaseOk(n, e, last) && !ElseStrips(n, e)
    decreases SizeElse(e), 0
  {
    match e
    case NoElse =>
    case ElseBody(body) => SeqPure(n, body, last);
  }

  lemma {:induction false} ArmsPure(n: Names, arms: seq<Arm>)
    requires !ArmsUseExit(n, arms)
    ensures ArmsCaseOk(n, arms) && !ArmsStrip(n, arms)
    decreases SizeArms(arms), 0
  {
    if arms != [] {
      SeqPure(n, arms[0].body, true);
      ArmsPure(n, arms[1..]);
    }
  }

  // ----- running -----

  lemma RunElseSeq(m: Machine, c: Context, e: Else, st: State, fuel: nat)
    ensures RunElse(m, c, e, st, fuel) == RunSeq(m, c, ElseSeq(e), st, fuel)
  {}

  /** An IF followed by a tail, branch by branch. */
  lemma RunIfTail(m: Machine, c: Context, e: Expr, tail: seq<Expr>, st: State, fuel: nat)
    requires e.If?
    ensures RunSeq(m, c, [e] + tail, st, fuel) ==
            if |st.stack| == 0 then Underflow
            else if !Top(st.stack).Number? then Fault
            else if Top(st.stack).n != 0 then RunSeq(m, c, e.thenBody + tail, Pop(st), fuel)
            else RunSeq(m, c, ElseSeq(e.elseBody) + tail, Pop(st), fuel)
  {
    RunCons(m, c, e, tail, st, fuel);
    if |st.stack| > 0 {
      RunConcat(m, c, e.thenBody, tail, Pop(st), fuel);
      RunConcat(m, c, ElseSeq(e.elseBody), tail, Pop(st), fuel);
      RunElseSeq(m, c, e.elseBody, Pop(st), fuel);
    }
  }

  lemma RunIf(m: Machine, c: Context, e: Expr, st: State, fuel: nat)
    requires e.If?
    ensures RunSeq(m, c, [e], st, fuel) ==
            if |st.stack| == 0 then Underflow
            else if !Top(st.stack).Number? then Fault
            else if Top(st.stack).n != 0 then RunSeq(m, c, e.thenBody, Pop(st), fuel)
            else RunSeq(m, c, ElseSeq(e.elseBody), Pop(st), fuel)
  {
    RunOne(m, c, e, st, fuel);
    if |st.stack| > 0 {
      RunElseSeq(m, c, e.elseBody, Pop(st), fuel);
    }
  }

  // ----- bodies from which no EXIT is stripped -----

  /** If no EXIT is stripped, lowering changes nothing at all: not even whether the body ends by EXIT. */
  lemma {:induction false} SeqExact(m: Machine, c: Context, s: seq<Expr>, st: State, fuel: nat)
    requires !SeqStrips(m.NamesOf(c), s) && CaseOk(m.NamesOf(c), s, true)
    ensures RunSeq(m, c, LowerSeq(m.NamesOf(c), s).body, st, fuel) == RunSeq(m, c, s, st, fuel)
    decreases SizeSeq(s), 1, |s|
  {
    var n := m.NamesOf(c);
    if s != [] {
      var e, tail := s[0], s[1..];
      assert s == [e] + tail;
      if e.If? && ExprUsesExit(n, e) {
        IfExact(m, c, e, tail, st, fuel);
      } else if e.Case? && ExprUsesExit(n, e) {
        InertUnstripped(n, tail);
        CaseExact(m, c, e, st, fuel);
      } else {
        PlainExact(m, c, e, st, fuel);
        RunCons(m, c, LowerPlain(n, e), LowerSeq(n, tail).body, st, fuel);
        match RunExpr(m, c, e, st, fuel)
        case Next(st1) => SeqExact(m, c, tail, st1, fuel);
        case _ =>
      }
    }
  }

  lemma InertUnstripped(n: Names, tail: seq<Expr>)
    requires Inert(n, tail) && !SeqStrips(n, tail)
    ensures tail == []
  {}

  lemma {:induction false} IfExact(m: Machine, c: Context, e: Expr, tail: seq<Expr>, st: State, fuel: nat)
    requires e.If? && !ExprStrips(m.NamesOf(c), e) && !SeqStrips(m.NamesOf(c), tail)
    requires ExprCaseOk(m.NamesOf(c), e, LastWith(m.NamesOf(c), tail, true)) && CaseOk(m.NamesOf(c), tail, true)
    ensures RunSeq(m, c, LowerExitingIf(m.NamesOf(c), e, tail).body, st, fuel) == RunSeq(m, c, [e] + tail, st, fuel)
    decreases SizeExpr(e) + SizeSeq(tail), 0, 0
  {
    var n := m.NamesOf(c);
    var t, f := e.thenBody + tail, ElseSeq(e.elseBody) + tail;
    StripsConcat(n, e.thenBody, tail);
    StripsConcat(n, ElseSeq(e.elseBody), tail);
    CaseOkConcat(n, e.thenBody, tail, true);
    CaseOkConcat(n, ElseSeq(e.elseBody), tail, true);
    SizeConcat(e.thenBody, tail);
    SizeConcat(ElseSeq(e.elseBody), tail);
    ElseSeqSize(e.elseBody);
    RunIfTail(m, c, e, tail, st, fuel);
    RunIf(m, c, If(LowerSeq(n, t).body, ElseBody(LowerSeq(n, f).body)), st, fuel);
    if |st.stack| > 0 {
      SeqExact(m, c, t, Pop(st), fuel);
      SeqExact(m, c, f, Pop(st), fuel);
    }
  }

  lemma {:induction false} CaseExact(m: Machine, c: Context, e: Expr, st: State, fuel: nat)
    requires e.Case? && !ExprStrips(m.NamesOf(c), e)
    requires ArmsCaseOk(m.NamesOf(c), e.arms) && ElseCaseOk(m.NamesOf(c), e.default, true)
    ensures RunSeq(m, c, LowerExitingCase(m.NamesOf(c), e, []).body, st, fuel) == RunSeq(m, c, [e], st, fuel)
    decreases SizeExpr(e), 0, 0
  {
    var n := m.NamesOf(c);
    var d := LowerSeq(n, ElseSeq(e.default)).body;
    assert ElseSeq(e.default) + [] == ElseSeq(e.default);
    RunOne(m, c, e, st, fuel);
    RunOne(m, c, Case(LowerArms(n, e.arms, []).arms, AsDefault(d)), st, fuel);
    ArmsExact(m, c, e.arms, e.default, AsDefault(d), st, fuel);
  }

  lemma {:induction false} PlainExact(m: Machine, c: Context, e: Expr, st: State, fuel: nat)
    requires e.If? || e.Case? ==> !ExprUsesExit(m.NamesOf(c), e)
    ensures RunExpr(m, c, LowerPlain(m.NamesOf(c), e), st, fuel) == RunExpr(m, c, e, st, fuel)
    decreases SizeExpr(e), 0, 0
  {
    var n := m.NamesOf(c);
    match e
    case If(thenBody, elseBody) =>
      if |st.stack| > 0 {
        SeqPure(n, thenBody, true);
        SeqExact(m, c, thenBody, Pop(st), fuel);
        ElseExact(m, c, elseBody, Pop(st), fuel);
      }
    case Case(arms, default) =>
      ArmsPure(n, arms);
      ElsePure(n, default, true);
      ArmsExact(m, c, arms, default, LowerElse(n, default), st, fuel);
    case _ =>
  }

  lemma {:induction false} ElseExact(m: Machine, c: Context, e: Else, st: State, fuel: nat)
    requires !ElseUsesExit(m.NamesOf(c), e)
    ensures RunElse(m, c, LowerElse(m.NamesOf(c), e), st, fuel) == RunElse(m, c, e, st, fuel)
    decreases SizeElse(e), 0, 0
  {
    match e
    case NoElse =>
    case ElseBody(body) =>
      SeqPure(m.NamesOf(c), body, true);
      SeqExact(m, c, body, st, fuel);
  }

  lemma {:induction false} ArmsExact(m: Machine, c: Context, arms: seq<Arm>, default: Else, lowered: Else, st: State,
                                     fuel: nat)
    requires !ArmsStrip(m.NamesOf(c), arms) && !ElseStrips(m.NamesOf(c), default)
    requires ArmsCaseOk(m.NamesOf(c), arms) && ElseCaseOk(m.NamesOf(c), default, true)
    requires ElseSeq(lowered) == LowerSeq(m.NamesOf(c), ElseSeq(default)).body
    ensures RunArms(m, c, LowerArms(m.NamesOf(c), arms, []).arms, lowered, st, fuel)
         == RunArms(m, c, arms, default, st, fuel)
    decreases SizeArms(arms) + SizeElse(default), 3, 0
  {
    var n := m.NamesOf(c);
    if arms == [] {
      DefaultExact(m, c, default, lowered, st, fuel);
    } else {
      assert arms[0].body + [] == arms[0].body;
      var la := LowerArms(n, arms, []).arms;
      assert la[0].matchExpr == arms[0].matchExpr && la[0].body == LowerSeq(n, arms[0].body).body;
      assert la[1..] == LowerArms(n, arms[1..], []).arms;
      match RunSeq(m, c, arms[0].matchExpr, st, fuel)
      case Next(st1) =>
        if |st1.stack| < 2 {
        } else if Top(st1.stack) == Top(Drop(st1.stack)) {
          SeqExact(m, c, arms[0].body, Pop(Pop(st1)), fuel);
        } else {
          ArmsExact(m, c, arms[1..], default, lowered, Pop(st1), fuel);
        }
      case _ =>
    }
  }

  lemma {:induction false} DefaultExact(m: Machine, c: Context, default: Else, lowered: Else, st: State, fuel: nat)
    requires !ElseStrips(m.NamesOf(c), default) && ElseCaseOk(m.NamesOf(c), default, true)
    requires ElseSeq(lowered) == LowerSeq(m.NamesOf(c), ElseSeq(default)).body
    ensures RunArms(m, c, [], lowered, st, fuel) == RunArms(m, c, [], default, st, fuel)
    decreases SizeElse(default), 2, 0
  {
    RunElseSeq(m, c, default, st, fuel);
    RunElseSeq(m, c, lowered, st, fuel);
    ElseSeqSize(default);
    SeqExact(m, c, ElseSeq(default), st, fuel);
  }

  // ----- what follows an EXIT is dropped -----

  /** A tail that starts with EXIT contributes nothing. */
  lemma {:induction false} InertTail(n: Names, s: seq<Expr>, tail: seq<Expr>)
    requires Inert(n, tail)
    ensures LowerSeq(n, s + tail).body == LowerSeq(n, s).body
    decreases SizeSeq(s), 1, |s|
  {
    if tail == [] {
      assert s + tail == s;
    } else if s == [] {
      assert s + tail == tail;
    } else {
      var e, rest := s[0], s[1..];
      assert (s + tail)[0] == e && (s + tail)[1..] == rest + tail;
      assert SizeSeq(s) == SizeExpr(e) + SizeSeq(rest);
      if IsExitWord(n, e) {
      } else if e.If? && ExprUsesExit(n, e) {
        InertBranch(n, e.thenBody, rest, tail);
        SizeConcat(e.thenBody, rest);
        InertTail(n, e.thenBody + rest, tail);
        InertBranch(n, ElseSeq(e.elseBody), rest, tail);
        SizeConcat(ElseSeq(e.elseBody), rest);
        ElseSeqSize(e.elseBody);
        InertTail(n, ElseSeq(e.elseBody) + rest, tail);
      } else if e.Case? && ExprUsesExit(n, e) {
        InertArms(n, e.arms, rest, tail);
        InertBranch(n, ElseSeq(e.default), rest, tail);
        SizeConcat(ElseSeq(e.default), rest);
        ElseSeqSize(e.default);
        InertTail(n, ElseSeq(e.default) + rest, tail);
      } else {
        InertTail(n, rest, tail);
      }
    }
  }

  lemma InertBranch(n: Names, branch: seq<Expr>, rest: seq<Expr>, tail: seq<Expr>)
    ensures branch + (rest + tail) == (branch + rest) + tail
  {}

  lemma {:induction false} InertArms(n: Names, arms: seq<Arm>, rest: seq<Expr>, tail: seq<Expr>)
    requires Inert(n, tail)
    ensures LowerArms(n, arms, rest + tail).arms == LowerArms(n, arms, rest).arms
    decreases SizeArms(arms) + SizeSeq(rest), 0, 0
  {
    if arms != [] {
      InertBranch(n, arms[0].body, rest, tail);
      SizeConcat(arms[0].body, rest);
      InertTail(n, arms[0].body + rest, tail);
      InertArms(n, arms[1..], rest, tail);
    }
  }

  // ----- the main result -----

  /** At the end of a definition, leaving by EXIT and falling off the end are the same. */
  function Collapse(o: Outcome): Outcome {
    match o
    case Exit(st) => Next(st)
    case other => other
  }

  /** Lowering preserves meaning, for every machine, state and fuel. */
  lemma {:induction false} LowerPreserves(m: Machine, c: Context, s: seq<Expr>, st: State, fuel: nat)
    requires CaseOk(m.NamesOf(c), s, true)
    ensures Collapse(RunSeq(m, c, LowerSeq(m.NamesOf(c), s).body, st, fuel)) == Collapse(RunSeq(m, c, s, st, fuel))
    decreases SizeSeq(s), 1, |s|
  {
    var n := m.NamesOf(c);
    if s != [] {
      var e, tail := s[0], s[1..];
      assert s == [e] + tail;
      if IsExitWord(n, e) {
        assert RunExpr(m, c, e, st, fuel) == Exit(st);
      } else if e.If? && ExprUsesExit(n, e) {
        IfPreserves(m, c, e, tail, st, fuel);
      } else if e.Case? && ExprUsesExit(n, e) {
        CasePreserves(m, c, e, tail, st, fuel);
      } else {
        PlainExact(m, c, e, st, fuel);
        RunCons(m, c, LowerPlain(n, e), LowerSeq(n, tail).body, st, fuel);
        match RunExpr(m, c, e, st, fuel)
        case Next(st1) => LowerPreserves(m, c, tail, st1, fuel);
        case _ =>
      }
    }
  }

  lemma {:induction false} IfPreserves(m: Machine, c: Context, e: Expr, tail: seq<Expr>, st: State, fuel: nat)
    requires e.If?
    requires ExprCaseOk(m.NamesOf(c), e, LastWith(m.NamesOf(c), tail, true)) && CaseOk(m.NamesOf(c), tail, true)
    ensures Collapse(RunSeq(m, c, LowerExitingIf(m.NamesOf(c), e, tail).body, st, fuel))
         == Collapse(RunSeq(m, c, [e] + tail, st, fuel))
    decreases SizeExpr(e) + SizeSeq(tail), 0, 0
  {
    var n := m.NamesOf(c);
    var t, f := e.thenBody + tail, ElseSeq(e.elseBody) + tail;
    CaseOkConcat(n, e.thenBody, tail, true);
    CaseOkConcat(n, ElseSeq(e.elseBody), tail, true);
    SizeConcat(e.thenBody, tail);
    SizeConcat(ElseSeq(e.elseBody), tail);
    ElseSeqSize(e.elseBody);
    RunIfTail(m, c, e, tail, st, fuel);
    RunIf(m, c, If(LowerSeq(n, t).body, ElseBody(LowerSeq(n, f).body)), st, fuel);
    if |st.stack| > 0 {
      LowerPreserves(m, c, t, Pop(st), fuel);
      LowerPreserves(m, c, f, Pop(st), fuel);
    }
  }

  lemma {:induction false} CasePreserves(m: Machine, c: Context, e: Expr, tail: seq<Expr>, st: State, fuel: nat)
    requires e.Case? && Inert(m.NamesOf(c), tail) && !ElseStrips(m.NamesOf(c), e.default)
    requires ArmsCaseOk(m.NamesOf(c), e.arms) && ElseCaseOk(m.NamesOf(c), e.default, true)
    ensures Collapse(RunSeq(m, c, LowerExitingCase(m.NamesOf(c), e, tail).body, st, fuel))
         == Collapse(RunSeq(m, c, [e] + tail, st, fuel))
    decreases SizeExpr(e) + SizeSeq(tail), 0, 0
  {
    var n := m.NamesOf(c);
    var d := LowerSeq(n, ElseSeq(e.default) + tail).body;
    InertTail(n, ElseSeq(e.default), tail);
    RunCons(m, c, e, tail, st, fuel);
    RunOne(m, c, Case(LowerArms(n, e.arms, tail).arms, AsDefault(d)), st, fuel);
    ArmsPreserve(m, c, e.arms, e.default, AsDefault(d), tail, st, fuel);
  }

  lemma RunInert(m: Machine, c: Context, tail: seq<Expr>, st: State, fuel: nat)
    requires Inert(m.NamesOf(c), tail)
    ensures Collapse(RunSeq(m, c, tail, st, fuel)) == Next(st)
  {
    if tail != [] {
      assert RunExpr(m, c, tail[0], st, fuel) == Exit(st);
    }
  }

  lemma {:induction false} BodyPreserves(m: Machine, c: Context, body: seq<Expr>, tail: seq<Expr>, st: State, fuel: nat)
    requires CaseOk(m.NamesOf(c), body, true) && Inert(m.NamesOf(c), tail)
    ensures Collapse(RunSeq(m, c, LowerSeq(m.NamesOf(c), body + tail).body, st, fuel))
         == Collapse(AndThen(m, c, RunSeq(m, c, body, st, fuel), tail, fuel))
    decreases SizeSeq(body) + SizeSeq(tail), 2, 0
  {
    SizeConcat(body, tail);
    CaseOkConcat(m.NamesOf(c), body, tail, true);
    LowerPreserves(m, c, body + tail, st, fuel);
    RunConcat(m, c, body, tail, st, fuel);
  }

  lemma DefaultPreserves(m: Machine, c: Context, default: Else, lowered: Else, tail: seq<Expr>, st: State, fuel: nat)
    requires Inert(m.NamesOf(c), tail) && !ElseStrips(m.NamesOf(c), default)
    requires ElseCaseOk(m.NamesOf(c), default, true)
    requires ElseSeq(lowered) == LowerSeq(m.NamesOf(c), ElseSeq(default)).body
    ensures Collapse(RunArms(m, c, [], lowered, st, fuel))
         == Collapse(AndThen(m, c, RunArms(m, c, [], default, st, fuel), tail, fuel))
  {
    RunElseSeq(m, c, default, st, fuel);
    RunElseSeq(m, c, lowered, st, fuel);
    SeqExact(m, c, ElseSeq(default), st, fuel);
    match RunArms(m, c, [], default, st, fuel)
    case Next(st1) => RunInert(m, c, tail, st1, fuel);
    case _ =>
  }

  lemma {:induction false} ArmsPreserve(m: Machine, c: Context, arms: seq<Arm>, default: Else, lowered: Else,
                                        tail: seq<Expr>, st: State, fuel: nat)
    requires Inert(m.NamesOf(c), tail) && !ElseStrips(m.NamesOf(c), default)
    requires ArmsCaseOk(m.NamesOf(c), arms) && ElseCaseOk(m.NamesOf(c), default, true)
    requires ElseSeq(lowered) == LowerSeq(m.NamesOf(c), ElseSeq(default)).body
    ensures Collapse(RunArms(m, c, LowerArms(m.NamesOf(c), arms, tail).arms, lowered, st, fuel))
         == Collapse(AndThen(m, c, RunArms(m, c, arms, default, st, fuel), tail, fuel))
    decreases SizeArms(arms) + SizeSeq(tail), 0, 0
  {
    var n := m.NamesOf(c);
    if arms == [] {
      DefaultPreserves(m, c, default, lowered, tail, st, fuel);
    } else {
      var la := LowerArms(n, arms, tail).arms;
      assert la[0].matchExpr == arms[0].matchExpr && la[1..] == LowerArms(n, arms[1..], tail).arms;
      match RunSeq(m, c, arms[0].matchExpr, st, fuel)
      case Next(st1) =>
        if |st1.stack| < 2 {
        } else if Top(st1.stack) == Top(Drop(st1.stack)) {
          BodyPreserves(m, c, arms[0].body, tail, Pop(Pop(st1)), fuel);
        } else {
          ArmsPreserve(m, c, arms[1..], default, lowered, tail, Pop(st1), fuel);
        }
      case _ =>
    }
  }

  // ----- whole programs -----

  function LowerDefs(defs: map<string, Definition>, words: set<string>): map<string, Definition> {
    map lc | lc in defs :: defs[lc].(body := LowerBody(Names(defs[lc].scope, words), defs[lc].body))
  }

  /** Every CASE that holds EXIT ends its definition. */
  ghost predicate ProgramCaseOk(m: Machine) {
    forall lc :: lc in m.defs ==> CaseOk(Names(m.defs[lc].scope, m.Words()), m.defs[lc].body, true)
  }

  /** On a machine where EXIT leaves the stack alone, lowering all definitions of a program changes no
      run of any body, calls of any depth and loops included. */
  lemma LowerProgramPreserves(m: Machine, c: Context, s: seq<Expr>, st: State, fuel: nat)
    requires !m.restoring && ProgramCaseOk(m)
    ensures RunSeq(m.(defs := LowerDefs(m.defs, m.Words())), c, s, st, fuel) == RunSeq(m, c, s, st, fuel)
  {
    var m' := m.(defs := LowerDefs(m.defs, m.Words()));
    assert m'.defs.Keys == m.defs.Keys;
    assert m'.Words() == m.Words();
    forall lc, caller, entry, f: nat | lc in m.defs
      ensures EndCall(m', caller, entry, RunSeq(m, Context(m.defs[lc].scope, lc), m'.defs[lc].body, entry, f))
           == EndCall(m, caller, entry, RunSeq(m, Context(m.defs[lc].scope, lc), m.defs[lc].body, entry, f))
    {
      LowerPreserves(m, Context(m.defs[lc].scope, lc), m.defs[lc].body, entry, f);
    }
    ProgramsAgree(m, m', c, s, st, fuel);
  }
}
