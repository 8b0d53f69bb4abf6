/** The normal form that lowering EXIT reaches, and what its `terminates` flag means. */
module LowerExitNormal {
  import opened Forth
  import opened Equivalence
  import opened LowerExit
  import opened LowerExitMeaning

  // ----- the normal form -----

  /** No EXIT outside loops and match expressions; a branch or CASE that still holds EXIT is last in
      its body, and its alternatives have the same form. */
  predicate Settled(n: Names, s: seq<Expr>)
    decreases SizeSeq(s), 2, |s|
  {
    s == [] ||
    (!IsExitWord(n, s[0]) &&
     (if (s[0].If? || s[0].Case?) && ExprUsesExit(n, s[0]) then s[1..] == [] && SettledExpr(n, s[0])
      else Settled(n, s[1..])))
  }

  predicate SettledExpr(n: Names, e: Expr)
    decreases SizeExpr(e), 1
  {
    match e
    case If(thenBody, elseBody) => elseBody.ElseBody? && Settled(n, thenBody) && SettledElse(n, elseBody)
    case Case(arms, default) => default != ElseBody([]) && SettledArms(n, arms) && SettledElse(n, default)
    case _ => false
  }

  predicate SettledElse(n: Names, e: Else)
    decreases SizeElse(e), 1
  {
    e.ElseBody? ==> Settled(n, e.body)
  }

  predicate SettledArms(n: Names, arms: seq<Arm>)
    decreases SizeArms(arms), 1
  {
    arms != [] ==> Settled(n, arms[0].body) && SettledArms(n, arms[1..])
  }

  // ----- bodies without EXIT are unchanged -----

  lemma {:induction false} PureUnchanged(n: Names, s: seq<Expr>)
    requires !SeqUsesExit(n, s)
    ensures LowerSeq(n, s) == Lowered(s, false)
    decreases SizeSeq(s), 2, |s|
  {
    if s != [] {
      PlainUnchanged(n, s[0]);
      PureUnchanged(n, s[1..]);
      assert s == [s[0]] + s[1..];
    }
  }

  lemma {:induction false} PlainUnchanged(n: Names, e: Expr)
    requires e.If? || e.Case? ==> !ExprUsesExit(n, e)
    ensures LowerPlain(n, e) == e
    decreases SizeExpr(e), 1
  {
    match e
    case If(thenBody, elseBody) =>
      PureUnchanged(n, thenBody);
      ElseUnchanged(n, elseBody);
    case Case(arms, default) =>
      ArmsUnchanged(n, arms);
      ElseUnchanged(n, default);
    case _ =>
  }

  lemma {:induction false} ElseUnchanged(n: Names, e: Else)
    requires !ElseUsesExit(n, e)
    ensures LowerElse(n, e) == e
    decreases SizeElse(e), 1
  {
    match e
    case NoElse =>
    case ElseBody(body) => PureUnchanged(n, body);
  }

  lemma {:induction false} ArmsUnchanged(n: Names, arms: seq<Arm>)
    requires !ArmsUseExit(n, arms)
    ensures LowerArms(n, arms, []).arms == arms
    decreases SizeArms(arms), 1
  {
    if arms != [] {
      assert arms[0].body + [] == arms[0].body;
      PureUnchanged(n, arms[0].body);
      ArmsUnchanged(n, arms[1..]);
      assert arms == [arms[0]] + arms[1..];
    }
  }

  // ----- lowering reaches the normal form -----

  lemma {:induction false} LowerSettles(n: Names, s: seq<Expr>)
    ensures Settled(n, LowerSeq(n, s).body)
    decreases SizeSeq(s), 2, |s|
  {
    if s != [] {
      var e, tail := s[0], s[1..];
      if IsExitWord(n, e) {
      } else if e.If? && ExprUsesExit(n, e) {
        IfSettles(n, e, tail);
      } else if e.Case? && ExprUsesExit(n, e) {
        CaseSettles(n, e, tail);
      } else {
        PlainUnchanged(n, e);
        LowerSettles(n, tail);
        assert ([e] + LowerSeq(n, tail).body)[1..] == LowerSeq(n, tail).body;
      }
    }
  }

  lemma {:induction false} IfSettles(n: Names, e: Expr, tail: seq<Expr>)
    requires e.If?
    ensures Settled(n, LowerExitingIf(n, e, tail).body)
    decreases SizeExpr(e) + SizeSeq(tail), 1, 0
  {
    SizeConcat(e.thenBody, tail);
    SizeConcat(ElseSeq(e.elseBody), tail);
    ElseSeqSize(e.elseBody);
    LowerSettles(n, e.thenBody + tail);
    LowerSettles(n, ElseSeq(e.elseBody) + tail);
    LastSettled(n, LowerExitingIf(n, e, tail).body);
  }

  lemma {:induction false} CaseSettles(n: Names, e: Expr, tail: seq<Expr>)
    requires e.Case?
    ensures Settled(n, LowerExitingCase(n, e, tail).body)
    decreases SizeExpr(e) + SizeSeq(tail), 1, 0
  {
    SizeConcat(ElseSeq(e.default), tail);
    ElseSeqSize(e.default);
    LowerSettles(n, ElseSeq(e.default) + tail);
    ArmsSettle(n, e.arms, tail);
    LastSettled(n, LowerExitingCase(n, e, tail).body);
  }

  lemma LastSettled(n: Names, s: seq<Expr>)
    requires |s| == 1 && SettledExpr(n, s[0])
    ensures Settled(n, s)
  {
    assert s[1..] == [];
  }

  lemma {:induction false} ArmsSettle(n: Names, arms: seq<Arm>, tail: seq<Expr>)
    ensures SettledArms(n, LowerArms(n, arms, tail).arms)
    decreases SizeArms(arms) + SizeSeq(tail), 0, 0
  {
    if arms != [] {
      SizeConcat(arms[0].body, tail);
      LowerSettles(n, arms[0].body + tail);
      ArmsSettle(n, arms[1..], tail);
      var la := LowerArms(n, arms, tail).arms;
      assert la[1..] == LowerArms(n, arms[1..], tail).arms;
    }
  }

  // ----- the normal form is exactly what lowering leaves alone -----

  lemma {:induction false} SettledFixed(n: Names, s: seq<Expr>)
    requires Settled(n, s)
    ensures LowerSeq(n, s).body == s
    decreases SizeSeq(s), 2, |s|
  {
    if s != [] {
      var e := s[0];
      assert s == [e] + s[1..];
      if (e.If? || e.Case?) && ExprUsesExit(n, e) {
        ExitingFixed(n, e);
      } else {
        PlainUnchanged(n, e);
        SettledFixed(n, s[1..]);
      }
    }
  }

  lemma {:induction false} ExitingFixed(n: Names, e: Expr)
    requires SettledExpr(n, e)
    ensures e.If? ==> LowerExitingIf(n, e, []).body == [e]
    ensures e.Case? ==> LowerExitingCase(n, e, []).body == [e]
    decreases SizeExpr(e), 1, 0
  {
    match e
    case If(thenBody, elseBody) =>
      assert thenBody + [] == thenBody && ElseSeq(elseBody) + [] == ElseSeq(elseBody);
      ElseSeqSize(elseBody);
      SettledFixed(n, thenBody);
      SettledFixed(n, ElseSeq(elseBody));
    case Case(arms, default) =>
      assert ElseSeq(default) + [] == ElseSeq(default);
      ElseSeqSize(default);
      SettledFixed(n, ElseSeq(default));
      ArmsFixed(n, arms);
  }

  lemma {:induction false} ArmsFixed(n: Names, arms: seq<Arm>)
    requires SettledArms(n, arms)
    ensures LowerArms(n, arms, []).arms == arms
    decreases SizeArms(arms), 1, 0
  {
    if arms != [] {
      assert arms[0].body + [] == arms[0].body;
      SettledFixed(n, arms[0].body);
      ArmsFixed(n, arms[1..]);
      assert arms == [arms[0]] + arms[1..];
    }
  }

  /** A body is unchanged by lowering if and only if it is in normal form. */
  lemma FixedIffSettled(n: Names, s: seq<Expr>)
    ensures LowerSeq(n, s).body == s <==> Settled(n, s)
  {
    LowerSettles(n, s);
    if Settled(n, s) {
      SettledFixed(n, s);
    }
  }

  /** A second lowering changes nothing. */
  lemma LowerTwice(n: Names, s: seq<Expr>)
    ensures LowerSeq(n, LowerSeq(n, s).body).body == LowerSeq(n, s).body
  {
    LowerSettles(n, s);
    SettledFixed(n, LowerSeq(n, s).body);
  }

  // ----- what survives -----

  /** In normal form the only EXITs are in loops and match expressions. */
  lemma {:induction false} SettledStripped(n: Names, s: seq<Expr>)
    requires Settled(n, s)
    ensures !SeqStrips(n, s)
    decreases SizeSeq(s), 2, |s|
  {
    if s != [] {
      var e := s[0];
      Sizes(s);
      if (e.If? || e.Case?) && ExprUsesExit(n, e) {
        ExprStripped(n, e);
      } else {
        if e.If? || e.Case? {
          ExprPure(n, e, true);
        }
        SettledStripped(n, s[1..]);
      }
    }
  }

  lemma {:induction false} ExprStripped(n: Names, e: Expr)
    requires SettledExpr(n, e)
    ensures !ExprStrips(n, e)
    decreases SizeExpr(e), 1, 0
  {
    match e
    case If(thenBody, elseBody) =>
      SettledStripped(n, thenBody);
      ElseStripped(n, elseBody);
    case Case(arms, default) =>
      ArmsStripped(n, arms);
      ElseStripped(n, default);
  }

  lemma {:induction false} ElseStripped(n: Names, e: Else)
    requires SettledElse(n, e)
    ensures !ElseStrips(n, e)
    decreases SizeElse(e), 1, 0
  {
    match e
    case NoElse =>
    case ElseBody(body) => SettledStripped(n, body);
  }

  lemma {:induction false} ArmsStripped(n: Names, arms: seq<Arm>)
    requires SettledArms(n, arms)
    ensures !ArmsStrip(n, arms)
    decreases SizeArms(arms), 1
  {
    if arms != [] {
      SettledStripped(n, arms[0].body);
      ArmsStripped(n, arms[1..]);
    }
  }

  /** No loop and no match expression holds EXIT. */
  predicate Clean(n: Names, s: seq<Expr>)
    decreases SizeSeq(s), 1, |s|
  {
    s != [] ==> CleanExpr(n, s[0]) && Clean(n, s[1..])
  }

  predicate CleanExpr(n: Names, e: Expr)
    decreases SizeExpr(e), 0
  {
    match e
    case If(thenBody, elseBody) => Clean(n, thenBody) && CleanElse(n, elseBody)
    case Case(arms, default) => CleanArms(n, arms) && CleanElse(n, default)
    case _ => IsLoop(e) ==> !ExprHoldsExit(n, e)
  }

  predicate CleanElse(n: Names, e: Else)
    decreases SizeElse(e), 0
  {
    e.ElseBody? ==> Clean(n, e.body)
  }

  predicate CleanArms(n: Names, arms: seq<Arm>)
    decreases SizeArms(arms), 0
  {
    arms != [] ==> !SeqHoldsExit(n, arms[0].matchExpr) && Clean(n, arms[0].body) && CleanArms(n, arms[1..])
  }

  lemma {:induction false} StripsIsHolds(n: Names, s: seq<Expr>)
    requires Clean(n, s)
    ensures SeqStrips(n, s) == SeqHoldsExit(n, s)
    decreases SizeSeq(s), 1, |s|
  {
    if s != [] {
      ExprStripsIsHolds(n, s[0]);
      StripsIsHolds(n, s[1..]);
    }
  }

  lemma {:induction false} ExprStripsIsHolds(n: Names, e: Expr)
    requires CleanExpr(n, e)
    ensures ExprStrips(n, e) == ExprHoldsExit(n, e)
    decreases SizeExpr(e), 0
  {
    match e
    case If(thenBody, elseBody) =>
      StripsIsHolds(n, thenBody);
      ElseStripsIsHolds(n, elseBody);
    case Case(arms, default) =>
      ArmsStripIsHold(n, arms);
      ElseStripsIsHolds(n, default);
    case _ =>
  }

  lemma {:induction false} ElseStripsIsHolds(n: Names, e: Else)
    requires CleanElse(n, e)
    ensures ElseStrips(n, e) == ElseHoldsExit(n, e)
    decreases SizeElse(e), 0
  {
    match e
    case NoElse =>
    case ElseBody(body) => StripsIsHolds(n, body);
  }

  lemma {:induction false} ArmsStripIsHold(n: Names, arms: seq<Arm>)
    requires CleanArms(n, arms)
    ensures ArmsStrip(n, arms) == ArmsHoldExit(n, arms)
    decreases SizeArms(arms), 0
  {
    if arms != [] {
      StripsIsHolds(n, arms[0].body);
      ArmsStripIsHold(n, arms[1..]);
    }
  }

  lemma CleanElseSeq(n: Names, e: Else)
    ensures CleanElse(n, e) ==> Clean(n, ElseSeq(e))
  {
    match e
    case NoElse =>
    case ElseBody(body) =>
  }

  lemma {:induction false} CleanConcat(n: Names, a: seq<Expr>, b: seq<Expr>)
    ensures Clean(n, a + b) <==> Clean(n, a) && Clean(n, b)
    decreases a
  {
    if a == [] {
      assert a + b == b;
    } else {
      assert (a + b)[1..] == a[1..] + b;
      CleanConcat(n, a[1..], b);
    }
  }

  lemma {:induction false} LowerClean(n: Names, s: seq<Expr>)
    requires Clean(n, s)
    ensures Clean(n, LowerSeq(n, s).body)
    decreases SizeSeq(s), 2, |s|
  {
    if s != [] {
      var e, tail := s[0], s[1..];
      Sizes(s);
      if IsExitWord(n, e) {
      } else if e.If? && ExprUsesExit(n, e) {
        LowerBranchClean(n, e.thenBody, tail);
        ElseSeqSize(e.elseBody);
        CleanElseSeq(n, e.elseBody);
        LowerBranchClean(n, ElseSeq(e.elseBody), tail);
      } else if e.Case? && ExprUsesExit(n, e) {
        ElseSeqSize(e.default);
        CleanElseSeq(n, e.default);
        LowerBranchClean(n, ElseSeq(e.default), tail);
        LowerArmsClean(n, e.arms, tail);
      } else {
        PlainUnchanged(n, e);
        LowerClean(n, tail);
        assert ([e] + LowerSeq(n, tail).body)[1..] == LowerSeq(n, tail).body;
      }
    }
  }

  lemma {:induction false} LowerBranchClean(n: Names, branch: seq<Expr>, tail: seq<Expr>)
    requires Clean(n, branch) && Clean(n, tail)
    ensures Clean(n, LowerSeq(n, branch + tail).body)
    decreases SizeSeq(branch) + SizeSeq(tail), 3, 0
  {
    SizeConcat(branch, tail);
    CleanConcat(n, branch, tail);
    LowerClean(n, branch + tail);
  }

  lemma {:induction false} LowerArmsClean(n: Names, arms: seq<Arm>, tail: seq<Expr>)
    requires CleanArms(n, arms) && Clean(n, tail)
    ensures CleanArms(n, LowerArms(n, arms, tail).arms)
    decreases SizeArms(arms) + SizeSeq(tail), 4, 0
  {
    if arms != [] {
      LowerBranchClean(n, arms[0].body, tail);
      LowerArmsClean(n, arms[1..], tail);
      var la := LowerArms(n, arms, tail).arms;
      assert la[1..] == LowerArms(n, arms[1..], tail).arms;
    }
  }

  /** From a body whose loops and match expressions hold no EXIT, lowering removes every EXIT. */
  lemma CleanLosesExit(n: Names, s: seq<Expr>)
    requires Clean(n, s)
    ensures !SeqHoldsExit(n, LowerSeq(n, s).body)
  {
    LowerSettles(n, s);
    SettledStripped(n, LowerSeq(n, s).body);
    LowerClean(n, s);
    StripsIsHolds(n, LowerSeq(n, s).body);
  }

  // ----- the flag -----

  /** A concatenation terminates if and only if one of its parts does. */
  lemma {:induction false} TerminatesConcat(n: Names, a: seq<Expr>, b: seq<Expr>)
    ensures LowerSeq(n, a + b).terminates <==> LowerSeq(n, a).terminates || LowerSeq(n, b).terminates
    decreases SizeSeq(a), 2, |a|
  {
    if a == [] {
      assert a + b == b;
    } else {
      var e, rest := a[0], a[1..];
      assert (a + b)[0] == e && (a + b)[1..] == rest + b;
      assert SizeSeq(a) == SizeExpr(e) + SizeSeq(rest);
      if IsExitWord(n, e) {
      } else if e.If? && ExprUsesExit(n, e) {
        BranchTerminates(n, e.thenBody, rest, b);
        ElseSeqSize(e.elseBody);
        BranchTerminates(n, ElseSeq(e.elseBody), rest, b);
      } else if e.Case? && ExprUsesExit(n, e) {
        ElseSeqSize(e.default);
        BranchTerminates(n, ElseSeq(e.default), rest, b);
        ArmsTerminate(n, e.arms, rest, b);
      } else {
        TerminatesConcat(n, rest, b);
      }
    }
  }

  lemma {:induction false} BranchTerminates(n: Names, branch: seq<Expr>, rest: seq<Expr>, b: seq<Expr>)
    ensures LowerSeq(n, branch + (rest + b)).terminates
            <==> LowerSeq(n, branch + rest).terminates || LowerSeq(n, b).terminates
    decreases SizeSeq(branch) + SizeSeq(rest), 3, 0
  {
    SizeConcat(branch, rest);
    assert branch + (rest + b) == (branch + rest) + b;
    TerminatesConcat(n, branch + rest, b);
  }

  lemma {:induction false} ArmsTerminate(n: Names, arms: seq<Arm>, rest: seq<Expr>, b: seq<Expr>)
    ensures LowerArms(n, arms, rest).terminate ==> LowerArms(n, arms, rest + b).terminate
    ensures LowerSeq(n, b).terminates ==> LowerArms(n, arms, rest + b).terminate
    ensures LowerArms(n, arms, rest + b).terminate ==> LowerArms(n, arms, rest).terminate || LowerSeq(n, b).terminates
    decreases SizeArms(arms) + SizeSeq(rest), 4, 0
  {
    if arms != [] {
      BranchTerminates(n, arms[0].body, rest, b);
      ArmsTerminate(n, arms[1..], rest, b);
    }
  }

  /** Every path through the body meets an EXIT outside loops and match expressions. */
  predicate AlwaysExits(n: Names, s: seq<Expr>)
    decreases SizeSeq(s), 1, |s|
  {
    s != [] && (ExprAlwaysExits(n, s[0]) || AlwaysExits(n, s[1..]))
  }

  predicate ExprAlwaysExits(n: Names, e: Expr)
    decreases SizeExpr(e), 0
  {
    IsExitWord(n, e) ||
    match e
    case If(thenBody, elseBody) => AlwaysExits(n, thenBody) && ElseAlwaysExits(n, elseBody)
    case Case(arms, default) => ArmsAlwaysExit(n, arms) && ElseAlwaysExits(n, default)
    case _ => false
  }

  predicate ElseAlwaysExits(n: Names, e: Else)
    decreases SizeElse(e), 0
  {
    e.ElseBody? && AlwaysExits(n, e.body)
  }

  predicate ArmsAlwaysExit(n: Names, arms: seq<Arm>)
    decreases SizeArms(arms), 0
  {
    arms != [] ==> AlwaysExits(n, arms[0].body) && ArmsAlwaysExit(n, arms[1..])
  }

  /** The flag says exactly that every path exits. */
  lemma {:induction false} TerminatesExactly(n: Names, s: seq<Expr>)
    ensures LowerSeq(n, s).terminates <==> AlwaysExits(n, s)
    decreases SizeSeq(s), 2, |s|
  {
    if s != [] {
      var e, tail := s[0], s[1..];
      Sizes(s);
      TerminatesExactly(n, tail);
      if IsExitWord(n, e) {
      } else if e.If? && ExprUsesExit(n, e) {
        TerminatesConcat(n, e.thenBody, tail);
        TerminatesConcat(n, ElseSeq(e.elseBody), tail);
        TerminatesExactly(n, e.thenBody);
        ElseTerminatesExactly(n, e.elseBody);
      } else if e.Case? && ExprUsesExit(n, e) {
        TerminatesConcat(n, ElseSeq(e.default), tail);
        ElseTerminatesExactly(n, e.default);
        ArmsTerminateExactly(n, e.arms, tail);
      } else {
        PureNeverExits(n, e);
      }
    }
  }

  lemma {:induction false} ElseTerminatesExactly(n: Names, e: Else)
    ensures LowerSeq(n, ElseSeq(e)).terminates <==> ElseAlwaysExits(n, e)
    decreases SizeElse(e), 2, 0
  {
    match e
    case NoElse =>
    case ElseBody(body) => TerminatesExactly(n, body);
  }

  lemma {:induction false} ArmsTerminateExactly(n: Names, arms: seq<Arm>, tail: seq<Expr>)
    ensures LowerArms(n, arms, tail).terminate <==> ArmsAlwaysExit(n, arms) || LowerSeq(n, tail).terminates
    decreases SizeArms(arms), 2, 0
  {
    if arms != [] {
      TerminatesConcat(n, arms[0].body, tail);
      TerminatesExactly(n, arms[0].body);
      ArmsTerminateExactly(n, arms[1..], tail);
    }
  }

  /** A node that is not cut does not always exit. */
  lemma {:induction false} PureNeverExits(n: Names, e: Expr)
    requires !IsExitWord(n, e) && (e.If? || e.Case? ==> !ExprUsesExit(n, e))
    ensures !ExprAlwaysExits(n, e)
    decreases SizeExpr(e), 1
  {
    match e
    case If(thenBody, _) => NeverAlways(n, thenBody);
    case Case(_, default) => ElseNeverAlways(n, default);
    case _ =>
  }

  lemma {:induction false} ElseNeverAlways(n: Names, e: Else)
    requires !ElseUsesExit(n, e)
    ensures !ElseAlwaysExits(n, e)
    decreases SizeElse(e), 1
  {
    match e
    case NoElse =>
    case ElseBody(body) => NeverAlways(n, body);
  }

  lemma {:induction false} NeverAlways(n: Names, s: seq<Expr>)
    requires !SeqUsesExit(n, s)
    ensures !AlwaysExits(n, s)
    decreases SizeSeq(s), 2, |s|
  {
    if s != [] {
      PureNeverExits(n, s[0]);
      NeverAlways(n, s[1..]);
    }
  }

  /** If the flag is set, no run of the original body falls off its end. */
  lemma {:induction false} TerminatesNeverFalls(m: Machine, c: Context, s: seq<Expr>, st: State, fuel: nat)
    requires LowerSeq(m.NamesOf(c), s).terminates
    ensures !RunSeq(m, c, s, st, fuel).Next?
    decreases SizeSeq(s), 2, |s|
  {
    var n := m.NamesOf(c);
    var e, tail := s[0], s[1..];
    assert s == [e] + tail;
    Sizes(s);
    if IsExitWord(n, e) {
      assert RunExpr(m, c, e, st, fuel) == Exit(st);
    } else if e.If? && ExprUsesExit(n, e) {
      RunIfTail(m, c, e, tail, st, fuel);
      SizeConcat(e.thenBody, tail);
      SizeConcat(ElseSeq(e.elseBody), tail);
      ElseSeqSize(e.elseBody);
      if |st.stack| > 0 {
        TerminatesNeverFalls(m, c, e.thenBody + tail, Pop(st), fuel);
        TerminatesNeverFalls(m, c, ElseSeq(e.elseBody) + tail, Pop(st), fuel);
      }
    } else if e.Case? && ExprUsesExit(n, e) {
      RunCons(m, c, e, tail, st, fuel);
      CaseNeverFalls(m, c, e.arms, e.default, tail, st, fuel);
    } else {
      match RunExpr(m, c, e, st, fuel)
      case Next(st1) => TerminatesNeverFalls(m, c, tail, st1, fuel);
      case _ =>
    }
  }

  lemma {:induction false} CaseNeverFalls(m: Machine, c: Context, arms: seq<Arm>, default: Else, tail: seq<Expr>,
                                          st: State, fuel: nat)
    requires LowerArms(m.NamesOf(c), arms, tail).terminate
    requires LowerSeq(m.NamesOf(c), ElseSeq(default) + tail).terminates
    ensures !AndThen(m, c, RunArms(m, c, arms, default, st, fuel), tail, fuel).Next?
    decreases SizeArms(arms) + SizeElse(default) + SizeSeq(tail), 3, 0
  {
    var n := m.NamesOf(c);
    if arms == [] {
      TerminatesConcat(n, ElseSeq(default), tail);
      RunElseSeq(m, c, default, st, fuel);
      ElseSeqSize(default);
      if LowerSeq(n, ElseSeq(default)).terminates {
        TerminatesNeverFalls(m, c, ElseSeq(default), st, fuel);
      } else {
        match RunArms(m, c, arms, default, st, fuel)
        case Next(st1) => TerminatesNeverFalls(m, c, tail, st1, fuel);
        case _ =>
      }
    } else {
      match RunSeq(m, c, arms[0].matchExpr, st, fuel)
      case Next(st1) =>
        if |st1.stack| < 2 {
        } else if Top(st1.stack) == Top(Drop(st1.stack)) {
          SizeConcat(arms[0].body, tail);
          RunConcat(m, c, arms[0].body, tail, Pop(Pop(st1)), fuel);
          TerminatesNeverFalls(m, c, arms[0].body + tail, Pop(Pop(st1)), fuel);
        } else {
          CaseNeverFalls(m, c, arms[1..], default, tail, Pop(st1), fuel);
        }
      case _ =>
    }
  }
}
