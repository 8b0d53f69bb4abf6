/** Removing EXIT by tail inlining (src/compiler/lower_exit.rs). */
module LowerExit {
  import opened Forth
  import opened Equivalence

  // ----- where EXIT occurs -----

  predicate IsExitWord(n: Names, e: Expr) {
    e.WordRef? && Resolve(n, e.name) == Return
  }

  /** body_uses_exit: loops, branches, arms and defaults are searched, match expressions are not. */
  predicate SeqUsesExit(n: Names, s: seq<Expr>)
    decreases SizeSeq(s), 1, |s|
  {
    s != [] && (ExprUsesExit(n, s[0]) || SeqUsesExit(n, s[1..]))
  }

  predicate ExprUsesExit(n: Names, e: Expr)
    decreases SizeExpr(e), 0
  {
    IsExitWord(n, e) ||
    match e
    case If(thenBody, elseBody) => SeqUsesExit(n, thenBody) || ElseUsesExit(n, elseBody)
    case BeginUntil(body) => SeqUsesExit(n, body)
    case BeginAgain(body) => SeqUsesExit(n, body)
    case BeginWhileRepeat(pred, body) => SeqUsesExit(n, pred) || SeqUsesExit(n, body)
    case DoLoop(_, body, _) => SeqUsesExit(n, body)
    case Case(arms, default) => ArmsUseExit(n, arms) || ElseUsesExit(n, default)
    case _ => false
  }

  predicate ElseUsesExit(n: Names, e: Else)
    decreases SizeElse(e), 0
  {
    e.ElseBody? && SeqUsesExit(n, e.body)
  }

  predicate ArmsUseExit(n: Names, arms: seq<Arm>)
    decreases SizeArms(arms), 0
  {
    arms != [] && (SeqUsesExit(n, arms[0].body) || ArmsUseExit(n, arms[1..]))
  }

  /** EXIT anywhere, match expressions included. */
  predicate SeqHoldsExit(n: Names, s: seq<Expr>)
    decreases SizeSeq(s), 1, |s|
  {
    s != [] && (ExprHoldsExit(n, s[0]) || SeqHoldsExit(n, s[1..]))
  }

  predicate ExprHoldsExit(n: Names, e: Expr)
    decreases SizeExpr(e), 0
  {
    IsExitWord(n, e) ||
    match e
    case If(thenBody, elseBody) => SeqHoldsExit(n, thenBody) || ElseHoldsExit(n, elseBody)
    case BeginUntil(body) => SeqHoldsExit(n, body)
    case BeginAgain(body) => SeqHoldsExit(n, body)
    case BeginWhileRepeat(pred, body) => SeqHoldsExit(n, pred) || SeqHoldsExit(n, body)
    case DoLoop(_, body, _) => SeqHoldsExit(n, body)
    case Case(arms, default) => ArmsHoldExit(n, arms) || ElseHoldsExit(n, default)
    case _ => false
  }

  predicate ElseHoldsExit(n: Names, e: Else)
    decreases SizeElse(e), 0
  {
    e.ElseBody? && SeqHoldsExit(n, e.body)
  }

  predicate ArmsHoldExit(n: Names, arms: seq<Arm>)
    decreases SizeArms(arms), 0
  {
    arms != [] &&
    (SeqHoldsExit(n, arms[0].matchExpr) || SeqHoldsExit(n, arms[0].body) || ArmsHoldExit(n, arms[1..]))
  }

  // ----- the transformation -----

  /** A lowered body, and whether every path through it came from one that exits. */
  datatype Lowered = Lowered(body: seq<Expr>, terminates: bool)

  datatype LoweredArms = LoweredArms(arms: seq<Arm>, terminate: bool)

  /** What is left of a body after lowering: a body that exits ends there; a branch or case that holds
      EXIT swallows the rest of the body into each of its alternatives; everything else stays. */
  function LowerSeq(n: Names, s: seq<Expr>): Lowered
    decreases SizeSeq(s), 3, |s|
  {
    if s == [] then Lowered([], false)
    else if IsExitWord(n, s[0]) then Lowered([], true)
    else if s[0].If? && ExprUsesExit(n, s[0]) then LowerExitingIf(n, s[0], s[1..])
    else if s[0].Case? && ExprUsesExit(n, s[0]) then LowerExitingCase(n, s[0], s[1..])
    else
      var rest := LowerSeq(n, s[1..]);
      Lowered([LowerPlain(n, s[0])] + rest.body, rest.terminates)
  }

  lemma Sizes(s: seq<Expr>)
    requires s != []
    ensures SizeSeq(s) == SizeExpr(s[0]) + SizeSeq(s[1..])
    ensures s[0].If? ==> SizeExpr(s[0]) == 1 + SizeSeq(s[0].thenBody) + SizeElse(s[0].elseBody)
    ensures s[0].Case? ==> SizeExpr(s[0]) == 1 + SizeArms(s[0].arms) + SizeElse(s[0].default)
  {}

  lemma ElseSeqSize(e: Else)
    ensures SizeSeq(ElseSeq(e)) <= SizeElse(e)
  {}

  function LowerExitingIf(n: Names, e: Expr, tail: seq<Expr>): Lowered
    requires e.If?
    decreases SizeExpr(e) + SizeSeq(tail), 2
  {
    SizeConcat(e.thenBody, tail);
    SizeConcat(ElseSeq(e.elseBody), tail);
    ElseSeqSize(e.elseBody);
    var t := LowerSeq(n, e.thenBody + tail);
    var f := LowerSeq(n, ElseSeq(e.elseBody) + tail);
    Lowered([If(t.body, ElseBody(f.body))], t.terminates && f.terminates)
  }

  function LowerExitingCase(n: Names, e: Expr, tail: seq<Expr>): Lowered
    requires e.Case?
    decreases SizeExpr(e) + SizeSeq(tail), 2
  {
    SizeConcat(ElseSeq(e.default), tail);
    ElseSeqSize(e.default);
    var arms := LowerArms(n, e.arms, tail);
    var d := LowerSeq(n, ElseSeq(e.default) + tail);
    Lowered([Case(arms.arms, AsDefault(d.body))], arms.terminate && d.terminates)
  }

  function AsDefault(body: seq<Expr>): Else {
    if body == [] then NoElse else ElseBody(body)
  }

  /** Each arm with the tail inlined behind its body; the match expressions stay. */
  function LowerArms(n: Names, arms: seq<Arm>, tail: seq<Expr>): LoweredArms
    decreases SizeArms(arms) + SizeSeq(tail), 2
  {
    if arms == [] then LoweredArms([], true)
    else
      SizeConcat(arms[0].body, tail);
      var b := LowerSeq(n, arms[0].body + tail);
      var rest := LowerArms(n, arms[1..], tail);
      LoweredArms([Arm(arms[0].matchExpr, b.body)] + rest.arms, b.terminates && rest.terminate)
  }

  /** A node that is not cut: branches and cases are lowered inside, loops are opaque. */
  function LowerPlain(n: Names, e: Expr): Expr
    decreases SizeExpr(e), 1
  {
    match e
    case If(thenBody, elseBody) => If(LowerSeq(n, thenBody).body, LowerElse(n, elseBody))
    case Case(arms, default) => Case(LowerArms(n, arms, []).arms, LowerElse(n, default))
    case _ => e
  }

  function LowerElse(n: Names, e: Else): Else
    decreases SizeElse(e), 1
  {
    match e
    case NoElse => NoElse
    case ElseBody(body) => ElseBody(LowerSeq(n, body).body)
  }

  function LowerBody(n: Names, s: seq<Expr>): seq<Expr> {
    LowerSeq(n, s).body
  }

  /** The loop of the source: pushes onto `out` and returns early where the rest is cut or swallowed. */
  method LowerSeqLoop(n: Names, s: seq<Expr>) returns (out: seq<Expr>, terminates: bool)
    ensures LowerSeq(n, s) == Lowered(out, terminates)
  {
    out := [];
    for i := 0 to |s|
      invariant LowerSeq(n, s) == Prepend(out, LowerSeq(n, s[i..]))
    {
      var e := s[i];
      assert s[i..][1..] == s[i + 1..];
      if IsExitWord(n, e) {
        assert out + [] == out;
        return out, true;
      }
      if (e.If? || e.Case?) && ExprUsesExit(n, e) {
        var cut := if e.If? then LowerExitingIf(n, e, s[i + 1..]) else LowerExitingCase(n, e, s[i + 1..]);
        return out + cut.body, cut.terminates;
      }
      assert out + ([LowerPlain(n, e)] + LowerSeq(n, s[i + 1..]).body)
          == out + [LowerPlain(n, e)] + LowerSeq(n, s[i + 1..]).body;
      out := out + [LowerPlain(n, e)];
    }
    assert s[|s|..] == [] && out + [] == out;
    terminates := false;
  }

  function Prepend(out: seq<Expr>, l: Lowered): Lowered {
    Lowered(out + l.body, l.terminates)
  }

  // ----- where lowering is meant to work -----

  /** EXIT outside loops and match expressions, which lowering removes. */
  predicate SeqStrips(n: Names, s: seq<Expr>)
    decreases SizeSeq(s), 1, |s|
  {
    s != [] && (ExprStrips(n, s[0]) || SeqStrips(n, s[1..]))
  }

  predicate ExprStrips(n: Names, e: Expr)
    decreases SizeExpr(e), 0
  {
    IsExitWord(n, e) ||
    match e
    case If(thenBody, elseBody) => SeqStrips(n, thenBody) || ElseStrips(n, elseBody)
    case Case(arms, default) => ArmsStrip(n, arms) || ElseStrips(n, default)
    case _ => false
  }

  predicate ElseStrips(n: Names, e: Else)
    decreases SizeElse(e), 0
  {
    e.ElseBody? && SeqStrips(n, e.body)
  }

  predicate ArmsStrip(n: Names, arms: seq<Arm>)
    decreases SizeArms(arms), 0
  {
    arms != [] && (SeqStrips(n, arms[0].body) || ArmsStrip(n, arms[1..]))
  }

  /** Nothing of the rest will run: it is empty, or starts with EXIT. */
  predicate Inert(n: Names, tail: seq<Expr>) {
    tail == [] || IsExitWord(n, tail[0])
  }

  /** A CASE that holds EXIT stands at the end of the definition, and no EXIT of its default is
      stripped.  `last` says that nothing runs after s. */
  predicate CaseOk(n: Names, s: seq<Expr>, last: bool)
    decreases SizeSeq(s), 1, |s|
  {
    s == [] || IsExitWord(n, s[0]) ||
    (ExprCaseOk(n, s[0], Inert(n, s[1..]) && (s[1..] == [] ==> last)) && CaseOk(n, s[1..], last))
  }

  predicate ExprCaseOk(n: Names, e: Expr, last: bool)
    decreases SizeExpr(e), 0
  {
    match e
    case If(thenBody, elseBody) => CaseOk(n, thenBody, last) && ElseCaseOk(n, elseBody, last)
    case Case(arms, default) =>
      ExprUsesExit(n, e) ==>
        last && !ElseStrips(n, default) && ArmsCaseOk(n, arms) && ElseCaseOk(n, default, true)
    case _ => true
  }

  predicate ElseCaseOk(n: Names, e: Else, last: bool)
    decreases SizeElse(e), 0
  {
    e.ElseBody? ==> CaseOk(n, e.body, last)
  }

  predicate ArmsCaseOk(n: Names, arms: seq<Arm>)
    decreases SizeArms(arms), 0
  {
    arms != [] ==> CaseOk(n, arms[0].body, true) && ArmsCaseOk(n, arms[1..])
  }
}
