/** Replacing the accesses to narrow variables by Factor globals (try_emit_narrow_sink in
    src/compiler/emit.rs). */
module Globals {
  import opened Forth
  import opened Equivalence
  import opened Escape

  // ----- the replacement -----

  predicate IsUse(s: seq<Expr>, narrow: set<string>) {
    |s| >= 2 && s[0].WordRef? && Lower(s[0].name) in narrow && IsSink(s[1])
  }

  /** Byte accesses are made like those of whole cells. */
  function AccessOf(sink: string): Access
    requires sink in sinks
  {
    if sink == "@" || sink == "c@" then Get else if sink == "!" || sink == "c!" then Set else Add
  }

  /** The access that a variable and its sink become. */
  function UseAccess(v: Expr, k: Expr): Expr
    requires v.WordRef? && IsSink(k)
  {
    Global(AccessOf(Lower(k.name)), Lower(v.name))
  }

  /** A narrow variable and the sink after it become one access, from left to right, at every depth. */
  function GlobSeq(s: seq<Expr>, narrow: set<string>): seq<Expr>
    decreases SizeSeq(s), 1, |s|
  {
    if s == [] then []
    else if IsUse(s, narrow) then
      PairSize(s);
      [UseAccess(s[0], s[1])] + GlobSeq(s[2..], narrow)
    else [GlobExpr(s[0], narrow)] + GlobSeq(s[1..], narrow)
  }

  function GlobExpr(e: Expr, narrow: set<string>): Expr
    decreases SizeExpr(e), 0
  {
    match e
    case If(thenBody, elseBody) => If(GlobSeq(thenBody, narrow), GlobElse(elseBody, narrow))
    case BeginUntil(body) => BeginUntil(GlobSeq(body, narrow))
    case BeginAgain(body) => BeginAgain(GlobSeq(body, narrow))
    case BeginWhileRepeat(pred, body) => BeginWhileRepeat(GlobSeq(pred, narrow), GlobSeq(body, narrow))
    case DoLoop(isQdo, body, kind) => DoLoop(isQdo, GlobSeq(body, narrow), kind)
    case Case(arms, default) => Case(GlobArms(arms, narrow), GlobElse(default, narrow))
    case _ => e
  }

  function GlobElse(e: Else, narrow: set<string>): Else
    decreases SizeElse(e), 0
  {
    match e
    case NoElse => NoElse
    case ElseBody(body) => ElseBody(GlobSeq(body, narrow))
  }

  function GlobArms(arms: seq<Arm>, narrow: set<string>): seq<Arm>
    decreases SizeArms(arms), 0
  {
    if arms == [] then []
    else [Arm(GlobSeq(arms[0].matchExpr, narrow), GlobSeq(arms[0].body, narrow))] + GlobArms(arms[1..], narrow)
  }

  lemma PairSize(s: seq<Expr>)
    requires |s| >= 2
    ensures s[1..][1..] == s[2..]
    ensures SizeSeq(s) == SizeExpr(s[0]) + SizeExpr(s[1]) + SizeSeq(s[2..])
  {
    assert s[1..][1..] == s[2..];
  }

  /** The loop of the source: an access consumes two expressions. */
  method EmitNarrow(exprs: seq<Expr>, narrow: set<string>) returns (out: seq<Expr>)
    ensures out == GlobSeq(exprs, narrow)
  {
    out := [];
    var i := 0;
    while i < |exprs|
      invariant 0 <= i <= |exprs|
      invariant GlobSeq(exprs, narrow) == out + GlobSeq(exprs[i..], narrow)
    {
      assert exprs[i..][1..] == exprs[i + 1..];
      if i + 1 < |exprs| && IsUse(exprs[i..], narrow) {
        assert exprs[i..][2..] == exprs[i + 2..];
        out := out + [UseAccess(exprs[i], exprs[i + 1])];
        i := i + 2;
      } else {
        out := out + [GlobExpr(exprs[i], narrow)];
        i := i + 1;
      }
    }
    assert exprs[i..] == [];
  }

  // ----- no bare reference -----

  /** No reference to a narrow variable is left, at any depth. */
  predicate NoBare(s: seq<Expr>, narrow: set<string>)
    decreases SizeSeq(s), 1, |s|
  {
    s != [] ==> NoBareIn(s[0], narrow) && NoBare(s[1..], narrow)
  }

  predicate NoBareIn(e: Expr, narrow: set<string>)
    decreases SizeExpr(e), 0
  {
    match e
    case WordRef(name) => Lower(name) !in narrow
    case If(thenBody, elseBody) => NoBare(thenBody, narrow) && NoBareElse(elseBody, narrow)
    case BeginUntil(body) => NoBare(body, narrow)
    case BeginAgain(body) => NoBare(body, narrow)
    case BeginWhileRepeat(pred, body) => NoBare(pred, narrow) && NoBare(body, narrow)
    case DoLoop(_, body, _) => NoBare(body, narrow)
    case Case(arms, default) => NoBareArms(arms, narrow) && NoBareElse(default, narrow)
    case _ => true
  }

  predicate NoBareElse(e: Else, narrow: set<string>)
    decreases SizeElse(e), 0
  {
    e.ElseBody? ==> NoBare(e.body, narrow)
  }

  predicate NoBareArms(arms: seq<Arm>, narrow: set<string>)
    decreases SizeArms(arms), 0
  {
    arms != [] ==> NoBare(arms[0].matchExpr, narrow) && NoBare(arms[0].body, narrow) && NoBareArms(arms[1..], narrow)
  }

  /** A variable classed narrow is never emitted as a bare reference: if no reference escapes, none is
      left. */
  lemma {:induction false} GlobLeavesNoBare(s: seq<Expr>, narrow: set<string>)
    requires Escaping(s, narrow) == {}
    ensures NoBare(GlobSeq(s, narrow), narrow)
    decreases SizeSeq(s), 1, |s|
  {
    if s != [] {
      var b := GlobSeq(s, narrow);
      if IsUse(s, narrow) {
        PairSize(s);
        GlobLeavesNoBare(s[2..], narrow);
        assert b[1..] == GlobSeq(s[2..], narrow);
      } else {
        ExprLeavesNoBare(s[0], narrow);
        GlobLeavesNoBare(s[1..], narrow);
        assert b[1..] == GlobSeq(s[1..], narrow);
        assert s[0].WordRef? ==> Lower(s[0].name) !in narrow by {
          assert HeadEscapes(s, narrow) == {};
        }
      }
    }
  }

  lemma {:induction false} ExprLeavesNoBare(e: Expr, narrow: set<string>)
    requires Inside(e, narrow) == {}
    ensures e.WordRef? || NoBareIn(GlobExpr(e, narrow), narrow)
    decreases SizeExpr(e), 0, 0
  {
    match e
    case If(thenBody, elseBody) =>
      GlobLeavesNoBare(thenBody, narrow);
      ElseLeavesNoBare(elseBody, narrow);
    case BeginUntil(body) => GlobLeavesNoBare(body, narrow);
    case BeginAgain(body) => GlobLeavesNoBare(body, narrow);
    case BeginWhileRepeat(pred, body) =>
      GlobLeavesNoBare(pred, narrow);
      GlobLeavesNoBare(body, narrow);
    case DoLoop(_, body, _) => GlobLeavesNoBare(body, narrow);
    case Case(arms, default) =>
      ArmsLeaveNoBare(arms, narrow);
      ElseLeavesNoBare(default, narrow);
    case _ =>
  }

  lemma {:induction false} ElseLeavesNoBare(e: Else, narrow: set<string>)
    requires InElse(e, narrow) == {}
    ensures NoBareElse(GlobElse(e, narrow), narrow)
    decreases SizeElse(e), 0, 0
  {
    match e
    case NoElse =>
    case ElseBody(body) => GlobLeavesNoBare(body, narrow);
  }

  lemma {:induction false} ArmsLeaveNoBare(arms: seq<Arm>, narrow: set<string>)
    requires InArms(arms, narrow) == {}
    ensures NoBareArms(GlobArms(arms, narrow), narrow)
    decreases SizeArms(arms), 0, 0
  {
    if arms != [] {
      GlobLeavesNoBare(arms[0].matchExpr, narrow);
      GlobLeavesNoBare(arms[0].body, narrow);
      ArmsLeaveNoBare(arms[1..], narrow);
      var b := GlobArms(arms, narrow);
      assert b[0] == Arm(GlobSeq(arms[0].matchExpr, narrow), GlobSeq(arms[0].body, narrow));
      assert b[1..] == GlobArms(arms[1..], narrow);
    }
  }

  // ----- and only then -----

  /** A bare reference is emitted for every variable that escapes: none is left if and only if no
      reference escapes. */
  lemma NoBareExactly(s: seq<Expr>, narrow: set<string>)
    requires narrow !! sinks
    ensures NoBare(GlobSeq(s, narrow), narrow) <==> Escaping(s, narrow) == {}
  {
    if NoBare(GlobSeq(s, narrow), narrow) {
      NoBareOnlyIf(s, narrow);
    } else if Escaping(s, narrow) == {} {
      GlobLeavesNoBare(s, narrow);
    }
  }

  lemma {:induction false} NoBareOnlyIf(s: seq<Expr>, narrow: set<string>)
    requires NoBare(GlobSeq(s, narrow), narrow) && narrow !! sinks
    ensures Escaping(s, narrow) == {}
    decreases SizeSeq(s), 1, |s|
  {
    if s != [] {
      var b := GlobSeq(s, narrow);
      if IsUse(s, narrow) {
        PairSize(s);
        assert b[1..] == GlobSeq(s[2..], narrow);
        NoBareOnlyIf(s[2..], narrow);
        assert s[1..][0] == s[1] && HeadEscapes(s[1..], narrow) == {};
        assert Escaping(s[1..], narrow) == {};
      } else {
        assert b[0] == GlobExpr(s[0], narrow) && b[1..] == GlobSeq(s[1..], narrow);
        NoBareInOnlyIf(s[0], narrow);
        NoBareOnlyIf(s[1..], narrow);
      }
    }
  }

  lemma {:induction false} NoBareInOnlyIf(e: Expr, narrow: set<string>)
    requires NoBareIn(GlobExpr(e, narrow), narrow) && narrow !! sinks
    ensures Inside(e, narrow) == {}
    decreases SizeExpr(e), 0
  {
    match e
    case If(thenBody, elseBody) =>
      NoBareOnlyIf(thenBody, narrow);
      NoBareElseOnlyIf(elseBody, narrow);
    case BeginUntil(body) => NoBareOnlyIf(body, narrow);
    case BeginAgain(body) => NoBareOnlyIf(body, narrow);
    case BeginWhileRepeat(pred, body) =>
      NoBareOnlyIf(pred, narrow);
      NoBareOnlyIf(body, narrow);
    case DoLoop(_, body, _) => NoBareOnlyIf(body, narrow);
    case Case(arms, default) =>
      NoBareArmsOnlyIf(arms, narrow);
      NoBareElseOnlyIf(default, narrow);
    case _ =>
  }

  lemma {:induction false} NoBareElseOnlyIf(e: Else, narrow: set<string>)
    requires NoBareElse(GlobElse(e, narrow), narrow) && narrow !! sinks
    ensures InElse(e, narrow) == {}
    decreases SizeElse(e), 0
  {
    match e
    case NoElse =>
    case ElseBody(body) => NoBareOnlyIf(body, narrow);
  }

  lemma {:induction false} NoBareArmsOnlyIf(arms: seq<Arm>, narrow: set<string>)
    requires NoBareArms(GlobArms(arms, narrow), narrow) && narrow !! sinks
    ensures InArms(arms, narrow) == {}
    decreases SizeArms(arms), 0
  {
    if arms != [] {
      var b := GlobArms(arms, narrow);
      assert b[0] == Arm(GlobSeq(arms[0].matchExpr, narrow), GlobSeq(arms[0].body, narrow));
      assert b[1..] == GlobArms(arms[1..], narrow);
      NoBareOnlyIf(arms[0].matchExpr, narrow);
      NoBareOnlyIf(arms[0].body, narrow);
      NoBareArmsOnlyIf(arms[1..], narrow);
    }
  }

  // ----- locals -----

  /** A body binds locals if and only if the replaced body does. */
  lemma {:induction false} GlobBinds(s: seq<Expr>, narrow: set<string>)
    ensures BindsLocals(GlobSeq(s, narrow)) == BindsLocals(s)
    decreases SizeSeq(s), 1, |s|
  {
    if s != [] {
      if IsUse(s, narrow) {
        PairSize(s);
        GlobBinds(s[2..], narrow);
        assert s[1..][0] == s[1] && s[1..][1..] == s[2..];
        assert BindsLocals(s) == BindsLocals(s[1..]) == BindsLocals(s[2..]);
        var e := UseAccess(s[0], s[1]);
        assert ([e] + GlobSeq(s[2..], narrow))[1..] == GlobSeq(s[2..], narrow);
      } else {
        GlobExprBinds(s[0], narrow);
        GlobBinds(s[1..], narrow);
        var e := GlobExpr(s[0], narrow);
        assert ([e] + GlobSeq(s[1..], narrow))[1..] == GlobSeq(s[1..], narrow);
      }
    }
  }

  lemma {:induction false} GlobExprBinds(e: Expr, narrow: set<string>)
    ensures ExprBindsLocals(GlobExpr(e, narrow)) == ExprBindsLocals(e)
    decreases SizeExpr(e), 0
  {
    match e
    case If(thenBody, elseBody) =>
      GlobBinds(thenBody, narrow);
      GlobElseBinds(elseBody, narrow);
    case BeginUntil(body) => GlobBinds(body, narrow);
    case BeginAgain(body) => GlobBinds(body, narrow);
    case BeginWhileRepeat(pred, body) =>
      GlobBinds(pred, narrow);
      GlobBinds(body, narrow);
    case DoLoop(_, body, _) => GlobBinds(body, narrow);
    case Case(arms, default) =>
      GlobArmsBind(arms, narrow);
      GlobElseBinds(default, narrow);
    case _ =>
  }

  lemma {:induction false} GlobElseBinds(e: Else, narrow: set<string>)
    ensures ElseBindsLocals(GlobElse(e, narrow)) == ElseBindsLocals(e)
    decreases SizeElse(e), 0
  {
    match e
    case NoElse =>
    case ElseBody(body) => GlobBinds(body, narrow);
  }

  lemma {:induction false} GlobArmsBind(arms: seq<Arm>, narrow: set<string>)
    ensures ArmsBindLocals(GlobArms(arms, narrow)) == ArmsBindLocals(arms)
    decreases SizeArms(arms), 0
  {
    if arms != [] {
      GlobBinds(arms[0].matchExpr, narrow);
      GlobBinds(arms[0].body, narrow);
      GlobArmsBind(arms[1..], narrow);
      var a := Arm(GlobSeq(arms[0].matchExpr, narrow), GlobSeq(arms[0].body, narrow));
      assert ([a] + GlobArms(arms[1..], narrow))[1..] == GlobArms(arms[1..], narrow);
    }
  }

  /** The inputs bound on entry stay the same. */
  lemma GlobInputs(d: Definition, narrow: set<string>)
    ensures Inputs(d.(body := GlobSeq(d.body, narrow))) == Inputs(d)
  {
    GlobBinds(d.body, narrow);
  }
}
