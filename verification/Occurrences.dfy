/** What occurs somewhere in a body: its expressions at any depth, and what the searches of the compiler find
    among them. */
module Occurrences {
  import opened Common
  import opened Forth
  import opened LowerExit

  /** The expressions of a body, at any depth. */
  function Exprs(s: seq<Expr>): set<Expr>
    decreases SizeSeq(s), 1, |s|
  {
    if s == [] then {} else {s[0]} + Inner(s[0]) + Exprs(s[1..])
  }

  function Inner(e: Expr): set<Expr>
    decreases SizeExpr(e), 0
  {
    match e
    case If(thenBody, elseBody) => Exprs(thenBody) + ElseExprs(elseBody)
    case BeginUntil(body) => Exprs(body)
    case BeginAgain(body) => Exprs(body)
    case BeginWhileRepeat(pred, body) => Exprs(pred) + Exprs(body)
    case DoLoop(_, body, _) => Exprs(body)
    case Case(arms, default) => ArmExprs(arms) + ElseExprs(default)
    case _ => {}
  }

  function ElseExprs(e: Else): set<Expr>
    decreases SizeElse(e), 0
  {
    match e
    case NoElse => {}
    case ElseBody(body) => Exprs(body)
  }

  function ArmExprs(arms: seq<Arm>): set<Expr>
    decreases SizeArms(arms), 0
  {
    if arms == [] then {} else Exprs(arms[0].matchExpr) + Exprs(arms[0].body) + ArmExprs(arms[1..])
  }

  // ----- searches -----

  /** What is searched for: a locals block, or EXIT by whatever name. */
  datatype Sought = LocalsBlock | ExitWord(names: Names)

  predicate Is(e: Expr, what: Sought) {
    match what
    case LocalsBlock => e.Locals?
    case ExitWord(n) => IsExitWord(n, e)
  }

  /** Some expression among these is what is searched for. */
  ghost predicate Found(among: set<Expr>, what: Sought) {
    exists e <- among :: Is(e, what)
  }

  lemma FoundUnion(a: set<Expr>, b: set<Expr>, what: Sought)
    ensures Found(a + b, what) <==> Found(a, what) || Found(b, what)
  {
    if Found(a, what) {
      var e :| e in a && Is(e, what);
      assert e in a + b;
    }
    if Found(b, what) {
      var e :| e in b && Is(e, what);
      assert e in a + b;
    }
  }

  lemma FoundOne(e: Expr, what: Sought)
    ensures Found({e}, what) <==> Is(e, what)
  {
    if Is(e, what) {
      assert e in {e};
    }
  }

  /** The emitter takes a definition for one that binds locals inside its body if and only if a locals block
      stands somewhere in it. */
  lemma {:induction false} BindsExactly(s: seq<Expr>)
    ensures BindsLocals(s) <==> Found(Exprs(s), LocalsBlock)
    decreases SizeSeq(s), 1, |s|
  {
    if s != [] {
      var p := LocalsBlock;
      BindsIn(s[0]);
      BindsExactly(s[1..]);
      FoundOne(s[0], p);
      FoundUnion({s[0]}, Inner(s[0]), p);
      FoundUnion({s[0]} + Inner(s[0]), Exprs(s[1..]), p);
    }
  }

  lemma {:induction false} BindsIn(e: Expr)
    ensures ExprBindsLocals(e) <==> e.Locals? || Found(Inner(e), LocalsBlock)
    decreases SizeExpr(e), 0
  {
    var p := LocalsBlock;
    match e
    case If(thenBody, elseBody) =>
      BindsExactly(thenBody);
      BindsElse(elseBody);
      FoundUnion(Exprs(thenBody), ElseExprs(elseBody), p);
    case BeginUntil(body) => BindsExactly(body);
    case BeginAgain(body) => BindsExactly(body);
    case BeginWhileRepeat(pred, body) =>
      BindsExactly(pred);
      BindsExactly(body);
      FoundUnion(Exprs(pred), Exprs(body), p);
    case DoLoop(_, body, _) => BindsExactly(body);
    case Case(arms, default) =>
      BindsArms(arms);
      BindsElse(default);
      FoundUnion(ArmExprs(arms), ElseExprs(default), p);
    case _ =>
  }

  lemma {:induction false} BindsElse(e: Else)
    ensures ElseBindsLocals(e) <==> Found(ElseExprs(e), LocalsBlock)
    decreases SizeElse(e), 0
  {
    match e
    case NoElse =>
    case ElseBody(body) => BindsExactly(body);
  }

  lemma {:induction false} BindsArms(arms: seq<Arm>)
    ensures ArmsBindLocals(arms) <==> Found(ArmExprs(arms), LocalsBlock)
    decreases SizeArms(arms), 0
  {
    if arms != [] {
      var p := LocalsBlock;
      var a, b := Exprs(arms[0].matchExpr), Exprs(arms[0].body);
      BindsExactly(arms[0].matchExpr);
      BindsExactly(arms[0].body);
      BindsArms(arms[1..]);
      FoundUnion(a, b, p);
      FoundUnion(a + b, ArmExprs(arms[1..]), p);
    }
  }

  /** EXIT is found wherever it stands, match expressions included. */
  lemma {:induction false} HoldsExactly(n: Names, s: seq<Expr>)
    ensures SeqHoldsExit(n, s) <==> Found(Exprs(s), ExitWord(n))
    decreases SizeSeq(s), 1, |s|
  {
    if s != [] {
      var p := ExitWord(n);
      HoldsIn(n, s[0]);
      HoldsExactly(n, s[1..]);
      FoundOne(s[0], p);
      FoundUnion({s[0]}, Inner(s[0]), p);
      FoundUnion({s[0]} + Inner(s[0]), Exprs(s[1..]), p);
    }
  }

  lemma {:induction false} HoldsIn(n: Names, e: Expr)
    ensures ExprHoldsExit(n, e) <==> IsExitWord(n, e) || Found(Inner(e), ExitWord(n))
    decreases SizeExpr(e), 0
  {
    var p := ExitWord(n);
    match e
    case If(thenBody, elseBody) =>
      HoldsExactly(n, thenBody);
      HoldsElse(n, elseBody);
      FoundUnion(Exprs(thenBody), ElseExprs(elseBody), p);
    case BeginUntil(body) => HoldsExactly(n, body);
    case BeginAgain(body) => HoldsExactly(n, body);
    case BeginWhileRepeat(pred, body) =>
      HoldsExactly(n, pred);
      HoldsExactly(n, body);
      FoundUnion(Exprs(pred), Exprs(body), p);
    case DoLoop(_, body, _) => HoldsExactly(n, body);
    case Case(arms, default) =>
      HoldsArms(n, arms);
      HoldsElse(n, default);
      FoundUnion(ArmExprs(arms), ElseExprs(default), p);
    case _ =>
  }

  lemma {:induction false} HoldsElse(n: Names, e: Else)
    ensures ElseHoldsExit(n, e) <==> Found(ElseExprs(e), ExitWord(n))
    decreases SizeElse(e), 0
  {
    match e
    case NoElse =>
    case ElseBody(body) => HoldsExactly(n, body);
  }

  lemma {:induction false} HoldsArms(n: Names, arms: seq<Arm>)
    ensures ArmsHoldExit(n, arms) <==> Found(ArmExprs(arms), ExitWord(n))
    decreases SizeArms(arms), 0
  {
    if arms != [] {
      var p := ExitWord(n);
      var a, b := Exprs(arms[0].matchExpr), Exprs(arms[0].body);
      HoldsExactly(n, arms[0].matchExpr);
      HoldsExactly(n, arms[0].body);
      HoldsArms(n, arms[1..]);
      FoundUnion(a, b, p);
      FoundUnion(a + b, ArmExprs(arms[1..]), p);
    }
  }

  // ----- the inputs bound on entry -----

  /** Only definitions without parameters that bind locals inside bind inputs on entry: as many as they
      declare, or, without a declaration, as inference has counted. */
  lemma InputsCounted(d: Definition)
    ensures |Inputs(d)| ==
            if d.params != [] || !Found(Exprs(d.body), LocalsBlock) then 0
            else
              match d.declared
              case Effect(names, _) => |names|
              case Undeclared => if d.inferred.Some? then d.inferred.value else 0
  {
    BindsExactly(d.body);
  }

  /** The local for a declared input: in lower case if it has no dot, else with underscores for dots and in its
      own case; and `...` has a name of its own. */
  predicate NamedFor(local: string, name: string) {
    if name == "..." then local == "_dots_"
    else
      |local| == |name| &&
      forall j :: 0 <= j < |name| ==>
        local[j] == if '.' !in name then LowerChar(name[j]) else if name[j] == '.' then '_' else name[j]
  }

  /** The inputs are named as they are declared, in their order; those that were counted are numbered. */
  lemma InputsNamed(d: Definition, i: nat)
    requires i < |Inputs(d)|
    ensures d.declared.Effect? ==> i < |d.declared.inputs| && NamedFor(Inputs(d)[i], d.declared.inputs[i])
    ensures d.declared.Undeclared? ==> Inputs(d)[i] == "_mi" + Digits(i, 10)
  {}
}
