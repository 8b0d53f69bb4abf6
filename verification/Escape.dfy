/** The references to variables that keep them from becoming Factor globals (analyse_escape in
    src/compiler/sema.rs). */
module Escape {
  import opened Forth

  const sinks := {"@", "c@", "!", "c!", "+!"}

  predicate IsSink(e: Expr) {
    e.WordRef? && Lower(e.name) in sinks
  }

  // ----- references that escape -----

  /** The variables with a reference that no sink follows in the same list, at any depth. */
  function Escaping(s: seq<Expr>, vars: set<string>): set<string>
    decreases SizeSeq(s), 1, |s|
  {
    if s == [] then {}
    else Inside(s[0], vars) + HeadEscapes(s, vars) + Escaping(s[1..], vars)
  }

  function HeadEscapes(s: seq<Expr>, vars: set<string>): set<string>
    requires s != []
  {
    if s[0].WordRef? && Lower(s[0].name) in vars && !(|s| > 1 && IsSink(s[1])) then {Lower(s[0].name)} else {}
  }

  function Inside(e: Expr, vars: set<string>): set<string>
    decreases SizeExpr(e), 0
  {
    match e
    case If(thenBody, elseBody) => Escaping(thenBody, vars) + InElse(elseBody, vars)
    case BeginUntil(body) => Escaping(body, vars)
    case BeginAgain(body) => Escaping(body, vars)
    case BeginWhileRepeat(pred, body) => Escaping(pred, vars) + Escaping(body, vars)
    case DoLoop(_, body, _) => Escaping(body, vars)
    case Case(arms, default) => InArms(arms, vars) + InElse(default, vars)
    case _ => {}
  }

  function InElse(e: Else, vars: set<string>): set<string>
    decreases SizeElse(e), 0
  {
    match e
    case NoElse => {}
    case ElseBody(body) => Escaping(body, vars)
  }

  function InArms(arms: seq<Arm>, vars: set<string>): set<string>
    decreases SizeArms(arms), 0
  {
    if arms == [] then {}
    else Escaping(arms[0].matchExpr, vars) + Escaping(arms[0].body, vars) + InArms(arms[1..], vars)
  }

  lemma {:induction false} EscapingInVars(s: seq<Expr>, vars: set<string>)
    ensures Escaping(s, vars) <= vars
    decreases SizeSeq(s), 1, |s|
  {
    if s != [] {
      InsideInVars(s[0], vars);
      EscapingInVars(s[1..], vars);
    }
  }

  lemma {:induction false} InsideInVars(e: Expr, vars: set<string>)
    ensures Inside(e, vars) <= vars
    decreases SizeExpr(e), 0
  {
    match e
    case If(thenBody, elseBody) =>
      EscapingInVars(thenBody, vars);
      InElseInVars(elseBody, vars);
    case BeginUntil(body) => EscapingInVars(body, vars);
    case BeginAgain(body) => EscapingInVars(body, vars);
    case BeginWhileRepeat(pred, body) =>
      EscapingInVars(pred, vars);
      EscapingInVars(body, vars);
    case DoLoop(_, body, _) => EscapingInVars(body, vars);
    case Case(arms, default) =>
      InArmsInVars(arms, vars);
      InElseInVars(default, vars);
    case _ =>
  }

  lemma {:induction false} InElseInVars(e: Else, vars: set<string>)
    ensures InElse(e, vars) <= vars
    decreases SizeElse(e), 0
  {
    match e
    case NoElse =>
    case ElseBody(body) => EscapingInVars(body, vars);
  }

  lemma {:induction false} InArmsInVars(arms: seq<Arm>, vars: set<string>)
    ensures InArms(arms, vars) <= vars
    decreases SizeArms(arms), 0
  {
    if arms != [] {
      EscapingInVars(arms[0].matchExpr, vars);
      EscapingInVars(arms[0].body, vars);
      InArmsInVars(arms[1..], vars);
    }
  }
}
