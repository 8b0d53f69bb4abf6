/** The analysis of a whole program: which variables become globals (analyse_escape in
    src/compiler/sema.rs). */
module Narrowing {
  import opened Forth
  import opened Escape
  import opened Globals

  // ----- what lets a variable escape -----

  /** The lists of expressions in a body: itself, and those of its constructs at any depth. */
  function Blocks(s: seq<Expr>): set<seq<Expr>> {
    {s} + Nested(s)
  }

  function Nested(s: seq<Expr>): set<seq<Expr>>
    decreases SizeSeq(s), 1, |s|
  {
    if s == [] then {} else BlocksIn(s[0]) + Nested(s[1..])
  }

  function BlocksIn(e: Expr): set<seq<Expr>>
    decreases SizeExpr(e), 0
  {
    match e
    case If(thenBody, elseBody) => {thenBody} + Nested(thenBody) + ElseBlocks(elseBody)
    case BeginUntil(body) => {body} + Nested(body)
    case BeginAgain(body) => {body} + Nested(body)
    case BeginWhileRepeat(pred, body) => {pred, body} + Nested(pred) + Nested(body)
    case DoLoop(_, body, _) => {body} + Nested(body)
    case Case(arms, default) => ArmBlocks(arms) + ElseBlocks(default)
    case _ => {}
  }

  function ElseBlocks(e: Else): set<seq<Expr>>
    decreases SizeElse(e), 0
  {
    match e
    case NoElse => {}
    case ElseBody(body) => {body} + Nested(body)
  }

  function ArmBlocks(arms: seq<Arm>): set<seq<Expr>>
    decreases SizeArms(arms), 0
  {
    if arms == [] then {}
    else
      {arms[0].matchExpr, arms[0].body} + Nested(arms[0].matchExpr) + Nested(arms[0].body) + ArmBlocks(arms[1..])
  }

  /** At i stands a reference to x, and not one of the five words that access memory after it. */
  predicate EscapesAt(s: seq<Expr>, i: nat, x: string) {
    && i < |s| && s[i].WordRef? && Lower(s[i].name) == x
    && !(i + 1 < |s| && s[i + 1].WordRef? &&
         (var next := Lower(s[i + 1].name);
          next == "@" || next == "!" || next == "+!" || next == "c@" || next == "c!"))
  }

  /** One of the lists lets x escape. */
  ghost predicate Lets(blocks: set<seq<Expr>>, x: string) {
    exists at <- blocks, i: nat :: EscapesAt(at, i, x)
  }

  ghost predicate LetsHere(s: seq<Expr>, x: string) {
    exists i: nat :: EscapesAt(s, i, x)
  }

  lemma LetsUnion(a: set<seq<Expr>>, b: set<seq<Expr>>, x: string)
    ensures Lets(a + b, x) <==> Lets(a, x) || Lets(b, x)
  {
    if Lets(a, x) {
      var at, i: nat :| at in a && EscapesAt(at, i, x);
      assert at in a + b;
    }
    if Lets(b, x) {
      var at, i: nat :| at in b && EscapesAt(at, i, x);
      assert at in a + b;
    }
  }

  /** A body and the lists nested in it. */
  lemma LetsBody(s: seq<Expr>, x: string)
    ensures Lets({s} + Nested(s), x) <==> LetsHere(s, x) || Lets(Nested(s), x)
  {
    LetsUnion({s}, Nested(s), x);
    if LetsHere(s, x) {
      var i: nat :| EscapesAt(s, i, x);
      assert s in {s};
    }
  }

  lemma LetsCons(s: seq<Expr>, x: string)
    requires s != []
    ensures LetsHere(s, x) <==> EscapesAt(s, 0, x) || LetsHere(s[1..], x)
  {
    if LetsHere(s, x) && !EscapesAt(s, 0, x) {
      var i: nat :| EscapesAt(s, i, x);
      assert EscapesAt(s[1..], i - 1, x);
    }
    if i: nat :| EscapesAt(s[1..], i, x) {
      assert EscapesAt(s, i + 1, x);
    }
  }

  lemma {:induction false} EscapesWhere(s: seq<Expr>, vars: set<string>, x: string)
    requires x in vars
    ensures x in Escaping(s, vars) <==> Lets(Blocks(s), x)
    decreases SizeSeq(s), 2, |s|
  {
    EscapesHereOrBelow(s, vars, x);
    LetsBody(s, x);
  }

  lemma {:induction false} EscapesHereOrBelow(s: seq<Expr>, vars: set<string>, x: string)
    requires x in vars
    ensures x in Escaping(s, vars) <==> LetsHere(s, x) || Lets(Nested(s), x)
    decreases SizeSeq(s), 1, |s|
  {
    if s != [] {
      EscapesInside(s[0], vars, x);
      EscapesHereOrBelow(s[1..], vars, x);
      LetsCons(s, x);
      LetsUnion(BlocksIn(s[0]), Nested(s[1..]), x);
      assert x in HeadEscapes(s, vars) <==> EscapesAt(s, 0, x);
    }
  }

  lemma {:induction false} EscapesInside(e: Expr, vars: set<string>, x: string)
    requires x in vars
    ensures x in Inside(e, vars) <==> Lets(BlocksIn(e), x)
    decreases SizeExpr(e), 0
  {
    match e
    case If(thenBody, elseBody) =>
      EscapesWhere(thenBody, vars, x);
      EscapesElse(elseBody, vars, x);
      LetsUnion({thenBody} + Nested(thenBody), ElseBlocks(elseBody), x);
    case BeginUntil(body) => EscapesWhere(body, vars, x);
    case BeginAgain(body) => EscapesWhere(body, vars, x);
    case BeginWhileRepeat(pred, body) =>
      EscapesWhere(pred, vars, x);
      EscapesWhere(body, vars, x);
      LetsUnion(Blocks(pred), Blocks(body), x);
      assert BlocksIn(e) == Blocks(pred) + Blocks(body);
    case DoLoop(_, body, _) => EscapesWhere(body, vars, x);
    case Case(arms, default) =>
      EscapesArms(arms, vars, x);
      EscapesElse(default, vars, x);
      LetsUnion(ArmBlocks(arms), ElseBlocks(default), x);
    case _ =>
  }

  lemma {:induction false} EscapesElse(e: Else, vars: set<string>, x: string)
    requires x in vars
    ensures x in InElse(e, vars) <==> Lets(ElseBlocks(e), x)
    decreases SizeElse(e), 0
  {
    match e
    case NoElse =>
    case ElseBody(body) => EscapesWhere(body, vars, x);
  }

  lemma {:induction false} EscapesArms(arms: seq<Arm>, vars: set<string>, x: string)
    requires x in vars
    ensures x in InArms(arms, vars) <==> Lets(ArmBlocks(arms), x)
    decreases SizeArms(arms), 0
  {
    if arms != [] {
      var match0, body0 := Blocks(arms[0].matchExpr), Blocks(arms[0].body);
      EscapesWhere(arms[0].matchExpr, vars, x);
      EscapesWhere(arms[0].body, vars, x);
      EscapesArms(arms[1..], vars, x);
      LetsUnion(match0, body0, x);
      LetsUnion(match0 + body0, ArmBlocks(arms[1..]), x);
      assert ArmBlocks(arms) == match0 + body0 + ArmBlocks(arms[1..]);
    }
  }

  // ----- which variables escape -----

  /** Each variable escapes by its own references. */
  lemma {:induction false} EscapingPart(s: seq<Expr>, vars: set<string>, some: set<string>)
    requires some <= vars
    ensures Escaping(s, some) == Escaping(s, vars) * some
    decreases SizeSeq(s), 1, |s|
  {
    if s != [] {
      InsidePart(s[0], vars, some);
      EscapingPart(s[1..], vars, some);
      assert HeadEscapes(s, some) == HeadEscapes(s, vars) * some;
    }
  }

  lemma {:induction false} InsidePart(e: Expr, vars: set<string>, some: set<string>)
    requires some <= vars
    ensures Inside(e, some) == Inside(e, vars) * some
    decreases SizeExpr(e), 0
  {
    match e
    case If(thenBody, elseBody) =>
      EscapingPart(thenBody, vars, some);
      InElsePart(elseBody, vars, some);
    case BeginUntil(body) => EscapingPart(body, vars, some);
    case BeginAgain(body) => EscapingPart(body, vars, some);
    case BeginWhileRepeat(pred, body) =>
      EscapingPart(pred, vars, some);
      EscapingPart(body, vars, some);
    case DoLoop(_, body, _) => EscapingPart(body, vars, some);
    case Case(arms, default) =>
      InArmsPart(arms, vars, some);
      InElsePart(default, vars, some);
    case _ =>
  }

  lemma {:induction false} InElsePart(e: Else, vars: set<string>, some: set<string>)
    requires some <= vars
    ensures InElse(e, some) == InElse(e, vars) * some
    decreases SizeElse(e), 0
  {
    match e
    case NoElse =>
    case ElseBody(body) => EscapingPart(body, vars, some);
  }

  lemma {:induction false} InArmsPart(arms: seq<Arm>, vars: set<string>, some: set<string>)
    requires some <= vars
    ensures InArms(arms, some) == InArms(arms, vars) * some
    decreases SizeArms(arms), 0
  {
    if arms != [] {
      EscapingPart(arms[0].matchExpr, vars, some);
      EscapingPart(arms[0].body, vars, some);
      InArmsPart(arms[1..], vars, some);
    }
  }

  /** The variables that escape are those of which a bare reference would be left, each by itself. */
  lemma EscapesExactly(s: seq<Expr>, vars: set<string>, x: string)
    requires x in vars && x !in sinks
    ensures x in Escaping(s, vars) <==> !NoBare(GlobSeq(s, {x}), {x})
  {
    EscapingPart(s, vars, {x});
    NoBareExactly(s, {x});
    if x in Escaping(s, vars) {
      assert x in Escaping(s, {x});
    }
  }

  // ----- a whole program -----

  ghost predicate SomeEscapes(bodies: seq<seq<Expr>>, vars: set<string>, x: string) {
    exists b <- bodies :: x in Escaping(b, vars)
  }

  /** Somewhere in the bodies, at any depth, stands a reference to x that no access follows in its list. */
  ghost predicate SomeLets(bodies: seq<seq<Expr>>, x: string) {
    exists b <- bodies :: Lets(Blocks(b), x)
  }

  /** Making a global of x alone leaves a bare reference to it. */
  ghost predicate SomeBare(bodies: seq<seq<Expr>>, x: string) {
    exists b <- bodies :: !NoBare(GlobSeq(b, {x}), {x})
  }

  /** Making globals of these variables leaves no bare reference to any of them. */
  ghost predicate NoneBare(bodies: seq<seq<Expr>>, narrow: set<string>) {
    forall b <- bodies :: NoBare(GlobSeq(b, narrow), narrow)
  }

  lemma LetsSomewhere(bodies: seq<seq<Expr>>, vars: set<string>, x: string)
    requires x in vars
    ensures SomeEscapes(bodies, vars, x) <==> SomeLets(bodies, x)
  {
    forall b | b in bodies
      ensures x in Escaping(b, vars) <==> Lets(Blocks(b), x)
    {
      EscapesWhere(b, vars, x);
    }
  }

  lemma BareSomewhere(bodies: seq<seq<Expr>>, vars: set<string>, x: string)
    requires x in vars && x !in sinks
    ensures SomeEscapes(bodies, vars, x) <==> SomeBare(bodies, x)
  {
    forall b | b in bodies
      ensures x in Escaping(b, vars) <==> !NoBare(GlobSeq(b, {x}), {x})
    {
      EscapesExactly(b, vars, x);
    }
  }

  lemma NoneLeft(bodies: seq<seq<Expr>>, vars: set<string>, narrow: set<string>)
    requires narrow <= vars && forall x :: x in narrow ==> !SomeEscapes(bodies, vars, x)
    ensures NoneBare(bodies, narrow)
  {
    forall b | b in bodies
      ensures NoBare(GlobSeq(b, narrow), narrow)
    {
      EscapingPart(b, vars, narrow);
      assert forall x :: x in narrow ==> x !in Escaping(b, vars);
      GlobLeavesNoBare(b, narrow);
    }
  }

  lemma EscapesSnoc(bodies: seq<seq<Expr>>, i: nat, vars: set<string>, x: string)
    requires i < |bodies|
    ensures SomeEscapes(bodies[..i + 1], vars, x) <==>
            SomeEscapes(bodies[..i], vars, x) || x in Escaping(bodies[i], vars)
  {
    assert bodies[..i + 1] == bodies[..i] + [bodies[i]];
  }

  lemma {:induction false} SizeAt(s: seq<Expr>, i: nat)
    requires i < |s|
    ensures SizeExpr(s[i]) <= SizeSeq(s)
  {
    if i > 0 {
      SizeAt(s[1..], i - 1);
    }
  }

  lemma {:induction false} ArmSize(arms: seq<Arm>, i: nat)
    requires i < |arms|
    ensures SizeSeq(arms[i].matchExpr) < SizeArms(arms) && SizeSeq(arms[i].body) < SizeArms(arms)
  {
    if i > 0 {
      ArmSize(arms[1..], i - 1);
    }
  }

  lemma ElseSize(e: Else)
    requires e.ElseBody?
    ensures SizeSeq(e.body) < SizeElse(e)
  {}

  // ----- the walk -----

  /** The table of escape states, overwritten while the program is walked. */
  class Sema {
    var escape: map<string, EscapeState>

    constructor ()
      ensures escape == map[]
    {
      escape := map[];
    }

    /** The names that are wide. */
    ghost function Wides(): set<string>
      reads this
    {
      set x | x in escape && escape[x] == Wide
    }

    method WalkBlock(exprs: seq<Expr>, vars: set<string>)
      requires vars == escape.Keys
      modifies this
      ensures escape.Keys == vars && Wides() == old(Wides()) + Escaping(exprs, vars)
      ensures forall x :: x in vars && x !in sinks ==>
                (escape[x] == Wide <==> old(escape[x]) == Wide || !NoBare(GlobSeq(exprs, {x}), {x}))
      decreases SizeSeq(exprs), 1
    {
      for i := 0 to |exprs|
        invariant escape.Keys == vars
        invariant old(Wides()) + Escaping(exprs, vars) == Wides() + Escaping(exprs[i..], vars)
      {
        assert exprs[i..][1..] == exprs[i + 1..];
        SizeAt(exprs, i);
        EscapingInVars(exprs[i..], vars);
        WalkInside(exprs[i], vars);
        CheckReference(exprs, i, vars);
      }
      assert exprs[|exprs|..] == [];
      forall x | x in vars && x !in sinks
        ensures x in Escaping(exprs, vars) <==> !NoBare(GlobSeq(exprs, {x}), {x})
      {
        EscapesExactly(exprs, vars, x);
      }
      assert forall x :: x in vars ==> (escape[x] == Wide <==> x in Wides());
    }

    /** A reference to a variable is compared with what follows it. */
    method CheckReference(exprs: seq<Expr>, i: nat, vars: set<string>)
      requires vars == escape.Keys && i < |exprs|
      modifies this
      ensures escape.Keys == vars && Wides() == old(Wides()) + HeadEscapes(exprs[i..], vars)
    {
      if exprs[i].WordRef? {
        var lc := Lower(exprs[i].name);
        if lc in vars && !(i + 1 < |exprs| && exprs[i + 1].WordRef? && Lower(exprs[i + 1].name) in sinks) {
          if escape[lc] == Narrow {
            escape := escape[lc := Wide];
          }
        }
      }
    }

    method WalkInside(e: Expr, vars: set<string>)
      requires vars == escape.Keys
      modifies this
      ensures escape.Keys == vars && Wides() == old(Wides()) + Inside(e, vars)
      decreases SizeExpr(e), 0
    {
      match e {
        case If(thenBody, elseBody) =>
          WalkBlock(thenBody, vars);
          if elseBody.ElseBody? {
            ElseSize(elseBody);
            WalkBlock(elseBody.body, vars);
          }
        case BeginUntil(body) => WalkBlock(body, vars);
        case BeginAgain(body) => WalkBlock(body, vars);
        case DoLoop(_, body, _) => WalkBlock(body, vars);
        case BeginWhileRepeat(pred, body) =>
          WalkBlock(pred, vars);
          WalkBlock(body, vars);
        case Case(arms, default) =>
          for i := 0 to |arms|
            invariant escape.Keys == vars
            invariant old(Wides()) + InArms(arms, vars) == Wides() + InArms(arms[i..], vars)
          {
            assert arms[i..][1..] == arms[i + 1..];
            ArmSize(arms, i);
            WalkBlock(arms[i].matchExpr, vars);
            WalkBlock(arms[i].body, vars);
          }
          assert arms[|arms|..] == [];
          if default.ElseBody? {
            ElseSize(default);
            WalkBlock(default.body, vars);
          }
        case _ =>
      }
    }

    /** Everyone starts narrow.  At the end a variable is wide if and only if some body has a reference to
        it that is not accessed at once, so that making it a global would leave a bare reference; making
        globals of all that stay narrow leaves none. */
    method AnalyseEscape(bodies: seq<seq<Expr>>, vars: set<string>)
      modifies this
      ensures escape.Keys == vars
      ensures forall x :: x in vars ==> (escape[x] == Wide <==> SomeLets(bodies, x))
      ensures forall x :: x in vars && x !in sinks ==> (escape[x] == Wide <==> SomeBare(bodies, x))
      ensures NoneBare(bodies, set x | x in vars && escape[x] == Narrow)
    {
      escape := map x | x in vars :: Narrow;
      for i := 0 to |bodies|
        invariant escape.Keys == vars
        invariant forall x :: x in vars ==> (x in Wides() <==> SomeEscapes(bodies[..i], vars, x))
      {
        EscapingInVars(bodies[i], vars);
        WalkBlock(bodies[i], vars);
        forall x | x in vars
          ensures x in Wides() <==> SomeEscapes(bodies[..i + 1], vars, x)
        {
          EscapesSnoc(bodies, i, vars, x);
        }
      }
      assert bodies[..|bodies|] == bodies;
      assert forall x :: x in vars ==> (x in Wides() <==> escape[x] == Wide);
      forall x | x in vars
        ensures escape[x] == Wide <==> SomeLets(bodies, x)
        ensures x !in sinks ==> (escape[x] == Wide <==> SomeBare(bodies, x))
      {
        LetsSomewhere(bodies, vars, x);
        if x !in sinks {
          BareSomewhere(bodies, vars, x);
        }
      }
      NoneLeft(bodies, vars, set x | x in vars && escape[x] == Narrow);
    }
  }
}
