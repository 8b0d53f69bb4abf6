/** Stack effects and their inference (src/compiler/effect.rs). */
module Effects {
  import opened Common
  import opened Forth

  datatype Eff = Known(inputs: nat, outputs: nat) | Unknown

  /** One effect after another. */
  function Then(a: Eff, b: Eff): Eff {
    match (a, b)
    case (Known(ai, ao), Known(bi, bo)) =>
      if ao >= bi then Known(ai, ao - bi + bo) else Known(ai + (bi - ao), bo)
    case _ => Unknown
  }

  const nothing := Known(0, 0)
  const flag := Known(1, 0)

  lemma ThenAssociative(a: Eff, b: Eff, c: Eff)
    ensures Then(Then(a, b), c) == Then(a, Then(b, c))
  {}

  lemma ThenIdentity(a: Eff)
    ensures Then(nothing, a) == a == Then(a, nothing)
  {}

  // ----- environments -----

  /** What is known of names: the effects of definitions, the table of builtins, and the definitions that
      do not look at the whole stack. */
  datatype Env = Env(user: map<string, Eff>, table: map<string, Eff>, quiet: set<string>)

  function Lookup(effects: map<string, Eff>, lc: string): Eff {
    if lc in effects then effects[lc] else Unknown
  }

  function WordEffect(env: Env, n: Names, name: string): Eff {
    match Resolve(n, name)
    case Local => Known(0, 1)
    case UserDefined => Lookup(env.user, Lower(name))
    case _ => Lookup(env.table, Lower(name))
  }

  // ----- inference -----

  function InferBlock(env: Env, n: Names, s: seq<Expr>): Eff
    decreases SizeSeq(s), 2, |s|
  {
    if s == [] then nothing else Then(InferExpr(env, n, s[0]), InferBlock(env, n, s[1..]))
  }

  /** Two alternatives that agree. */
  function Join(a: Eff, b: Eff): Eff {
    if a.Known? && a == b then a else Unknown
  }

  function InferExpr(env: Env, n: Names, e: Expr): Eff
    decreases SizeExpr(e), 1
  {
    match e
    case Lit(_) => Known(0, 1)
    case WordRef(name) => WordEffect(env, n, name)
    case If(thenBody, NoElse) =>
      var t := InferBlock(env, n, thenBody);
      if t.Known? && t.inputs == t.outputs then Then(flag, t) else Unknown
    case If(thenBody, ElseBody(_)) =>
      Then(flag, Join(InferBlock(env, n, thenBody), InferElse(env, n, e.elseBody)))
    case BeginUntil(body) =>
      var b := InferBlock(env, n, body);
      if b.Known? && b.outputs > b.inputs then Known(b.inputs, b.outputs - 1) else Unknown
    case BeginWhileRepeat(pred, body) =>
      var p, b := InferBlock(env, n, pred), InferBlock(env, n, body);
      if p.Known? && b.Known? && p.outputs == p.inputs + 1 && b.inputs == b.outputs
      then Known(Max(p.inputs, b.inputs), Max(p.inputs, b.inputs))
      else Unknown
    case BeginAgain(_) => Unknown
    case DoLoop(_, body, _) =>
      var b := InferBlock(env, n, body);
      if b.Known? && b.inputs == b.outputs then Known(2 + b.inputs, b.inputs) else Unknown
    case Case(arms, default) => InferCase(env, n, arms, default)
    case Tick(_) => Known(0, 1)
    case To(_) => Known(1, 0)
    case Locals(names) => Known(|names|, 0)
    case Global(access, _) => GlobalEffect(env, access)
  }

  /** Inference runs before accesses to globals are made; they have the effects of what they replace,
      where adding uses the builtin `+`. */
  function GlobalEffect(env: Env, access: Access): Eff {
    match access
    case Get => Known(0, 1)
    case Set => Known(1, 0)
    case Add => Then(Then(Known(0, 1), Lookup(env.table, "+")), Known(1, 0))
  }

  function InferElse(env: Env, n: Names, e: Else): Eff
    decreases SizeElse(e), 0
  {
    match e
    case NoElse => nothing
    case ElseBody(body) => InferBlock(env, n, body)
  }

  /** An arm tests a copy of the selector; its body runs without the selector, the other arms with it. */
  function InferCase(env: Env, n: Names, arms: seq<Arm>, default: Else): Eff
    decreases SizeArms(arms) + SizeElse(default), 1
  {
    if arms == [] then Then(InferElse(env, n, default), Known(1, 0))
    else
      var test := Then(Then(Known(1, 2), InferBlock(env, n, arms[0].matchExpr)), Known(2, 1));
      var yes := Then(Known(1, 0), InferBlock(env, n, arms[0].body));
      Then(Then(test, flag), Join(yes, InferCase(env, n, arms[1..], default)))
  }

  /** The loop of the source, which gives up at the first unknown effect. */
  method InferBlockLoop(env: Env, n: Names, s: seq<Expr>) returns (acc: Eff)
    ensures acc == InferBlock(env, n, s)
  {
    acc := nothing;
    for i := 0 to |s|
      invariant InferBlock(env, n, s) == Then(acc, InferBlock(env, n, s[i..]))
    {
      assert s[i..][1..] == s[i + 1..];
      ThenAssociative(acc, InferExpr(env, n, s[i]), InferBlock(env, n, s[i + 1..]));
      acc := Then(acc, InferExpr(env, n, s[i]));
      if acc == Unknown {
        return;
      }
    }
    assert s[|s|..] == [];
  }

  lemma {:induction false} InferConcat(env: Env, n: Names, a: seq<Expr>, b: seq<Expr>)
    ensures InferBlock(env, n, a + b) == Then(InferBlock(env, n, a), InferBlock(env, n, b))
    decreases a
  {
    if a == [] {
      assert a + b == b;
      ThenIdentity(InferBlock(env, n, b));
    } else {
      assert (a + b)[1..] == a[1..] + b;
      InferConcat(env, n, a[1..], b);
      ThenAssociative(InferExpr(env, n, a[0]), InferBlock(env, n, a[1..]), InferBlock(env, n, b));
    }
  }

  // ----- knowing more -----

  /** Every effect that `a` knows, `b` knows too. */
  predicate KnowsMore(a: map<string, Eff>, b: map<string, Eff>) {
    forall lc :: lc in a && a[lc].Known? ==> lc in b && b[lc] == a[lc]
  }

  /** Learning the effects of more definitions does not change an effect that is already known. */
  lemma {:induction false} InferStable(env: Env, user: map<string, Eff>, n: Names, s: seq<Expr>)
    requires KnowsMore(env.user, user) && InferBlock(env, n, s).Known?
    ensures InferBlock(env.(user := user), n, s) == InferBlock(env, n, s)
    decreases SizeSeq(s), 2, |s|
  {
    if s != [] {
      InferExprStable(env, user, n, s[0]);
      InferStable(env, user, n, s[1..]);
    }
  }

  lemma {:induction false} InferExprStable(env: Env, user: map<string, Eff>, n: Names, e: Expr)
    requires KnowsMore(env.user, user) && InferExpr(env, n, e).Known?
    ensures InferExpr(env.(user := user), n, e) == InferExpr(env, n, e)
    decreases SizeExpr(e), 1
  {
    match e
    case If(thenBody, elseBody) =>
      InferStable(env, user, n, thenBody);
      InferElseStable(env, user, n, elseBody);
    case BeginUntil(body) => InferStable(env, user, n, body);
    case BeginWhileRepeat(pred, body) =>
      InferStable(env, user, n, pred);
      InferStable(env, user, n, body);
    case DoLoop(_, body, _) => InferStable(env, user, n, body);
    case Case(arms, default) => InferCaseStable(env, user, n, arms, default);
    case _ =>
  }

  lemma {:induction false} InferElseStable(env: Env, user: map<string, Eff>, n: Names, e: Else)
    requires KnowsMore(env.user, user) && InferElse(env, n, e).Known?
    ensures InferElse(env.(user := user), n, e) == InferElse(env, n, e)
    decreases SizeElse(e), 0
  {
    match e
    case NoElse =>
    case ElseBody(body) => InferStable(env, user, n, body);
  }

  lemma {:induction false} InferCaseStable(env: Env, user: map<string, Eff>, n: Names, arms: seq<Arm>, default: Else)
    requires KnowsMore(env.user, user) && InferCase(env, n, arms, default).Known?
    ensures InferCase(env.(user := user), n, arms, default) == InferCase(env, n, arms, default)
    decreases SizeArms(arms) + SizeElse(default), 1
  {
    if arms == [] {
      InferElseStable(env, user, n, default);
    } else {
      InferStable(env, user, n, arms[0].matchExpr);
      InferStable(env, user, n, arms[0].body);
      InferCaseStable(env, user, n, arms[1..], default);
    }
  }
}
