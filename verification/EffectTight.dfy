/** The inputs that are inferred for IF, WHILE, UNTIL and DO are the least that suffice. */
module EffectTight {
  import opened Common
  import opened Forth
  import opened Equivalence
  import opened Effects
  import opened EffectSound
  import opened EffectLimits
  import opened FlagOrigin

  // ----- what suffices -----

  /** A machine without definitions, whose builtins do just what the table says. */
  ghost predicate Plainly(m: Machine, table: map<string, Eff>) {
    m.defs == map[] && m.vars == map[] && Strict(m, table)
  }

  /** No run of e underflows from k items, on any such machine and with any values; the locals that have been
      bound are `have`. */
  ghost predicate Enough(table: map<string, Eff>, c: Context, e: Expr, have: set<string>, k: nat) {
    forall m: Machine, st: State, fuel: nat | Plainly(m, table) && |st.stack| == k && have <= st.locals.Keys ::
      RunExpr(m, c, e, st, fuel) != Underflow
  }

  function EnvOf(table: map<string, Eff>): Env {
    Env(map[], table, {})
  }

  function NamesIn(c: Context): Names {
    Names(c.locals, {})
  }

  function EffectOf(table: map<string, Eff>, c: Context, s: seq<Expr>): Eff {
    InferBlock(EnvOf(table), NamesIn(c), s)
  }

  /** Straight-line code that reads no locals but these. */
  predicate Straight(table: map<string, Eff>, c: Context, s: seq<Expr>, have: set<string>) {
    && StraightLine(EnvOf(table), NamesIn(c), s) && EffectLimits.Bound(NamesIn(c), s, have)
    && "exit" !in table && "recurse" !in table
  }

  // ----- enough -----

  lemma {:induction false} StraightRegular(env: Env, n: Names, s: seq<Expr>)
    requires StraightLine(env, n, s)
    ensures RegularSeq(env, n, s, Ans)
    decreases |s|
  {
    if s != [] {
      assert s[0] in s;
      StraightRegular(env, n, s[1..]);
    }
  }

  lemma PlainlyPassed(m: Machine, table: map<string, Eff>)
    requires Plainly(m, table) && "exit" !in table && "recurse" !in table
    ensures Passed(m, EnvOf(table))
  {
    forall lc, s, w | lc in table
      ensures PrimFits(m.prim(lc, s, w), s, table[lc])
    {
      if table[lc].Known? {
        assert TakesExactly(m.prim(lc, s, w), s, Lookup(table, lc));
      }
    }
  }

  /** The inferred inputs suffice. */
  lemma Suffices(table: map<string, Eff>, c: Context, e: Expr, have: set<string>, k: nat)
    requires "exit" !in table && "recurse" !in table && RegularExpr(EnvOf(table), NamesIn(c), e, Ans)
    requires var eff := InferExpr(EnvOf(table), NamesIn(c), e); eff.Known? && k >= eff.inputs
    ensures Enough(table, c, e, have, k)
  {
    forall m: Machine, st: State, fuel: nat | Plainly(m, table) && |st.stack| == k && have <= st.locals.Keys
      ensures RunExpr(m, c, e, st, fuel) != Underflow
    {
      PlainlyPassed(m, table);
      assert m.NamesOf(c) == NamesIn(c);
      SoundExpr(m, EnvOf(table), c, e, st, fuel);
    }
  }

  // ----- not enough -----

  function Ones(n: nat): (s: seq<Cell>)
    ensures |s| == n && forall v <- s :: Holds(v)
  {
    seq(n, i => Number(1))
  }

  function OnesPrim(table: map<string, Eff>, lc: string, s: seq<Cell>, w: World): PrimResult {
    var eff := Lookup(table, lc);
    if eff == Unknown then PrimFault
    else if |s| < eff.inputs then PrimUnderflow
    else Done(s[..|s| - eff.inputs] + Ones(eff.outputs), w)
  }

  /** The machine whose builtins leave nothing but ones. */
  ghost function OnesMachine(table: map<string, Eff>): Machine {
    Machine(map[], map[], (lc: string, s: seq<Cell>, w: World) => OnesPrim(table, lc, s, w), false)
  }

  lemma OnesAre(table: map<string, Eff>)
    ensures Plainly(OnesMachine(table), table) && Generous(OnesMachine(table), table)
  {}

  ghost function OnesState(have: set<string>, k: nat): State {
    State(Ones(k), map x | x in have :: Number(1), World(map[], map[], [], [], []))
  }

  lemma TooFew(table: map<string, Eff>, c: Context, e: Expr, have: set<string>, st: State)
    requires have <= st.locals.Keys && RunExpr(OnesMachine(table), c, e, st, 1) == Underflow
    ensures !Enough(table, c, e, have, |st.stack|)
  {
    OnesAre(table);
  }

  /** Straight-line code on that machine. */
  lemma OnesRun(table: map<string, Eff>, c: Context, s: seq<Expr>, have: set<string>, st: State, fuel: nat)
    requires Straight(table, c, s, have) && have <= st.locals.Keys
    ensures var eff, o := EffectOf(table, c, s), RunSeq(OnesMachine(table), c, s, st, fuel);
            && eff.Known?
            && (o == Underflow <==> |st.stack| < eff.inputs)
            && (o != Underflow ==> o.Next? && |o.state.stack| == |st.stack| - eff.inputs + eff.outputs
                                   && have <= o.state.locals.Keys)
  {
    OnesAre(table);
    var m := OnesMachine(table);
    assert m.NamesOf(c) == NamesIn(c);
    StraightExactly(m, EnvOf(table), c, s, st, fuel);
    StraightLocals(m, EnvOf(table), c, s, st, fuel);
  }

  // ----- IF -----

  /** The branches of an IF that inference accepts: balanced without an ELSE, of equal effect with one. */
  predicate Branches(table: map<string, Eff>, c: Context, thenBody: seq<Expr>, elseBody: Else, have: set<string>) {
    && Straight(table, c, thenBody, have)
    && var t := EffectOf(table, c, thenBody);
       t.Known? &&
       match elseBody
       case NoElse => t.inputs == t.outputs
       case ElseBody(body) => Straight(table, c, body, have) && EffectOf(table, c, body) == t
  }

  lemma IfKnown(table: map<string, Eff>, c: Context, thenBody: seq<Expr>, elseBody: Else, have: set<string>)
    requires Branches(table, c, thenBody, elseBody, have)
    ensures var t, eff := EffectOf(table, c, thenBody), InferExpr(EnvOf(table), NamesIn(c), If(thenBody, elseBody));
            t.Known? && eff == Then(flag, t)
    ensures RegularExpr(EnvOf(table), NamesIn(c), If(thenBody, elseBody), Ans)
  {
    StraightRegular(EnvOf(table), NamesIn(c), thenBody);
    if elseBody.ElseBody? {
      StraightRegular(EnvOf(table), NamesIn(c), elseBody.body);
    }
  }

  /** An IF with such branches has a known effect, which takes the flag besides theirs; its inputs are enough,
      and no less is. */
  lemma IfTight(table: map<string, Eff>, c: Context, thenBody: seq<Expr>, elseBody: Else, have: set<string>, k: nat)
    requires Branches(table, c, thenBody, elseBody, have)
    ensures var t, eff := EffectOf(table, c, thenBody), InferExpr(EnvOf(table), NamesIn(c), If(thenBody, elseBody));
            && eff.Known? && eff.outputs - eff.inputs == t.outputs - t.inputs - 1
            && (Enough(table, c, If(thenBody, elseBody), have, k) <==> k >= eff.inputs)
  {
    var e := If(thenBody, elseBody);
    IfKnown(table, c, thenBody, elseBody, have);
    if k >= Then(flag, EffectOf(table, c, thenBody)).inputs {
      Suffices(table, c, e, have, k);
    } else {
      var st := OnesState(have, k);
      if k > 0 {
        assert Top(st.stack) in st.stack;
        OnesRun(table, c, thenBody, have, Pop(st), 1);
      }
      TooFew(table, c, e, have, st);
    }
  }

  // ----- DO -----

  /** A DO whose body is balanced and ends in LOOP has a known effect: it takes the bounds besides, and no less
      is enough. */
  lemma DoTight(table: map<string, Eff>, c: Context, isQdo: bool, body: seq<Expr>, have: set<string>, k: nat)
    requires Straight(table, c, body, have)
    requires var b := EffectOf(table, c, body); b.Known? && b.inputs == b.outputs
    ensures var e := DoLoop(isQdo, body, Plus1);
            var eff := InferExpr(EnvOf(table), NamesIn(c), e);
            && eff.Known? && eff.outputs == eff.inputs - 2
            && (Enough(table, c, e, have, k) <==> k >= eff.inputs)
  {
    var e := DoLoop(isQdo, body, Plus1);
    StraightRegular(EnvOf(table), NamesIn(c), body);
    if k >= InferExpr(EnvOf(table), NamesIn(c), e).inputs {
      Suffices(table, c, e, have, k);
    } else if k < 2 {
      TooFew(table, c, e, have, OnesState(have, k));
    } else {
      var st := OnesState(have, k).(stack := Ones(k - 2) + [Number(2), Number(1)]);
      assert Drop(st.stack) == Ones(k - 2) + [Number(2)];
      DoRuns(OnesMachine(table), c, e, st, 1);
      OnesRun(table, c, body, have, DoEntry(st), 1);
      TooFew(table, c, e, have, st);
    }
  }

  lemma FirstTurn(m: Machine, c: Context, e: Expr, st: State)
    requires (e.BeginUntil? || e.BeginWhileRepeat?) && LoopTurn(m, c, e, st, 1) == Leave(Underflow)
    ensures RunExpr(m, c, e, st, 1) == Underflow
  {
    assert RunLoop(m, c, e, st, 1) == Underflow;
  }

  // ----- UNTIL -----

  /** An UNTIL whose body leaves the flag and nothing else. */
  lemma UntilTight(table: map<string, Eff>, c: Context, body: seq<Expr>, have: set<string>, k: nat)
    requires Straight(table, c, body, have)
    requires var b := EffectOf(table, c, body); b.Known? && b.outputs == b.inputs + 1
    ensures var e := BeginUntil(body);
            var eff := InferExpr(EnvOf(table), NamesIn(c), e);
            && eff.Known? && eff.outputs == eff.inputs
            && (Enough(table, c, e, have, k) <==> k >= eff.inputs)
  {
    var e := BeginUntil(body);
    StraightRegular(EnvOf(table), NamesIn(c), body);
    if k >= InferExpr(EnvOf(table), NamesIn(c), e).inputs {
      Suffices(table, c, e, have, k);
    } else {
      var st := OnesState(have, k);
      OnesRun(table, c, body, have, st, 1);
      FirstTurn(OnesMachine(table), c, e, st);
      TooFew(table, c, e, have, st);
    }
  }

  // ----- WHILE -----

  /** A WHILE whose test adds the flag and whose body is balanced. */
  predicate Whiles(table: map<string, Eff>, c: Context, pred: seq<Expr>, body: seq<Expr>, have: set<string>) {
    && Straight(table, c, pred, have) && Straight(table, c, body, have)
    && var p, b := EffectOf(table, c, pred), EffectOf(table, c, body);
       p.Known? && b.Known? && p.outputs == p.inputs + 1 && b.inputs == b.outputs
  }

  /** The flag of a WHILE can be true: the test does not end with the literal zero, or a token, on top. */
  predicate CanHold(table: map<string, Eff>, c: Context, pred: seq<Expr>) {
    OpenAt(table, NamesIn(c), pred, 0)
  }

  lemma WhileKnown(table: map<string, Eff>, c: Context, pred: seq<Expr>, body: seq<Expr>, have: set<string>)
    requires Whiles(table, c, pred, body, have)
    ensures var eff := InferExpr(EnvOf(table), NamesIn(c), BeginWhileRepeat(pred, body));
            eff.Known? && eff.inputs == eff.outputs
    ensures RegularExpr(EnvOf(table), NamesIn(c), BeginWhileRepeat(pred, body), Ans)
  {
    StraightRegular(EnvOf(table), NamesIn(c), pred);
    StraightRegular(EnvOf(table), NamesIn(c), body);
  }

  /** Where the flag can be true, the inputs inferred for a WHILE are enough, and no less is. */
  lemma WhileTight(table: map<string, Eff>, c: Context, pred: seq<Expr>, body: seq<Expr>, have: set<string>, k: nat)
    requires Whiles(table, c, pred, body, have) && CanHold(table, c, pred)
    ensures var e := BeginWhileRepeat(pred, body);
            var eff := InferExpr(EnvOf(table), NamesIn(c), e);
            && eff.Known? && eff.outputs == eff.inputs
            && (Enough(table, c, e, have, k) <==> k >= eff.inputs)
  {
    var e := BeginWhileRepeat(pred, body);
    WhileKnown(table, c, pred, body, have);
    if k >= InferExpr(EnvOf(table), NamesIn(c), e).inputs {
      Suffices(table, c, e, have, k);
    } else {
      var m, st := OnesMachine(table), OnesState(have, k);
      OnesRun(table, c, pred, have, st, 1);
      if k >= EffectOf(table, c, pred).inputs {
        FlagIsTrue(table, c, pred, have, k);
        var st1 := Pop(RunSeq(m, c, pred, st, 1).state);
        OnesRun(table, c, body, have, st1, 1);
      }
      FirstTurn(m, c, e, st);
      TooFew(table, c, e, have, st);
    }
  }

  lemma FlagIsTrue(table: map<string, Eff>, c: Context, pred: seq<Expr>, have: set<string>, k: nat)
    requires Straight(table, c, pred, have) && CanHold(table, c, pred)
    requires RunSeq(OnesMachine(table), c, pred, OnesState(have, k), 1).Next?
    ensures var st1 := RunSeq(OnesMachine(table), c, pred, OnesState(have, k), 1).state;
            |st1.stack| > 0 ==> Holds(Top(st1.stack))
  {
    OnesAre(table);
    var m, st := OnesMachine(table), OnesState(have, k);
    assert m.NamesOf(c) == NamesIn(c);
    RunTracks(m, EnvOf(table), c, pred, st, true, 1);
    var st1 := RunSeq(m, c, pred, st, 1).state;
    if |st1.stack| > 0 {
      assert Tracks(st1.stack[|st1.stack| - 1 - 0], OpenAt(table, NamesIn(c), pred, 0), true);
    }
  }

  /** Where it cannot, the body is never run, and what the test takes is enough. */
  lemma WhileNever(table: map<string, Eff>, c: Context, pred: seq<Expr>, body: seq<Expr>, have: set<string>, k: nat)
    requires Whiles(table, c, pred, body, have) && !CanHold(table, c, pred)
    ensures Enough(table, c, BeginWhileRepeat(pred, body), have, k) <==> k >= EffectOf(table, c, pred).inputs
  {
    var e := BeginWhileRepeat(pred, body);
    if k >= EffectOf(table, c, pred).inputs {
      forall m: Machine, st: State, fuel: nat | Plainly(m, table) && |st.stack| == k && have <= st.locals.Keys
        ensures RunExpr(m, c, e, st, fuel) != Underflow
      {
        TestFails(m, table, c, pred, body, have, st, fuel);
      }
    } else {
      var st := OnesState(have, k);
      OnesRun(table, c, pred, have, st, 1);
      FirstTurn(OnesMachine(table), c, e, st);
      TooFew(table, c, e, have, st);
    }
  }

  lemma TestFails(m: Machine, table: map<string, Eff>, c: Context, pred: seq<Expr>, body: seq<Expr>, have: set<string>,
                  st: State, fuel: nat)
    requires Plainly(m, table) && Whiles(table, c, pred, body, have) && !CanHold(table, c, pred)
    requires have <= st.locals.Keys && |st.stack| >= EffectOf(table, c, pred).inputs
    ensures RunExpr(m, c, BeginWhileRepeat(pred, body), st, fuel) != Underflow
  {
    assert m.NamesOf(c) == NamesIn(c);
    if fuel > 0 {
      StraightExactly(m, EnvOf(table), c, pred, st, fuel);
      RunTracks(m, EnvOf(table), c, pred, st, false, fuel);
      var st1 := RunSeq(m, c, pred, st, fuel).state;
      assert Tracks(st1.stack[|st1.stack| - 1 - 0], OpenAt(table, NamesIn(c), pred, 0), false);
      assert LoopTurn(m, c, BeginWhileRepeat(pred, body), st, fuel) == WhileTest(Next(st1));
    }
  }

  /** The inputs inferred for a WHILE are the least that suffice if and only if its flag can be true, or its
      body takes no more than its test. */
  lemma WhileExactly(table: map<string, Eff>, c: Context, pred: seq<Expr>, body: seq<Expr>, have: set<string>)
    requires Whiles(table, c, pred, body, have)
    ensures var e := BeginWhileRepeat(pred, body);
            var eff := InferExpr(EnvOf(table), NamesIn(c), e);
            && eff.Known? && eff.outputs == eff.inputs
            && ((forall k: nat :: Enough(table, c, e, have, k) <==> k >= eff.inputs) <==>
                CanHold(table, c, pred) || EffectOf(table, c, body).inputs <= EffectOf(table, c, pred).inputs)
  {
    var e := BeginWhileRepeat(pred, body);
    WhileKnown(table, c, pred, body, have);
    if CanHold(table, c, pred) {
      forall k: nat
        ensures Enough(table, c, e, have, k) <==> k >= InferExpr(EnvOf(table), NamesIn(c), e).inputs
      {
        WhileTight(table, c, pred, body, have, k);
      }
    } else {
      forall k: nat
        ensures Enough(table, c, e, have, k) <==> k >= EffectOf(table, c, pred).inputs
      {
        WhileNever(table, c, pred, body, have, k);
      }
      assert Enough(table, c, e, have, EffectOf(table, c, pred).inputs);
    }
  }

  lemma SingleEffect(env: Env, n: Names, s: seq<Expr>)
    requires |s| == 1
    ensures InferBlock(env, n, s) == InferExpr(env, n, s[0])
  {
    assert s[1..] == [] && InferBlock(env, n, s[1..]) == nothing;
    ThenIdentity(InferExpr(env, n, s[0]));
  }

  lemma ZeroTest(table: map<string, Eff>, c: Context, pred: seq<Expr>)
    requires |pred| == 1 && pred[0] == Lit(0) && "exit" !in table && "recurse" !in table
    ensures Straight(table, c, pred, {}) && EffectOf(table, c, pred) == Known(0, 1) && !CanHold(table, c, pred)
  {
    SingleEffect(EnvOf(table), NamesIn(c), pred);
    assert forall e <- pred :: e == pred[0];
  }

  /** BEGIN 0 WHILE SWAP REPEAT, and the like with any body that has the effect ( x y -- x y ), is inferred to
      have that effect, and needs nothing. */
  lemma WhileExample(table: map<string, Eff>, c: Context, pred: seq<Expr>, body: seq<Expr>)
    requires |pred| == 1 && pred[0] == Lit(0)
    requires Straight(table, c, body, {}) && EffectOf(table, c, body) == Known(2, 2)
    ensures InferExpr(EnvOf(table), NamesIn(c), BeginWhileRepeat(pred, body)) == Known(2, 2)
    ensures Enough(table, c, BeginWhileRepeat(pred, body), {}, 0)
  {
    ZeroTest(table, c, pred);
    WhileGap(table, c, pred, body, {});
  }

  lemma WhileGap(table: map<string, Eff>, c: Context, pred: seq<Expr>, body: seq<Expr>, have: set<string>)
    requires Straight(table, c, pred, have) && Straight(table, c, body, have) && !CanHold(table, c, pred)
    requires EffectOf(table, c, pred) == Known(0, 1) && EffectOf(table, c, body) == Known(2, 2)
    ensures InferExpr(EnvOf(table), NamesIn(c), BeginWhileRepeat(pred, body)) == Known(2, 2)
    ensures Enough(table, c, BeginWhileRepeat(pred, body), have, 0)
  {
    WhileNever(table, c, pred, body, have, 0);
  }

  // ----- CASE -----

  /** What every run needs is what is enough. */
  lemma EnoughExactly(table: map<string, Eff>, c: Context, e: Expr, have: set<string>, k: nat, needed: nat)
    requires forall m: Machine, st: State, fuel: nat | Plainly(m, table) && |st.stack| == k && have <= st.locals.Keys ::
               RunExpr(m, c, e, st, fuel) == Underflow <==> k < needed
    ensures Enough(table, c, e, have, k) <==> k >= needed
  {
    OnesAre(table);
    var st := OnesState(have, k);
    if k < needed {
      assert RunExpr(OnesMachine(table), c, e, st, 1) == Underflow;
      TooFew(table, c, e, have, st);
    }
  }

  lemma LeastExactly(table: map<string, Eff>, c: Context, e: Expr, have: set<string>, needed: nat, claimed: nat)
    requires forall k: nat :: Enough(table, c, e, have, k) <==> k >= needed
    ensures (forall k: nat :: Enough(table, c, e, have, k) <==> k >= claimed) <==> claimed == needed
  {
    assert Enough(table, c, e, have, needed);
    assert Enough(table, c, e, have, claimed) <==> claimed >= needed;
  }

  lemma CaseNeverMore(m0: Eff, rest: Eff)
    requires m0.Known? && rest.Known?
    ensures var a, b := Then(AnsTest(m0), rest), Then(Then(Then(Then(Known(1, 2), m0), Known(2, 1)), flag), rest);
            a.Known? && b.Known? && b.inputs <= a.inputs
  {
    var i, o := m0.inputs, m0.outputs;
    var k, l := Max(i, 1), if i >= 2 then i - 1 else 1;
    assert Then(Known(1, 1), m0) == Known(k, o + k - i);
    assert Then(Known(1, 2), m0) == Known(l, o + l + 1 - i);
    TestFurther(k, o + k - i, l, rest);
  }

  lemma TestFurther(k: nat, x: nat, l: nat, rest: Eff)
    requires rest.Known? && l <= k <= l + 1 && x + l + 1 >= k
    ensures var a := Then(Then(Known(k, x), Known(2, 1)), rest);
            var b := Then(Then(Then(Known(l, x + l + 1 - k), Known(2, 1)), flag), rest);
            a.Known? && b.Known? && b.inputs <= a.inputs
  {
    var y: nat := x + l + 1 - k;
    assert Then(Known(k, x), Known(2, 1)) == if x >= 2 then Known(k, x - 1) else Known(k + 2 - x, 1);
    assert Then(Known(l, y), Known(2, 1)) == if y >= 2 then Known(l, y - 1) else Known(l + 2 - y, 1);
    assert Then(Then(Known(l, y), Known(2, 1)), flag) == if y >= 2 then Known(l, y - 2) else Known(l + 2 - y, 0);
  }

  lemma CaseRun(m: Machine, env: Env, c: Context, arm: Arm, default: seq<Expr>, st: State, fuel: nat)
    requires Strict(m, env.table) && StraightCase(env, m.NamesOf(c), arm, default, st.locals.Keys)
    ensures AnsCase(env, m.NamesOf(c), [arm], ElseBody(default)).Known?
    ensures RunExpr(m, c, Case([arm], ElseBody(default)), st, fuel) == Underflow <==>
            |st.stack| < AnsCase(env, m.NamesOf(c), [arm], ElseBody(default)).inputs
  {
    CaseIsArms(m, c, [arm], ElseBody(default), st, fuel);
    CaseUnderflows(m, env, c, arm, default, st, fuel);
  }

  lemma CaseIsArms(m: Machine, c: Context, arms: seq<Arm>, default: Else, st: State, fuel: nat)
    ensures RunExpr(m, c, Case(arms, default), st, fuel) == RunArms(m, c, arms, default, st, fuel)
  {}

  lemma MoreLocals(env: Env, n: Names, arm: Arm, default: seq<Expr>, have: set<string>, more: set<string>)
    requires StraightCase(env, n, arm, default, have) && have <= more
    ensures StraightCase(env, n, arm, default, more)
  {}

  /** A CASE of straight-line parts needs just what the standard makes of it. */
  lemma CaseNeeds(table: map<string, Eff>, c: Context, arm: Arm, default: seq<Expr>, have: set<string>, k: nat)
    requires StraightCase(EnvOf(table), NamesIn(c), arm, default, have)
    ensures AnsCase(EnvOf(table), NamesIn(c), [arm], ElseBody(default)).Known?
    ensures Enough(table, c, Case([arm], ElseBody(default)), have, k) <==>
            k >= AnsCase(EnvOf(table), NamesIn(c), [arm], ElseBody(default)).inputs
  {
    CaseEffect(EnvOf(table), NamesIn(c), [arm], ElseBody(default));
    var needed := AnsCase(EnvOf(table), NamesIn(c), [arm], ElseBody(default)).inputs;
    forall m: Machine, st: State, fuel: nat | Plainly(m, table) && |st.stack| == k && have <= st.locals.Keys
      ensures RunExpr(m, c, Case([arm], ElseBody(default)), st, fuel) == Underflow <==> k < needed
    {
      MoreLocals(EnvOf(table), NamesIn(c), arm, default, have, st.locals.Keys);
      assert m.NamesOf(c) == NamesIn(c);
      CaseRun(m, EnvOf(table), c, arm, default, st, fuel);
    }
    EnoughExactly(table, c, Case([arm], ElseBody(default)), have, k, needed);
  }

  /** What is inferred for it is never more, and is the least that suffices if and only if it is not less. */
  lemma CaseTight(table: map<string, Eff>, c: Context, arm: Arm, default: seq<Expr>, have: set<string>)
    requires StraightCase(EnvOf(table), NamesIn(c), arm, default, have)
    ensures var eff := InferCase(EnvOf(table), NamesIn(c), [arm], ElseBody(default));
            && eff.Known? && AnsCase(EnvOf(table), NamesIn(c), [arm], ElseBody(default)).Known?
            && eff.inputs <= AnsCase(EnvOf(table), NamesIn(c), [arm], ElseBody(default)).inputs
            && ((forall k: nat :: Enough(table, c, Case([arm], ElseBody(default)), have, k) <==> k >= eff.inputs) <==>
                MatchFits(EnvOf(table), NamesIn(c), [arm], ElseBody(default)))
  {
    var env, n, d := EnvOf(table), NamesIn(c), ElseBody(default);
    CaseEffect(env, n, [arm], d);
    CaseNeverMore(InferBlock(env, n, arm.matchExpr), Alternatives(env, n, [arm], d));
    var needed, claimed := AnsCase(env, n, [arm], d).inputs, InferCase(env, n, [arm], d).inputs;
    forall k: nat
      ensures Enough(table, c, Case([arm], d), have, k) <==> k >= needed
    {
      CaseNeeds(table, c, arm, default, have, k);
    }
    LeastExactly(table, c, Case([arm], d), have, needed, claimed);
  }

  // ----- when an effect is known -----

  predicate Balanced(eff: Eff) {
    eff.Known? && eff.inputs == eff.outputs
  }

  /** The effect changes the depth as the parts do, less the flag or the bounds. */
  predicate ChangesDepth(env: Env, n: Names, e: Expr, eff: Eff)
    requires eff.Known?
  {
    match e
    case If(thenBody, _) =>
      var t := InferBlock(env, n, thenBody);
      t.Known? && eff.outputs + 1 + t.inputs == eff.inputs + t.outputs
    case BeginUntil(body) =>
      var b := InferBlock(env, n, body);
      b.Known? && eff.outputs + 1 + b.inputs == eff.inputs + b.outputs
    case BeginWhileRepeat(_, _) => eff.outputs == eff.inputs
    case DoLoop(_, _, _) => eff.outputs + 2 == eff.inputs
    case _ => true
  }

  /** Whatever the parts are, the effect of a construct is known if and only if theirs are and change the depth
      as the construct needs, and it changes the depth as they do, less what the construct takes. */
  lemma ConstructsKnown(env: Env, n: Names, e: Expr)
    ensures e.If? && e.elseBody.NoElse? ==>
              (InferExpr(env, n, e).Known? <==> Balanced(InferBlock(env, n, e.thenBody)))
    ensures e.If? && e.elseBody.ElseBody? ==>
              (InferExpr(env, n, e).Known? <==>
               InferBlock(env, n, e.thenBody).Known? &&
               InferBlock(env, n, e.thenBody) == InferBlock(env, n, e.elseBody.body))
    ensures e.BeginWhileRepeat? ==>
              (InferExpr(env, n, e).Known? <==>
               Balanced(InferBlock(env, n, e.body)) && InferBlock(env, n, e.pred).Known? &&
               InferBlock(env, n, e.pred).outputs == InferBlock(env, n, e.pred).inputs + 1)
    ensures e.BeginUntil? ==>
              (InferExpr(env, n, e).Known? <==>
               InferBlock(env, n, e.body).Known? &&
               InferBlock(env, n, e.body).outputs > InferBlock(env, n, e.body).inputs)
    ensures e.DoLoop? ==> (InferExpr(env, n, e).Known? <==> Balanced(InferBlock(env, n, e.body)))
    ensures e.BeginAgain? ==> InferExpr(env, n, e).Unknown?
    ensures InferExpr(env, n, e).Known? ==> ChangesDepth(env, n, e, InferExpr(env, n, e))
  {}

  // ----- words and globals -----

  /** A call of straight-line code without parameters, by its name, needs what is inferred for its body, where
      that is what callers have been told. */
  lemma ReferenceExactly(m: Machine, env: Env, c: Context, name: string, st: State, fuel: nat)
    requires StraightDef(m, env, Lower(name)) && m.defs[Lower(name)].params == [] && !m.restoring && fuel > 0
    requires Resolve(m.NamesOf(c), name) == UserDefined
    requires var d := m.defs[Lower(name)];
             Lookup(env.user, Lower(name)) == InferBlock(env, Names(d.scope, m.Words()), d.body)
    ensures var eff, o := InferExpr(env, m.NamesOf(c), WordRef(name)), RunExpr(m, c, WordRef(name), st, fuel);
            && eff.Known?
            && (o == Underflow <==> |st.stack| < eff.inputs)
            && (o != Underflow ==> o.Next? && |o.state.stack| == |st.stack| - eff.inputs + eff.outputs)
  {
    CallExactly(m, env, Lower(name), st, fuel - 1);
  }

  /** The accesses to globals that exist. */
  lemma GlobalExactly(m: Machine, env: Env, access: Access, name: string, st: State)
    requires Strict(m, env.table) && Lookup(env.table, "+").Known? && name in st.world.values
    requires forall s, w :: m.prim("+", s, w).Done? ==> m.prim("+", s, w).world.values == w.values
    ensures var eff, o := GlobalEffect(env, access), RunGlobal(m, access, name, st);
            && eff.Known?
            && (o == Underflow <==> |st.stack| < eff.inputs)
            && (o != Underflow ==> o.Next? && |o.state.stack| == |st.stack| - eff.inputs + eff.outputs)
  {
    var st1 := Push(st, st.world.values[name]);
    assert TakesExactly(m.prim("+", st1.stack, st1.world), st1.stack, Lookup(env.table, "+"));
  }
}
