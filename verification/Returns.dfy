/** `return` stays in the definition that holds the EXIT, unless a match expression hides it. */
module Returns {
  import opened Forth
  import opened Equivalence
  import opened LowerExit
  import opened Factor
  import opened Emit

  // ----- where the emitted code returns -----

  /** The quotation of a body has a `return` that it does not catch if and only if the body holds EXIT. */
  lemma {:induction false} EmitGuarded(n: Names, s: seq<Expr>)
    ensures GuardedQ(EmitSeq(n, s)) <==> !SeqHoldsExit(n, s)
    decreases SizeSeq(s), 2, |s|
  {
    if s != [] {
      EmitExprGuarded(n, s[0]);
      EmitGuarded(n, s[1..]);
      GuardedConcat(EmitExpr(n, s[0]), EmitSeq(n, s[1..]));
    }
  }

  lemma GuardedOne(t: Token)
    ensures GuardedQ([t]) <==> GuardedTok(t)
  {
    assert [t][1..] == [];
  }

  lemma GuardedTwo(a: Token, b: Token)
    ensures GuardedQ([a, b]) <==> GuardedTok(a) && GuardedTok(b)
  {
    assert [a, b][1..] == [b];
    GuardedOne(b);
  }

  lemma {:induction false} EmitExprGuarded(n: Names, e: Expr)
    ensures GuardedQ(EmitExpr(n, e)) <==> !ExprHoldsExit(n, e)
    decreases SizeExpr(e), 1
  {
    match e
    case Lit(v) => GuardedOne(Num(v));
    case WordRef(name) => GuardedOne(EmitWord(n, name));
    case If(thenBody, elseBody) =>
      EmitGuarded(n, thenBody);
      EmitElseGuarded(n, elseBody);
      GuardedTwo(ZeroP, EmitExpr(n, e)[1]);
    case Case(arms, default) => EmitCaseGuarded(n, arms, default);
    case Tick(name) => GuardedOne(XtTok(TickName(n, name), Lower(name)));
    case To(name) => GuardedTwo(SymTok(Holding(Lower(name)), Lower(name)), Bare("set-global"));
    case Locals(names) => BindsGuarded(names);
    case Global(access, x) => GlobalGuarded(access, x);
    case _ =>
      EmitLoopGuarded(n, e);
      GuardedOne(EmitLoop(n, e));
  }

  lemma {:induction false} EmitElseGuarded(n: Names, e: Else)
    ensures GuardedQ(EmitElse(n, e)) <==> !ElseHoldsExit(n, e)
    decreases SizeElse(e), 0
  {
    match e
    case NoElse =>
    case ElseBody(body) => EmitGuarded(n, body);
  }

  lemma {:induction false} BindsGuarded(names: seq<string>)
    ensures GuardedQ(EmitBinds(names))
    decreases |names|
  {
    if names != [] {
      var last, rest := EmitBind(names[|names| - 1]), names[..|names| - 1];
      BindsGuarded(rest);
      GuardedOne(last);
      GuardedConcat([last], EmitBinds(rest));
    }
  }

  lemma RestoreGuarded(names: seq<string>)
    ensures GuardedQ(Restore(names))
  {
    TakeGuarded(names);
    PushGuarded(names);
    GuardedConcat(TakeInputs(names), PushInputs(names));
  }

  lemma {:induction false} TakeGuarded(names: seq<string>)
    ensures GuardedQ(TakeInputs(names))
    decreases |names|
  {
    if names != [] {
      var last, rest := Bind(names[|names| - 1]), names[..|names| - 1];
      TakeGuarded(rest);
      GuardedOne(last);
      GuardedConcat([last], TakeInputs(rest));
    }
  }

  lemma {:induction false} PushGuarded(names: seq<string>)
    ensures GuardedQ(PushInputs(names))
  {
    if names != [] {
      PushGuarded(names[1..]);
      GuardedOne(LocalTok(names[0]));
      GuardedConcat([LocalTok(names[0])], PushInputs(names[1..]));
    }
  }

  lemma GlobalGuarded(access: Access, x: string)
    ensures GuardedQ(EmitGlobal(access, x))
  {
    var u, g, s, p := UserTok(Mangle(x)), Bare("get-global"), Bare("set-global"), Bare("+");
    GuardedTwo(u, g);
    GuardedTwo(u, s);
    GuardedOne(p);
    GuardedConcat([p], [u, s]);
    GuardedConcat([u, g], [p] + [u, s]);
  }

  lemma {:induction false} EmitLoopGuarded(n: Names, e: Expr)
    requires IsLoop(e)
    ensures GuardedTok(EmitLoop(n, e)) <==> !ExprHoldsExit(n, e)
    decreases SizeExpr(e), 0
  {
    EmitGuarded(n, e.body);
    match e
    case BeginUntil(body) =>
      GuardedOne(ZeroP);
      GuardedConcat(EmitSeq(n, body), [ZeroP]);
    case BeginAgain(body) =>
      GuardedOne(Bare("t"));
      GuardedConcat(EmitSeq(n, body), [Bare("t")]);
    case BeginWhileRepeat(pred, body) =>
      var ift := IfTok([Bare("f")], EmitSeq(n, body) + [Bare("t")]);
      EmitGuarded(n, pred);
      GuardedOne(Bare("f"));
      GuardedOne(Bare("t"));
      GuardedConcat(EmitSeq(n, body), [Bare("t")]);
      GuardedTwo(ZeroP, ift);
      GuardedConcat(EmitSeq(n, pred), [ZeroP, ift]);
    case DoLoop(_, body, kind) =>
      GuardedOne(Num(1));
      GuardedConcat(EmitSeq(n, body), if kind == Plus1 then [Num(1)] else []);
  }

  lemma {:induction false} EmitCaseGuarded(n: Names, arms: seq<Arm>, default: Else)
    ensures GuardedQ(EmitCase(n, arms, default)) <==> !ArmsHoldExit(n, arms) && !ElseHoldsExit(n, default)
    decreases SizeArms(arms) + SizeElse(default), 1
  {
    if arms == [] {
      EmitElseGuarded(n, default);
      GuardedOne(KernelDrop);
      GuardedConcat(EmitElse(n, default), [KernelDrop]);
    } else {
      var q, test := EmitSeq(n, arms[0].matchExpr), EmitTest(n, arms, default);
      EmitGuarded(n, arms[0].matchExpr);
      EmitGuarded(n, arms[0].body);
      EmitCaseGuarded(n, arms[1..], default);
      GuardedOne(Bare("drop"));
      GuardedConcat([Bare("drop")], EmitSeq(n, arms[0].body));
      GuardedTwo(Bare("="), test[1]);
      GuardedOne(Bare("dup"));
      GuardedConcat([Bare("dup")], q);
      GuardedConcat([Bare("dup")] + q, test);
    }
  }

  // ----- what a definition catches -----

  /** A definition catches every `return` of its body if and only if it looks for EXIT where there is one,
      or there is none: match expressions are where it does not look. */
  lemma BodyGuarded(n: Names, s: seq<Expr>)
    ensures GuardedQ(EmitBody(n, s)) <==> SeqUsesExit(n, s) || !SeqHoldsExit(n, s)
  {
    EmitGuarded(n, s);
    GuardedOne(WithReturn(EmitSeq(n, s)));
  }

  ghost predicate CatchesAll(m: Machine) {
    forall lc :: lc in m.defs ==>
      var n := Names(m.defs[lc].scope, m.Words()); SeqUsesExit(n, m.defs[lc].body) || !SeqHoldsExit(n, m.defs[lc].body)
  }

  lemma DefGuarded(d: Definition, words: set<string>)
    ensures var n := Names(d.scope, words);
            GuardedQ(EmitDef(d, words).body) <==> SeqUsesExit(n, d.body) || !SeqHoldsExit(n, d.body)
  {
    var n := Names(d.scope, words);
    var names := Inputs(d);
    BindsGuarded(d.params);
    RestoreGuarded(names);
    BodyGuarded(n, d.body);
    GuardedConcat(Restore(names), EmitBody(n, d.body));
    GuardedConcat(EmitBinds(d.params), Restore(names) + EmitBody(n, d.body));
  }

  /** An emitted program catches every `return` in the definition that holds it if and only if no EXIT is
      hidden in a match expression from a definition that has no other. */
  lemma ProgramGuarded(m: Machine)
    requires NoClash(m.Words())
    ensures GuardedProgram(EmitProgram(m)) <==> CatchesAll(m)
  {
    var f := EmitProgram(m);
    ProgramEmits(m);
    forall lc | lc in m.defs
      ensures f.words[Mangle(lc)].Colon? && (GuardedQ(f.words[Mangle(lc)].body) <==>
              var n := Names(m.defs[lc].scope, m.Words());
              SeqUsesExit(n, m.defs[lc].body) || !SeqHoldsExit(n, m.defs[lc].body))
    {
      assert lc in m.Words();
      DefGuarded(m.defs[lc], m.Words());
    }
    forall w | CatchesAll(m) && w in f.words && f.words[w].Colon?
      ensures GuardedQ(f.words[w].body)
    {
      var lc := Unmangled(m.Words(), w);
      assert f.words[w] == EmitNamed(m, lc);
      assert lc in m.defs;
      DefGuarded(m.defs[lc], m.Words());
    }
  }

  /** If all `return`s are caught, no word lets one out, from any state. */
  lemma NoReturnLeaks(m: Machine, lc: string, fs: FState, fuel: nat)
    requires NoClash(m.Words()) && CatchesAll(m)
    ensures !RunUser(EmitProgram(m), Mangle(lc), fs, fuel).FReturn?
  {
    ProgramGuarded(m);
    GuardedUserStays(EmitProgram(m), Mangle(lc), fs, fuel);
  }

  // ----- a `return` that gets out -----

  /** A body whose first CASE starts its first match expression with EXIT. */
  predicate ExitMatched(n: Names, s: seq<Expr>) {
    s != [] && s[0].Case? && s[0].arms != [] && s[0].arms[0].matchExpr != [] &&
    IsExitWord(n, s[0].arms[0].matchExpr[0])
  }

  ghost predicate AlwaysLeaks(m: Machine) {
    forall fs: FState, fuel: nat | |fs.stack| > 0 && fuel > 0 ::
      RunUser(EmitProgram(m), Mangle("w"), fs, fuel).FReturn?
  }

  /** A definition that meets EXIT in its first match expression lets the `return` end its caller, from
      every stack that holds a selector, if and only if it has no EXIT outside match expressions. */
  lemma LeakExactly(m: Machine, s: seq<Expr>)
    requires m.defs == map["w" := Defining(s)] && m.vars == map[]
    requires ExitMatched(Names({}, {"w"}), s)
    ensures AlwaysLeaks(m) <==> !SeqUsesExit(Names({}, {"w"}), s)
  {
    var n := Names({}, {"w"});
    assert m.Words() == {"w"};
    if SeqUsesExit(n, s) {
      assert CatchesAll(m);
      var fs := FState([V(Number(0))], map[], World(map[], map[], [], [], []));
      NoReturnLeaks(m, "w", fs, 1);
      assert |fs.stack| > 0;
    } else {
      OneWord(m, s);
      forall fs: FState, fuel: nat | |fs.stack| > 0 && fuel > 0
        ensures RunUser(EmitProgram(m), Mangle("w"), fs, fuel).FReturn?
      {
        UncaughtReturns(EmitProgram(m), s, fs, fuel);
      }
    }
  }

  lemma OneWord(m: Machine, s: seq<Expr>)
    requires m.defs == map["w" := Defining(s)] && m.vars == map[]
    ensures Mangle("w") in EmitProgram(m).words
    ensures EmitProgram(m).words[Mangle("w")] == Colon({}, EmitBody(Names({}, {"w"}), s))
  {
    assert m.Words() == {"w"} && "w" in m.Words();
    ProgramEmits(m);
    assert Inputs(Defining(s)) == [] && Scope(Defining(s)) == {};
    assert EmitBinds([]) + (Restore([]) + EmitBody(Names({}, {"w"}), s)) == EmitBody(Names({}, {"w"}), s);
  }

  lemma UncaughtReturns(f: FMachine, s: seq<Expr>, fs: FState, fuel: nat)
    requires ExitMatched(Names({}, {"w"}), s) && !SeqUsesExit(Names({}, {"w"}), s)
    requires Mangle("w") in f.words && f.words[Mangle("w")] == Colon({}, EmitBody(Names({}, {"w"}), s))
    requires |fs.stack| > 0 && fuel > 0
    ensures RunUser(f, Mangle("w"), fs, fuel).FReturn?
  {
    MatchReturns(f, Names({}, {"w"}), s, fs.(locals := map[]), fuel - 1);
    assert RunUser(f, Mangle("w"), fs, fuel) == CallQ(f, Mangle("w"), fs, fuel - 1);
  }

  lemma MatchReturns(f: FMachine, n: Names, s: seq<Expr>, fs: FState, fuel: nat)
    requires ExitMatched(n, s) && |fs.stack| > 0
    ensures RunQ(f, {}, EmitSeq(n, s), fs, fuel).FReturn?
  {
    var e := s[0];
    var q := EmitSeq(n, e.arms[0].matchExpr);
    var rest := EmitSeq(n, e.arms[0].matchExpr[1..]);
    var test := EmitTest(n, e.arms, e.default);
    var after := rest + (test + EmitSeq(n, s[1..]));
    var first := e.arms[0].matchExpr[0];
    assert EmitExpr(n, first) == [EmitWord(n, first.name)] == [ReturnTok];
    assert q == EmitExpr(n, first) + rest;
    assert EmitExpr(n, e) == EmitCase(n, e.arms, e.default) == [Bare("dup")] + q + test;
    assert EmitSeq(n, s) == EmitExpr(n, e) + EmitSeq(n, s[1..]);
    assert EmitSeq(n, s) == [Bare("dup")] + ([ReturnTok] + after);
    RunQCons(f, {}, Bare("dup"), [ReturnTok] + after, fs, fuel);
    RunQCons(f, {}, ReturnTok, after, PushV(fs, TopV(fs.stack)), fuel);
  }
}
