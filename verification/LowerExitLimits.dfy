/** Where lowering EXIT changes what a program does: a CASE that holds EXIT and is not last, and an
    EXIT in a CASE default. */
module LowerExitLimits {
  import opened Forth
  import opened Equivalence
  import opened LowerExit
  import opened LowerExitMeaning

  /** Literals, builtins and EXIT. */
  predicate Straight(n: Names, s: seq<Expr>) {
    forall e <- s :: e.Lit? || IsExitWord(n, e) || IsPlainWord(n, e)
  }

  predicate IsPlainWord(n: Names, e: Expr) {
    e.WordRef? && Resolve(n, e.name) == Builtin && Lower(e.name) != "recurse"
  }

  predicate LiteralMatches(arms: seq<Arm>) {
    forall a <- arms :: |a.matchExpr| == 1 && a.matchExpr[0].Lit?
  }

  /** A straight-line body up to its first EXIT. */
  function UpToExit(n: Names, s: seq<Expr>): (p: seq<Expr>)
    requires Straight(n, s)
    ensures Straight(n, p) && !SeqStrips(n, p)
    ensures p == [] <==> Inert(n, s)
  {
    if s == [] || IsExitWord(n, s[0]) then [] else
      assert ([s[0]] + UpToExit(n, s[1..]))[1..] == UpToExit(n, s[1..]);
      [s[0]] + UpToExit(n, s[1..])
  }

  lemma {:induction false} LowerStraight(n: Names, s: seq<Expr>)
    requires Straight(n, s)
    ensures LowerSeq(n, s).body == UpToExit(n, s)
  {
    if s != [] {
      LowerStraight(n, s[1..]);
    }
  }

  // ----- a runtime that sees every difference -----

  /** Every builtin records the depth of the stack. */
  function Recorder(lc: string, stack: seq<Cell>, w: World): PrimResult {
    Done(stack, w.(output := w.output + [Number(|stack|)]))
  }

  ghost function RecorderMachine(n: Names): (m: Machine)
    ensures m.Words() == n.words && m.prim == Recorder
  {
    Machine(map lc | lc in n.words :: Defining([]), map[], Recorder, false)
  }

  function Lits(s: seq<Expr>): (v: seq<Cell>)
    ensures forall x <- v :: x.Number?
  {
    if s == [] then [] else (if s[0].Lit? then [Number(s[0].value)] else []) + Lits(s[1..])
  }

  function Depths(s: seq<Expr>, depth: nat): seq<Cell> {
    if s == [] then []
    else if s[0].Lit? then Depths(s[1..], depth + 1)
    else [Number(depth)] + Depths(s[1..], depth)
  }

  function After(st: State, s: seq<Expr>): State {
    st.(stack := st.stack + Lits(s), world := st.world.(output := st.world.output + Depths(s, |st.stack|)))
  }

  lemma {:induction false} RunRecorded(m: Machine, c: Context, s: seq<Expr>, st: State, fuel: nat)
    requires m.prim == Recorder && Straight(m.NamesOf(c), s) && !SeqStrips(m.NamesOf(c), s)
    ensures RunSeq(m, c, s, st, fuel) == Next(After(st, s))
  {
    if s == [] {
      assert After(st, s) == st by {
        assert st.stack + [] == st.stack && st.world.output + [] == st.world.output;
      }
    } else {
      var st1 := if s[0].Lit? then Push(st, Number(s[0].value))
                 else st.(world := st.world.(output := st.world.output + [Number(|st.stack|)]));
      assert RunExpr(m, c, s[0], st, fuel) == Next(st1);
      RunRecorded(m, c, s[1..], st1, fuel);
      AfterStep(st, st1, s);
    }
  }

  lemma AfterStep(st: State, st1: State, s: seq<Expr>)
    requires s != []
    requires st1 == if s[0].Lit? then Push(st, Number(s[0].value))
                    else st.(world := st.world.(output := st.world.output + [Number(|st.stack|)]))
    ensures After(st1, s[1..]) == After(st, s)
  {
    if s[0].Lit? {
      assert st.stack + [Number(s[0].value)] + Lits(s[1..]) == st.stack + ([Number(s[0].value)] + Lits(s[1..]));
    } else {
      assert [] + Lits(s[1..]) == Lits(s[1..]);
      assert st.world.output + [Number(|st.stack|)] + Depths(s[1..], |st.stack|)
          == st.world.output + ([Number(|st.stack|)] + Depths(s[1..], |st.stack|));
    }
  }

  lemma {:induction false} RunToExit(m: Machine, c: Context, s: seq<Expr>, st: State, fuel: nat)
    requires m.prim == Recorder && Straight(m.NamesOf(c), s)
    ensures RunSeq(m, c, s, st, fuel) ==
            if SeqStrips(m.NamesOf(c), s) then Exit(After(st, UpToExit(m.NamesOf(c), s)))
            else Next(After(st, UpToExit(m.NamesOf(c), s)))
  {
    var n := m.NamesOf(c);
    if s == [] {
      RunRecorded(m, c, s, st, fuel);
    } else if IsExitWord(n, s[0]) {
      RunRecorded(m, c, [], st, fuel);
      assert RunExpr(m, c, s[0], st, fuel) == Exit(st);
    } else {
      var p := UpToExit(n, s);
      assert p[1..] == UpToExit(n, s[1..]);
      var st1 := if s[0].Lit? then Push(st, Number(s[0].value))
                 else st.(world := st.world.(output := st.world.output + [Number(|st.stack|)]));
      assert RunExpr(m, c, s[0], st, fuel) == Next(st1);
      RunToExit(m, c, s[1..], st1, fuel);
      AfterStep(st, st1, p);
    }
  }

  // ----- a selector that no arm matches -----

  function Above(arms: seq<Arm>, v: int): (x: int)
    requires LiteralMatches(arms)
    ensures x > v && forall a <- arms :: x > a.matchExpr[0].value
  {
    if arms == [] then v + 1
    else
      var x := Above(arms[1..], v);
      if arms[0].matchExpr[0].value >= x then arms[0].matchExpr[0].value + 1 else x
  }

  lemma {:induction false} SkipArms(m: Machine, c: Context, arms: seq<Arm>, default: Else, st: State, fuel: nat)
    requires LiteralMatches(arms) && |st.stack| > 0
    requires forall a <- arms :: Number(a.matchExpr[0].value) != Top(st.stack)
    ensures RunArms(m, c, arms, default, st, fuel) == RunArms(m, c, [], default, st, fuel)
  {
    if arms != [] {
      var e := arms[0].matchExpr[0];
      assert arms[0].matchExpr == [e];
      RunOne(m, c, e, st, fuel);
      assert Drop(st.stack + [Number(e.value)]) == st.stack;
      SkipArms(m, c, arms[1..], default, st, fuel);
    }
  }

  lemma {:induction false} LowerArmsMatches(n: Names, arms: seq<Arm>, tail: seq<Expr>)
    ensures |LowerArms(n, arms, tail).arms| == |arms|
    ensures forall i :: 0 <= i < |arms| ==> LowerArms(n, arms, tail).arms[i].matchExpr == arms[i].matchExpr
    decreases |arms|
  {
    if arms != [] {
      LowerArmsMatches(n, arms[1..], tail);
    }
  }

  // ----- exactly when a CASE that holds EXIT is lowered rightly -----

  ghost predicate Preserved(m: Machine, c: Context, s: seq<Expr>, st: State, fuel: nat) {
    Collapse(RunSeq(m, c, LowerSeq(m.NamesOf(c), s).body, st, fuel)) == Collapse(RunSeq(m, c, s, st, fuel))
  }

  /** Lowering s is right on every machine with these names. */
  ghost predicate AlwaysPreserved(c: Context, words: set<string>, s: seq<Expr>) {
    forall m: Machine, st, fuel | m.Words() == words :: Preserved(m, c, s, st, fuel)
  }

  ghost function Probe(x: int): State {
    State([Number(x)], map[], World(map[], map[], [], [], []))
  }

  /** The original and the lowered run of an unmatched selector. */
  lemma UnmatchedRuns(c: Context, words: set<string>, arms: seq<Arm>, default: Else, tail: seq<Expr>, x: int)
    requires LiteralMatches(arms)
    requires (ArmsUseExit(Names(c.locals, words), arms) || ElseUsesExit(Names(c.locals, words), default))
    requires Straight(Names(c.locals, words), tail) && Straight(Names(c.locals, words), ElseSeq(default))
    requires forall a <- arms :: a.matchExpr[0].value != x
    ensures var n := Names(c.locals, words);
            var m := RecorderMachine(n);
            var s := [Case(arms, default)] + tail;
            && RunSeq(m, c, s, Probe(x), 0) == AndThen(m, c, RunArms(m, c, [], default, Probe(x), 0), tail, 0)
            && RunSeq(m, c, LowerSeq(n, s).body, Probe(x), 0)
               == RunArms(m, c, [], AsDefault(UpToExit(n, ElseSeq(default) + tail)), Probe(x), 0)
  {
    var n := Names(c.locals, words);
    var m := RecorderMachine(n);
    var e := Case(arms, default);
    var s := [e] + tail;
    assert s[0] == e && s[1..] == tail;
    assert ExprUsesExit(n, e);
    RunCons(m, c, e, tail, Probe(x), 0);
    SkipArms(m, c, arms, default, Probe(x), 0);
    LowerStraight(n, ElseSeq(default) + tail);
    var d := AsDefault(UpToExit(n, ElseSeq(default) + tail));
    var la := LowerArms(n, arms, tail).arms;
    LowerArmsMatches(n, arms, tail);
    RunOne(m, c, Case(la, d), Probe(x), 0);
    SkipArms(m, c, la, d, Probe(x), 0);
    assert LowerSeq(n, s).body == [Case(la, d)];
  }

  /** A CASE without default that holds EXIT, followed by straight-line code, is lowered rightly on
      every machine if and only if nothing of that code runs: otherwise it runs before the selector
      is dropped. */
  lemma CaseTailExactly(c: Context, words: set<string>, arms: seq<Arm>, tail: seq<Expr>)
    requires LiteralMatches(arms) && ArmsUseExit(Names(c.locals, words), arms)
    requires ArmsCaseOk(Names(c.locals, words), arms) && Straight(Names(c.locals, words), tail)
    ensures AlwaysPreserved(c, words, [Case(arms, NoElse)] + tail) <==> Inert(Names(c.locals, words), tail)
  {
    var n := Names(c.locals, words);
    var e := Case(arms, NoElse);
    var s := [e] + tail;
    if Inert(n, tail) {
      CaseThenInert(n, e, tail);
      forall m: Machine, st, fuel | m.Words() == words
        ensures Preserved(m, c, s, st, fuel)
      {
        LowerPreserves(m, c, s, st, fuel);
      }
    } else {
      var p := UpToExit(n, tail);
      var x := Above(arms, if Lits(p) == [] then 0 else Lits(p)[0].n);
      TailDiffers(c, words, arms, tail, x);
      assert !Preserved(RecorderMachine(n), c, s, Probe(x), 0);
    }
  }

  lemma CaseThenInert(n: Names, e: Expr, tail: seq<Expr>)
    requires e.Case? && Inert(n, tail) && ExprCaseOk(n, e, true)
    ensures CaseOk(n, [e] + tail, true)
  {
    assert ([e] + tail)[1..] == tail;
  }

  lemma TailDiffers(c: Context, words: set<string>, arms: seq<Arm>, tail: seq<Expr>, x: int)
    requires LiteralMatches(arms) && ArmsUseExit(Names(c.locals, words), arms)
    requires Straight(Names(c.locals, words), tail) && !Inert(Names(c.locals, words), tail)
    requires forall a <- arms :: a.matchExpr[0].value != x
    requires var p := UpToExit(Names(c.locals, words), tail); Lits(p) != [] ==> Number(x) != Lits(p)[0]
    ensures !Preserved(RecorderMachine(Names(c.locals, words)), c, [Case(arms, NoElse)] + tail, Probe(x), 0)
  {
    var n := Names(c.locals, words);
    var m := RecorderMachine(n);
    var p := UpToExit(n, tail);
    assert ElseSeq(NoElse) + tail == tail;
    UnmatchedRuns(c, words, arms, NoElse, tail, x);
    RunToExit(m, c, tail, Pop(Probe(x)), 0);
    RunRecorded(m, c, p, Probe(x), 0);
    var right, wrong := After(Pop(Probe(x)), p), After(Probe(x), p);
    assert Pop(Probe(x)).stack == [];
    if Lits(p) != [] {
      assert right.stack[0] == Lits(p)[0] && wrong.stack[0] == Number(x);
      assert |wrong.stack| > 1;
    } else {
      assert !p[0].Lit?;
      assert right.world.output[0] == Number(0) && wrong.world.output[0] == Number(1);
    }
  }

  /** A CASE at the end of a definition whose arms or straight-line default hold EXIT is lowered rightly
      on every machine if and only if the default has no EXIT: otherwise the selector, which EXIT
      leaves on the stack, is dropped. */
  lemma CaseDefaultExactly(c: Context, words: set<string>, arms: seq<Arm>, default: seq<Expr>)
    requires LiteralMatches(arms) && ArmsCaseOk(Names(c.locals, words), arms)
    requires Straight(Names(c.locals, words), default)
    requires ArmsUseExit(Names(c.locals, words), arms) || SeqUsesExit(Names(c.locals, words), default)
    ensures AlwaysPreserved(c, words, [Case(arms, ElseBody(default))]) <==> !SeqStrips(Names(c.locals, words), default)
  {
    var n := Names(c.locals, words);
    var e := Case(arms, ElseBody(default));
    assert [e] + [] == [e];
    if !SeqStrips(n, default) {
      StraightCaseOk(n, default);
      CaseThenInert(n, e, []);
      forall m: Machine, st, fuel | m.Words() == words
        ensures Preserved(m, c, [e], st, fuel)
      {
        LowerPreserves(m, c, [e], st, fuel);
      }
    } else {
      DefaultDiffers(c, words, arms, default, Above(arms, 0));
      assert !Preserved(RecorderMachine(n), c, [e], Probe(Above(arms, 0)), 0);
    }
  }

  lemma {:induction false} StraightCaseOk(n: Names, s: seq<Expr>)
    requires Straight(n, s)
    ensures CaseOk(n, s, true)
  {
    if s != [] {
      StraightCaseOk(n, s[1..]);
    }
  }

  lemma DefaultDiffers(c: Context, words: set<string>, arms: seq<Arm>, default: seq<Expr>, x: int)
    requires LiteralMatches(arms) && Straight(Names(c.locals, words), default)
    requires SeqStrips(Names(c.locals, words), default)
    requires ElseUsesExit(Names(c.locals, words), ElseBody(default)) || ArmsUseExit(Names(c.locals, words), arms)
    requires forall a <- arms :: a.matchExpr[0].value != x
    ensures !Preserved(RecorderMachine(Names(c.locals, words)), c, [Case(arms, ElseBody(default))], Probe(x), 0)
  {
    var n := Names(c.locals, words);
    var m := RecorderMachine(n);
    var e := Case(arms, ElseBody(default));
    var p := UpToExit(n, default);
    assert [e] + [] == [e] && default + [] == default;
    UnmatchedRuns(c, words, arms, ElseBody(default), [], x);
    RunToExit(m, c, default, Probe(x), 0);
    RunRecorded(m, c, p, Probe(x), 0);
    RunElseSeq(m, c, AsDefault(p), Probe(x), 0);
    RunElseSeq(m, c, ElseBody(default), Probe(x), 0);
  }

  const exampleArm := Arm([Lit(1)], [WordRef("exit")])
  const exampleBody := [Case([exampleArm], NoElse), Lit(7)]
  const exampleLowered := [Case([Arm([Lit(1)], [])], ElseBody([Lit(7)]))]

  lemma ExampleLowered(n: Names)
    requires n.locals == {} && n.words == {}
    ensures LowerSeq(n, exampleBody).body == exampleLowered
  {
    var ex := WordRef("exit");
    assert Lower("exit") == "exit";
    assert IsExitWord(n, ex);
    assert ([ex] + [Lit(7)])[0] == ex;
    assert LowerSeq(n, [ex] + [Lit(7)]) == Lowered([], true);
    assert SeqUsesExit(n, exampleArm.body) && ArmsUseExit(n, [exampleArm]);
    assert ElseSeq(NoElse) + [Lit(7)] == [Lit(7)];
    assert LowerSeq(n, [Lit(7)]).body == [Lit(7)] by {
      assert [Lit(7)][1..] == [];
    }
    assert LowerArms(n, [exampleArm], [Lit(7)]).arms == [Arm([Lit(1)], [])];
    assert exampleBody[1..] == [Lit(7)];
    assert LowerSeq(n, exampleBody) == LowerExitingCase(n, exampleBody[0], [Lit(7)]);
  }

  /** CASE 1 OF EXIT ENDOF ENDCASE 7 on the selector 5: seven is left alone on the stack originally,
      and dropped, leaving five, after lowering. */
  lemma CaseTailExample(m: Machine, c: Context, st: State, fuel: nat)
    requires m.Words() == {} && c.locals == {} && st.stack == [Number(5)]
    ensures RunSeq(m, c, exampleBody, st, fuel) == Next(st.(stack := [Number(7)]))
    ensures RunSeq(m, c, LowerSeq(m.NamesOf(c), exampleBody).body, st, fuel) == Next(st)
  {
    ExampleLowered(m.NamesOf(c));
    var e := exampleBody[0];
    var d := [Lit(7)];
    assert exampleBody == [e] + d;
    RunCons(m, c, e, d, st, fuel);
    SkipArms(m, c, [exampleArm], NoElse, st, fuel);
    RunOne(m, c, Lit(7), Pop(st), fuel);
    RunOne(m, c, exampleLowered[0], st, fuel);
    SkipArms(m, c, [Arm([Lit(1)], [])], ElseBody(d), st, fuel);
    RunOne(m, c, Lit(7), st, fuel);
    assert Drop(st.stack + [Number(7)]) == st.stack;
  }
}
