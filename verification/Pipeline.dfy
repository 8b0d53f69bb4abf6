/** The three desugarings in the order the compiler runs them (src/compiler/sema.rs). */
module Pipeline {
  import opened Forth
  import opened Equivalence
  import opened Congruence
  import LowerQdup
  import LowerRecurse
  import LowerExit
  import LowerExitMeaning
  import LowerExitNormal

  /** ?DUP IF, then RECURSE, for the definition called `self`. */
  function Desugar(s: seq<Expr>, self: string): seq<Expr> {
    LowerRecurse.RecurseSeq(LowerQdup.QdupSeq(s), self)
  }

  function CompileBody(d: Definition, self: string, words: set<string>): seq<Expr> {
    LowerExit.LowerBody(Names(d.scope, words), Desugar(d.body, self))
  }

  function CompileDefs(defs: map<string, Definition>, words: set<string>): map<string, Definition> {
    map lc | lc in defs :: defs[lc].(body := CompileBody(defs[lc], lc, words))
  }

  /** What the program must not do: hide DUP, DROP, ?DUP, RECURSE or a definition's own name in that
      definition, or let anything follow a CASE that holds EXIT. */
  ghost predicate Compilable(m: Machine) {
    && LowerQdup.StandardPrims(m)
    && (forall lc :: lc in m.defs ==> DefOk(m, lc))
  }

  ghost predicate DefOk(m: Machine, lc: string)
    requires lc in m.defs
  {
    var d := m.defs[lc];
    var n := Names(d.scope, m.Words());
    && Lower(lc) == lc
    && LowerQdup.Unhidden(n)
    && LowerRecurse.SelfVisible(Context(d.scope, lc), m.Words())
    && LowerExit.CaseOk(n, Desugar(d.body, lc), true)
  }

  /** One body through all three passes. */
  lemma CompileBodyPreserves(m: Machine, lc: string, st: State, fuel: nat)
    requires lc in m.defs && LowerQdup.StandardPrims(m) && DefOk(m, lc)
    ensures var c := Context(m.defs[lc].scope, lc);
            LowerExitMeaning.Collapse(RunSeq(m, c, CompileBody(m.defs[lc], lc, m.Words()), st, fuel))
            == LowerExitMeaning.Collapse(RunSeq(m, c, m.defs[lc].body, st, fuel))
  {
    var d := m.defs[lc];
    var c := Context(d.scope, lc);
    LowerQdup.QdupPreserves(m, c, d.body);
    LowerRecurse.RecursePreserves(m, c, LowerQdup.QdupSeq(d.body));
    LowerExitMeaning.LowerPreserves(m, c, Desugar(d.body, lc), st, fuel);
    assert RunSeq(m, c, d.body, st, fuel) == RunSeq(m, c, LowerQdup.QdupSeq(d.body), st, fuel);
    assert RunSeq(m, c, LowerQdup.QdupSeq(d.body), st, fuel) == RunSeq(m, c, Desugar(d.body, lc), st, fuel);
  }

  /** Each compiled body ends a call as its source does. */
  lemma CompiledAgree(m: Machine)
    requires !m.restoring && Compilable(m)
    ensures BodiesAgree(m, m.(defs := CompileDefs(m.defs, m.Words())))
  {
    var m' := m.(defs := CompileDefs(m.defs, m.Words()));
    assert m'.defs.Keys == m.defs.Keys;
    assert m'.Words() == m.Words();
    forall lc, caller, entry, f: nat | lc in m.defs
      ensures EndCall(m', caller, entry, RunSeq(m, Context(m.defs[lc].scope, lc), m'.defs[lc].body, entry, f))
           == EndCall(m, caller, entry, RunSeq(m, Context(m.defs[lc].scope, lc), m.defs[lc].body, entry, f))
    {
      CompileBodyPreserves(m, lc, entry, f);
    }
  }

  /** The compiled program runs every body as the source program does, with the same fuel. */
  lemma CompilePreserves(m: Machine, c: Context, s: seq<Expr>, st: State, fuel: nat)
    requires !m.restoring && Compilable(m)
    ensures RunSeq(m.(defs := CompileDefs(m.defs, m.Words())), c, s, st, fuel) == RunSeq(m, c, s, st, fuel)
  {
    CompiledAgree(m);
    ProgramsAgree(m, m.(defs := CompileDefs(m.defs, m.Words())), c, s, st, fuel);
  }

  /** And every call. */
  lemma CompileCalls(m: Machine, lc: string, st: State, fuel: nat)
    requires !m.restoring && Compilable(m) && lc in m.defs
    ensures var m' := m.(defs := CompileDefs(m.defs, m.Words()));
            lc in m'.defs && Call(m', lc, st, fuel) == Call(m, lc, st, fuel)
  {
    CompiledAgree(m);
    AllCallsAgree(m, m.(defs := CompileDefs(m.defs, m.Words())), fuel + 1);
  }

  // ----- RECURSE keeps what ?DUP IF established -----

  lemma {:induction false} RecurseKeepsNoPair(s: seq<Expr>, self: string)
    requires LowerQdup.NoPair(s) && Lower(self) != "?dup"
    ensures LowerQdup.NoPair(LowerRecurse.RecurseSeq(s, self))
    ensures var b := LowerRecurse.RecurseSeq(s, self); b != [] && b[0].If? ==> s[0].If?
    decreases SizeSeq(s), 1, |s|
  {
    if s != [] {
      RecurseKeepsNoPairIn(s[0], self);
      RecurseKeepsNoPair(s[1..], self);
      LowerQdup.NoPairCons(LowerRecurse.RecurseExpr(s[0], self), LowerRecurse.RecurseSeq(s[1..], self));
    }
  }

  lemma {:induction false} RecurseKeepsNoPairElse(e: Else, self: string)
    requires LowerQdup.NoPairElse(e) && Lower(self) != "?dup"
    ensures LowerQdup.NoPairElse(LowerRecurse.RecurseElse(e, self))
    decreases SizeElse(e), 0, 0
  {
    match e
    case NoElse =>
    case ElseBody(body) => RecurseKeepsNoPair(body, self);
  }

  lemma {:induction false} RecurseKeepsNoPairIn(e: Expr, self: string)
    requires LowerQdup.NoPairIn(e) && Lower(self) != "?dup"
    ensures LowerQdup.NoPairIn(LowerRecurse.RecurseExpr(e, self))
    decreases SizeExpr(e), 1, 0
  {
    match e
    case If(thenBody, elseBody) =>
      RecurseKeepsNoPair(thenBody, self);
      RecurseKeepsNoPairElse(elseBody, self);
    case BeginUntil(body) => RecurseKeepsNoPair(body, self);
    case BeginAgain(body) => RecurseKeepsNoPair(body, self);
    case BeginWhileRepeat(pred, body) =>
      RecurseKeepsNoPair(pred, self);
      RecurseKeepsNoPair(body, self);
    case DoLoop(_, body, _) => RecurseKeepsNoPair(body, self);
    case Case(arms, default) =>
      RecurseKeepsNoPairArms(arms, self);
      RecurseKeepsNoPairElse(default, self);
    case _ =>
  }

  lemma {:induction false} RecurseKeepsNoPairArms(arms: seq<Arm>, self: string)
    requires LowerQdup.NoPairArms(arms) && Lower(self) != "?dup"
    ensures LowerQdup.NoPairArms(LowerRecurse.RecurseArms(arms, self))
    decreases SizeArms(arms), 0, 0
  {
    if arms != [] {
      RecurseKeepsNoPair(arms[0].matchExpr, self);
      RecurseKeepsNoPair(arms[0].body, self);
      RecurseKeepsNoPairArms(arms[1..], self);
      var b := LowerRecurse.RecurseArms(arms, self);
      assert b[0] == Arm(LowerRecurse.RecurseSeq(arms[0].matchExpr, self),
                         LowerRecurse.RecurseSeq(arms[0].body, self));
      assert b[1..] == LowerRecurse.RecurseArms(arms[1..], self);
    }
  }

  /** Together the two desugarings leave no ?DUP before an IF, and no RECURSE. */
  lemma DesugarComplete(s: seq<Expr>, self: string)
    ensures Lower(self) != "?dup" ==> LowerQdup.NoPair(Desugar(s, self))
    ensures Lower(self) != "recurse" ==> !LowerRecurse.SawSeq(Desugar(s, self))
  {
    LowerQdup.QdupLeavesNoPair(s);
    if Lower(self) != "?dup" {
      RecurseKeepsNoPair(LowerQdup.QdupSeq(s), self);
    }
    if Lower(self) != "recurse" {
      LowerRecurse.RecurseLeavesNone(LowerQdup.QdupSeq(s), self);
    }
  }

  /** A definition called ?DUP that recurses before an IF gets the pair back. */
  lemma PairComesBack()
    ensures !LowerQdup.NoPair(Desugar([WordRef("recurse"), If([], NoElse)], "?dup"))
  {
    var s := [WordRef("recurse"), If([], NoElse)];
    assert Lower("recurse") == "recurse" && Lower("?dup") == "?dup";
    assert s[1..] == [s[1]] && s[1..][1..] == [];
    var q := LowerQdup.QdupSeq(s);
    assert LowerQdup.QdupSeq(s[1..]) == [s[1]];
    assert q == s;
    var r := Desugar(s, "?dup");
    assert r[0] == WordRef("?dup") && r[1] == If([], NoElse);
  }
}
