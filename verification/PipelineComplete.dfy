/** What the desugarings leave of a program: every definition goes through all of them, and nothing but its
    body changes. */
module PipelineComplete {
  import opened Forth
  import opened Equivalence
  import opened LowerExit
  import opened LowerExitNormal
  import opened LowerRecurse
  import LowerExitMeaning
  import LowerQdup
  import Pipeline

  // ----- inlining tails brings no RECURSE back -----

  lemma {:induction false} SawConcat(a: seq<Expr>, b: seq<Expr>)
    ensures SawSeq(a + b) <==> SawSeq(a) || SawSeq(b)
    decreases |a|
  {
    if a == [] {
      assert a + b == b;
    } else {
      assert (a + b)[0] == a[0] && (a + b)[1..] == a[1..] + b;
      SawConcat(a[1..], b);
    }
  }

  lemma SawElseSeq(e: Else)
    ensures SawSeq(ElseSeq(e)) <==> SawElse(e)
  {}

  lemma {:induction false} LowerKeepsBound(n: Names, s: seq<Expr>)
    requires !SawSeq(s)
    ensures !SawSeq(LowerSeq(n, s).body)
    decreases SizeSeq(s), 3, |s|
  {
    if s != [] {
      var e, tail := s[0], s[1..];
      if IsExitWord(n, e) {
      } else if e.If? && ExprUsesExit(n, e) {
        ExitingIfKeepsBound(n, e, tail);
      } else if e.Case? && ExprUsesExit(n, e) {
        ExitingCaseKeepsBound(n, e, tail);
      } else {
        PlainUnchanged(n, e);
        LowerKeepsBound(n, tail);
        assert ([e] + LowerSeq(n, tail).body)[1..] == LowerSeq(n, tail).body;
      }
    }
  }

  lemma SawSingle(e: Expr)
    ensures SawSeq([e]) <==> SawExpr(e)
  {
    assert [e][1..] == [];
  }

  lemma {:induction false} ExitingIfKeepsBound(n: Names, e: Expr, tail: seq<Expr>)
    requires e.If? && !SawExpr(e) && !SawSeq(tail)
    ensures !SawSeq(LowerExitingIf(n, e, tail).body)
    decreases SizeExpr(e) + SizeSeq(tail), 2
  {
    SizeConcat(e.thenBody, tail);
    SizeConcat(ElseSeq(e.elseBody), tail);
    ElseSeqSize(e.elseBody);
    SawElseSeq(e.elseBody);
    SawConcat(e.thenBody, tail);
    SawConcat(ElseSeq(e.elseBody), tail);
    LowerKeepsBound(n, e.thenBody + tail);
    LowerKeepsBound(n, ElseSeq(e.elseBody) + tail);
    SawSingle(LowerExitingIf(n, e, tail).body[0]);
  }

  lemma {:induction false} ExitingCaseKeepsBound(n: Names, e: Expr, tail: seq<Expr>)
    requires e.Case? && !SawExpr(e) && !SawSeq(tail)
    ensures !SawSeq(LowerExitingCase(n, e, tail).body)
    decreases SizeExpr(e) + SizeSeq(tail), 2
  {
    SizeConcat(ElseSeq(e.default), tail);
    ElseSeqSize(e.default);
    SawElseSeq(e.default);
    SawConcat(ElseSeq(e.default), tail);
    LowerKeepsBound(n, ElseSeq(e.default) + tail);
    ArmsKeepBound(n, e.arms, tail);
    SawSingle(LowerExitingCase(n, e, tail).body[0]);
  }

  lemma {:induction false} ArmsKeepBound(n: Names, arms: seq<Arm>, tail: seq<Expr>)
    requires !SawArms(arms) && !SawSeq(tail)
    ensures !SawArms(LowerArms(n, arms, tail).arms)
    decreases SizeArms(arms) + SizeSeq(tail), 2
  {
    if arms != [] {
      SizeConcat(arms[0].body, tail);
      SawConcat(arms[0].body, tail);
      LowerKeepsBound(n, arms[0].body + tail);
      ArmsKeepBound(n, arms[1..], tail);
      var b := LowerArms(n, arms, tail).arms;
      assert b[1..] == LowerArms(n, arms[1..], tail).arms;
    }
  }

  // ----- whole programs -----

  /** Lowering changes nothing but bodies, brings each into the normal form, and has no more to do
      afterwards. */
  lemma LowerProgramSettles(defs: map<string, Definition>, words: set<string>)
    ensures var lowered := LowerExitMeaning.LowerDefs(defs, words);
            && lowered.Keys == defs.Keys
            && (forall lc :: lc in defs ==>
                  && lowered[lc] == defs[lc].(body := lowered[lc].body)
                  && Settled(Names(defs[lc].scope, words), lowered[lc].body))
            && LowerExitMeaning.LowerDefs(lowered, words) == lowered
  {
    var lowered := LowerExitMeaning.LowerDefs(defs, words);
    forall lc | lc in defs
      ensures Settled(Names(defs[lc].scope, words), lowered[lc].body)
      ensures LowerBody(Names(defs[lc].scope, words), lowered[lc].body) == lowered[lc].body
    {
      LowerSettles(Names(defs[lc].scope, words), defs[lc].body);
      LowerTwice(Names(defs[lc].scope, words), defs[lc].body);
    }
    assert LowerExitMeaning.LowerDefs(lowered, words) == lowered;
  }

  /** All passes together change nothing but bodies, and leave every body in the normal form, without RECURSE
      unless the definition has that name, and, where no EXIT had to be removed, without ?DUP before an IF
      unless it has that name. */
  lemma CompiledComplete(defs: map<string, Definition>, words: set<string>)
    ensures var compiled := Pipeline.CompileDefs(defs, words);
            && compiled.Keys == defs.Keys
            && forall lc :: lc in defs ==> Completed(lc, words, defs[lc], compiled[lc])
  {
    var compiled := Pipeline.CompileDefs(defs, words);
    forall lc | lc in defs
      ensures Completed(lc, words, defs[lc], compiled[lc])
    {
      BodyCompleted(lc, words, defs[lc]);
    }
  }

  predicate Completed(lc: string, words: set<string>, d: Definition, d1: Definition) {
    && d1 == d.(body := d1.body)
    && Settled(Names(d.scope, words), d1.body)
    && (Lower(lc) != "recurse" ==> !SawSeq(d1.body))
    && (Lower(lc) != "?dup" && !SeqUsesExit(Names(d.scope, words), Pipeline.Desugar(d.body, lc)) ==>
          LowerQdup.NoPair(d1.body))
  }

  lemma BodyCompleted(lc: string, words: set<string>, d: Definition)
    ensures Completed(lc, words, d, d.(body := Pipeline.CompileBody(d, lc, words)))
  {
    var n, s := Names(d.scope, words), Pipeline.Desugar(d.body, lc);
    Pipeline.DesugarComplete(d.body, lc);
    LowerSettles(n, s);
    if Lower(lc) != "recurse" {
      LowerKeepsBound(n, s);
    }
    if !SeqUsesExit(n, s) {
      PureUnchanged(n, s);
    }
  }

  // ----- a pair that lowering makes -----

  lemma SingleNoPair(s: seq<Expr>)
    requires |s| == 1
    ensures LowerQdup.NoPair(s) <==> LowerQdup.NoPairIn(s[0])
  {
    assert s[1..] == [];
  }

  /** In IF ?DUP ELSE EXIT THEN IF THEN no ?DUP stands before an IF; inlining the tail behind it makes a pair. */
  lemma PairFromTail(n: Names, first: seq<Expr>, second: seq<Expr>, tail: seq<Expr>)
    requires |first| == 1 && first[0].WordRef? && Lower(first[0].name) == "?dup" && Resolve(n, first[0].name) == Builtin
    requires |second| == 1 && IsExitWord(n, second[0]) && |tail| == 1 && tail[0] == If([], NoElse)
    ensures LowerQdup.NoPair([If(first, ElseBody(second))] + tail)
    ensures !LowerQdup.NoPair(LowerBody(n, [If(first, ElseBody(second))] + tail))
  {
    var e := If(first, ElseBody(second));
    var s := [e] + tail;
    assert s[0] == e && s[1..] == tail;
    SingleNoPair(first);
    SingleNoPair(second);
    SingleNoPair(tail);
    TailUnused(n, first, tail);
    assert SeqUsesExit(n, second);
    var b := LowerBody(n, s);
    assert ExprUsesExit(n, e) && !IsExitWord(n, e);
    assert LowerSeq(n, s) == LowerExitingIf(n, e, tail);
    assert b == [If(first + tail, ElseBody(LowerSeq(n, second + tail).body))];
    assert b[0].thenBody[0] == first[0] && b[0].thenBody[1] == tail[0];
    assert LowerQdup.IsPair(b[0].thenBody);
    SingleNoPair(b);
  }

  lemma TailUnused(n: Names, first: seq<Expr>, tail: seq<Expr>)
    requires |first| == 1 && first[0].WordRef? && Resolve(n, first[0].name) == Builtin
    requires |tail| == 1 && tail[0] == If([], NoElse)
    ensures LowerSeq(n, first + tail).body == first + tail
  {
    assert (first + tail)[1..] == tail && tail[1..] == [];
    assert !SeqUsesExit(n, tail);
    PureUnchanged(n, first + tail);
  }
}
