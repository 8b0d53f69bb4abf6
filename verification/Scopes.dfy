/** Locals that end with the quotation they are bound in: when that is as good as one frame of locals for
    each word. */
module Scopes {
  import opened Common
  import opened Forth
  import opened Factor

  /** The same program with one frame of locals for each word. */
  function Frames(f: FMachine): FMachine {
    f.(lexical := false)
  }

  // ----- what is visible where -----

  /** The locals that a quotation binds, at any depth. */
  function BindsQ(q: seq<Token>): set<string>
    decreases q
  {
    if q == [] then {} else BindsTok(q[0]) + BindsQ(q[1..])
  }

  function BindsTok(t: Token): set<string>
    decreases t
  {
    match t
    case Bind(x) => {x}
    case IfTok(a, b) => BindsQ(a) + BindsQ(b)
    case UnlessTok(q) => BindsQ(q)
    case LoopTok(q) => BindsQ(q)
    case DoTok(_, q) => BindsQ(q)
    case WithReturn(q) => BindsQ(q)
    case _ => {}
  }

  /** The locals that can be read behind a token: what a quotation binds is gone or uncertain behind it. */
  function AfterTok(bound: set<string>, t: Token): set<string> {
    if t.Bind? then bound + {t.name} else bound - BindsTok(t)
  }

  function AfterQ(bound: set<string>, q: seq<Token>): set<string>
    decreases q
  {
    if q == [] then bound else AfterQ(AfterTok(bound, q[0]), q[1..])
  }

  /** Every local is read where it is bound, and was not bound again in a quotation that has ended; a word is
      written under the name of a local only where that local is bound, too. */
  predicate LexicalQ(scope: set<string>, bound: set<string>, q: seq<Token>)
    decreases q
  {
    q != [] ==> LexicalTok(scope, bound, q[0]) && LexicalQ(scope, AfterTok(bound, q[0]), q[1..])
  }

  predicate LexicalTok(scope: set<string>, bound: set<string>, t: Token)
    decreases t
  {
    && (Spelling(t).Some? ==> Spelling(t).value in bound || Spelling(t).value !in scope)
    && match t
       case LocalTok(x) => x in bound
       case IfTok(a, b) => LexicalQ(scope, bound, a) && LexicalQ(scope, bound, b)
       case UnlessTok(q) => LexicalQ(scope, bound, q)
       case LoopTok(q) => LexicalQ(scope, bound - BindsQ(q), q)
       case DoTok(_, q) => LexicalQ(scope, bound - BindsQ(q), q)
       case WithReturn(q) => LexicalQ(scope, bound, q)
       case _ => true
  }

  predicate LexicalProgram(f: FMachine) {
    forall w :: w in f.words && f.words[w].Colon? ==> LexicalQ(f.words[w].scope, {}, f.words[w].body)
  }

  lemma {:induction false} AfterConcat(bound: set<string>, a: seq<Token>, b: seq<Token>)
    ensures AfterQ(bound, a + b) == AfterQ(AfterQ(bound, a), b)
    decreases a
  {
    if a == [] {
      assert a + b == b;
    } else {
      assert (a + b)[0] == a[0] && (a + b)[1..] == a[1..] + b;
      AfterConcat(AfterTok(bound, a[0]), a[1..], b);
    }
  }

  lemma {:induction false} LexicalConcat(scope: set<string>, bound: set<string>, a: seq<Token>, b: seq<Token>)
    ensures LexicalQ(scope, bound, a + b) <==> LexicalQ(scope, bound, a) && LexicalQ(scope, AfterQ(bound, a), b)
    decreases a
  {
    if a == [] {
      assert a + b == b;
    } else {
      assert (a + b)[0] == a[0] && (a + b)[1..] == a[1..] + b;
      LexicalConcat(scope, AfterTok(bound, a[0]), a[1..], b);
    }
  }

  predicate LeafTok(t: Token) {
    !t.IfTok? && !t.UnlessTok? && !t.LoopTok? && !t.DoTok? && !t.WithReturn? && !t.Bind? && !t.LocalTok?
  }

  /** Words alone, where all locals are bound. */
  lemma {:induction false} LeavesLexical(scope: set<string>, q: seq<Token>)
    requires forall t <- q :: LeafTok(t)
    ensures LexicalQ(scope, scope, q) && BindsQ(q) == {} && AfterQ(scope, q) == scope
    decreases q
  {
    if q != [] {
      assert q[0] in q;
      assert AfterTok(scope, q[0]) == scope;
      LeavesLexical(scope, q[1..]);
    }
  }

  lemma LexicalOne(scope: set<string>, bound: set<string>, t: Token)
    ensures LexicalQ(scope, bound, [t]) <==> LexicalTok(scope, bound, t)
    ensures BindsQ([t]) == BindsTok(t) && AfterQ(bound, [t]) == AfterTok(bound, t)
  {
    assert [t][1..] == [];
  }

  lemma {:induction false} BindsConcat(a: seq<Token>, b: seq<Token>)
    ensures BindsQ(a + b) == BindsQ(a) + BindsQ(b)
    decreases a
  {
    if a == [] {
      assert a + b == b;
    } else {
      assert (a + b)[0] == a[0] && (a + b)[1..] == a[1..] + b;
      BindsConcat(a[1..], b);
    }
  }

  // ----- corresponding runs -----

  /** The same stack and world, and the same values of the locals that can be read. */
  predicate Visible(bound: set<string>, fs: FState, fs': FState) {
    && fs'.stack == fs.stack && fs'.world == fs.world
    && forall x <- bound :: x in fs.locals && x in fs'.locals && fs'.locals[x] == fs.locals[x]
  }

  /** Only the given locals have changed. */
  ghost predicate Kept(binds: set<string>, fs: FState, fs1: FState) {
    forall x :: x !in binds ==>
      (x in fs.locals <==> x in fs1.locals) && (x in fs.locals ==> fs1.locals[x] == fs.locals[x])
  }

  /** Outcomes of a run with frames, from fs, and of one with scopes. */
  ghost predicate Alike(binds: set<string>, after: set<string>, fs: FState, o: FOutcome, o': FOutcome) {
    match o
    case FNext(a) => o'.FNext? && Visible(after, a, o'.state) && Kept(binds, fs, a)
    case FReturn(a) => o'.FReturn? && Visible({}, a, o'.state) && Kept(binds, fs, a)
    case _ => o' == o
  }

  ghost predicate TurnAlike(binds: set<string>, after: set<string>, fs: FState, t: FTurn, t': FTurn) {
    match t
    case FLeave(o) => t'.FLeave? && Alike(binds, after, fs, o, t'.outcome)
    case FRepeat(a) => t'.FRepeat? && Visible(after, a, t'.state) && Kept(binds, fs, a)
  }

  lemma SameCapture(scope: set<string>, bound: set<string>, t: Token, fs: FState, fs': FState)
    requires LexicalTok(scope, bound, t) && Visible(bound, fs, fs')
    ensures Captured(scope, t, fs) == Captured(scope, t, fs')
    ensures Captured(scope, t, fs) ==> Spelling(t).value in bound
  {}

  lemma KeptMore(binds: set<string>, more: set<string>, fs: FState, fs1: FState, fs2: FState)
    requires Kept(binds, fs, fs1) && Kept(more, fs1, fs2)
    ensures Kept(binds + more, fs, fs2)
  {}

  /** Behind a quotation the locals that it does not bind are as they were before it. */
  lemma CloseAlike(f: FMachine, binds: set<string>, after: set<string>, bound: set<string>, fs: FState, fs': FState,
                   o: FOutcome, o': FOutcome)
    requires f.lexical && Alike(binds, after, fs, o, o') && Visible(bound, fs.(stack := fs'.stack), fs')
    requires fs.world == fs'.world
    ensures Alike(binds, bound - binds, fs, o, Close(f, fs', o'))
  {}

  lemma TurnsAlike(t: Token, binds: set<string>, after: set<string>, fs: FState, o: FOutcome, o': FOutcome)
    requires (t.LoopTok? || t.DoTok?) && Alike(binds, after, fs, o, o')
    ensures TurnAlike(binds, after, fs, TurnQ(t, o), TurnQ(t, o'))
  {}

  /** Where every local is read where it is bound, runs with scopes and with frames correspond. */
  lemma {:induction false} ScopesRun(f: FMachine, scope: set<string>, bound: set<string>, q: seq<Token>, fs: FState,
                                     fs': FState, fuel: nat)
    requires f.lexical && LexicalProgram(f) && LexicalQ(scope, bound, q) && Visible(bound, fs, fs')
    ensures Alike(BindsQ(q), AfterQ(bound, q), fs, RunQ(Frames(f), scope, q, fs, fuel), RunQ(f, scope, q, fs', fuel))
    decreases fuel, SizeQ(q), 3, |q|
  {
    if q != [] {
      ScopesTok(f, scope, bound, q[0], fs, fs', fuel);
      var o, o' := RunTok(Frames(f), scope, q[0], fs, fuel), RunTok(f, scope, q[0], fs', fuel);
      if o.FNext? {
        ScopesRun(f, scope, AfterTok(bound, q[0]), q[1..], o.state, o'.state, fuel);
        ScopesThen(BindsTok(q[0]), BindsQ(q[1..]), AfterQ(bound, q), fs, o.state,
                   RunQ(Frames(f), scope, q[1..], o.state, fuel), RunQ(f, scope, q[1..], o'.state, fuel));
      }
    }
  }

  lemma ScopesThen(binds: set<string>, more: set<string>, after: set<string>, fs: FState, fs1: FState, o: FOutcome,
                   o': FOutcome)
    requires Kept(binds, fs, fs1) && Alike(more, after, fs1, o, o')
    ensures Alike(binds + more, after, fs, o, o')
  {
    if o.FNext? || o.FReturn? {
      KeptMore(binds, more, fs, fs1, o.state);
    }
  }

  lemma {:induction false} ScopesTok(f: FMachine, scope: set<string>, bound: set<string>, t: Token, fs: FState,
                                     fs': FState, fuel: nat)
    requires f.lexical && LexicalProgram(f) && LexicalTok(scope, bound, t) && Visible(bound, fs, fs')
    ensures Alike(BindsTok(t), AfterTok(bound, t), fs, RunTok(Frames(f), scope, t, fs, fuel),
                  RunTok(f, scope, t, fs', fuel))
    decreases fuel, SizeTok(t), 2
  {
    SameCapture(scope, bound, t, fs, fs');
    if Captured(scope, t, fs) {
      LocalAlike(Spelling(t).value, bound, fs, fs');
    } else if t.IfTok? || t.UnlessTok? {
      if |fs.stack| > 0 {
        ScopesIf(f, scope, bound, t, fs, fs', fuel);
      }
    } else if t.LoopTok? {
      ScopesLoop(f, scope, bound - BindsQ(t.quot), t, fs, fs', fuel);
    } else if t.DoTok? {
      ScopesDo(f, scope, bound, t, fs, fs', fuel);
    } else if t.WithReturn? {
      ScopesCatch(f, scope, bound, t.quot, fs, fs', fuel);
    } else if t.UserTok? {
      ScopesUser(f, t.name, bound, fs, fs', fuel);
    } else {
      ScopesLeaf(f, scope, bound, t, fs, fs', fuel);
    }
  }

  lemma LocalAlike(name: string, bound: set<string>, fs: FState, fs': FState)
    requires name in bound && Visible(bound, fs, fs')
    ensures Alike({}, bound, fs, RunLocal(name, fs), RunLocal(name, fs'))
  {}

  lemma BareAlike(name: string, bound: set<string>, fs: FState, fs': FState)
    requires Visible(bound, fs, fs')
    ensures Alike({}, bound, fs, RunBare(name, fs), RunBare(name, fs'))
    ensures Alike({}, bound, fs, RunZero(fs), RunZero(fs'))
  {}

  lemma PrimAlike(f: FMachine, name: string, bound: set<string>, fs: FState, fs': FState)
    requires Visible(bound, fs, fs')
    ensures Alike({}, bound, fs, RunPrimQ(Frames(f), name, fs), RunPrimQ(f, name, fs'))
  {}

  /** A word that is not captured and holds no quotation. */
  lemma ScopesLeaf(f: FMachine, scope: set<string>, bound: set<string>, t: Token, fs: FState, fs': FState, fuel: nat)
    requires LexicalTok(scope, bound, t) && Visible(bound, fs, fs')
    requires !Captured(scope, t, fs) && !Captured(scope, t, fs')
    requires !t.IfTok? && !t.UnlessTok? && !t.LoopTok? && !t.DoTok? && !t.WithReturn? && !t.UserTok?
    ensures Alike(BindsTok(t), AfterTok(bound, t), fs, RunTok(Frames(f), scope, t, fs, fuel),
                  RunTok(f, scope, t, fs', fuel))
  {
    if t.LocalTok? {
      LocalAlike(t.name, bound, fs, fs');
    } else if t.PrimTok? {
      PrimAlike(f, t.name, bound, fs, fs');
    } else if t.Bare? && t.name == "+" {
      PrimAlike(f, t.name, bound, fs, fs');
    } else if t.Bare? || t.KernelDrop? || t.ZeroP? {
      BareAlike(if t.Bare? then t.name else "drop", bound, fs, fs');
    }
  }

  lemma {:induction false} ScopesIf(f: FMachine, scope: set<string>, bound: set<string>, t: Token, fs: FState,
                                    fs': FState, fuel: nat)
    requires (t.IfTok? || t.UnlessTok?) && |fs.stack| > 0 && !Captured(scope, t, fs)
    requires f.lexical && LexicalProgram(f) && LexicalTok(scope, bound, t) && Visible(bound, fs, fs')
    ensures Alike(BindsTok(t), AfterTok(bound, t), fs, RunTok(Frames(f), scope, t, fs, fuel),
                  RunTok(f, scope, t, fs', fuel))
    decreases fuel, SizeTok(t), 1
  {
    if t.IfTok? || TopV(fs.stack) == F {
      var q := if t.UnlessTok? then t.quot else if TopV(fs.stack) != F then t.onTrue else t.onFalse;
      ScopesRun(f, scope, bound, q, PopV(fs), PopV(fs'), fuel);
      var o, o' := RunQ(Frames(f), scope, q, PopV(fs), fuel), RunQ(f, scope, q, PopV(fs'), fuel);
      CloseAlike(f, BindsQ(q), AfterQ(bound, q), bound, PopV(fs), PopV(fs'), o, o');
      assert Close(f, fs', o') == Close(f, PopV(fs'), o');
      Loosen(BindsQ(q), BindsTok(t), bound, fs, o, Close(f, fs', o'));
    }
  }

  lemma Loosen(binds: set<string>, more: set<string>, bound: set<string>, fs: FState, o: FOutcome, o': FOutcome)
    requires binds <= more && |fs.stack| > 0 && Alike(binds, bound - binds, PopV(fs), o, o')
    ensures Alike(more, bound - more, fs, o, o')
  {}

  lemma {:induction false} ScopesCatch(f: FMachine, scope: set<string>, bound: set<string>, q: seq<Token>, fs: FState,
                                       fs': FState, fuel: nat)
    requires f.lexical && LexicalProgram(f) && LexicalQ(scope, bound, q) && Visible(bound, fs, fs')
    ensures Alike(BindsQ(q), bound - BindsQ(q), fs, Caught(fs, RunQ(Frames(f), scope, q, fs, fuel)),
                  Caught(fs', Close(f, fs', RunQ(f, scope, q, fs', fuel))))
    decreases fuel, SizeQ(q), 4
  {
    ScopesRun(f, scope, bound, q, fs, fs', fuel);
    var o, o' := RunQ(Frames(f), scope, q, fs, fuel), RunQ(f, scope, q, fs', fuel);
    CloseAlike(f, BindsQ(q), AfterQ(bound, q), bound, fs, fs', o, o');
    if o.FReturn? {
      ReturnCaught(f, BindsQ(q), bound, fs, fs', o.state, o'.state);
    }
  }

  lemma ReturnCaught(f: FMachine, binds: set<string>, bound: set<string>, fs: FState, fs': FState, a: FState, b: FState)
    requires f.lexical && Visible(bound, fs, fs') && Visible({}, a, b) && Kept(binds, fs, a)
    ensures Alike(binds, bound - binds, fs, Caught(fs, FReturn(a)), Caught(fs', Close(f, fs', FReturn(b))))
  {}

  lemma {:induction false} ScopesDo(f: FMachine, scope: set<string>, bound: set<string>, t: Token, fs: FState,
                                    fs': FState, fuel: nat)
    requires t.DoTok? && !Captured(scope, t, fs)
    requires f.lexical && LexicalProgram(f) && LexicalTok(scope, bound, t) && Visible(bound, fs, fs')
    ensures Alike(BindsTok(t), AfterTok(bound, t), fs, RunTok(Frames(f), scope, t, fs, fuel),
                  RunTok(f, scope, t, fs', fuel))
    decreases fuel, SizeTok(t), 1
  {
    if |fs.stack| >= 2 && IsNumber(TopV(fs.stack)) && IsNumber(TopV(DropV(fs.stack))) {
      var start, limit := TopV(fs.stack).cell.n, TopV(DropV(fs.stack)).cell.n;
      var fs1, fs1' := PopV(PopV(fs)), PopV(PopV(fs'));
      if !(t.isQdo && limit == start) {
        var fs2, fs2' := EnterLoop(fs1, limit, start), EnterLoop(fs1', limit, start);
        ScopesLoop(f, scope, bound - BindsQ(t.quot), t, fs2, fs2', fuel);
      }
    }
  }

  lemma {:induction false} ScopesLoop(f: FMachine, scope: set<string>, bound: set<string>, t: Token, fs: FState,
                                      fs': FState, fuel: nat)
    requires (t.LoopTok? || t.DoTok?) && bound !! BindsQ(t.quot)
    requires f.lexical && LexicalProgram(f) && LexicalQ(scope, bound, t.quot) && Visible(bound, fs, fs')
    ensures Alike(BindsQ(t.quot), bound, fs, RunLoopQ(Frames(f), scope, t, fs, fuel), RunLoopQ(f, scope, t, fs', fuel))
    decreases fuel, SizeTok(t), 0
  {
    if fuel > 0 {
      ScopesRun(f, scope, bound, t.quot, fs, fs', fuel);
      var o, o' := RunQ(Frames(f), scope, t.quot, fs, fuel), RunQ(f, scope, t.quot, fs', fuel);
      CloseAlike(f, BindsQ(t.quot), AfterQ(bound, t.quot), bound, fs, fs', o, o');
      assert bound - BindsQ(t.quot) == bound;
      TurnsAlike(t, BindsQ(t.quot), bound, fs, o, Close(f, fs', o'));
      var turn, turn' := TurnQ(t, o), TurnQ(t, Close(f, fs', o'));
      if turn.FRepeat? {
        ScopesLoop(f, scope, bound, t, turn.state, turn'.state, fuel - 1);
        ScopesThen(BindsQ(t.quot), BindsQ(t.quot), bound, fs, turn.state,
                   RunLoopQ(Frames(f), scope, t, turn.state, fuel - 1), RunLoopQ(f, scope, t, turn'.state, fuel - 1));
        assert BindsQ(t.quot) + BindsQ(t.quot) == BindsQ(t.quot);
      }
    }
  }

  lemma {:induction false} ScopesUser(f: FMachine, name: string, bound: set<string>, fs: FState, fs': FState, fuel: nat)
    requires f.lexical && LexicalProgram(f) && Visible(bound, fs, fs')
    ensures Alike({}, bound, fs, RunUser(Frames(f), name, fs, fuel), RunUser(f, name, fs', fuel))
    decreases fuel, 0
  {
    if name in f.words && f.words[name].Colon? && fuel > 0 {
      ScopesCall(f, name, bound, fs, fs', fuel - 1);
    }
  }

  lemma {:induction false} ScopesCall(f: FMachine, name: string, bound: set<string>, fs: FState, fs': FState, fuel: nat)
    requires f.lexical && LexicalProgram(f) && Visible(bound, fs, fs') && name in f.words && f.words[name].Colon?
    ensures Alike({}, bound, fs, CallQ(Frames(f), name, fs, fuel), CallQ(f, name, fs', fuel))
    decreases fuel
  {
    var w, fs0 := f.words[name], fs.(locals := map[]);
    assert fs'.(locals := map[]) == fs0;
    ScopesRun(f, w.scope, {}, w.body, fs0, fs0, fuel);
  }

  // ----- in short -----

  /** What is left of an outcome when the locals are forgotten. */
  function Shown(o: FOutcome): FOutcome {
    match o
    case FNext(fs) => FNext(fs.(locals := map[]))
    case FReturn(fs) => FReturn(fs.(locals := map[]))
    case other => other
  }

  /** Where every local is read where it is bound, the scopes of quotations make no difference to the stack
      and the world, nor to calls at all. */
  lemma ScopesAgree(f: FMachine, scope: set<string>, bound: set<string>, q: seq<Token>, fs: FState, fuel: nat)
    requires f.lexical && LexicalProgram(f) && LexicalQ(scope, bound, q) && bound <= fs.locals.Keys
    ensures Shown(RunQ(f, scope, q, fs, fuel)) == Shown(RunQ(Frames(f), scope, q, fs, fuel))
  {
    ScopesRun(f, scope, bound, q, fs, fs, fuel);
  }

  lemma ScopesCallAgrees(f: FMachine, name: string, fs: FState, fuel: nat)
    requires f.lexical && LexicalProgram(f) && name in f.words && f.words[name].Colon?
    ensures CallQ(f, name, fs, fuel) == CallQ(Frames(f), name, fs, fuel)
  {
    var w, fs0 := f.words[name], fs.(locals := map[]);
    ScopesRun(f, w.scope, {}, w.body, fs0, fs0, fuel);
  }
}
