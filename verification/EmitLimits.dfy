/** Exactly when what is emitted for a body, behind the preamble of its inputs, is right. */
module EmitLimits {
  import opened Common
  import opened Forth
  import opened Equivalence
  import opened Effects
  import opened Factor
  import opened Scopes
  import opened Emit
  import opened Lifting
  import opened Preamble
  import opened Runtimes
  import opened EmitSim
  import opened EmitLegible
  import opened EmitHidden

  /** The top items, bound to the inputs. */
  function InputLocals(names: seq<string>, st: State): map<string, Cell>
    requires |st.stack| >= |names|
  {
    Bound(names, st.stack[|st.stack| - |names|..], map[])
  }

  /** A body behind the preamble of its inputs does what the body does on the Factor runtime.  If an input has
      the name of a local, nothing is asked where the body reads a local that is not bound. */
  ghost predicate StartsRight(m: Machine, c: Context, names: seq<string>, s: seq<Expr>, st: State, fuel: nat)
    requires |st.stack| >= |names|
  {
    var scope := c.locals + Among(names);
    var o := RunSeq(m, c, s, st, fuel);
    (o == Fault && !(c.locals !! Among(names))) ||
    Shown(RunQ(EmitProgram(m), scope, Restore(names) + EmitSeq(m.NamesOf(c), s), Lift(st), fuel))
    == Shown(LiftOutcome(o))
  }

  /** A body that can be emitted, in a program with these words that can be emitted. */
  ghost predicate Bodies(m: Machine, env: Env, c: Context, defs: set<string>, vars: map<string, Storage>, s: seq<Expr>)
  {
    && m.defs.Keys == defs && m.vars == vars && Loadable(m, env)
    && NamedSeq(m, c, s) && MatchedSeq(env, m.NamesOf(c), s, DupCopies(m))
  }

  /** A body behind its preamble reads every local where it is bound. */
  predicate ReadsBound(n: Names, names: seq<string>, s: seq<Expr>, st: State) {
    LexicalQ(n.locals + Among(names), st.locals.Keys, Restore(names) + EmitSeq(n, s))
  }

  /** A state to start a body from: deep enough for its inputs, which are not bound yet. */
  predicate Ready(names: seq<string>, st: State) {
    |st.stack| >= |names| && st.locals.Keys !! Among(names)
  }

  /** Emission of every body in the context that reads its locals where they are bound, behind the preamble of
      the inputs, is right, in every program with these words that can be emitted itself. */
  ghost predicate AlwaysEmitsRight(c: Context, names: seq<string>, defs: set<string>, vars: map<string, Storage>) {
    forall m: Machine, env, s, st, fuel |
      Bodies(m, env, c, defs, vars, s) && Ready(names, st) && ReadsBound(m.NamesOf(c), names, s, st) ::
      StartsRight(m, c, names, s, st, fuel)
  }

  // ----- exactly when -----

  /** Emission is right for every program and every body in a context, behind the preamble of its inputs, if
      and only if the inputs have different names, none of them and no local has the name of a word that can
      be emitted, and no local is written with a dot. */
  lemma EmissionExactly(c: Context, names: seq<string>, defs: set<string>, vars: map<string, Storage>)
    requires Proper(c, defs, vars)
    ensures AlwaysEmitsRight(c, names, defs, vars) <==>
            Distinct(names) && Legible(c.locals + Among(names), c, defs, vars)
  {
    if !Distinct(names) {
      TwiceWrong(c, names, defs, vars);
    } else if !Legible(c.locals + Among(names), c, defs, vars) {
      IllegibleWrong(c.locals + Among(names), c, names, defs, vars);
    } else {
      forall m: Machine, env, s, st, fuel |
        Bodies(m, env, c, defs, vars, s) && Ready(names, st) && ReadsBound(m.NamesOf(c), names, s, st)
        ensures StartsRight(m, c, names, s, st, fuel)
      {
        LegibleRight(m, env, c, names, s, st, fuel);
      }
    }
  }

  /** Locals that are bound already are not touched by binding the inputs. */
  lemma {:induction false} BoundOver(names: seq<string>, items: seq<Cell>, locals: map<string, Cell>,
                                     others: map<string, Cell>)
    requires |items| == |names| && others.Keys !! Among(names)
    ensures Bound(names, items, locals + others) == Bound(names, items, locals) + others
    decreases |names|
  {
    if names != [] {
      var k := |names| - 1;
      assert names[k] in names;
      assert (locals + others)[names[k] := items[k]] == locals[names[k] := items[k]] + others;
      BoundOver(names[..k], items[..k], locals[names[k] := items[k]], others);
    }
  }

  lemma BoundShift(names: seq<string>, st: State)
    requires Ready(names, st)
    ensures BindInputs(names, st) == Next(Shift(InputLocals(names, st), st))
  {
    BoundOver(names, st.stack[|st.stack| - |names|..], map[], st.locals);
    assert map[] + st.locals == st.locals;
  }

  /** Behind a preamble that restores its inputs, the body runs with them as further locals. */
  lemma PreambleThen(f: FMachine, scope: set<string>, names: seq<string>, q: seq<Token>, st: State, fuel: nat)
    requires Distinct(names) && Ready(names, st)
    ensures RunQ(f, scope, Restore(names) + q, Lift(st), fuel)
         == RunQ(f, scope, q, Lift(Shift(InputLocals(names, st), st)), fuel)
  {
    DistinctRestores(f, scope, names, st, fuel);
    BoundShift(names, st);
    RunQConcat(f, scope, Restore(names), q, Lift(st), fuel);
  }

  /** Whether inputs and locals must be told apart. */
  function Overlap(c: Context, names: seq<string>): Slack {
    Slack(false, !(c.locals !! Among(names)))
  }

  /** The run with the inputs as further locals, and the run without. */
  lemma WithInputs(m: Machine, c: Context, names: seq<string>, s: seq<Expr>, st: State, fuel: nat)
    requires Ready(names, st)
    ensures Agrees(Overlap(c, names), InputLocals(names, st), RunSeq(m, c, s, st, fuel),
                   RunSeq(m, c, s, Shift(InputLocals(names, st), st), fuel))
  {
    BoundKeys(names, st.stack[|st.stack| - |names|..], map[]);
    KinCallsAgree(Overlap(c, names), m, m, unknown, fuel);
    SeqAgree(Overlap(c, names), m, m, c, InputLocals(names, st), s, st, fuel);
  }

  lemma LegibleRight(m: Machine, env: Env, c: Context, names: seq<string>, s: seq<Expr>, st: State, fuel: nat)
    requires Bodies(m, env, c, m.defs.Keys, m.vars, s) && Ready(names, st) && ReadsBound(m.NamesOf(c), names, s, st)
    requires Distinct(names) && Legible(c.locals + Among(names), c, m.defs.Keys, m.vars)
    ensures StartsRight(m, c, names, s, st, fuel)
  {
    var scope, f, q := c.locals + Among(names), EmitProgram(m), EmitSeq(m.NamesOf(c), s);
    LegibleClear(m, scope, c, s);
    ScopesAgree(f, scope, st.locals.Keys, Restore(names) + q, Lift(st), fuel);
    FramesEmit(m);
    PreambleThen(Frames(f), scope, names, q, st, fuel);
    SimSeq(Frames(f), m, env, scope, c, s, Shift(InputLocals(names, st), st), fuel);
    WithInputs(m, c, names, s, st, fuel);
    ShownShift(InputLocals(names, st), RunSeq(m, c, s, st, fuel));
  }

  lemma ShownShift(extra: map<string, Cell>, o: Outcome)
    ensures Shown(LiftOutcome(ShiftOutcome(extra, o))) == Shown(LiftOutcome(o))
  {}

  // ----- a preamble reads what it has bound -----

  lemma {:induction false} TakeLexical(scope: set<string>, bound: set<string>, names: seq<string>)
    ensures LexicalQ(scope, bound, TakeInputs(names)) && AfterQ(bound, TakeInputs(names)) == bound + Among(names)
    decreases |names|
  {
    if names != [] {
      var last, rest := Bind(names[|names| - 1]), names[..|names| - 1];
      assert names == rest + [names[|names| - 1]];
      LexicalOne(scope, bound, last);
      LexicalConcat(scope, bound, [last], TakeInputs(rest));
      AfterConcat(bound, [last], TakeInputs(rest));
      TakeLexical(scope, bound + {names[|names| - 1]}, rest);
    }
  }

  lemma {:induction false} PushLexical(scope: set<string>, bound: set<string>, names: seq<string>)
    requires Among(names) <= bound
    ensures LexicalQ(scope, bound, PushInputs(names)) && AfterQ(bound, PushInputs(names)) == bound
  {
    if names != [] {
      var first, rest := LocalTok(names[0]), PushInputs(names[1..]);
      assert names[0] in Among(names) && Among(names[1..]) <= Among(names);
      LexicalOne(scope, bound, first);
      assert AfterTok(bound, first) == bound;
      LexicalConcat(scope, bound, [first], rest);
      AfterConcat(bound, [first], rest);
      PushLexical(scope, bound, names[1..]);
    }
  }

  lemma RestoreLexical(scope: set<string>, bound: set<string>, names: seq<string>)
    ensures LexicalQ(scope, bound, Restore(names)) && AfterQ(bound, Restore(names)) == bound + Among(names)
  {
    TakeLexical(scope, bound, names);
    PushLexical(scope, bound + Among(names), names);
    LexicalConcat(scope, bound, TakeInputs(names), PushInputs(names));
    AfterConcat(bound, TakeInputs(names), PushInputs(names));
  }

  // ----- inputs with one name -----

  lemma TwiceWrong(c: Context, names: seq<string>, defs: set<string>, vars: map<string, Storage>)
    requires Proper(c, defs, vars) && !Distinct(names)
    ensures !AlwaysEmitsRight(c, names, defs, vars)
  {
    var m, st := Idle(defs, vars), Counted(|names|);
    IdleEmittable(m);
    TwiceStart(m, c, names);
    NotAlways(m, c, names, defs, vars, [], st, 0);
  }

  lemma TwiceStart(m: Machine, c: Context, names: seq<string>)
    requires !Distinct(names)
    ensures !StartsRight(m, c, names, [], Counted(|names|), 0)
    ensures ReadsBound(m.NamesOf(c), names, [], Counted(|names|))
  {
    var st, scope := Counted(|names|), c.locals + Among(names);
    var j, i :| 0 <= j < i < |names| && names[j] == names[i];
    TwiceFails(EmitProgram(m), scope, names, i, j, 0);
    assert EmitSeq(m.NamesOf(c), []) == [] && Restore(names) + [] == Restore(names);
    assert st.locals.Keys == {};
    RestoreLexical(scope, {}, names);
    assert RunSeq(m, c, [], st, 0) == Next(st);
    Told(RunQ(EmitProgram(m), scope, Restore(names), Lift(st), 0), Next(st));
  }

  // ----- hidden words -----

  /** What is bound to the inputs so that every local of the word is bound, and then taken off the stack. */
  function InputItems(names: seq<string>): (s: seq<Cell>)
    ensures |s| == |names|
  {
    seq(|names|, i requires 0 <= i < |names| => LocalValue(names[i]))
  }

  function Blanks(k: nat): (s: seq<string>)
    ensures |s| == k
  {
    seq(k, i => "_")
  }

  /** Takes the inputs off the stack and pushes v. */
  function Prelude(k: nat, v: int): seq<Expr> {
    [Locals(Blanks(k)), Lit(v)]
  }

  ghost function Waiting(c: Context, names: seq<string>, vars: map<string, Storage>): State {
    State(InputItems(names), map x | x in c.locals && x !in names :: LocalValue(x), HeldWorld(vars))
  }

  lemma {:induction false} BoundItems(names: seq<string>, locals: map<string, Cell>)
    requires forall x :: x in locals ==> locals[x] == LocalValue(x)
    ensures forall x :: x in Bound(names, InputItems(names), locals) ==>
                        Bound(names, InputItems(names), locals)[x] == LocalValue(x)
    decreases |names|
  {
    if names != [] {
      var k := |names| - 1;
      assert InputItems(names)[..k] == InputItems(names[..k]);
      BoundItems(names[..k], locals[names[k] := InputItems(names)[k]]);
    }
  }

  lemma WaitingShift(c: Context, names: seq<string>, vars: map<string, Storage>, v: int)
    ensures var st := Waiting(c, names, vars);
            && Ready(names, st)
            && Shift(InputLocals(names, st), st).(stack := [Number(v)])
               == Hiding(c.locals + Among(names), vars, v)
  {
    var st := Waiting(c, names, vars);
    assert st.stack[|st.stack| - |names|..] == InputItems(names);
    BoundKeys(names, InputItems(names), map[]);
    BoundItems(names, map[]);
    var scope := c.locals + Among(names);
    assert InputLocals(names, st) + st.locals == map x | x in scope :: LocalValue(x);
  }

  lemma {:induction false} BlanksBind(k: nat, st: State)
    requires |st.stack| == k
    ensures BindLocals(Blanks(k), st) == Next(st.(stack := []))
    decreases k
  {
    if k > 0 {
      assert Blanks(k)[..k - 1] == Blanks(k - 1);
      BlanksBind(k - 1, Pop(st));
    }
  }

  lemma PreludeRuns(m: Machine, c: Context, s: seq<Expr>, v: int, st: State, fuel: nat)
    ensures RunSeq(m, c, Prelude(|st.stack|, v) + s, st, fuel)
         == RunSeq(m, c, s, st.(stack := [Number(v)]), fuel)
  {
    var k := |st.stack|;
    BlanksBind(k, st);
    RunConcat(m, c, Prelude(k, v), s, st, fuel);
    RunCons(m, c, Locals(Blanks(k)), [Lit(v)], st, fuel);
    RunOne(m, c, Lit(v), st.(stack := []), fuel);
    assert Prelude(k, v) == [Locals(Blanks(k))] + [Lit(v)];
    assert [] + [Number(v)] == [Number(v)];
  }

  lemma PreludeEmitted(n: Names, s: seq<Expr>, k: nat, v: int)
    ensures EmitSeq(n, Prelude(k, v) + s) == EmitBinds(Blanks(k)) + ([Num(v)] + EmitSeq(n, s))
  {
    var s1 := [Lit(v)] + s;
    assert Prelude(k, v) + s == [Locals(Blanks(k))] + s1;
    EmitCons(n, Locals(Blanks(k)), s1);
    EmitCons(n, Lit(v), s);
  }

  lemma PreludeQuotation(f: FMachine, scope: set<string>, n: Names, s: seq<Expr>, v: int, st: State, fuel: nat)
    ensures RunQ(f, scope, EmitSeq(n, Prelude(|st.stack|, v) + s), Lift(st), fuel)
         == RunQ(f, scope, EmitSeq(n, s), Lift(st.(stack := [Number(v)])), fuel)
  {
    var k := |st.stack|;
    PreludeEmitted(n, s, k, v);
    SimBinds(f, scope, {}, Blanks(k), st, fuel);
    BlanksBind(k, st);
    RunQConcat(f, scope, EmitBinds(Blanks(k)), [Num(v)] + EmitSeq(n, s), Lift(st), fuel);
    RunQCons(f, scope, Num(v), EmitSeq(n, s), Lift(st.(stack := [])), fuel);
    LiftPush(st.(stack := []), Number(v));
    assert [] + [Number(v)] == [Number(v)];
  }

  lemma {:induction false} BlanksLexical(scope: set<string>, k: nat)
    ensures LexicalQ(scope, scope, EmitBinds(Blanks(k))) && AfterQ(scope, EmitBinds(Blanks(k))) == scope
    decreases k
  {
    if k > 0 {
      assert Blanks(k)[..k - 1] == Blanks(k - 1);
      LeavesLexical(scope, [Discard]);
      BlanksLexical(scope, k - 1);
      LexicalConcat(scope, scope, [Discard], EmitBinds(Blanks(k - 1)));
      AfterConcat(scope, [Discard], EmitBinds(Blanks(k - 1)));
    }
  }

  /** All locals are bound behind the preamble, and the prelude binds none. */
  lemma PreludeLexical(c: Context, words: set<string>, names: seq<string>, s: seq<Expr>, v: int, st: State)
    requires st.locals.Keys + Among(names) == c.locals + Among(names)
    requires LexicalQ(c.locals + Among(names), c.locals + Among(names), EmitSeq(Names(c.locals, words), s))
    ensures ReadsBound(Names(c.locals, words), names, Prelude(|names|, v) + s, st)
  {
    var scope, q := c.locals + Among(names), EmitSeq(Names(c.locals, words), s);
    PreludeEmitted(Names(c.locals, words), s, |names|, v);
    RestoreLexical(scope, st.locals.Keys, names);
    BlanksLexical(scope, |names|);
    LeavesLexical(scope, [Num(v)]);
    LexicalConcat(scope, scope, [Num(v)], q);
    LexicalConcat(scope, scope, EmitBinds(Blanks(|names|)), [Num(v)] + q);
    LexicalConcat(scope, st.locals.Keys, Restore(names), EmitBinds(Blanks(|names|)) + ([Num(v)] + q));
  }

  lemma PreludeNamed(m: Machine, c: Context, s: seq<Expr>, k: nat, v: int, copies: bool)
    requires NamedSeq(m, c, s) && MatchedSeq(unknown, m.NamesOf(c), s, copies)
    ensures NamedSeq(m, c, Prelude(k, v) + s) && MatchedSeq(unknown, m.NamesOf(c), Prelude(k, v) + s, copies)
  {
    var s1 := [Lit(v)] + s;
    assert s1[1..] == s;
    assert (Prelude(k, v) + s)[1..] == s1;
    assert Scoped(Blanks(k), c.locals);
  }

  lemma WrongIs(scope: set<string>, c: Context, names: seq<string>, defs: set<string>, vars: map<string, Storage>,
                s: seq<Expr>, v: int, fuel: nat)
    requires NoClash(defs + vars.Keys) && Distinct(names) && scope == c.locals + Among(names)
    requires Wrong(scope, c, defs, vars, s, v, fuel)
    ensures !AlwaysEmitsRight(c, names, defs, vars)
  {
    var m, st := Idle(defs, vars), Waiting(c, names, vars);
    IdleEmittable(m);
    WaitingShift(c, names, vars, v);
    assert st.(stack := [Number(v)]) == Hiding(scope, vars, v).(locals := st.locals);
    WrongStart(m, scope, c, names, s, v, st, fuel);
    PreludeAdmitted(m, scope, c, names, s, v, st);
    NotAlways(m, c, names, defs, vars, Prelude(|names|, v) + s, st, fuel);
  }

  lemma NotAlways(m: Machine, c: Context, names: seq<string>, defs: set<string>, vars: map<string, Storage>,
                  s: seq<Expr>, st: State, fuel: nat)
    requires Bodies(m, unknown, c, defs, vars, s) && Ready(names, st) && ReadsBound(m.NamesOf(c), names, s, st)
    requires !StartsRight(m, c, names, s, st, fuel)
    ensures !AlwaysEmitsRight(c, names, defs, vars)
  {}

  lemma PreludeAdmitted(m: Machine, scope: set<string>, c: Context, names: seq<string>, s: seq<Expr>, v: int, st: State)
    requires Admitted(m, scope, c, s) && scope == c.locals + Among(names) == st.locals.Keys + Among(names)
    ensures var s1 := Prelude(|names|, v) + s;
            && NamedSeq(m, c, s1) && MatchedSeq(unknown, m.NamesOf(c), s1, DupCopies(m))
            && ReadsBound(m.NamesOf(c), names, s1, st)
  {
    PreludeNamed(m, c, s, |names|, v, DupCopies(m));
    PreludeLexical(c, m.Words(), names, s, v, st);
  }

  /** What is wrong where all locals are bound is wrong behind the preamble. */
  lemma WrongStart(m: Machine, scope: set<string>, c: Context, names: seq<string>, s: seq<Expr>, v: int, st: State,
                   fuel: nat)
    requires Distinct(names) && Ready(names, st) && |st.stack| == |names| && scope == c.locals + Among(names)
    requires !EmitsRight(m, scope, c, s, Shift(InputLocals(names, st), st).(stack := [Number(v)]), fuel)
    requires RunSeq(m, c, s, st.(stack := [Number(v)]), fuel) != Fault
    ensures !StartsRight(m, c, names, Prelude(|names|, v) + s, st, fuel)
  {
    var s1, inner := Prelude(|names|, v) + s, Shift(InputLocals(names, st), st);
    PreambleThen(EmitProgram(m), scope, names, EmitSeq(m.NamesOf(c), s1), st, fuel);
    PreludeQuotation(EmitProgram(m), scope, m.NamesOf(c), s, v, inner, fuel);
    PreludeRuns(m, c, s, v, st, fuel);
    PreludeRuns(m, c, s, v, inner, fuel);
    WithInputs(m, c, names, s1, st, fuel);
    ShownShift(InputLocals(names, st), RunSeq(m, c, s1, st, fuel));
  }

  lemma IllegibleWrong(scope: set<string>, c: Context, names: seq<string>, defs: set<string>, vars: map<string,
                       Storage>)
    requires Proper(c, defs, vars) && Distinct(names) && scope == c.locals + Among(names)
    requires !Legible(scope, c, defs, vars)
    ensures !AlwaysEmitsRight(c, names, defs, vars)
  {
    var n := Names(c.locals, defs + vars.Keys);
    if !Dotless(c.locals) {
      var x :| x in c.locals && '.' in x;
      DottedWrong(scope, c, defs, vars, x);
      WrongIs(scope, c, names, defs, vars, [Locals([x]), WordRef(x)], 1, 0);
    } else if "f" in scope {
      HiddenFalse(scope, c, defs, vars);
      WrongIs(scope, c, names, defs, vars, [emptyWhile], 2, 1);
    } else if "dup" in scope || "=" in scope || "drop" in scope {
      var v := if "=" in scope || "dup" in scope then 2 else 1;
      HiddenCase(scope, c, defs, vars, v);
      WrongIs(scope, c, names, defs, vars, [oneArm], v, 0);
    } else if !NoneHidden(scope, n, bareBuiltins) {
      var lc := SomeHidden(scope, n, bareBuiltins);
      HiddenBuiltin(scope, c, defs, vars, lc);
      WrongIs(scope, c, names, defs, vars, [WordRef(lc)], 2, 0);
    } else {
      IllegibleWords(scope, c, names, defs, vars);
    }
  }

  lemma IllegibleWords(scope: set<string>, c: Context, names: seq<string>, defs: set<string>, vars: map<string,
                       Storage>)
    requires Proper(c, defs, vars) && Distinct(names) && scope == c.locals + Among(names)
    requires !Legible(scope, c, defs, vars) && Dotless(c.locals)
    requires "f" !in scope && "dup" !in scope && "drop" !in scope && "=" !in scope
    requires NoneHidden(scope, Names(c.locals, defs + vars.Keys), bareBuiltins)
    ensures !AlwaysEmitsRight(c, names, defs, vars)
  {
    if w :| w in Narrows(vars) && Mangle(w) in scope {
      HiddenSymbol(scope, c, defs, vars, w);
      WrongIs(scope, c, names, defs, vars, [Global(Get, w)], 2, 0);
    } else if w :| w in defs + vars.Keys && w !in c.locals && Mangle(w) in scope {
      HiddenWord(scope, c, defs, vars, w);
      WrongIs(scope, c, names, defs, vars, [WordRef(w)], 2, 1);
    } else if Narrows(vars) != {} && ("get-global" in scope || "set-global" in scope || "+" in scope) {
      var x :| x in Narrows(vars);
      var access := if "get-global" in scope then Get else if "set-global" in scope then Set else Add;
      HiddenAccess(scope, c, defs, vars, x, access);
      WrongIs(scope, c, names, defs, vars, [Global(access, x)], 2, 0);
    } else {
      var x :| x in Values(vars) && ("set-global" in scope || Holding(x) in scope);
      HiddenStore(scope, c, defs, vars, x);
      WrongIs(scope, c, names, defs, vars, [To(x)], 2, 0);
    }
  }
}
