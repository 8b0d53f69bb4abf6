/** A program under the standard and on the Factor runtime: what EXIT restores and the inputs that calls
    bind on entry make no difference, but for the runs named here. */
module Runtimes {
  import opened Forth
  import opened Effects
  import opened EffectSound
  import opened Exits

  // ----- what may differ -----

  /** Where the two may differ: calls may be too shallow for the inputs they bind, and a local may be read
      before it is bound, when it has the name of an input. */
  datatype Slack = Slack(shallow: bool, unbound: bool)

  predicate Entered(k: Slack, d: Definition) {
    && (k.shallow || Inputs(d) == [])
    && (k.unbound || d.scope !! Among(Inputs(d)))
  }

  /** The least slack for a program. */
  ghost function SlackOf(m: Machine): Slack {
    Slack(exists lc :: lc in m.defs && Inputs(m.defs[lc]) != [],
          exists lc :: lc in m.defs && !(m.defs[lc].scope !! Among(Inputs(m.defs[lc]))))
  }

  /** Every body is even, judged with effects that inference has passed. */
  ghost predicate EvenProgram(m: Machine, env: Env) {
    && Passed(m, env)
    && forall lc :: lc in m.defs ==> Even(env, Names(m.defs[lc].scope, m.Words()), m.defs[lc].body)
  }

  /** More locals, hidden by those of the same name. */
  function Shift(extra: map<string, Cell>, st: State): State {
    st.(locals := extra + st.locals)
  }

  function ShiftOutcome(extra: map<string, Cell>, o: Outcome): Outcome {
    match o
    case Next(st) => Next(Shift(extra, st))
    case Exit(st) => Exit(Shift(extra, st))
    case other => other
  }

  function ShiftTurn(extra: map<string, Cell>, t: Turn): Turn {
    match t
    case Leave(o) => Leave(ShiftOutcome(extra, o))
    case Repeat(st) => Repeat(Shift(extra, st))
  }

  /** The second run ends as the first, but for the extra locals, or where the slack allows otherwise. */
  predicate Agrees(k: Slack, extra: map<string, Cell>, o: Outcome, o': Outcome) {
    (k.unbound && o == Fault) || (k.shallow && o' == Underflow) || o' == ShiftOutcome(extra, o)
  }

  predicate TurnsAgree(k: Slack, extra: map<string, Cell>, t: Turn, t': Turn) {
    (k.unbound && t == Leave(Fault)) || (k.shallow && t' == Leave(Underflow)) || t' == ShiftTurn(extra, t)
  }

  /** The extra locals are told from those of the context, if that is needed. */
  predicate Apart(k: Slack, c: Context, extra: map<string, Cell>) {
    k.unbound || c.locals !! extra.Keys
  }

  // ----- steps -----

  lemma ShiftBound(extra: map<string, Cell>, st: State, x: string, v: Cell)
    ensures Shift(extra, st.(locals := st.locals[x := v]))
         == Shift(extra, st).(locals := Shift(extra, st).locals[x := v])
  {
    assert (extra + st.locals)[x := v] == extra + st.locals[x := v];
  }

  lemma {:induction false} ShiftLocals(extra: map<string, Cell>, names: seq<string>, st: State)
    ensures BindLocals(names, Shift(extra, st)) == ShiftOutcome(extra, BindLocals(names, st))
    decreases names
  {
    if names != [] && |st.stack| > 0 {
      var last := names[|names| - 1];
      var st1 := Pop(st);
      ShiftBound(extra, st1, Lower(last), Top(st.stack));
      ShiftLocals(extra, names[..|names| - 1],
                  if last == "_" then st1 else st1.(locals := st1.locals[Lower(last) := Top(st.stack)]));
    }
  }

  lemma ShiftGlobal(m: Machine, m': Machine, extra: map<string, Cell>, access: Access, name: string, st: State)
    requires m'.prim == m.prim
    ensures RunGlobal(m', access, name, Shift(extra, st)) == ShiftOutcome(extra, RunGlobal(m, access, name, st))
  {}

  lemma FlagsAgree(k: Slack, extra: map<string, Cell>, o: Outcome, o': Outcome)
    requires Agrees(k, extra, o, o')
    ensures TurnsAgree(k, extra, UntilTurn(o), UntilTurn(o'))
    ensures TurnsAgree(k, extra, WhileTest(o), WhileTest(o'))
    ensures TurnsAgree(k, extra, AgainTurn(o), AgainTurn(o'))
    ensures forall kind :: TurnsAgree(k, extra, DoTurn(kind, o), DoTurn(kind, o'))
  {}

  // ----- calls -----

  lemma {:induction false} BoundKeys(names: seq<string>, items: seq<Cell>, locals: map<string, Cell>)
    requires |items| == |names|
    ensures Bound(names, items, locals).Keys == locals.Keys + Among(names)
    decreases |names|
  {
    if names != [] {
      var k := |names| - 1;
      assert names == names[..k] + [names[k]];
      BoundKeys(names[..k], items[..k], locals[names[k] := items[k]]);
    }
  }

  /** What a call binds on entry, besides the parameters. */
  function Extra(m: Machine, d: Definition, st: State): map<string, Cell> {
    var names := m.Preamble(d);
    if |st.stack| < |names| then map[] else Bound(names, st.stack[|st.stack| - |names|..], map[])
  }

  lemma EnterShifts(k: Slack, m: Machine, m': Machine, d: Definition, st: State, st': State)
    requires !m.restoring && m' == m.(restoring := true) && Entered(k, d)
    requires st' == st.(locals := st'.locals)
    ensures Extra(m', d, st').Keys <= Among(Inputs(d))
    ensures Enter(m', d, st') == ShiftOutcome(Extra(m', d, st'), Enter(m, d, st))
         || (k.shallow && Enter(m', d, st') == Underflow)
  {
    var st0 := st.(locals := map[]);
    assert st'.(locals := map[]) == st0;
    if Inputs(d) == [] {
      ShiftNothing(BindLocals(d.params, st0));
    } else if |st.stack| >= |Inputs(d)| {
      BoundKeys(Inputs(d), st.stack[|st.stack| - |Inputs(d)|..], map[]);
      InputsShift(Inputs(d), st0);
      assert BindLocals([], st0) == Next(st0);
    }
  }

  lemma InputsShift(names: seq<string>, st: State)
    requires |st.stack| >= |names| && st.locals == map[]
    ensures BindInputs(names, st) == Next(Shift(Bound(names, st.stack[|st.stack| - |names|..], map[]), st))
  {
    var bound := Bound(names, st.stack[|st.stack| - |names|..], map[]);
    assert bound + map[] == bound;
  }

  lemma ShiftNothing(o: Outcome)
    ensures ShiftOutcome(map[], o) == o
  {
    if o.Next? || o.Exit? {
      assert map[] + o.state.locals == o.state.locals;
    }
  }

  /** A call restores the locals of its caller. */
  lemma CallOwnLocals(m: Machine, lc: string, extra: map<string, Cell>, st: State, fuel: nat)
    requires lc in m.defs
    ensures Call(m, lc, Shift(extra, st), fuel) == ShiftOutcome(extra, Call(m, lc, st, fuel))
  {
    EnterNeverExits(m, m.defs[lc], st);
    assert Enter(m, m.defs[lc], Shift(extra, st)) == Enter(m, m.defs[lc], st);
  }

  lemma EndsAgree(k: Slack, m: Machine, m': Machine, extra: map<string, Cell>, inner: map<string, Cell>, caller: State,
                  entry: State, o: Outcome, o': Outcome)
    requires m' == m.(restoring := true) && !m.restoring && Agrees(k, inner, o, o')
    requires o.Exit? ==> o.state.stack == entry.stack
    ensures Agrees(k, extra, EndCall(m, caller, entry, o),
                   EndCall(m', Shift(extra, caller), Shift(inner, entry), o'))
  {}

  // ----- runs -----

  ghost predicate SameProgram(m: Machine, m': Machine) {
    m'.defs == m.defs && m'.vars == m.vars && m'.prim == m.prim
  }

  /** Calls with less fuel agree. */
  ghost predicate CallsAgree(k: Slack, m: Machine, m': Machine, fuel: nat)
    requires SameProgram(m, m')
  {
    forall lc, extra, st, f: nat :: lc in m.defs && f < fuel ==>
      Agrees(k, extra, Call(m, lc, st, f), Call(m', lc, Shift(extra, st), f))
  }

  /** Runs of a body on both machines, the second with extra locals, agree. */
  lemma {:induction false} SeqAgree(k: Slack, m: Machine, m': Machine, c: Context, extra: map<string, Cell>,
                                    s: seq<Expr>, st: State, fuel: nat)
    requires SameProgram(m, m') && CallsAgree(k, m, m', fuel) && Apart(k, c, extra)
    ensures Agrees(k, extra, RunSeq(m, c, s, st, fuel), RunSeq(m', c, s, Shift(extra, st), fuel))
    decreases fuel, SizeSeq(s), 6, |s|
  {
    if s != [] {
      ExprAgree(k, m, m', c, extra, s[0], st, fuel);
      match RunExpr(m, c, s[0], st, fuel)
      case Next(st1) => SeqAgree(k, m, m', c, extra, s[1..], st1, fuel);
      case _ =>
    }
  }

  lemma {:induction false} ExprAgree(k: Slack, m: Machine, m': Machine, c: Context, extra: map<string, Cell>,
                                     e: Expr, st: State, fuel: nat)
    requires SameProgram(m, m') && CallsAgree(k, m, m', fuel) && Apart(k, c, extra)
    ensures Agrees(k, extra, RunExpr(m, c, e, st, fuel), RunExpr(m', c, e, Shift(extra, st), fuel))
    decreases fuel, SizeExpr(e), 5
  {
    match e
    case WordRef(name) => WordAgree(k, m, m', c, extra, name, st, fuel);
    case If(_, _) => IfAgree(k, m, m', c, extra, e, st, fuel);
    case Case(arms, default) => ArmsAgree(k, m, m', c, extra, arms, default, st, fuel);
    case DoLoop(_, _, _) => DoAgree(k, m, m', c, extra, e, st, fuel);
    case Global(access, name) => ShiftGlobal(m, m', extra, access, name, st);
    case Locals(names) => ShiftLocals(extra, names, st);
    case BeginUntil(_) => LoopAgree(k, m, m', c, extra, e, st, fuel);
    case BeginAgain(_) => LoopAgree(k, m, m', c, extra, e, st, fuel);
    case BeginWhileRepeat(_, _) => LoopAgree(k, m, m', c, extra, e, st, fuel);
    case _ =>
  }

  lemma {:induction false} IfAgree(k: Slack, m: Machine, m': Machine, c: Context, extra: map<string, Cell>, e: Expr,
                                   st: State, fuel: nat)
    requires e.If? && SameProgram(m, m') && CallsAgree(k, m, m', fuel) && Apart(k, c, extra)
    ensures Agrees(k, extra, RunExpr(m, c, e, st, fuel), RunExpr(m', c, e, Shift(extra, st), fuel))
    decreases fuel, SizeExpr(e), 5, 0
  {
    if |st.stack| > 0 {
      SeqAgree(k, m, m', c, extra, e.thenBody, Pop(st), fuel);
      ElseAgree(k, m, m', c, extra, e.elseBody, Pop(st), fuel);
    }
  }

  lemma {:induction false} DoAgree(k: Slack, m: Machine, m': Machine, c: Context, extra: map<string, Cell>, e: Expr,
                                   st: State, fuel: nat)
    requires e.DoLoop? && SameProgram(m, m') && CallsAgree(k, m, m', fuel) && Apart(k, c, extra)
    ensures Agrees(k, extra, RunExpr(m, c, e, st, fuel), RunExpr(m', c, e, Shift(extra, st), fuel))
    decreases fuel, SizeExpr(e), 5, 0
  {
    if |st.stack| >= 2 && Top(st.stack).Number? && Top(Drop(st.stack)).Number? {
      LoopAgree(k, m, m', c, extra, e, PushFrame(Pop(Pop(st)), Top(Drop(st.stack)).n, Top(st.stack).n), fuel);
    }
  }

  lemma {:induction false} WordAgree(k: Slack, m: Machine, m': Machine, c: Context, extra: map<string, Cell>,
                                     name: string, st: State, fuel: nat)
    requires SameProgram(m, m') && CallsAgree(k, m, m', fuel) && Apart(k, c, extra)
    ensures Agrees(k, extra, RunWord(m, c, name, st, fuel), RunWord(m', c, name, Shift(extra, st), fuel))
    decreases fuel, 0, 0
  {
    CalledAgree(k, m, m', extra, Lower(name), st, fuel);
    CalledAgree(k, m, m', extra, Lower(c.self), st, fuel);
    WordFromCalls(k, m, m', c, extra, name, st, fuel);
  }

  ghost predicate CalledAlike(k: Slack, m: Machine, m': Machine, extra: map<string, Cell>, lc: string, st: State,
                              fuel: nat)
    requires SameProgram(m, m')
  {
    lc in m.defs && fuel > 0 ==>
      Agrees(k, extra, Call(m, lc, st, fuel - 1), Call(m', lc, Shift(extra, st), fuel - 1))
  }

  lemma LocalAgrees(k: Slack, c: Context, extra: map<string, Cell>, lc: string, st: State)
    requires Apart(k, c, extra) && lc in c.locals
    ensures var st' := Shift(extra, st);
            Agrees(k, extra, if lc in st.locals then Next(Push(st, st.locals[lc])) else Fault,
                   if lc in st'.locals then Next(Push(st', st'.locals[lc])) else Fault)
  {}

  lemma VarAgrees(k: Slack, extra: map<string, Cell>, storage: Storage, lc: string, st: State)
    ensures Agrees(k, extra, RunVar(storage, lc, st), RunVar(storage, lc, Shift(extra, st)))
  {}

  lemma PrimAgrees(k: Slack, m: Machine, m': Machine, extra: map<string, Cell>, lc: string, st: State)
    requires SameProgram(m, m')
    ensures Agrees(k, extra, RunPrim(m, lc, st), RunPrim(m', lc, Shift(extra, st)))
  {}

  lemma WordFromCalls(k: Slack, m: Machine, m': Machine, c: Context, extra: map<string, Cell>, name: string, st: State,
                      fuel: nat)
    requires SameProgram(m, m') && Apart(k, c, extra)
    requires CalledAlike(k, m, m', extra, Lower(name), st, fuel)
    requires CalledAlike(k, m, m', extra, Lower(c.self), st, fuel)
    ensures Agrees(k, extra, RunWord(m, c, name, st, fuel), RunWord(m', c, name, Shift(extra, st), fuel))
  {
    var lc := Lower(name);
    assert m'.NamesOf(c) == m.NamesOf(c);
    var target := Resolve(m.NamesOf(c), name);
    if target == Local {
      LocalAgrees(k, c, extra, lc, st);
    } else if target == UserDefined && lc !in m.defs {
      VarAgrees(k, extra, m.vars[lc], lc, st);
    } else if target == Builtin && lc != "recurse" {
      PrimAgrees(k, m, m', extra, lc, st);
    }
  }

  lemma CalledAgree(k: Slack, m: Machine, m': Machine, extra: map<string, Cell>, lc: string, st: State, fuel: nat)
    requires SameProgram(m, m') && CallsAgree(k, m, m', fuel)
    ensures CalledAlike(k, m, m', extra, lc, st, fuel)
  {}

  lemma {:induction false} ElseAgree(k: Slack, m: Machine, m': Machine, c: Context, extra: map<string, Cell>,
                                     e: Else, st: State, fuel: nat)
    requires SameProgram(m, m') && CallsAgree(k, m, m', fuel) && Apart(k, c, extra)
    ensures Agrees(k, extra, RunElse(m, c, e, st, fuel), RunElse(m', c, e, Shift(extra, st), fuel))
    decreases fuel, SizeElse(e), 1
  {
    match e
    case NoElse =>
    case ElseBody(body) => SeqAgree(k, m, m', c, extra, body, st, fuel);
  }

  lemma {:induction false} ArmsAgree(k: Slack, m: Machine, m': Machine, c: Context, extra: map<string, Cell>,
                                     arms: seq<Arm>, default: Else, st: State, fuel: nat)
    requires SameProgram(m, m') && CallsAgree(k, m, m', fuel) && Apart(k, c, extra)
    ensures Agrees(k, extra, RunArms(m, c, arms, default, st, fuel),
                   RunArms(m', c, arms, default, Shift(extra, st), fuel))
    decreases fuel, SizeArms(arms) + SizeElse(default), 2
  {
    if arms == [] {
      ElseAgree(k, m, m', c, extra, default, st, fuel);
      DroppedAgree(k, extra, RunElse(m, c, default, st, fuel), RunElse(m', c, default, Shift(extra, st), fuel));
    } else if |st.stack| > 0 {
      SeqAgree(k, m, m', c, extra, arms[0].matchExpr, st, fuel);
      var o := RunSeq(m, c, arms[0].matchExpr, st, fuel);
      if o.Next? && |o.state.stack| >= 2 {
        SeqAgree(k, m, m', c, extra, arms[0].body, Pop(Pop(o.state)), fuel);
        ArmsAgree(k, m, m', c, extra, arms[1..], default, Pop(o.state), fuel);
      }
      ArmAgrees(k, m, m', c, extra, arms, default, st, fuel);
    }
  }

  /** The selector is dropped. */
  function Dropped(o: Outcome): Outcome {
    match o
    case Next(st) => if |st.stack| == 0 then Underflow else Next(Pop(st))
    case other => other
  }

  lemma DroppedAgree(k: Slack, extra: map<string, Cell>, o: Outcome, o': Outcome)
    requires Agrees(k, extra, o, o')
    ensures Agrees(k, extra, Dropped(o), Dropped(o'))
  {}

  lemma ArmAgrees(k: Slack, m: Machine, m': Machine, c: Context, extra: map<string, Cell>, arms: seq<Arm>,
                  default: Else, st: State, fuel: nat)
    requires arms != [] && |st.stack| > 0
    requires var o := RunSeq(m, c, arms[0].matchExpr, st, fuel);
             && Agrees(k, extra, o, RunSeq(m', c, arms[0].matchExpr, Shift(extra, st), fuel))
             && (o.Next? && |o.state.stack| >= 2 ==>
                   && Agrees(k, extra, RunSeq(m, c, arms[0].body, Pop(Pop(o.state)), fuel),
                             RunSeq(m', c, arms[0].body, Shift(extra, Pop(Pop(o.state))), fuel))
                   && Agrees(k, extra, RunArms(m, c, arms[1..], default, Pop(o.state), fuel),
                             RunArms(m', c, arms[1..], default, Shift(extra, Pop(o.state)), fuel)))
    ensures Agrees(k, extra, RunArms(m, c, arms, default, st, fuel),
                   RunArms(m', c, arms, default, Shift(extra, st), fuel))
  {
    var o := RunSeq(m, c, arms[0].matchExpr, st, fuel);
    if o.Next? && |o.state.stack| >= 2 {
      assert Pop(Shift(extra, o.state)) == Shift(extra, Pop(o.state));
    }
  }

  lemma {:induction false} LoopAgree(k: Slack, m: Machine, m': Machine, c: Context, extra: map<string, Cell>,
                                     e: Expr, st: State, fuel: nat)
    requires IsLoop(e) && SameProgram(m, m') && CallsAgree(k, m, m', fuel) && Apart(k, c, extra)
    ensures Agrees(k, extra, RunLoop(m, c, e, st, fuel), RunLoop(m', c, e, Shift(extra, st), fuel))
    decreases fuel, SizeExpr(e), 4
  {
    if fuel > 0 {
      TurnAgree(k, m, m', c, extra, e, st, fuel);
      match LoopTurn(m, c, e, st, fuel)
      case Repeat(st1) => LoopAgree(k, m, m', c, extra, e, st1, fuel - 1);
      case _ =>
    }
  }

  lemma {:induction false} TurnAgree(k: Slack, m: Machine, m': Machine, c: Context, extra: map<string, Cell>,
                                     e: Expr, st: State, fuel: nat)
    requires IsLoop(e) && SameProgram(m, m') && CallsAgree(k, m, m', fuel) && Apart(k, c, extra)
    ensures TurnsAgree(k, extra, LoopTurn(m, c, e, st, fuel), LoopTurn(m', c, e, Shift(extra, st), fuel))
    decreases fuel, SizeExpr(e), 3
  {
    var first := if e.BeginWhileRepeat? then e.pred else e.body;
    SeqAgree(k, m, m', c, extra, first, st, fuel);
    var o, o' := RunSeq(m, c, first, st, fuel), RunSeq(m', c, first, Shift(extra, st), fuel);
    FlagsAgree(k, extra, o, o');
    if e.BeginWhileRepeat? && WhileTest(o).Repeat? {
      var st1 := WhileTest(o).state;
      SeqAgree(k, m, m', c, extra, e.body, st1, fuel);
      FlagsAgree(k, extra, RunSeq(m, c, e.body, st1, fuel), RunSeq(m', c, e.body, Shift(extra, st1), fuel));
    }
  }

  // ----- the two runtimes -----

  /** The same machine, or a standard one with even bodies and the Factor runtime of its program. */
  ghost predicate Kin(k: Slack, m: Machine, m': Machine, env: Env) {
    m' == m ||
    (!m.restoring && m' == m.(restoring := true) && EvenProgram(m, env) &&
     forall lc :: lc in m.defs ==> Entered(k, m.defs[lc]))
  }

  lemma CallAgrees(k: Slack, m: Machine, m': Machine, env: Env, lc: string, extra: map<string, Cell>, st: State,
                   fuel: nat)
    requires Kin(k, m, m', env) && lc in m.defs && CallsAgree(k, m, m', fuel)
    ensures Agrees(k, extra, Call(m, lc, st, fuel), Call(m', lc, Shift(extra, st), fuel))
  {
    if m' == m {
      CallOwnLocals(m, lc, extra, st, fuel);
    } else {
      var d, c := m.defs[lc], Context(m.defs[lc].scope, lc);
      var st' := Shift(extra, st);
      var inner := Extra(m', d, st');
      assert Entered(k, d);
      EnterShifts(k, m, m', d, st, st');
      EnterNeverExits(m, d, st);
      match Enter(m, d, st)
      case Next(entry) =>
        SeqAgree(k, m, m', c, inner, d.body, entry, fuel);
        EvenLevel(m, env, c, d.body, entry, fuel);
        EndsAgree(k, m, m', extra, inner, st, entry, RunSeq(m, c, d.body, entry, fuel),
                  RunSeq(m', c, d.body, Shift(inner, entry), fuel));
      case _ =>
    }
  }

  lemma {:induction false} KinCallsAgree(k: Slack, m: Machine, m': Machine, env: Env, fuel: nat)
    requires Kin(k, m, m', env)
    ensures CallsAgree(k, m, m', fuel)
  {
    forall lc, extra, st, f: nat | lc in m.defs && f < fuel
      ensures Agrees(k, extra, Call(m, lc, st, f), Call(m', lc, Shift(extra, st), f))
    {
      KinCallsAgree(k, m, m', env, f);
      CallAgrees(k, m, m', env, lc, extra, st, f);
    }
  }

  /** If all bodies are even, a run on the Factor runtime is the run under the standard, unless a call
      underflows for want of an input that it binds, or the standard's run reads a local that is not bound
      and has the name of such an input; in programs without such inputs always. */
  lemma RestoringAgrees(m: Machine, env: Env, c: Context, s: seq<Expr>, st: State, fuel: nat)
    requires !m.restoring && EvenProgram(m, env)
    ensures Agrees(SlackOf(m), map[], RunSeq(m, c, s, st, fuel), RunSeq(m.(restoring := true), c, s, st, fuel))
  {
    KinCallsAgree(SlackOf(m), m, m.(restoring := true), env, fuel);
    SeqAgree(SlackOf(m), m, m.(restoring := true), c, map[], s, st, fuel);
    assert map[] + st.locals == st.locals;
  }

  lemma RestoringCalls(m: Machine, env: Env, lc: string, st: State, fuel: nat)
    requires !m.restoring && EvenProgram(m, env) && lc in m.defs
    ensures Agrees(SlackOf(m), map[], Call(m, lc, st, fuel), Call(m.(restoring := true), lc, st, fuel))
  {
    KinCallsAgree(SlackOf(m), m, m.(restoring := true), env, fuel + 1);
    CalledAgree(SlackOf(m), m, m.(restoring := true), map[], lc, st, fuel + 1);
    assert map[] + st.locals == st.locals;
  }
}
