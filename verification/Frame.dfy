/** Two facts about runs that do not depend on the program: what lies deeper on the stack is not
    touched, and more fuel does not change a run that ended. */
module Frame {
  import opened Forth

  // ----- the frame rule -----

  /** The builtins that see the whole stack: they report its depth or its items, or run a word that may. */
  const stackReaders: set<string> :=
    {"depth", ".s", "execute", "included", "call1", "call1>", "call2", "call2>", "capture1"}

  /** Any other builtin that does not run out of items does not look below the ones it used. */
  ghost predicate Framed(m: Machine) {
    forall lc, below, s, w :: lc !in stackReaders && !m.prim(lc, s, w).PrimUnderflow? ==>
      m.prim(lc, below + s, w) == UnderPrim(below, m.prim(lc, s, w))
  }

  /** No builtin that sees the whole stack occurs in the body, and of the words of the program only those in
      `quiet`.  RECURSE has been bound to a name by now. */
  predicate QuietSeq(quiet: set<string>, n: Names, s: seq<Expr>)
    decreases SizeSeq(s), 1, |s|
  {
    s != [] ==> QuietExpr(quiet, n, s[0]) && QuietSeq(quiet, n, s[1..])
  }

  predicate QuietExpr(quiet: set<string>, n: Names, e: Expr)
    decreases SizeExpr(e), 0
  {
    match e
    case WordRef(name) => QuietWord(quiet, n, name)
    case If(thenBody, elseBody) => QuietSeq(quiet, n, thenBody) && QuietElse(quiet, n, elseBody)
    case BeginUntil(body) => QuietSeq(quiet, n, body)
    case BeginAgain(body) => QuietSeq(quiet, n, body)
    case BeginWhileRepeat(pred, body) => QuietSeq(quiet, n, pred) && QuietSeq(quiet, n, body)
    case DoLoop(_, body, _) => QuietSeq(quiet, n, body)
    case Case(arms, default) => QuietArms(quiet, n, arms) && QuietElse(quiet, n, default)
    case _ => true
  }

  predicate QuietWord(quiet: set<string>, n: Names, name: string) {
    match Resolve(n, name)
    case UserDefined => Lower(name) in quiet
    case Builtin => Lower(name) !in stackReaders && Lower(name) != "recurse"
    case _ => true
  }

  predicate QuietElse(quiet: set<string>, n: Names, e: Else)
    decreases SizeElse(e), 0
  {
    e.ElseBody? ==> QuietSeq(quiet, n, e.body)
  }

  predicate QuietArms(quiet: set<string>, n: Names, arms: seq<Arm>)
    decreases SizeArms(arms), 0
  {
    arms != [] ==>
      QuietSeq(quiet, n, arms[0].matchExpr) && QuietSeq(quiet, n, arms[0].body) && QuietArms(quiet, n, arms[1..])
  }

  /** The words in `quiet` call only one another. */
  ghost predicate Discreet(m: Machine, quiet: set<string>) {
    Framed(m) &&
    forall lc :: lc in m.defs && lc in quiet ==> QuietSeq(quiet, Names(m.defs[lc].scope, m.Words()), m.defs[lc].body)
  }

  function UnderPrim(below: seq<Cell>, r: PrimResult): PrimResult {
    match r
    case Done(s, w) => Done(below + s, w)
    case other => other
  }

  function Under(below: seq<Cell>, st: State): State {
    st.(stack := below + st.stack)
  }

  function UnderOutcome(below: seq<Cell>, o: Outcome): Outcome {
    match o
    case Next(st) => Next(Under(below, st))
    case Exit(st) => Exit(Under(below, st))
    case other => other
  }

  function UnderTurn(below: seq<Cell>, t: Turn): Turn {
    match t
    case Leave(o) => Leave(UnderOutcome(below, o))
    case Repeat(st) => Repeat(Under(below, st))
  }

  lemma UnderPop(below: seq<Cell>, st: State)
    requires |st.stack| > 0
    ensures Top(Under(below, st).stack) == Top(st.stack)
    ensures Pop(Under(below, st)) == Under(below, Pop(st))
  {
    assert Drop(below + st.stack) == below + Drop(st.stack);
  }

  lemma UnderPush(below: seq<Cell>, st: State, v: Cell)
    ensures Push(Under(below, st), v) == Under(below, Push(st, v))
  {
    assert below + st.stack + [v] == below + (st.stack + [v]);
  }

  lemma {:induction false} FrameLocals(below: seq<Cell>, names: seq<string>, st: State)
    requires BindLocals(names, st) != Underflow
    ensures BindLocals(names, Under(below, st)) == UnderOutcome(below, BindLocals(names, st))
    decreases names
  {
    if names != [] {
      UnderPop(below, st);
      var last := names[|names| - 1];
      var st1 := Pop(st);
      FrameLocals(below, names[..|names| - 1],
                  if last == "_" then st1 else st1.(locals := st1.locals[Lower(last) := Top(st.stack)]));
    }
  }

  lemma FrameInputs(below: seq<Cell>, names: seq<string>, st: State)
    requires BindInputs(names, st) != Underflow
    ensures BindInputs(names, Under(below, st)) == UnderOutcome(below, BindInputs(names, st))
  {
    var k := |names|;
    assert (below + st.stack)[|below + st.stack| - k..] == st.stack[|st.stack| - k..];
  }

  lemma FrameEnter(m: Machine, d: Definition, below: seq<Cell>, st: State)
    requires Enter(m, d, st) != Underflow
    ensures Enter(m, d, Under(below, st)) == UnderOutcome(below, Enter(m, d, st))
  {
    var st0 := st.(locals := map[]);
    assert Under(below, st).(locals := map[]) == Under(below, st0);
    if m.Preamble(d) == [] {
      FrameLocals(below, d.params, st0);
    } else {
      FrameInputs(below, m.Preamble(d), st0);
    }
  }

  /** A body that reaches no builtin that sees the whole stack, and does not run out of items on its own
      stack, runs the same way on top of anything. */
  lemma {:induction false} FrameSeq(m: Machine, quiet: set<string>, c: Context, s: seq<Expr>, below: seq<Cell>,
                                    st: State, fuel: nat)
    requires Discreet(m, quiet) && QuietSeq(quiet, m.NamesOf(c), s) && RunSeq(m, c, s, st, fuel) != Underflow
    ensures RunSeq(m, c, s, Under(below, st), fuel) == UnderOutcome(below, RunSeq(m, c, s, st, fuel))
    decreases fuel, SizeSeq(s), 6, |s|
  {
    if s != [] {
      FrameExpr(m, quiet, c, s[0], below, st, fuel);
      match RunExpr(m, c, s[0], st, fuel)
      case Next(st1) => FrameSeq(m, quiet, c, s[1..], below, st1, fuel);
      case _ =>
    }
  }

  lemma {:induction false} FrameExpr(m: Machine, quiet: set<string>, c: Context, e: Expr, below: seq<Cell>, st: State,
                                     fuel: nat)
    requires Discreet(m, quiet) && QuietExpr(quiet, m.NamesOf(c), e) && RunExpr(m, c, e, st, fuel) != Underflow
    ensures RunExpr(m, c, e, Under(below, st), fuel) == UnderOutcome(below, RunExpr(m, c, e, st, fuel))
    decreases fuel, SizeExpr(e), 5
  {
    match e
    case Lit(v) => UnderPush(below, st, Number(v));
    case WordRef(name) => FrameWord(m, quiet, c, name, below, st, fuel);
    case If(thenBody, elseBody) =>
      UnderPop(below, st);
      if !Top(st.stack).Number? {
      } else if Top(st.stack).n != 0 {
        FrameSeq(m, quiet, c, thenBody, below, Pop(st), fuel);
      } else {
        FrameElse(m, quiet, c, elseBody, below, Pop(st), fuel);
      }
    case Case(arms, default) => FrameArms(m, quiet, c, arms, default, below, st, fuel);
    case DoLoop(isQdo, _, _) =>
      UnderPop(below, st);
      UnderPop(below, Pop(st));
      if Top(st.stack).Number? && Top(Drop(st.stack)).Number? {
        var start, limit := Top(st.stack).n, Top(Drop(st.stack)).n;
        if !(isQdo && limit == start) {
          FrameLoop(m, quiet, c, e, below, PushFrame(Pop(Pop(st)), limit, start), fuel);
        }
      }
    case Tick(name) => UnderPush(below, st, Xt(Lower(name)));
    case To(name) => UnderPop(below, st);
    case Global(access, name) => FrameGlobal(m, access, name, below, st);
    case Locals(names) => FrameLocals(below, names, st);
    case _ => FrameLoop(m, quiet, c, e, below, st, fuel);
  }

  lemma FrameGet(name: string, below: seq<Cell>, st: State)
    ensures GetValue(name, Under(below, st)) == UnderOutcome(below, GetValue(name, st))
  {
    if name in st.world.values {
      UnderPush(below, st, st.world.values[name]);
    }
  }

  lemma FrameSet(name: string, below: seq<Cell>, st: State)
    requires SetValue(name, st) != Underflow
    ensures SetValue(name, Under(below, st)) == UnderOutcome(below, SetValue(name, st))
  {
    UnderPop(below, st);
  }

  lemma FramePrim(m: Machine, lc: string, below: seq<Cell>, st: State)
    requires Framed(m) && lc !in stackReaders && RunPrim(m, lc, st) != Underflow
    ensures RunPrim(m, lc, Under(below, st)) == UnderOutcome(below, RunPrim(m, lc, st))
  {
    assert !m.prim(lc, st.stack, st.world).PrimUnderflow?;
  }

  lemma FrameGlobal(m: Machine, access: Access, name: string, below: seq<Cell>, st: State)
    requires Framed(m) && RunGlobal(m, access, name, st) != Underflow
    ensures RunGlobal(m, access, name, Under(below, st)) == UnderOutcome(below, RunGlobal(m, access, name, st))
  {
    match access
    case Get => FrameGet(name, below, st);
    case Set => FrameSet(name, below, st);
    case Add =>
      FrameGet(name, below, st);
      match GetValue(name, st) {
        case Next(st1) =>
          FramePrim(m, "+", below, st1);
          match RunPrim(m, "+", st1) {
            case Next(st2) => FrameSet(name, below, st2);
            case _ =>
          }
        case _ =>
      }
  }

  lemma {:induction false} FrameElse(m: Machine, quiet: set<string>, c: Context, e: Else, below: seq<Cell>, st: State,
                                     fuel: nat)
    requires Discreet(m, quiet) && QuietElse(quiet, m.NamesOf(c), e) && RunElse(m, c, e, st, fuel) != Underflow
    ensures RunElse(m, c, e, Under(below, st), fuel) == UnderOutcome(below, RunElse(m, c, e, st, fuel))
    decreases fuel, SizeElse(e), 1
  {
    match e
    case NoElse =>
    case ElseBody(body) => FrameSeq(m, quiet, c, body, below, st, fuel);
  }

  lemma {:induction false} FrameWord(m: Machine, quiet: set<string>, c: Context, name: string, below: seq<Cell>,
                                     st: State, fuel: nat)
    requires Discreet(m, quiet) && QuietWord(quiet, m.NamesOf(c), name)
    requires RunWord(m, c, name, st, fuel) != Underflow
    ensures RunWord(m, c, name, Under(below, st), fuel) == UnderOutcome(below, RunWord(m, c, name, st, fuel))
    decreases fuel, 0, 0
  {
    var lc := Lower(name);
    match Resolve(m.NamesOf(c), name)
    case Local =>
      if lc in st.locals {
        UnderPush(below, st, st.locals[lc]);
      }
    case UserDefined =>
      if lc !in m.defs {
        FrameVar(m.vars[lc], lc, below, st);
      } else if fuel > 0 {
        FrameCall(m, quiet, lc, below, st, fuel - 1);
      }
    case Return =>
    case Builtin =>
      FramePrim(m, lc, below, st);
  }

  lemma FrameVar(storage: Storage, lc: string, below: seq<Cell>, st: State)
    ensures RunVar(storage, lc, Under(below, st)) == UnderOutcome(below, RunVar(storage, lc, st))
  {
    match storage
    case Variable(Wide) => UnderPush(below, st, Address(lc, 0));
    case Variable(Narrow) =>
    case Value => FrameGet(lc, below, st);
  }

  lemma {:induction false} FrameCall(m: Machine, quiet: set<string>, lc: string, below: seq<Cell>, st: State, fuel: nat)
    requires Discreet(m, quiet) && lc in m.defs && lc in quiet && Call(m, lc, st, fuel) != Underflow
    ensures Call(m, lc, Under(below, st), fuel) == UnderOutcome(below, Call(m, lc, st, fuel))
    decreases fuel
  {
    var d := m.defs[lc];
    FrameEnter(m, d, below, st);
    match Enter(m, d, st)
    case Next(entry) => FrameSeq(m, quiet, Context(d.scope, lc), d.body, below, entry, fuel);
    case _ =>
  }

  lemma {:induction false} FrameArms(m: Machine, quiet: set<string>, c: Context, arms: seq<Arm>, default: Else,
                                     below: seq<Cell>, st: State, fuel: nat)
    requires Discreet(m, quiet) && QuietArms(quiet, m.NamesOf(c), arms) && QuietElse(quiet, m.NamesOf(c), default)
    requires RunArms(m, c, arms, default, st, fuel) != Underflow
    ensures RunArms(m, c, arms, default, Under(below, st), fuel)
         == UnderOutcome(below, RunArms(m, c, arms, default, st, fuel))
    decreases fuel, SizeArms(arms) + SizeElse(default), 2
  {
    if arms == [] {
      FrameElse(m, quiet, c, default, below, st, fuel);
      match RunElse(m, c, default, st, fuel)
      case Next(st1) => UnderPop(below, st1);
      case _ =>
    } else {
      FrameSeq(m, quiet, c, arms[0].matchExpr, below, st, fuel);
      match RunSeq(m, c, arms[0].matchExpr, st, fuel)
      case Next(st1) =>
        UnderPop(below, st1);
        UnderPop(below, Pop(st1));
        if Top(st1.stack) == Top(Drop(st1.stack)) {
          FrameSeq(m, quiet, c, arms[0].body, below, Pop(Pop(st1)), fuel);
        } else {
          FrameArms(m, quiet, c, arms[1..], default, below, Pop(st1), fuel);
        }
      case _ =>
    }
  }

  lemma {:induction false} FrameLoop(m: Machine, quiet: set<string>, c: Context, e: Expr, below: seq<Cell>, st: State,
                                     fuel: nat)
    requires IsLoop(e) && Discreet(m, quiet) && QuietExpr(quiet, m.NamesOf(c), e)
    requires RunLoop(m, c, e, st, fuel) != Underflow
    ensures RunLoop(m, c, e, Under(below, st), fuel) == UnderOutcome(below, RunLoop(m, c, e, st, fuel))
    decreases fuel, SizeExpr(e), 4
  {
    if fuel > 0 {
      FrameTurn(m, quiet, c, e, below, st, fuel);
      match LoopTurn(m, c, e, st, fuel)
      case Repeat(st1) => FrameLoop(m, quiet, c, e, below, st1, fuel - 1);
      case _ =>
    }
  }

  lemma {:induction false} FrameTurn(m: Machine, quiet: set<string>, c: Context, e: Expr, below: seq<Cell>, st: State,
                                     fuel: nat)
    requires IsLoop(e) && Discreet(m, quiet) && QuietExpr(quiet, m.NamesOf(c), e)
    requires LoopTurn(m, c, e, st, fuel) != Leave(Underflow)
    ensures LoopTurn(m, c, e, Under(below, st), fuel) == UnderTurn(below, LoopTurn(m, c, e, st, fuel))
    decreases fuel, SizeExpr(e), 3
  {
    match e
    case BeginUntil(body) =>
      FrameSeq(m, quiet, c, body, below, st, fuel);
      FrameFlag(below, RunSeq(m, c, body, st, fuel));
    case BeginAgain(body) => FrameSeq(m, quiet, c, body, below, st, fuel);
    case BeginWhileRepeat(pred, body) =>
      FrameSeq(m, quiet, c, pred, below, st, fuel);
      FrameFlag(below, RunSeq(m, c, pred, st, fuel));
      match WhileTest(RunSeq(m, c, pred, st, fuel)) {
        case Repeat(st1) => FrameSeq(m, quiet, c, body, below, st1, fuel);
        case _ =>
      }
    case DoLoop(_, body, kind) =>
      FrameSeq(m, quiet, c, body, below, st, fuel);
      FrameFlag(below, RunSeq(m, c, body, st, fuel));
  }

  lemma FrameFlag(below: seq<Cell>, o: Outcome)
    requires o != Underflow
    ensures UntilTurn(o) != Leave(Underflow) ==> UntilTurn(UnderOutcome(below, o)) == UnderTurn(below, UntilTurn(o))
    ensures WhileTest(o) != Leave(Underflow) ==> WhileTest(UnderOutcome(below, o)) == UnderTurn(below, WhileTest(o))
    ensures forall kind :: DoTurn(kind, o) != Leave(Underflow) ==>
                             DoTurn(kind, UnderOutcome(below, o)) == UnderTurn(below, DoTurn(kind, o))
  {
    match o
    case Next(st) =>
      if |st.stack| > 0 {
        UnderPop(below, st);
      }
    case _ =>
  }

  // ----- fuel -----

  /** A run that ended with some fuel ends the same way with more. */
  lemma {:induction false} MoreFuelSeq(m: Machine, c: Context, s: seq<Expr>, st: State, fuel: nat, more: nat)
    requires fuel <= more && RunSeq(m, c, s, st, fuel) != Timeout
    ensures RunSeq(m, c, s, st, more) == RunSeq(m, c, s, st, fuel)
    decreases fuel, SizeSeq(s), 6, |s|
  {
    if s != [] {
      MoreFuelExpr(m, c, s[0], st, fuel, more);
      match RunExpr(m, c, s[0], st, fuel)
      case Next(st1) => MoreFuelSeq(m, c, s[1..], st1, fuel, more);
      case _ =>
    }
  }

  lemma {:induction false} MoreFuelExpr(m: Machine, c: Context, e: Expr, st: State, fuel: nat, more: nat)
    requires fuel <= more && RunExpr(m, c, e, st, fuel) != Timeout
    ensures RunExpr(m, c, e, st, more) == RunExpr(m, c, e, st, fuel)
    decreases fuel, SizeExpr(e), 5
  {
    match e
    case WordRef(name) => MoreFuelWord(m, c, name, st, fuel, more);
    case If(thenBody, elseBody) =>
      if |st.stack| > 0 {
        if !Top(st.stack).Number? {
        } else if Top(st.stack).n != 0 {
          MoreFuelSeq(m, c, thenBody, Pop(st), fuel, more);
        } else {
          MoreFuelElse(m, c, elseBody, Pop(st), fuel, more);
        }
      }
    case Case(arms, default) => MoreFuelArms(m, c, arms, default, st, fuel, more);
    case DoLoop(isQdo, _, _) =>
      if |st.stack| >= 2 && Top(st.stack).Number? && Top(Drop(st.stack)).Number? {
        var start, limit := Top(st.stack).n, Top(Drop(st.stack)).n;
        if !(isQdo && limit == start) {
          MoreFuelLoop(m, c, e, PushFrame(Pop(Pop(st)), limit, start), fuel, more);
        }
      }
    case BeginUntil(_) => MoreFuelLoop(m, c, e, st, fuel, more);
    case BeginAgain(_) => MoreFuelLoop(m, c, e, st, fuel, more);
    case BeginWhileRepeat(_, _) => MoreFuelLoop(m, c, e, st, fuel, more);
    case _ =>
  }

  lemma {:induction false} MoreFuelElse(m: Machine, c: Context, e: Else, st: State, fuel: nat, more: nat)
    requires fuel <= more && RunElse(m, c, e, st, fuel) != Timeout
    ensures RunElse(m, c, e, st, more) == RunElse(m, c, e, st, fuel)
    decreases fuel, SizeElse(e), 1
  {
    match e
    case NoElse =>
    case ElseBody(body) => MoreFuelSeq(m, c, body, st, fuel, more);
  }

  lemma {:induction false} MoreFuelWord(m: Machine, c: Context, name: string, st: State, fuel: nat, more: nat)
    requires fuel <= more && RunWord(m, c, name, st, fuel) != Timeout
    ensures RunWord(m, c, name, st, more) == RunWord(m, c, name, st, fuel)
    decreases fuel, 0, 0
  {
    var lc := Lower(name);
    match Resolve(m.NamesOf(c), name)
    case UserDefined => if lc in m.defs { MoreFuelCall(m, lc, st, fuel - 1, more - 1); }
    case Builtin =>
      if lc == "recurse" && Lower(c.self) in m.defs {
        MoreFuelCall(m, Lower(c.self), st, fuel - 1, more - 1);
      }
    case _ =>
  }

  lemma {:induction false} MoreFuelCall(m: Machine, lc: string, st: State, fuel: nat, more: nat)
    requires fuel <= more && lc in m.defs && Call(m, lc, st, fuel) != Timeout
    ensures Call(m, lc, st, more) == Call(m, lc, st, fuel)
    decreases fuel
  {
    var d := m.defs[lc];
    match Enter(m, d, st)
    case Next(entry) => MoreFuelSeq(m, Context(d.scope, lc), d.body, entry, fuel, more);
    case _ =>
  }

  lemma {:induction false} MoreFuelArms(m: Machine, c: Context, arms: seq<Arm>, default: Else, st: State, fuel: nat,
                                        more: nat)
    requires fuel <= more && RunArms(m, c, arms, default, st, fuel) != Timeout
    ensures RunArms(m, c, arms, default, st, more) == RunArms(m, c, arms, default, st, fuel)
    decreases fuel, SizeArms(arms) + SizeElse(default), 2
  {
    if arms == [] {
      MoreFuelElse(m, c, default, st, fuel, more);
    } else if |st.stack| > 0 {
      MoreFuelSeq(m, c, arms[0].matchExpr, st, fuel, more);
      match RunSeq(m, c, arms[0].matchExpr, st, fuel)
      case Next(st1) =>
        if |st1.stack| >= 2 {
          if Top(st1.stack) == Top(Drop(st1.stack)) {
            MoreFuelSeq(m, c, arms[0].body, Pop(Pop(st1)), fuel, more);
          } else {
            MoreFuelArms(m, c, arms[1..], default, Pop(st1), fuel, more);
          }
        }
      case _ =>
    }
  }

  lemma {:induction false} MoreFuelLoop(m: Machine, c: Context, e: Expr, st: State, fuel: nat, more: nat)
    requires IsLoop(e) && fuel <= more && RunLoop(m, c, e, st, fuel) != Timeout
    ensures RunLoop(m, c, e, st, more) == RunLoop(m, c, e, st, fuel)
    decreases fuel, SizeExpr(e), 4
  {
    MoreFuelTurn(m, c, e, st, fuel, more);
    match LoopTurn(m, c, e, st, fuel)
    case Repeat(st1) => MoreFuelLoop(m, c, e, st1, fuel - 1, more - 1);
    case _ =>
  }

  lemma {:induction false} MoreFuelTurn(m: Machine, c: Context, e: Expr, st: State, fuel: nat, more: nat)
    requires IsLoop(e) && fuel <= more && LoopTurn(m, c, e, st, fuel) != Leave(Timeout)
    ensures LoopTurn(m, c, e, st, more) == LoopTurn(m, c, e, st, fuel)
    decreases fuel, SizeExpr(e), 3
  {
    match e
    case BeginUntil(body) => MoreFuelSeq(m, c, body, st, fuel, more);
    case BeginAgain(body) => MoreFuelSeq(m, c, body, st, fuel, more);
    case BeginWhileRepeat(pred, body) =>
      MoreFuelSeq(m, c, pred, st, fuel, more);
      match WhileTest(RunSeq(m, c, pred, st, fuel)) {
        case Repeat(st1) => MoreFuelSeq(m, c, body, st1, fuel, more);
        case _ =>
      }
    case DoLoop(_, body, _) => MoreFuelSeq(m, c, body, st, fuel, more);
  }
}
