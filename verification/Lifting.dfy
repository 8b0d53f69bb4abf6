/** States of a Forth program as states of an emitted one. */
module Lifting {
  import opened Forth
  import opened Factor

  function Lift(st: State): FState {
    FState(AsValues(st.stack), st.locals, st.world)
  }

  function LiftOutcome(o: Outcome): FOutcome {
    match o
    case Next(st) => FNext(Lift(st))
    case Exit(st) => FReturn(Lift(st))
    case Underflow => FUnderflow
    case Fault => FFault
    case Timeout => FTimeout
  }

  function LiftTurn(t: Turn): FTurn {
    match t
    case Leave(o) => FLeave(LiftOutcome(o))
    case Repeat(st) => FRepeat(Lift(st))
  }

  lemma LiftPop(st: State)
    requires |st.stack| > 0
    ensures TopV(Lift(st).stack) == V(Top(st.stack)) && PopV(Lift(st)) == Lift(Pop(st))
  {}

  lemma LiftPush(st: State, v: Cell)
    ensures PushV(Lift(st), V(v)) == Lift(Push(st, v))
  {}

  lemma LiftCells(s: seq<Cell>)
    ensures AllCells(AsValues(s)) && AsCells(AsValues(s)) == s
  {}

  lemma PopPushed(fs: FState, v: Value)
    ensures PopV(PushV(fs, v)) == fs && TopV(PushV(fs, v).stack) == v
  {
    assert DropV(fs.stack + [v]) == fs.stack;
  }

  // ----- locals behind a quotation -----

  /** The outcome of a quotation as the code around it sees it. */
  function Shut(f: FMachine, outer: State, o: Outcome): Outcome {
    if !f.lexical then o
    else
      match o
      case Next(st) => Next(st.(locals := outer.locals))
      case Exit(st) => Exit(st.(locals := outer.locals))
      case other => other
  }

  function ShutTurn(f: FMachine, outer: State, t: Turn): Turn {
    match t
    case Leave(o) => Leave(Shut(f, outer, o))
    case Repeat(st) => if f.lexical then Repeat(st.(locals := outer.locals)) else t
  }
}
