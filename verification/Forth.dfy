/** The syntax tree of a Forth body (src/compiler/ast.rs), name resolution, and what a body does when
    it runs. */
module Forth {
  import opened Common

  // ----- syntax -----

  datatype LoopKind = Plus1 | PlusN

  datatype Else = NoElse | ElseBody(body: seq<Expr>)

  datatype Arm = Arm(matchExpr: seq<Expr>, body: seq<Expr>)

  datatype Expr =
    | Lit(value: int)
    | WordRef(name: string)
    | If(thenBody: seq<Expr>, elseBody: Else)
    | BeginUntil(body: seq<Expr>)
    | BeginAgain(body: seq<Expr>)
    | BeginWhileRepeat(pred: seq<Expr>, body: seq<Expr>)
    | DoLoop(isQdo: bool, body: seq<Expr>, kind: LoopKind)
    | Case(arms: seq<Arm>, default: Else)
    | Tick(name: string)
    | To(name: string)
    | Locals(names: seq<string>)
    | Global(access: Access, name: string)

  /** What the last pass makes of a variable and the word behind it: the value of a Factor global is
      pushed, replaced, or added to. */
  datatype Access = Get | Set | Add

  predicate IsLoop(e: Expr) {
    e.BeginUntil? || e.BeginAgain? || e.BeginWhileRepeat? || e.DoLoop?
  }

  /** The else branch as a body; a missing one is empty. */
  function ElseSeq(e: Else): seq<Expr> {
    match e
    case NoElse => []
    case ElseBody(body) => body
  }

  // ----- size -----

  function SizeSeq(s: seq<Expr>): nat
    decreases s
  {
    if s == [] then 0 else SizeExpr(s[0]) + SizeSeq(s[1..])
  }

  function SizeExpr(e: Expr): (n: nat)
    ensures n >= 1
    decreases e
  {
    match e
    case If(thenBody, elseBody) => 1 + SizeSeq(thenBody) + SizeElse(elseBody)
    case BeginUntil(body) => 1 + SizeSeq(body)
    case BeginAgain(body) => 1 + SizeSeq(body)
    case BeginWhileRepeat(pred, body) => 1 + SizeSeq(pred) + SizeSeq(body)
    case DoLoop(_, body, _) => 1 + SizeSeq(body)
    case Case(arms, default) => 1 + SizeArms(arms) + SizeElse(default)
    case _ => 1
  }

  function SizeElse(e: Else): nat
    decreases e
  {
    match e
    case NoElse => 0
    case ElseBody(body) => 1 + SizeSeq(body)
  }

  function SizeArms(arms: seq<Arm>): nat
    decreases arms
  {
    if arms == [] then 0 else 1 + SizeSeq(arms[0].matchExpr) + SizeSeq(arms[0].body) + SizeArms(arms[1..])
  }

  // ----- names -----

  function LowerChar(c: char): char {
    if 'A' <= c <= 'Z' then (c as int + 32) as char else c
  }

  function Lower(s: string): (t: string)
    ensures |t| == |s|
  {
    seq(|s|, i requires 0 <= i < |s| => LowerChar(s[i]))
  }

  /** The names in scope of one body: its locals, and the colon definitions of the program. */
  datatype Names = Names(locals: set<string>, words: set<string>)

  datatype Target = Local | UserDefined | Return | Builtin

  /** Locals shadow definitions, definitions shadow builtins; EXIT is the builtin `return`. */
  function Resolve(n: Names, name: string): Target {
    var lc := Lower(name);
    if lc in n.locals then Local
    else if lc in n.words then UserDefined
    else if lc == "exit" then Return
    else Builtin
  }

  // ----- machine -----

  /** One stack item: a number, a place in the data of a variable, or the token of a ticked word. */
  datatype Cell = Number(n: int) | Address(name: string, offset: int) | Xt(name: string)

  datatype LoopFrame = LoopFrame(limit: int, index: int, left: bool)

  /** Everything a builtin may touch besides the data stack.  `values` holds what VALUEs and the
      variables that have become globals hold. */
  datatype World = World(values: map<string, Cell>, memory: map<Cell, Cell>, rstack: seq<Cell>,
                         loops: seq<LoopFrame>, output: seq<Cell>)

  /** The top of the stack is the last item; `locals` is the frame of the running word. */
  datatype State = State(stack: seq<Cell>, locals: map<string, Cell>, world: World)

  datatype Outcome =
    | Next(state: State)
    | Exit(state: State)
    | Underflow
    | Fault
    | Timeout

  datatype PrimResult = Done(stack: seq<Cell>, world: World) | PrimUnderflow | PrimFault

  /** `params` are the locals at the head of a definition, `scope` all its locals; `inferred` counts the
      inputs of the body where its effect is known. */
  datatype Definition = Definition(params: seq<string>, scope: set<string>, declared: Declared,
                                   inferred: Option<nat>, body: seq<Expr>)

  /** A declared effect names the inputs. */
  datatype Declared = Undeclared | Effect(inputs: seq<string>, outputs: nat)

  /** A definition without locals or a declared effect. */
  function Defining(body: seq<Expr>): Definition {
    Definition([], {}, Undeclared, None, body)
  }

  /** Whether a variable has become a global, or keeps its address. */
  datatype EscapeState = Narrow | Wide

  /** How a named piece of data is kept. */
  datatype Storage = Variable(escape: EscapeState) | Value

  /** A program and its runtime.  The builtins are arbitrary functions of the stack and the world.
      `restoring` tells the Factor runtime from the standard.  What EXIT does to the data stack at the end
      of a call: ANS leaves it alone, a Factor continuation puts back the stack saved on entry to the body.
      What a call needs: on the Factor runtime the inputs of a definition whose locals are all bound inside
      it, which become locals of the call. */
  datatype Machine = Machine(defs: map<string, Definition>, vars: map<string, Storage>,
                             prim: (string, seq<Cell>, World) -> PrimResult, restoring: bool)
  {
    /** What the program defines. */
    function Words(): set<string> {
      defs.Keys + vars.Keys
    }

    function NamesOf(c: Context): Names {
      Names(c.locals, Words())
    }

    /** The inputs that a call binds before the body runs. */
    function Preamble(d: Definition): seq<string> {
      if restoring then Inputs(d) else []
    }
  }

  /** The body being run: the locals in scope, and the name of the enclosing definition. */
  datatype Context = Context(locals: set<string>, self: string)

  // ----- stack helpers -----

  function Top(s: seq<Cell>): Cell
    requires |s| > 0
  {
    s[|s| - 1]
  }

  function Drop(s: seq<Cell>): seq<Cell>
    requires |s| > 0
  {
    s[..|s| - 1]
  }

  function Push(st: State, v: Cell): State {
    st.(stack := st.stack + [v])
  }

  function Pop(st: State): State
    requires |st.stack| > 0
  {
    st.(stack := Drop(st.stack))
  }

  /** Binds names to the top items of the stack, the rightmost to the top; `_` binds nothing. */
  function BindLocals(names: seq<string>, st: State): Outcome
    decreases names
  {
    if names == [] then Next(st)
    else if |st.stack| == 0 then Underflow
    else
      var last := names[|names| - 1];
      var st1 := Pop(st);
      BindLocals(names[..|names| - 1],
                 if last == "_" then st1 else st1.(locals := st1.locals[Lower(last) := Top(st.stack)]))
  }

  // ----- inputs bound on entry -----

  /** Whether a body binds locals, at any depth. */
  predicate BindsLocals(s: seq<Expr>)
    decreases s
  {
    s != [] && (ExprBindsLocals(s[0]) || BindsLocals(s[1..]))
  }

  predicate ExprBindsLocals(e: Expr)
    decreases e
  {
    match e
    case Locals(_) => true
    case If(thenBody, elseBody) => BindsLocals(thenBody) || ElseBindsLocals(elseBody)
    case BeginUntil(body) => BindsLocals(body)
    case BeginAgain(body) => BindsLocals(body)
    case BeginWhileRepeat(pred, body) => BindsLocals(pred) || BindsLocals(body)
    case DoLoop(_, body, _) => BindsLocals(body)
    case Case(arms, default) => ArmsBindLocals(arms) || ElseBindsLocals(default)
    case _ => false
  }

  predicate ElseBindsLocals(e: Else)
    decreases e
  {
    e.ElseBody? && BindsLocals(e.body)
  }

  predicate ArmsBindLocals(arms: seq<Arm>)
    decreases arms
  {
    arms != [] && (BindsLocals(arms[0].matchExpr) || BindsLocals(arms[0].body) || ArmsBindLocals(arms[1..]))
  }

  function Undotted(c: char): char {
    if c == '.' then '_' else c
  }

  /** A name without its dots. */
  function Sanitized(name: string): (t: string)
    ensures |t| == |name|
  {
    seq(|name|, i requires 0 <= i < |name| => Undotted(name[i]))
  }

  /** The local that a declared input becomes: only names without dots are put in lower case. */
  function InputName(name: string): string {
    if name == "..." then "_dots_" else if '.' in name then Sanitized(name) else Lower(name)
  }

  /** The locals that inferred inputs become. */
  function NumberedName(i: nat): string {
    "_mi" + Digits(i, 10)
  }

  /** The inputs that are bound on entry: those declared, else those inferred, of a definition whose locals
      are all bound inside its body. */
  function Inputs(d: Definition): seq<string> {
    if d.params != [] || !BindsLocals(d.body) then []
    else
      match d.declared
      case Effect(names, _) => seq(|names|, i requires 0 <= i < |names| => InputName(names[i]))
      case Undeclared => if d.inferred.Some? then seq(d.inferred.value, i requires 0 <= i => NumberedName(i)) else []
  }

  function Among(names: seq<string>): set<string> {
    set x | x in names
  }

  /** The locals after binding the names to the items, from the rightmost to the leftmost. */
  function Bound(names: seq<string>, items: seq<Cell>, locals: map<string, Cell>): map<string, Cell>
    requires |items| == |names|
    decreases |names|
  {
    if names == [] then locals
    else
      var k := |names| - 1;
      Bound(names[..k], items[..k], locals[names[k] := items[k]])
  }

  /** The inputs stay on the stack. */
  function BindInputs(names: seq<string>, st: State): Outcome {
    if |st.stack| < |names| then Underflow
    else Next(st.(locals := Bound(names, st.stack[|st.stack| - |names|..], st.locals)))
  }

  /** The start of a call, in a new frame. */
  function Enter(m: Machine, d: Definition, st: State): Outcome {
    Start(d.params, m.Preamble(d), st)
  }

  function Start(params: seq<string>, inputs: seq<string>, st: State): Outcome {
    var st0 := st.(locals := map[]);
    if inputs == [] then BindLocals(params, st0) else BindInputs(inputs, st0)
  }

  // ----- running -----

  datatype Turn = Leave(outcome: Outcome) | Repeat(state: State)

  /** Runs a body.  `fuel` bounds the turns of each loop and the depth of calls, and nothing else. */
  ghost function RunSeq(m: Machine, c: Context, s: seq<Expr>, st: State, fuel: nat): Outcome
    decreases fuel, SizeSeq(s), 6, |s|
  {
    if s == [] then Next(st)
    else
      match RunExpr(m, c, s[0], st, fuel)
      case Next(st1) => RunSeq(m, c, s[1..], st1, fuel)
      case other => other
  }

  ghost function RunExpr(m: Machine, c: Context, e: Expr, st: State, fuel: nat): Outcome
    decreases fuel, SizeExpr(e), 5
  {
    match e
    case Lit(v) => Next(Push(st, Number(v)))
    case WordRef(name) => RunWord(m, c, name, st, fuel)
    case If(thenBody, elseBody) =>
      if |st.stack| == 0 then Underflow
      else if !Top(st.stack).Number? then Fault
      else if Top(st.stack).n != 0 then RunSeq(m, c, thenBody, Pop(st), fuel)
      else RunElse(m, c, elseBody, Pop(st), fuel)
    case Case(arms, default) => RunArms(m, c, arms, default, st, fuel)
    case DoLoop(isQdo, _, _) =>
      if |st.stack| < 2 then Underflow
      else if !Top(st.stack).Number? || !Top(Drop(st.stack)).Number? then Fault
      else
        var start, limit := Top(st.stack).n, Top(Drop(st.stack)).n;
        var st1 := Pop(Pop(st));
        if isQdo && limit == start then Next(st1)
        else RunLoop(m, c, e, PushFrame(st1, limit, start), fuel)
    case Tick(name) => Next(Push(st, Xt(Lower(name))))
    case To(name) => SetValue(Lower(name), st)
    case Global(access, name) => RunGlobal(m, access, name, st)
    case Locals(names) => BindLocals(names, st)
    case _ => RunLoop(m, c, e, st, fuel)
  }

  ghost function RunElse(m: Machine, c: Context, e: Else, st: State, fuel: nat): Outcome
    decreases fuel, SizeElse(e), 1
  {
    match e
    case NoElse => Next(st)
    case ElseBody(body) => RunSeq(m, c, body, st, fuel)
  }

  function GetValue(name: string, st: State): Outcome {
    if name in st.world.values then Next(Push(st, st.world.values[name])) else Fault
  }

  function SetValue(name: string, st: State): Outcome {
    if |st.stack| == 0 then Underflow
    else Next(Pop(st).(world := st.world.(values := st.world.values[name := Top(st.stack)])))
  }

  /** Adding pushes the value of the global, adds, and stores the sum. */
  function RunGlobal(m: Machine, access: Access, name: string, st: State): Outcome {
    match access
    case Get => GetValue(name, st)
    case Set => SetValue(name, st)
    case Add =>
      match GetValue(name, st)
      case Next(st1) =>
        (match RunPrim(m, "+", st1)
         case Next(st2) => SetValue(name, st2)
         case other => other)
      case other => other
  }

  /** A variable pushes its address and a VALUE what it holds; one that has become a global stands only
      in accesses. */
  function RunVar(storage: Storage, lc: string, st: State): Outcome {
    match storage
    case Variable(Wide) => Next(Push(st, Address(lc, 0)))
    case Variable(Narrow) => Fault
    case Value => GetValue(lc, st)
  }

  /** A word: a local pushes its value, a definition is called, EXIT returns, RECURSE calls the
      enclosing definition, anything else is a builtin. */
  ghost function RunWord(m: Machine, c: Context, name: string, st: State, fuel: nat): Outcome
    decreases fuel, 0, 0
  {
    var lc := Lower(name);
    match Resolve(m.NamesOf(c), name)
    case Local => if lc in st.locals then Next(Push(st, st.locals[lc])) else Fault
    case UserDefined =>
      if lc !in m.defs then RunVar(m.vars[lc], lc, st)
      else if fuel == 0 then Timeout
      else Call(m, lc, st, fuel - 1)
    case Return => Exit(st)
    case Builtin =>
      if lc == "recurse" then
        if Lower(c.self) !in m.defs then Fault
        else if fuel == 0 then Timeout
        else Call(m, Lower(c.self), st, fuel - 1)
      else RunPrim(m, lc, st)
  }

  function RunPrim(m: Machine, lc: string, st: State): Outcome {
    match m.prim(lc, st.stack, st.world)
    case Done(stack, world) => Next(st.(stack := stack, world := world))
    case PrimUnderflow => Underflow
    case PrimFault => Fault
  }

  /** Calls a definition in a new frame; EXIT ends the call. */
  ghost function Call(m: Machine, lc: string, st: State, fuel: nat): Outcome
    requires lc in m.defs
    decreases fuel
  {
    var d := m.defs[lc];
    match Enter(m, d, st)
    case Next(entry) => EndCall(m, st, entry, RunSeq(m, Context(d.scope, lc), d.body, entry, fuel))
    case other => other
  }

  /** The caller's view of a finished body. */
  function EndCall(m: Machine, caller: State, entry: State, o: Outcome): Outcome {
    match o
    case Next(st) => Next(st.(locals := caller.locals))
    case Exit(st) => Next(st.(locals := caller.locals, stack := if m.restoring then entry.stack else st.stack))
    case other => other
  }

  /** CASE: each OF needs a selector and compares the match value with it; ENDCASE drops the selector. */
  ghost function RunArms(m: Machine, c: Context, arms: seq<Arm>, default: Else, st: State, fuel: nat): Outcome
    decreases fuel, SizeArms(arms) + SizeElse(default), 2
  {
    if arms == [] then
      match RunElse(m, c, default, st, fuel)
      case Next(st1) => if |st1.stack| == 0 then Underflow else Next(Pop(st1))
      case other => other
    else if |st.stack| == 0 then Underflow
    else
      match RunSeq(m, c, arms[0].matchExpr, st, fuel)
      case Next(st1) =>
        if |st1.stack| < 2 then Underflow
        else if Top(st1.stack) == Top(Drop(st1.stack)) then RunSeq(m, c, arms[0].body, Pop(Pop(st1)), fuel)
        else RunArms(m, c, arms[1..], default, Pop(st1), fuel)
      case other => other
  }

  function PushFrame(st: State, limit: int, start: int): State {
    st.(world := st.world.(loops := st.world.loops + [LoopFrame(limit, start, false)]))
  }

  /** The end of a DO iteration: the step is added to the index of the innermost frame; the loop ends
      when LEAVE has been executed or the limit is reached, and its frame is dropped. */
  function Bump(st: State, step: int): Turn {
    var n := |st.world.loops|;
    if n == 0 then Leave(Fault)
    else
      var frame := st.world.loops[n - 1];
      var next := frame.(index := frame.index + step);
      if frame.left || next.index >= frame.limit
      then Leave(Next(st.(world := st.world.(loops := st.world.loops[..n - 1]))))
      else Repeat(st.(world := st.world.(loops := st.world.loops[n - 1 := next])))
  }

  ghost function RunLoop(m: Machine, c: Context, e: Expr, st: State, fuel: nat): Outcome
    requires IsLoop(e)
    decreases fuel, SizeExpr(e), 4
  {
    if fuel == 0 then Timeout
    else
      match LoopTurn(m, c, e, st, fuel)
      case Leave(o) => o
      case Repeat(st1) => RunLoop(m, c, e, st1, fuel - 1)
  }

  /** One iteration of a loop. */
  ghost function LoopTurn(m: Machine, c: Context, e: Expr, st: State, fuel: nat): Turn
    requires IsLoop(e)
    decreases fuel, SizeExpr(e), 3
  {
    match e
    case BeginUntil(body) => UntilTurn(RunSeq(m, c, body, st, fuel))
    case BeginAgain(body) => AgainTurn(RunSeq(m, c, body, st, fuel))
    case BeginWhileRepeat(pred, body) =>
      (match WhileTest(RunSeq(m, c, pred, st, fuel))
       case Repeat(st1) => AgainTurn(RunSeq(m, c, body, st1, fuel))
       case leave => leave)
    case DoLoop(_, body, kind) => DoTurn(kind, RunSeq(m, c, body, st, fuel))
  }

  /** UNTIL pops a flag and ends the loop when it is true. */
  function UntilTurn(o: Outcome): Turn {
    match o
    case Next(st) =>
      if |st.stack| == 0 then Leave(Underflow)
      else if !Top(st.stack).Number? then Leave(Fault)
      else if Top(st.stack).n != 0 then Leave(Next(Pop(st)))
      else Repeat(Pop(st))
    case other => Leave(other)
  }

  /** WHILE pops a flag and ends the loop when it is false. */
  function WhileTest(o: Outcome): Turn {
    match o
    case Next(st) =>
      if |st.stack| == 0 then Leave(Underflow)
      else if !Top(st.stack).Number? then Leave(Fault)
      else if Top(st.stack).n != 0 then Repeat(Pop(st))
      else Leave(Next(Pop(st)))
    case other => Leave(other)
  }

  function AgainTurn(o: Outcome): Turn {
    match o
    case Next(st) => Repeat(st)
    case other => Leave(other)
  }

  /** LOOP steps by one; +LOOP takes the step from the stack. */
  function DoTurn(kind: LoopKind, o: Outcome): Turn {
    match o
    case Next(st) =>
      if kind == Plus1 then Bump(st, 1)
      else if |st.stack| == 0 then Leave(Underflow)
      else if !Top(st.stack).Number? then Leave(Fault)
      else Bump(Pop(st), Top(st.stack).n)
    case other => Leave(other)
  }
}
