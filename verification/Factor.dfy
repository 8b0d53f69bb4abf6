/** The Factor quotations that the compiler emits, and what they do. */
module Factor {
  import opened Common
  import opened Forth

  // ----- quotations -----

  /** Factor's data stack holds cells, the booleans t and f, and the symbols that name globals. */
  datatype Value = V(cell: Cell) | T | F | Sym(key: string)

  /** A combinator stands together with its literal quotations.  Words written without a vocabulary are
      hidden by a local of the same name once it is bound: `Bare` words, some builtins, the program's own
      words and the symbols of its VALUEs, each under the name it is written with. */
  datatype Token =
    | Num(n: int)
    | Bare(name: string)
    | KernelDrop
    | ZeroP
    | IfTok(onTrue: seq<Token>, onFalse: seq<Token>)
    | UnlessTok(quot: seq<Token>)
    | LoopTok(quot: seq<Token>)
    | DoTok(isQdo: bool, quot: seq<Token>)
    | WithReturn(quot: seq<Token>)
    | ReturnTok
    | LocalTok(name: string)
    | UserTok(name: string)
    | PrimTok(name: string, written: Option<string>)
    | SymTok(name: string, key: string)
    | XtTok(written: Option<string>, target: string)
    | Bind(name: string)
    | Discard

  function SizeQ(q: seq<Token>): nat
    decreases q
  {
    if q == [] then 0 else SizeTok(q[0]) + SizeQ(q[1..])
  }

  function SizeTok(t: Token): (n: nat)
    ensures n >= 1
    decreases t
  {
    match t
    case IfTok(a, b) => 1 + SizeQ(a) + SizeQ(b)
    case UnlessTok(q) => 1 + SizeQ(q)
    case LoopTok(q) => 1 + SizeQ(q)
    case DoTok(_, q) => 1 + SizeQ(q)
    case WithReturn(q) => 1 + SizeQ(q)
    case _ => 1
  }

  // ----- machine -----

  datatype FState = FState(stack: seq<Value>, locals: map<string, Cell>, world: World)

  /** `FReturn` is a `return` on its way to the innermost `with-return`. */
  datatype FOutcome =
    | FNext(state: FState)
    | FReturn(state: FState)
    | FUnderflow
    | FFault
    | FTimeout

  /** A definition, the symbol of a global, the reader of an address, or the reader of a VALUE. */
  datatype FWord = Colon(scope: set<string>, body: seq<Token>) | Symbol(key: string) | Reader(name: string)
                 | Holder(key: string)

  /** A local bound inside a quotation is gone behind it; without `lexical` it stays, as if a word had one
      frame of locals. */
  datatype FMachine = FMachine(words: map<string, FWord>, prim: (string, seq<Cell>, World) -> PrimResult,
                               lexical: bool)

  function TopV(s: seq<Value>): Value
    requires |s| > 0
  {
    s[|s| - 1]
  }

  function DropV(s: seq<Value>): seq<Value>
    requires |s| > 0
  {
    s[..|s| - 1]
  }

  function PushV(fs: FState, v: Value): FState {
    fs.(stack := fs.stack + [v])
  }

  function PopV(fs: FState): FState
    requires |fs.stack| > 0
  {
    fs.(stack := DropV(fs.stack))
  }

  predicate IsNumber(v: Value) {
    v.V? && v.cell.Number?
  }

  function AsValues(s: seq<Cell>): (v: seq<Value>)
    ensures |v| == |s| && forall i :: 0 <= i < |s| ==> v[i] == V(s[i])
  {
    seq(|s|, i requires 0 <= i < |s| => V(s[i]))
  }

  predicate AllCells(s: seq<Value>) {
    forall v <- s :: v.V?
  }

  function AsCells(s: seq<Value>): (v: seq<Cell>)
    requires AllCells(s)
    ensures |v| == |s| && forall i :: 0 <= i < |s| ==> v[i] == s[i].cell
  {
    seq(|s|, i requires 0 <= i < |s| => s[i].cell)
  }

  // ----- running -----

  ghost function RunQ(m: FMachine, scope: set<string>, q: seq<Token>, fs: FState, fuel: nat): FOutcome
    decreases fuel, SizeQ(q), 3, |q|
  {
    if q == [] then FNext(fs)
    else
      match RunTok(m, scope, q[0], fs, fuel)
      case FNext(fs1) => RunQ(m, scope, q[1..], fs1, fuel)
      case other => other
  }

  /** A local of the word being run goes by this name. */
  predicate Hidden(scope: set<string>, fs: FState, name: string) {
    name in scope && name in fs.locals
  }

  /** The name under which a token is looked up among the locals first, if it is written bare. */
  function Spelling(t: Token): Option<string> {
    match t
    case Bare(name) => Some(name)
    case UserTok(name) => Some(name)
    case PrimTok(_, written) => written
    case SymTok(name, _) => Some(name)
    case XtTok(written, _) => written
    case _ => None
  }

  predicate Captured(scope: set<string>, t: Token, fs: FState) {
    Spelling(t).Some? && Hidden(scope, fs, Spelling(t).value)
  }

  /** A captured word pushes the local; a quotation around a captured word is not the token it should be. */
  ghost function RunTok(m: FMachine, scope: set<string>, t: Token, fs: FState, fuel: nat): FOutcome
    decreases fuel, SizeTok(t), 2
  {
    if Captured(scope, t, fs) then if t.XtTok? then FFault else RunLocal(Spelling(t).value, fs)
    else
      match t
      case Num(n) => FNext(PushV(fs, V(Number(n))))
      case Bare(name) => if name == "+" then RunPrimQ(m, name, fs) else RunBare(name, fs)
      case KernelDrop => RunBare("drop", fs)
      case ZeroP => RunZero(fs)
      case IfTok(a, b) =>
        if |fs.stack| == 0 then FUnderflow
        else Close(m, fs, RunQ(m, scope, if TopV(fs.stack) != F then a else b, PopV(fs), fuel))
      case UnlessTok(q) =>
        if |fs.stack| == 0 then FUnderflow
        else if TopV(fs.stack) != F then FNext(PopV(fs)) else Close(m, fs, RunQ(m, scope, q, PopV(fs), fuel))
      case LoopTok(_) => RunLoopQ(m, scope, t, fs, fuel)
      case DoTok(isQdo, _) =>
        if |fs.stack| < 2 then FUnderflow
        else if !IsNumber(TopV(fs.stack)) || !IsNumber(TopV(DropV(fs.stack))) then FFault
        else
          var start, limit := TopV(fs.stack).cell.n, TopV(DropV(fs.stack)).cell.n;
          var fs1 := PopV(PopV(fs));
          if isQdo && limit == start then FNext(fs1)
          else RunLoopQ(m, scope, t, EnterLoop(fs1, limit, start), fuel)
      case WithReturn(q) => Caught(fs, Close(m, fs, RunQ(m, scope, q, fs, fuel)))
      case ReturnTok => FReturn(fs)
      case LocalTok(name) => RunLocal(name, fs)
      case UserTok(name) => RunUser(m, name, fs, fuel)
      case PrimTok(name, _) => RunPrimQ(m, name, fs)
      case SymTok(_, key) => FNext(PushV(fs, Sym(key)))
      case XtTok(_, target) => FNext(PushV(fs, V(Xt(target))))
      case Bind(name) =>
        if |fs.stack| == 0 then FUnderflow
        else if !TopV(fs.stack).V? then FFault
        else FNext(PopV(fs).(locals := fs.locals[name := TopV(fs.stack).cell]))
      case Discard => if |fs.stack| == 0 then FUnderflow else FNext(PopV(fs))
  }

  /** The end of a quotation: the locals of the code around it are visible again. */
  function Close(m: FMachine, outer: FState, o: FOutcome): FOutcome {
    if !m.lexical then o
    else
      match o
      case FNext(fs) => FNext(fs.(locals := outer.locals))
      case FReturn(fs) => FReturn(fs.(locals := outer.locals))
      case other => other
  }

  function RunLocal(name: string, fs: FState): FOutcome {
    if name in fs.locals then FNext(PushV(fs, V(fs.locals[name]))) else FFault
  }

  /** `zero?` has methods for numbers only. */
  function RunZero(fs: FState): FOutcome {
    if |fs.stack| == 0 then FUnderflow
    else if !IsNumber(TopV(fs.stack)) then FFault
    else FNext(PushV(PopV(fs), if TopV(fs.stack).cell.n == 0 then T else F))
  }

  ghost function RunUser(m: FMachine, name: string, fs: FState, fuel: nat): FOutcome
    decreases fuel, 0
  {
    if name !in m.words then FFault
    else
      match m.words[name]
      case Colon(_, _) => if fuel == 0 then FTimeout else CallQ(m, name, fs, fuel - 1)
      case Symbol(key) => FNext(PushV(fs, Sym(key)))
      case Reader(x) => FNext(PushV(fs, V(Address(x, 0))))
      case Holder(key) => GetQ(key, fs)
  }

  /** A global that was never set is a fault; emitted programs set every global they declare. */
  function GetQ(key: string, fs: FState): FOutcome {
    if key in fs.world.values then FNext(PushV(fs, V(fs.world.values[key]))) else FFault
  }

  function RunBare(name: string, fs: FState): FOutcome {
    match name
    case "t" => FNext(PushV(fs, T))
    case "f" => FNext(PushV(fs, F))
    case "dup" => if |fs.stack| == 0 then FUnderflow else FNext(PushV(fs, TopV(fs.stack)))
    case "drop" => if |fs.stack| == 0 then FUnderflow else FNext(PopV(fs))
    case "=" =>
      if |fs.stack| < 2 then FUnderflow
      else FNext(PushV(PopV(PopV(fs)), if TopV(fs.stack) == TopV(DropV(fs.stack)) then T else F))
    case "get-global" =>
      if |fs.stack| == 0 then FUnderflow
      else if !TopV(fs.stack).Sym? then FFault
      else GetQ(TopV(fs.stack).key, PopV(fs))
    case "set-global" =>
      if |fs.stack| < 2 then FUnderflow
      else if !TopV(fs.stack).Sym? || !TopV(DropV(fs.stack)).V? then FFault
      else
        var values := fs.world.values[TopV(fs.stack).key := TopV(DropV(fs.stack)).cell];
        FNext(PopV(PopV(fs)).(world := fs.world.(values := values)))
    case _ => FFault
  }

  function RunPrimQ(m: FMachine, name: string, fs: FState): FOutcome {
    if !AllCells(fs.stack) then FFault
    else
      match m.prim(name, AsCells(fs.stack), fs.world)
      case Done(stack, world) => FNext(fs.(stack := AsValues(stack), world := world))
      case PrimUnderflow => FUnderflow
      case PrimFault => FFault
  }

  /** A continuation captured on entry: taking it restores the data stack, not the world. */
  function Caught(entry: FState, o: FOutcome): FOutcome {
    match o
    case FReturn(fs) => FNext(fs.(stack := entry.stack))
    case other => other
  }

  /** A call runs in its own frame of locals; a `return` that it does not catch goes on to the caller. */
  ghost function CallQ(m: FMachine, name: string, fs: FState, fuel: nat): FOutcome
    requires name in m.words && m.words[name].Colon?
    decreases fuel
  {
    Restored(fs, RunQ(m, m.words[name].scope, m.words[name].body, fs.(locals := map[]), fuel))
  }

  function Restored(caller: FState, o: FOutcome): FOutcome {
    match o
    case FNext(fs) => FNext(fs.(locals := caller.locals))
    case FReturn(fs) => FReturn(fs.(locals := caller.locals))
    case other => other
  }

  function EnterLoop(fs: FState, limit: int, start: int): FState {
    fs.(world := fs.world.(loops := fs.world.loops + [LoopFrame(limit, start, false)]))
  }

  datatype FTurn = FLeave(outcome: FOutcome) | FRepeat(state: FState)

  ghost function RunLoopQ(m: FMachine, scope: set<string>, t: Token, fs: FState, fuel: nat): FOutcome
    requires t.LoopTok? || t.DoTok?
    decreases fuel, SizeTok(t), 1
  {
    if fuel == 0 then FTimeout
    else
      match TurnQ(t, Close(m, fs, RunQ(m, scope, t.quot, fs, fuel)))
      case FLeave(o) => o
      case FRepeat(fs1) => RunLoopQ(m, scope, t, fs1, fuel - 1)
  }

  /** `loop` goes on while the quotation leaves anything but f; the runtime's `do-loop` takes the step. */
  function TurnQ(t: Token, o: FOutcome): FTurn
    requires t.LoopTok? || t.DoTok?
  {
    match o
    case FNext(fs) =>
      if |fs.stack| == 0 then FLeave(FUnderflow)
      else if t.LoopTok? then if TopV(fs.stack) != F then FRepeat(PopV(fs)) else FLeave(FNext(PopV(fs)))
      else if !IsNumber(TopV(fs.stack)) then FLeave(FFault)
      else BumpQ(PopV(fs), TopV(fs.stack).cell.n)
    case other => FLeave(other)
  }

  function BumpQ(fs: FState, step: int): FTurn {
    var n := |fs.world.loops|;
    if n == 0 then FLeave(FFault)
    else
      var frame := fs.world.loops[n - 1];
      var next := frame.(index := frame.index + step);
      if frame.left || next.index >= frame.limit
      then FLeave(FNext(fs.(world := fs.world.(loops := fs.world.loops[..n - 1]))))
      else FRepeat(fs.(world := fs.world.(loops := fs.world.loops[n - 1 := next])))
  }

  // ----- sequencing -----

  ghost function ThenQ(m: FMachine, scope: set<string>, o: FOutcome, q: seq<Token>, fuel: nat): FOutcome {
    match o
    case FNext(fs) => RunQ(m, scope, q, fs, fuel)
    case other => other
  }

  lemma {:induction false} RunQConcat(m: FMachine, scope: set<string>, a: seq<Token>, b: seq<Token>, fs: FState,
                                      fuel: nat)
    ensures RunQ(m, scope, a + b, fs, fuel) == ThenQ(m, scope, RunQ(m, scope, a, fs, fuel), b, fuel)
    decreases a
  {
    if a == [] {
      assert a + b == b;
    } else {
      assert (a + b)[0] == a[0] && (a + b)[1..] == a[1..] + b;
      match RunTok(m, scope, a[0], fs, fuel)
      case FNext(fs1) => RunQConcat(m, scope, a[1..], b, fs1, fuel);
      case _ =>
    }
  }

  lemma RunQOne(m: FMachine, scope: set<string>, t: Token, fs: FState, fuel: nat)
    ensures RunQ(m, scope, [t], fs, fuel) == RunTok(m, scope, t, fs, fuel)
  {
    assert [t][1..] == [];
    match RunTok(m, scope, t, fs, fuel)
    case FNext(fs1) => assert RunQ(m, scope, [], fs1, fuel) == FNext(fs1);
    case _ =>
  }

  lemma RunQCons(m: FMachine, scope: set<string>, t: Token, q: seq<Token>, fs: FState, fuel: nat)
    ensures RunQ(m, scope, [t] + q, fs, fuel) == ThenQ(m, scope, RunTok(m, scope, t, fs, fuel), q, fuel)
  {
    RunQConcat(m, scope, [t], q, fs, fuel);
    RunQOne(m, scope, t, fs, fuel);
  }

  lemma RunQSnoc(m: FMachine, scope: set<string>, q: seq<Token>, t: Token, fs: FState, fuel: nat)
    ensures RunQ(m, scope, q + [t], fs, fuel) ==
            match RunQ(m, scope, q, fs, fuel)
            case FNext(fs1) => RunTok(m, scope, t, fs1, fuel)
            case other => other
  {
    RunQConcat(m, scope, q, [t], fs, fuel);
    match RunQ(m, scope, q, fs, fuel)
    case FNext(fs1) => RunQOne(m, scope, t, fs1, fuel);
    case _ =>
  }

  // ----- names written bare -----

  /** None of the given names is written bare in the quotation, at any depth.  A hidden `t` does no harm: it
      is only used as a value that is not f. */
  predicate ClearQ(q: seq<Token>, names: set<string>)
    decreases q
  {
    q != [] ==> ClearTok(q[0], names) && ClearQ(q[1..], names)
  }

  predicate ClearTok(t: Token, names: set<string>)
    decreases t
  {
    && (Spelling(t).Some? && Spelling(t).value in names ==> t == Bare("t"))
    && match t
       case IfTok(a, b) => ClearQ(a, names) && ClearQ(b, names)
       case UnlessTok(q) => ClearQ(q, names)
       case LoopTok(q) => ClearQ(q, names)
       case DoTok(_, q) => ClearQ(q, names)
       case WithReturn(q) => ClearQ(q, names)
       case _ => true
  }

  lemma {:induction false} ClearConcat(a: seq<Token>, b: seq<Token>, names: set<string>)
    ensures ClearQ(a + b, names) <==> ClearQ(a, names) && ClearQ(b, names)
    decreases a
  {
    if a == [] {
      assert a + b == b;
    } else {
      assert (a + b)[0] == a[0] && (a + b)[1..] == a[1..] + b;
      ClearConcat(a[1..], b, names);
    }
  }

  lemma ClearOne(t: Token, names: set<string>)
    ensures ClearQ([t], names) <==> ClearTok(t, names)
  {
    assert [t][1..] == [];
  }

  // ----- every `return` is caught -----

  /** Every `return` lies inside a `with-return`. */
  predicate GuardedQ(q: seq<Token>)
    decreases q
  {
    q != [] ==> GuardedTok(q[0]) && GuardedQ(q[1..])
  }

  predicate GuardedTok(t: Token)
    decreases t
  {
    match t
    case ReturnTok => false
    case IfTok(a, b) => GuardedQ(a) && GuardedQ(b)
    case UnlessTok(q) => GuardedQ(q)
    case LoopTok(q) => GuardedQ(q)
    case DoTok(_, q) => GuardedQ(q)
    case _ => true
  }

  predicate GuardedProgram(m: FMachine) {
    forall w :: w in m.words && m.words[w].Colon? ==> GuardedQ(m.words[w].body)
  }

  /** In a program all of whose `return`s are caught, no guarded quotation returns, whatever it calls. */
  lemma {:induction false} GuardedStays(m: FMachine, scope: set<string>, q: seq<Token>, fs: FState, fuel: nat)
    requires GuardedProgram(m) && GuardedQ(q)
    ensures !RunQ(m, scope, q, fs, fuel).FReturn?
    decreases fuel, SizeQ(q), 3, |q|
  {
    if q != [] {
      GuardedTokStays(m, scope, q[0], fs, fuel);
      match RunTok(m, scope, q[0], fs, fuel)
      case FNext(fs1) => GuardedStays(m, scope, q[1..], fs1, fuel);
      case _ =>
    }
  }

  lemma {:induction false} GuardedTokStays(m: FMachine, scope: set<string>, t: Token, fs: FState, fuel: nat)
    requires GuardedProgram(m) && GuardedTok(t)
    ensures !RunTok(m, scope, t, fs, fuel).FReturn?
    decreases fuel, SizeTok(t), 2
  {
    if !Captured(scope, t, fs) {
      match t
      case IfTok(a, b) =>
        if |fs.stack| > 0 {
          GuardedStays(m, scope, a, PopV(fs), fuel);
          GuardedStays(m, scope, b, PopV(fs), fuel);
        }
      case UnlessTok(q) => if |fs.stack| > 0 { GuardedStays(m, scope, q, PopV(fs), fuel); }
      case LoopTok(_) => GuardedLoopStays(m, scope, t, fs, fuel);
      case DoTok(_, _) =>
        if |fs.stack| >= 2 && IsNumber(TopV(fs.stack)) && IsNumber(TopV(DropV(fs.stack))) {
          var fs1 := PopV(PopV(fs));
          GuardedLoopStays(m, scope, t, EnterLoop(fs1, TopV(DropV(fs.stack)).cell.n, TopV(fs.stack).cell.n), fuel);
        }
      case UserTok(name) => GuardedUserStays(m, name, fs, fuel);
      case _ =>
    }
  }

  lemma {:induction false} GuardedUserStays(m: FMachine, name: string, fs: FState, fuel: nat)
    requires GuardedProgram(m)
    ensures !RunUser(m, name, fs, fuel).FReturn?
    decreases fuel, 0
  {
    if name in m.words && m.words[name].Colon? && fuel > 0 {
      GuardedStays(m, m.words[name].scope, m.words[name].body, fs.(locals := map[]), fuel - 1);
    }
  }

  lemma {:induction false} GuardedLoopStays(m: FMachine, scope: set<string>, t: Token, fs: FState, fuel: nat)
    requires (t.LoopTok? || t.DoTok?) && GuardedProgram(m) && GuardedTok(t)
    ensures !RunLoopQ(m, scope, t, fs, fuel).FReturn?
    decreases fuel, SizeTok(t), 1
  {
    if fuel > 0 {
      GuardedStays(m, scope, t.quot, fs, fuel);
      match TurnQ(t, Close(m, fs, RunQ(m, scope, t.quot, fs, fuel)))
      case FRepeat(fs1) => GuardedLoopStays(m, scope, t, fs1, fuel - 1);
      case _ =>
    }
  }

  lemma {:induction false} GuardedConcat(a: seq<Token>, b: seq<Token>)
    ensures GuardedQ(a + b) <==> GuardedQ(a) && GuardedQ(b)
    decreases a
  {
    if a == [] {
      assert a + b == b;
    } else {
      assert (a + b)[0] == a[0] && (a + b)[1..] == a[1..] + b;
      GuardedConcat(a[1..], b);
    }
  }
}
