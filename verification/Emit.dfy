/** Emitting Factor quotations for a Forth body (src/compiler/emit.rs). */
module Emit {
  import opened Common
  import opened Forth
  import opened Equivalence
  import opened Factor
  import opened Scopes
  import opened Escape
  import opened Globals
  import opened Effects
  import opened EffectSound
  import Frame
  import LowerExit
  import LowerQdup

  // ----- names -----

  /** The name under which a word of the program is written (factor_user_name). */
  function Mangle(lc: string): string {
    "z-" + (if lc == "->" then "arrow" else if lc == "}t" then "end-test" else if lc == "t{" then "begin-test" else lc)
  }

  /** Two words that are written alike. */
  predicate Clash(a: string, b: string) {
    (a == "->" && b == "arrow") || (a == "}t" && b == "end-test") || (a == "t{" && b == "begin-test")
  }

  /** Words are written alike if and only if they are the same or clash. */
  lemma MangleExactly(a: string, b: string)
    ensures Mangle(a) == Mangle(b) <==> a == b || Clash(a, b) || Clash(b, a)
  {
    assert Mangle(a)[2..] == Mangle(b)[2..] <==> Mangle(a) == Mangle(b) by {
      assert Mangle(a) == "z-" + Mangle(a)[2..] && Mangle(b) == "z-" + Mangle(b)[2..];
    }
    assert forall x: string :: ("z-" + x)[2..] == x;
  }

  predicate NoClash(words: set<string>) {
    forall a, b :: a in words && b in words ==> !Clash(a, b)
  }

  /** The symbol that holds what a VALUE holds. */
  function Holding(lc: string): string {
    "nf-value-" + lc
  }

  /** A local is bound under a name without dots, and referred to with them: the two are the same if and
      only if there is no dot. */
  lemma SanitizedExactly(name: string)
    ensures Sanitized(name) == name <==> '.' !in name
  {
    if '.' in name {
      var i :| 0 <= i < |name| && name[i] == '.';
      assert Sanitized(name)[i] == '_';
    }
  }

  /** The builtins that resolution leaves without a vocabulary, with the names under which they are
      written. */
  const bareBuiltins: seq<(string, string)> := [
    ("dup", "dup"), ("drop", "drop"), ("swap", "swap"), ("over", "over"), ("rot", "rot"), ("nip", "nip"),
    ("tuck", "tuck"), ("+", "+"), ("-", "-"), ("*", "*"), ("/", "/i"), ("negate", "neg"), ("abs", "abs"),
    ("min", "min"), ("max", "max"), ("and", "bitand"), ("or", "bitor"), ("xor", "bitxor"), ("invert", "bitnot"),
    ("2dup", "2dup"), ("2drop", "2drop"), ("-rot", "-rot")]

  function Find(table: seq<(string, string)>, lc: string): Option<string> {
    if table == [] then None else if table[0].0 == lc then Some(table[0].1) else Find(table[1..], lc)
  }

  /** The name under which a builtin is written, if it is written without a vocabulary. */
  function Written(lc: string): Option<string> {
    Find(bareBuiltins, lc)
  }

  // ----- the translation -----

  function EmitWord(n: Names, name: string): Token {
    var lc := Lower(name);
    match Resolve(n, name)
    case Local => LocalTok(lc)
    case UserDefined => UserTok(Mangle(lc))
    case Return => ReturnTok
    case Builtin => PrimTok(lc, Written(lc))
  }

  /** The name of the word inside the quotation of a tick, if it is written without a vocabulary. */
  function TickName(n: Names, name: string): Option<string> {
    var lc := Lower(name);
    match Resolve(n, name)
    case Local => Some(lc)
    case UserDefined => Some(Mangle(lc))
    case _ => Written(lc)
  }

  function EmitSeq(n: Names, s: seq<Expr>): seq<Token>
    decreases SizeSeq(s), 2, |s|
  {
    if s == [] then [] else EmitExpr(n, s[0]) + EmitSeq(n, s[1..])
  }

  function EmitExpr(n: Names, e: Expr): seq<Token>
    decreases SizeExpr(e), 1
  {
    match e
    case Lit(v) => [Num(v)]
    case WordRef(name) => [EmitWord(n, name)]
    case If(thenBody, NoElse) => [ZeroP, UnlessTok(EmitSeq(n, thenBody))]
    case If(thenBody, ElseBody(_)) => [ZeroP, IfTok(EmitElse(n, e.elseBody), EmitSeq(n, thenBody))]
    case Case(arms, default) => EmitCase(n, arms, default)
    case Tick(name) => [XtTok(TickName(n, name), Lower(name))]
    case To(name) => [SymTok(Holding(Lower(name)), Lower(name)), Bare("set-global")]
    case Locals(names) => EmitBinds(names)
    case Global(access, name) => EmitGlobal(access, name)
    case _ => [EmitLoop(n, e)]
  }

  /** A word of the program that is the symbol of a global, and what is done with that global. */
  function EmitGlobal(access: Access, x: string): seq<Token> {
    match access
    case Get => [UserTok(Mangle(x)), Bare("get-global")]
    case Set => [UserTok(Mangle(x)), Bare("set-global")]
    case Add => [UserTok(Mangle(x)), Bare("get-global")] + ([Bare("+")] + [UserTok(Mangle(x)), Bare("set-global")])
  }

  function EmitElse(n: Names, e: Else): seq<Token>
    decreases SizeElse(e), 0
  {
    match e
    case NoElse => []
    case ElseBody(body) => EmitSeq(n, body)
  }

  /** UNTIL and AGAIN end in the flag that `loop` wants; WHILE tests inside the quotation; LOOP adds the
      step one. */
  function EmitLoop(n: Names, e: Expr): (t: Token)
    requires IsLoop(e)
    ensures t.LoopTok? || t.DoTok?
    decreases SizeExpr(e), 0
  {
    match e
    case BeginUntil(body) => LoopTok(EmitSeq(n, body) + [ZeroP])
    case BeginAgain(body) => LoopTok(EmitSeq(n, body) + [Bare("t")])
    case BeginWhileRepeat(pred, body) =>
      LoopTok(EmitSeq(n, pred) + [ZeroP, IfTok([Bare("f")], EmitSeq(n, body) + [Bare("t")])])
    case DoLoop(isQdo, body, kind) => DoTok(isQdo, EmitSeq(n, body) + if kind == Plus1 then [Num(1)] else [])
  }

  /** A chain of tests on copies of the selector; the innermost alternative drops it. */
  function EmitCase(n: Names, arms: seq<Arm>, default: Else): seq<Token>
    decreases SizeArms(arms) + SizeElse(default), 1
  {
    if arms == [] then EmitElse(n, default) + [KernelDrop]
    else [Bare("dup")] + EmitSeq(n, arms[0].matchExpr) + EmitTest(n, arms, default)
  }

  /** The comparison of the first arm, and both ways to go on. */
  function EmitTest(n: Names, arms: seq<Arm>, default: Else): seq<Token>
    requires arms != []
    decreases SizeArms(arms) + SizeElse(default), 0
  {
    [Bare("="), IfTok([Bare("drop")] + EmitSeq(n, arms[0].body), EmitCase(n, arms[1..], default))]
  }

  /** `_` only takes an item. */
  function EmitBind(name: string): Token {
    if name == "_" then Discard else Bind(Sanitized(Lower(name)))
  }

  /** Locals are bound from the rightmost, which is on top. */
  function EmitBinds(names: seq<string>): seq<Token>
    decreases |names|
  {
    if names == [] then [] else [EmitBind(names[|names| - 1])] + EmitBinds(names[..|names| - 1])
  }

  /** What precedes the body of a definition whose locals are all bound inside it: its inputs are bound, the
      rightmost on top of the stack, and pushed back. */
  function Restore(names: seq<string>): seq<Token> {
    TakeInputs(names) + PushInputs(names)
  }

  function TakeInputs(names: seq<string>): seq<Token>
    decreases |names|
  {
    if names == [] then [] else [Bind(names[|names| - 1])] + TakeInputs(names[..|names| - 1])
  }

  function PushInputs(names: seq<string>): seq<Token> {
    if names == [] then [] else [LocalTok(names[0])] + PushInputs(names[1..])
  }

  /** The locals of the emitted word. */
  function Scope(d: Definition): set<string> {
    d.scope + Among(Inputs(d))
  }

  /** A definition binds its parameters, or restores its inputs, and catches `return` if an EXIT is left in
      its body. */
  function EmitDef(d: Definition, words: set<string>): FWord {
    Colon(Scope(d), EmitBinds(d.params) + (Restore(Inputs(d)) + EmitBody(Names(d.scope, words), d.body)))
  }

  function EmitBody(n: Names, s: seq<Expr>): seq<Token> {
    if LowerExit.SeqUsesExit(n, s) then [WithReturn(EmitSeq(n, s))] else EmitSeq(n, s)
  }

  /** What stands for a word of the program: its definition, or the reader of its data. */
  function EmitNamed(m: Machine, w: string): FWord
    requires w in m.Words()
  {
    if w in m.defs then EmitDef(m.defs[w], m.Words())
    else
      match m.vars[w]
      case Variable(Narrow) => Symbol(w)
      case Variable(Wide) => Reader(w)
      case Value => Holder(w)
  }

  /** A word that is written as k. */
  ghost function Unmangled(words: set<string>, k: string): (w: string)
    requires exists x <- words :: Mangle(x) == k
    ensures w in words && Mangle(w) == k
  {
    var w :| w in words && Mangle(w) == k;
    w
  }

  ghost function EmitWords(m: Machine): map<string, FWord> {
    map k | k in (set w | w in m.Words() :: Mangle(w)) :: EmitNamed(m, Unmangled(m.Words(), k))
  }

  ghost function EmitProgram(m: Machine): FMachine {
    FMachine(EmitWords(m), m.prim, true)
  }

  /** A Factor program in which every word stands under its written name, on the same builtins. */
  ghost predicate Emits(f: FMachine, m: Machine) {
    && f.prim == m.prim
    && forall w :: w in m.Words() ==> Mangle(w) in f.words && f.words[Mangle(w)] == EmitNamed(m, w)
  }

  lemma ProgramEmits(m: Machine)
    requires NoClash(m.Words())
    ensures Emits(EmitProgram(m), m)
  {
    forall w | w in m.Words()
      ensures Mangle(w) in EmitProgram(m).words && EmitProgram(m).words[Mangle(w)] == EmitNamed(m, w)
    {
      MangleExactly(w, Unmangled(m.Words(), Mangle(w)));
    }
  }

  /** The loop of the source: a narrow variable and the sink behind it are written in one step. */
  method EmitExprs(n: Names, exprs: seq<Expr>, narrow: set<string>) returns (out: seq<Token>)
    ensures out == EmitSeq(n, GlobSeq(exprs, narrow))
  {
    out := [];
    var i := 0;
    while i < |exprs|
      invariant 0 <= i <= |exprs|
      invariant EmitSeq(n, GlobSeq(exprs, narrow)) == out + EmitSeq(n, GlobSeq(exprs[i..], narrow))
    {
      if i + 1 < |exprs| && IsUse(exprs[i..], narrow) {
        EmitUse(n, exprs, i, narrow, out);
        out := out + EmitExpr(n, UseAccess(exprs[i], exprs[i + 1]));
        i := i + 2;
      } else {
        EmitOther(n, exprs, i, narrow, out);
        out := out + EmitExpr(n, GlobExpr(exprs[i], narrow));
        i := i + 1;
      }
    }
    assert exprs[i..] == [];
  }

  lemma EmitUse(n: Names, exprs: seq<Expr>, i: nat, narrow: set<string>, out: seq<Token>)
    requires i + 1 < |exprs| && IsUse(exprs[i..], narrow)
    ensures out + EmitSeq(n, GlobSeq(exprs[i..], narrow))
         == out + EmitExpr(n, UseAccess(exprs[i], exprs[i + 1])) + EmitSeq(n, GlobSeq(exprs[i + 2..], narrow))
  {
    var rest := exprs[i..];
    assert rest[2..] == exprs[i + 2..];
    EmitCons(n, UseAccess(rest[0], rest[1]), GlobSeq(rest[2..], narrow));
  }

  lemma EmitOther(n: Names, exprs: seq<Expr>, i: nat, narrow: set<string>, out: seq<Token>)
    requires i < |exprs| && !IsUse(exprs[i..], narrow)
    ensures out + EmitSeq(n, GlobSeq(exprs[i..], narrow))
         == out + EmitExpr(n, GlobExpr(exprs[i], narrow)) + EmitSeq(n, GlobSeq(exprs[i + 1..], narrow))
  {
    var rest := exprs[i..];
    assert rest[1..] == exprs[i + 1..];
    EmitCons(n, GlobExpr(rest[0], narrow), GlobSeq(rest[1..], narrow));
  }

  lemma EmitCons(n: Names, e: Expr, s: seq<Expr>)
    ensures EmitSeq(n, [e] + s) == EmitExpr(n, e) + EmitSeq(n, s)
  {
    assert ([e] + s)[1..] == s;
  }

  // ----- what resolution and earlier passes have made sure of -----

  /** No RECURSE is left; a narrow variable stands only in accesses, and only it does; TO names a VALUE;
      every name bound is in scope; a tick does not name a local. */
  predicate NamedSeq(m: Machine, c: Context, s: seq<Expr>)
    decreases SizeSeq(s), 1, |s|
  {
    s != [] ==> NamedExpr(m, c, s[0]) && NamedSeq(m, c, s[1..])
  }

  predicate NamedExpr(m: Machine, c: Context, e: Expr)
    decreases SizeExpr(e), 0
  {
    match e
    case WordRef(name) =>
      && (Resolve(m.NamesOf(c), name) == Builtin ==> Lower(name) != "recurse")
      && (Resolve(m.NamesOf(c), name) == UserDefined ==> !IsNarrow(m, Lower(name)))
    case If(thenBody, elseBody) => NamedSeq(m, c, thenBody) && NamedElse(m, c, elseBody)
    case BeginUntil(body) => NamedSeq(m, c, body)
    case BeginAgain(body) => NamedSeq(m, c, body)
    case BeginWhileRepeat(pred, body) => NamedSeq(m, c, pred) && NamedSeq(m, c, body)
    case DoLoop(_, body, _) => NamedSeq(m, c, body)
    case Case(arms, default) => NamedArms(m, c, arms) && NamedElse(m, c, default)
    case To(name) => Lower(name) in m.vars && m.vars[Lower(name)] == Value
    case Tick(name) => Resolve(m.NamesOf(c), name) != Local
    case Locals(names) => Scoped(names, c.locals)
    case Global(_, x) => IsNarrow(m, x)
    case _ => true
  }

  predicate IsNarrow(m: Machine, x: string) {
    x !in m.defs && x in m.vars && m.vars[x] == Variable(Narrow)
  }

  predicate Scoped(names: seq<string>, scope: set<string>) {
    forall name <- names :: name == "_" || Lower(name) in scope
  }

  predicate NamedElse(m: Machine, c: Context, e: Else)
    decreases SizeElse(e), 0
  {
    e.ElseBody? ==> NamedSeq(m, c, e.body)
  }

  predicate NamedArms(m: Machine, c: Context, arms: seq<Arm>)
    decreases SizeArms(arms), 0
  {
    arms != [] ==>
      NamedSeq(m, c, arms[0].matchExpr) && NamedSeq(m, c, arms[0].body) && NamedArms(m, c, arms[1..])
  }

  /** No local is written with a dot. */
  predicate Dotless(locals: set<string>) {
    forall x <- locals :: '.' !in x
  }

  // ----- match expressions -----

  /** Every match expression, by its inferred effect, adds its value to the stack and does not use the
      selector, or, on a runtime where DUP copies, starts by copying it and uses the copy.  And it does not
      look at the whole stack. */
  predicate MatchedSeq(env: Env, n: Names, s: seq<Expr>, copies: bool)
    decreases SizeSeq(s), 1, |s|
  {
    s != [] ==> MatchedExpr(env, n, s[0], copies) && MatchedSeq(env, n, s[1..], copies)
  }

  predicate MatchedExpr(env: Env, n: Names, e: Expr, copies: bool)
    decreases SizeExpr(e), 0
  {
    match e
    case If(thenBody, elseBody) => MatchedSeq(env, n, thenBody, copies) && MatchedElse(env, n, elseBody, copies)
    case BeginUntil(body) => MatchedSeq(env, n, body, copies)
    case BeginAgain(body) => MatchedSeq(env, n, body, copies)
    case BeginWhileRepeat(pred, body) => MatchedSeq(env, n, pred, copies) && MatchedSeq(env, n, body, copies)
    case DoLoop(_, body, _) => MatchedSeq(env, n, body, copies)
    case Case(arms, default) => MatchedArms(env, n, arms, copies) && MatchedElse(env, n, default, copies)
    case _ => true
  }

  predicate MatchedElse(env: Env, n: Names, e: Else, copies: bool)
    decreases SizeElse(e), 0
  {
    e.ElseBody? ==> MatchedSeq(env, n, e.body, copies)
  }

  predicate MatchedArms(env: Env, n: Names, arms: seq<Arm>, copies: bool)
    decreases SizeArms(arms), 0
  {
    arms != [] ==>
      && MatchOk(env, n, arms[0].matchExpr, copies) && MatchedSeq(env, n, arms[0].matchExpr, copies)
      && MatchedSeq(env, n, arms[0].body, copies) && MatchedArms(env, n, arms[1..], copies)
  }

  predicate MatchOk(env: Env, n: Names, s: seq<Expr>, copies: bool) {
    && RegularSeq(env, n, s, Ans) && Frame.QuietSeq(env.quiet, n, s)
    && (InferBlock(env, n, s) == Known(0, 1) ||
        (copies && CopiesFirst(n, s) && InferBlock(env, n, s[1..]) == Known(1, 1)))
  }

  predicate CopiesFirst(n: Names, s: seq<Expr>) {
    s != [] && s[0].WordRef? && Lower(s[0].name) == "dup" && Resolve(n, s[0].name) == Builtin
  }

  // ----- programs that can be emitted -----

  /** A body in its context, with no word written under the name of a local of the emitted word. */
  predicate Spelled(m: Machine, scope: set<string>, c: Context, s: seq<Expr>) {
    NamedSeq(m, c, s) && Dotless(c.locals) && ClearQ(EmitSeq(m.NamesOf(c), s), scope)
  }

  ghost predicate BodyOk(m: Machine, env: Env, scope: set<string>, c: Context, s: seq<Expr>) {
    Spelled(m, scope, c, s) && MatchedSeq(env, m.NamesOf(c), s, DupCopies(m))
  }

  ghost predicate DupCopies(m: Machine) {
    forall s, w :: m.prim("dup", s, w) == LowerQdup.DupPrim(s, w)
  }

  /** No two inputs have the same name. */
  predicate Distinct(names: seq<string>) {
    forall i, j :: 0 <= i < j < |names| ==> names[i] != names[j]
  }

  /** All definitions of a program on the Factor runtime. */
  ghost predicate Emittable(m: Machine, env: Env) {
    && m.restoring && Frame.Discreet(m, env.quiet) && Passed(m, env) && NoClash(m.Words())
    && forall lc :: lc in m.defs ==> DefOk(m, env, lc, m.defs[lc])
  }

  ghost predicate DefOk(m: Machine, env: Env, lc: string, d: Definition) {
    && Scoped(d.params, d.scope) && Distinct(Inputs(d))
    && BodyOk(m, env, Scope(d), Context(d.scope, lc), d.body)
  }

  /** A program that can be emitted, and whose definitions read every local where it is bound. */
  ghost predicate Loadable(m: Machine, env: Env) {
    Emittable(m, env) && LexicalProgram(EmitProgram(m))
  }

  lemma FramesEmit(m: Machine)
    requires NoClash(m.Words())
    ensures Emits(Frames(EmitProgram(m)), m) && !Frames(EmitProgram(m)).lexical
  {
    ProgramEmits(m);
  }
}
