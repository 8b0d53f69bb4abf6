/** The ?DUP IF desugaring (src/compiler/lower_qdup.rs). */
module LowerQdup {
  import opened Forth
  import opened Equivalence
  import opened Congruence

  // ----- the transformation -----

  predicate IsQdup(e: Expr) {
    e.WordRef? && Lower(e.name) == "?dup"
  }

  predicate IsPair(s: seq<Expr>) {
    |s| >= 2 && IsQdup(s[0]) && s[1].If?
  }

  /** ?DUP IF t ELSE f THEN becomes DUP IF t ELSE DROP f THEN, at every depth; match expressions too. */
  function QdupSeq(s: seq<Expr>): seq<Expr>
    decreases SizeSeq(s), 1, |s|
  {
    if s == [] then []
    else if IsPair(s) then
      assert s[1..][1..] == s[2..];
      assert SizeSeq(s) == SizeExpr(s[0]) + SizeExpr(s[1]) + SizeSeq(s[2..]);
      QdupPair(s[1]) + QdupSeq(s[2..])
    else [QdupExpr(s[0])] + QdupSeq(s[1..])
  }

  function QdupPair(e: Expr): seq<Expr>
    requires e.If?
    decreases SizeExpr(e), 1
  {
    [WordRef("dup"), If(QdupSeq(e.thenBody), ElseBody([WordRef("drop")] + QdupElseSeq(e.elseBody)))]
  }

  function QdupElseSeq(e: Else): seq<Expr>
    decreases SizeElse(e), 0
  {
    match e
    case NoElse => []
    case ElseBody(body) => QdupSeq(body)
  }

  function QdupExpr(e: Expr): Expr
    decreases SizeExpr(e), 0
  {
    match e
    case If(thenBody, elseBody) => If(QdupSeq(thenBody), QdupElse(elseBody))
    case BeginUntil(body) => BeginUntil(QdupSeq(body))
    case BeginAgain(body) => BeginAgain(QdupSeq(body))
    case BeginWhileRepeat(pred, body) => BeginWhileRepeat(QdupSeq(pred), QdupSeq(body))
    case DoLoop(isQdo, body, kind) => DoLoop(isQdo, QdupSeq(body), kind)
    case Case(arms, default) => Case(QdupArms(arms), QdupElse(default))
    case _ => e
  }

  function QdupElse(e: Else): Else
    decreases SizeElse(e), 0
  {
    match e
    case NoElse => NoElse
    case ElseBody(body) => ElseBody(QdupSeq(body))
  }

  function QdupArms(arms: seq<Arm>): seq<Arm>
    decreases SizeArms(arms), 0
  {
    if arms == [] then [] else [Arm(QdupSeq(arms[0].matchExpr), QdupSeq(arms[0].body))] + QdupArms(arms[1..])
  }

  lemma QdupPairAt(s: seq<Expr>, i: nat)
    requires i + 1 < |s| && IsQdup(s[i]) && s[i + 1].If?
    ensures QdupSeq(s[i..]) == QdupPair(s[i + 1]) + QdupSeq(s[i + 2..])
  {
    assert IsPair(s[i..]) && s[i..][2..] == s[i + 2..];
  }

  lemma QdupOneAt(s: seq<Expr>, i: nat)
    requires i < |s| && !(i + 1 < |s| && IsQdup(s[i]) && s[i + 1].If?)
    ensures QdupSeq(s[i..]) == [QdupExpr(s[i])] + QdupSeq(s[i + 1..])
  {
    assert s[i..][1..] == s[i + 1..];
  }

  lemma Appended(out: seq<Expr>, piece: seq<Expr>, rest: seq<Expr>)
    ensures out + (piece + rest) == (out + piece) + rest
  {}

  /** The loop of the source, which looks one expression ahead. */
  method LowerSeq(s: seq<Expr>) returns (out: seq<Expr>)
    ensures out == QdupSeq(s)
  {
    out := [];
    var i := 0;
    while i < |s|
      invariant 0 <= i <= |s|
      invariant QdupSeq(s) == out + QdupSeq(s[i..])
    {
      var piece, next := LowerOne(s, i);
      Appended(out, piece, QdupSeq(s[next..]));
      out := out + piece;
      i := next;
    }
    assert s[i..] == [];
  }

  /** One turn of the loop: what it pushes, and where it goes on. */
  method LowerOne(s: seq<Expr>, i: nat) returns (piece: seq<Expr>, next: nat)
    requires i < |s|
    ensures i < next <= |s| && QdupSeq(s[i..]) == piece + QdupSeq(s[next..])
  {
    if IsQdup(s[i]) {
      if i + 1 < |s| && s[i + 1].If? {
        QdupPairAt(s, i);
        return QdupPair(s[i + 1]), i + 2;
      }
      QdupOneAt(s, i);
      assert QdupExpr(s[i]) == s[i];
      return [s[i]], i + 1;
    }
    QdupOneAt(s, i);
    return [QdupExpr(s[i])], i + 1;
  }

  // ----- the builtins involved -----

  function DupPrim(stack: seq<Cell>, w: World): PrimResult {
    if stack == [] then PrimUnderflow else Done(stack + [Top(stack)], w)
  }

  function QdupPrim(stack: seq<Cell>, w: World): PrimResult {
    if stack == [] then PrimUnderflow
    else if Top(stack) == Number(0) then Done(stack, w) else Done(stack + [Top(stack)], w)
  }

  function DropPrim(stack: seq<Cell>, w: World): PrimResult {
    if stack == [] then PrimUnderflow else Done(Drop(stack), w)
  }

  /** DUP, DROP and ?DUP do what the standard says; the other builtins are arbitrary. */
  ghost predicate StandardPrims(m: Machine) {
    forall stack, w ::
      m.prim("dup", stack, w) == DupPrim(stack, w) && m.prim("drop", stack, w) == DropPrim(stack, w) &&
      m.prim("?dup", stack, w) == QdupPrim(stack, w)
  }

  /** No definition and no local hides the three builtins. */
  predicate Unhidden(n: Names) {
    "dup" !in n.locals + n.words && "drop" !in n.locals + n.words && "?dup" !in n.locals + n.words
  }

  // ----- meaning -----

  lemma BuiltinWord(m: Machine, c: Context, name: string, st: State, fuel: nat)
    requires name == "dup" || name == "drop" || name == "?dup"
    requires StandardPrims(m) && name !in c.locals + m.Words()
    ensures RunExpr(m, c, WordRef(name), st, fuel) == RunPrim(m, name, st)
  {
    assert Lower(name) == name;
  }

  lemma SamePair(m: Machine, c: Context, q: Expr, e: Expr, t: seq<Expr>, f: seq<Expr>)
    requires IsQdup(q) && e.If? && StandardPrims(m) && Unhidden(m.NamesOf(c))
    requires SameSeq(m, c, e.thenBody, t) && SameSeq(m, c, ElseSeq(e.elseBody), f)
    ensures SameSeq(m, c, [q, e], [WordRef("dup"), If(t, ElseBody([WordRef("drop")] + f))])
  {
    var e' := If(t, ElseBody([WordRef("drop")] + f));
    assert [q, e] == [q] + [e] && [WordRef("dup"), e'] == [WordRef("dup")] + [e'];
    forall st, fuel
      ensures RunSeq(m, c, [q, e], st, fuel) == RunSeq(m, c, [WordRef("dup"), e'], st, fuel)
    {
      RunCons(m, c, q, [e], st, fuel);
      RunCons(m, c, WordRef("dup"), [e'], st, fuel);
      BuiltinWord(m, c, "dup", st, fuel);
      assert RunExpr(m, c, q, st, fuel) == RunPrim(m, "?dup", st);
      assert m.prim("?dup", st.stack, st.world) == QdupPrim(st.stack, st.world);
      assert m.prim("dup", st.stack, st.world) == DupPrim(st.stack, st.world);
      if |st.stack| > 0 {
        var x := Top(st.stack);
        PairBranches(m, c, e, t, f, st, fuel);
      }
    }
  }

  lemma PairBranches(m: Machine, c: Context, e: Expr, t: seq<Expr>, f: seq<Expr>, st: State, fuel: nat)
    requires e.If? && |st.stack| > 0 && StandardPrims(m) && Unhidden(m.NamesOf(c))
    requires SameSeq(m, c, e.thenBody, t) && SameSeq(m, c, ElseSeq(e.elseBody), f)
    ensures RunSeq(m, c, [e], if Top(st.stack) == Number(0) then st else Push(st, Top(st.stack)), fuel)
         == RunSeq(m, c, [If(t, ElseBody([WordRef("drop")] + f))], Push(st, Top(st.stack)), fuel)
  {
    var e' := If(t, ElseBody([WordRef("drop")] + f));
    var x := Top(st.stack);
    var st2 := Push(st, x);
    assert Pop(st2) == st by { assert Drop(st.stack + [x]) == st.stack; }
    RunOne(m, c, e', st2, fuel);
    if x == Number(0) {
      RunOne(m, c, e, st, fuel);
      RunCons(m, c, WordRef("drop"), f, st, fuel);
      BuiltinWord(m, c, "drop", st, fuel);
      assert m.prim("drop", st.stack, st.world) == DropPrim(st.stack, st.world);
      assert RunElse(m, c, e.elseBody, Pop(st), fuel) == RunSeq(m, c, ElseSeq(e.elseBody), Pop(st), fuel);
    } else {
      RunOne(m, c, e, st2, fuel);
    }
  }

  /** The desugaring preserves meaning at every depth. */
  lemma {:induction false} QdupPreserves(m: Machine, c: Context, s: seq<Expr>)
    requires StandardPrims(m) && Unhidden(m.NamesOf(c))
    ensures SameSeq(m, c, s, QdupSeq(s))
    decreases SizeSeq(s), 1, |s|
  {
    if s == [] {
    } else if IsPair(s) {
      var e := s[1];
      assert s[1..][1..] == s[2..];
      assert SizeSeq(s) == SizeExpr(s[0]) + SizeExpr(e) + SizeSeq(s[2..]);
      IfParts(m, c, e);
      SamePair(m, c, s[0], e, QdupSeq(e.thenBody), QdupElseSeq(e.elseBody));
      QdupPreserves(m, c, s[2..]);
      SameConcat(m, c, [s[0], e], QdupPair(e), s[2..], QdupSeq(s[2..]));
      assert s == [s[0], e] + s[2..];
    } else {
      QdupExprPreserves(m, c, s[0]);
      QdupPreserves(m, c, s[1..]);
      SameCons(m, c, s[0], QdupExpr(s[0]), s[1..], QdupSeq(s[1..]));
      assert s == [s[0]] + s[1..];
    }
  }

  lemma {:induction false} IfParts(m: Machine, c: Context, e: Expr)
    requires e.If? && StandardPrims(m) && Unhidden(m.NamesOf(c))
    ensures SameSeq(m, c, e.thenBody, QdupSeq(e.thenBody))
    ensures SameSeq(m, c, ElseSeq(e.elseBody), QdupElseSeq(e.elseBody))
    ensures SameElse(m, c, e.elseBody, QdupElse(e.elseBody))
    decreases SizeExpr(e), 0, 0
  {
    match e
    case If(thenBody, elseBody) =>
      QdupPreserves(m, c, thenBody);
      QdupElsePreserves(m, c, elseBody);
  }

  lemma {:induction false} QdupElsePreserves(m: Machine, c: Context, e: Else)
    requires StandardPrims(m) && Unhidden(m.NamesOf(c))
    ensures SameSeq(m, c, ElseSeq(e), QdupElseSeq(e)) && SameElse(m, c, e, QdupElse(e))
    decreases SizeElse(e), 0, 0
  {
    match e
    case NoElse =>
    case ElseBody(body) =>
      QdupPreserves(m, c, body);
      SameElseBody(m, c, body, QdupSeq(body));
  }

  lemma {:induction false} QdupExprPreserves(m: Machine, c: Context, e: Expr)
    requires StandardPrims(m) && Unhidden(m.NamesOf(c))
    ensures SameExpr(m, c, e, QdupExpr(e))
    decreases SizeExpr(e), 1, 0
  {
    match e
    case If(thenBody, elseBody) =>
      IfParts(m, c, e);
      SameIf(m, c, thenBody, QdupSeq(thenBody), elseBody, QdupElse(elseBody));
    case BeginUntil(body) =>
      QdupPreserves(m, c, body);
      SameLoop(m, c, e, QdupExpr(e));
    case BeginAgain(body) =>
      QdupPreserves(m, c, body);
      SameLoop(m, c, e, QdupExpr(e));
    case BeginWhileRepeat(pred, body) =>
      QdupPreserves(m, c, pred);
      QdupPreserves(m, c, body);
      SameLoop(m, c, e, QdupExpr(e));
    case DoLoop(_, body, _) =>
      QdupPreserves(m, c, body);
      SameLoop(m, c, e, QdupExpr(e));
    case Case(arms, default) =>
      QdupArmsPreserve(m, c, arms);
      QdupElsePreserves(m, c, default);
      SameCase(m, c, arms, QdupArms(arms), default, QdupElse(default));
    case _ =>
  }

  lemma {:induction false} QdupArmsPreserve(m: Machine, c: Context, arms: seq<Arm>)
    requires StandardPrims(m) && Unhidden(m.NamesOf(c))
    ensures SameArms(m, c, arms, QdupArms(arms))
    decreases SizeArms(arms), 0, 0
  {
    if arms != [] {
      QdupPreserves(m, c, arms[0].matchExpr);
      QdupPreserves(m, c, arms[0].body);
      QdupArmsPreserve(m, c, arms[1..]);
      var b := QdupArms(arms);
      assert b[0] == Arm(QdupSeq(arms[0].matchExpr), QdupSeq(arms[0].body)) && b[1..] == QdupArms(arms[1..]);
    }
  }

  // ----- exactly when -----

  /** The three builtins as the standard has them; the others do nothing. */
  function StandardPrim(lc: string, stack: seq<Cell>, w: World): PrimResult {
    if lc == "dup" then DupPrim(stack, w)
    else if lc == "drop" then DropPrim(stack, w)
    else if lc == "?dup" then QdupPrim(stack, w)
    else Done(stack, w)
  }

  /** Definitions that do nothing, except that DROP pushes a one. */
  ghost function Idlers(words: set<string>): (m: Machine)
    ensures m.Words() == words && StandardPrims(m)
  {
    Machine(map lc | lc in words :: Defining(if lc == "drop" then [Lit(1)] else []),
            map[], StandardPrim, false)
  }

  const barePair := [WordRef("?dup"), If([], NoElse)]

  ghost predicate AlwaysRight(c: Context, words: set<string>) {
    forall m: Machine, s | m.Words() == words && StandardPrims(m) :: SameSeq(m, c, s, QdupSeq(s))
  }

  /** The desugaring is right for every body and every machine if and only if no definition and no local
      hides one of the three names. */
  lemma QdupExactly(c: Context, words: set<string>)
    ensures AlwaysRight(c, words) <==> Unhidden(Names(c.locals, words))
  {
    if Unhidden(Names(c.locals, words)) {
      forall m: Machine, s | m.Words() == words && StandardPrims(m)
        ensures SameSeq(m, c, s, QdupSeq(s))
      {
        QdupPreserves(m, c, s);
      }
    } else {
      var st := Telling(c, words);
      HiddenDiffers(c, words, st);
      assert RunSeq(Idlers(words), c, barePair, st, 2) != RunSeq(Idlers(words), c, QdupSeq(barePair), st, 2);
      assert !SameSeq(Idlers(words), c, barePair, QdupSeq(barePair));
    }
  }

  /** What a word leaves on the stack of the idling machine. */
  ghost function IdleWord(c: Context, words: set<string>, name: string, st: State): Outcome {
    if name in c.locals then if name in st.locals then Next(Push(st, st.locals[name])) else Fault
    else if name in words then Next(if name == "drop" then Push(st, Number(1)) else st)
    else
      match StandardPrim(name, st.stack, st.world)
      case Done(stack, world) => Next(st.(stack := stack, world := world))
      case PrimUnderflow => Underflow
      case PrimFault => Fault
  }

  lemma RunIdleWord(c: Context, words: set<string>, name: string, st: State)
    requires name == "dup" || name == "drop" || name == "?dup"
    ensures RunExpr(Idlers(words), c, WordRef(name), st, 2) == IdleWord(c, words, name, st)
  {
    var m := Idlers(words);
    assert Lower(name) == name;
    if name !in c.locals && name in words {
      RunOne(m, Context({}, name), Lit(1), st.(locals := map[]), 1);
      assert RunSeq(m, Context({}, name), [], st.(locals := map[]), 1) == Next(st.(locals := map[]));
      assert Call(m, name, st, 1) == Next(if name == "drop" then Push(st, Number(1)) else st);
    }
  }

  lemma QdupBarePair()
    ensures QdupSeq(barePair) == [WordRef("dup"), If([], ElseBody([WordRef("drop")]))]
  {
    assert Lower("?dup") == "?dup";
    assert IsPair(barePair) && barePair[2..] == [];
    assert [WordRef("drop")] + [] == [WordRef("drop")];
  }

  /** A stack and locals on which the bare pair and its desugaring differ. */
  ghost function Telling(c: Context, words: set<string>): State {
    var q, dup := "?dup" in c.locals, "dup" in c.locals || "dup" !in words;
    var v := if q then (if dup then 0 else 1)
             else if "?dup" in words then (if dup then 1 else 0)
             else if dup then 0 else 1;
    var z := if q || "dup" !in c.locals then 0 else 1;
    State([Number(v)], map["?dup" := Number(0), "dup" := Number(z), "drop" := Number(5)],
          World(map[], map[], [], [], []))
  }

  lemma IdlersDiffer(c: Context, words: set<string>)
    requires !Unhidden(Names(c.locals, words))
    ensures var a, b := IdleWord(c, words, "?dup", Telling(c, words)), IdleWord(c, words, "dup", Telling(c, words));
            a.Next? && b.Next? && BareIf(a.state) != DropIf(c, words, b.state)
  {
  }

  lemma HiddenDiffers(c: Context, words: set<string>, st: State)
    requires !Unhidden(Names(c.locals, words)) && st == Telling(c, words)
    ensures RunSeq(Idlers(words), c, barePair, st, 2) != RunSeq(Idlers(words), c, QdupSeq(barePair), st, 2)
  {
    var m := Idlers(words);
    QdupBarePair();
    var e, e' := If([], NoElse), If([], ElseBody([WordRef("drop")]));
    assert barePair == [WordRef("?dup")] + [e];
    assert QdupSeq(barePair) == [WordRef("dup")] + [e'];
    RunCons(m, c, WordRef("?dup"), [e], st, 2);
    RunCons(m, c, WordRef("dup"), [e'], st, 2);
    RunIdleWord(c, words, "?dup", st);
    RunIdleWord(c, words, "dup", st);
    IdlersDiffer(c, words);
    BareIfs(c, words, IdleWord(c, words, "?dup", st), IdleWord(c, words, "dup", st));
  }

  ghost function BareIf(st: State): Outcome {
    if |st.stack| == 0 then Underflow else if !Top(st.stack).Number? then Fault else Next(Pop(st))
  }

  ghost function DropIf(c: Context, words: set<string>, st: State): Outcome {
    if |st.stack| == 0 then Underflow
    else if !Top(st.stack).Number? then Fault
    else if Top(st.stack).n != 0 then Next(Pop(st))
    else IdleWord(c, words, "drop", Pop(st))
  }

  lemma BareIfs(c: Context, words: set<string>, a: Outcome, b: Outcome)
    ensures a.Next? ==> RunSeq(Idlers(words), c, [If([], NoElse)], a.state, 2) == BareIf(a.state)
    ensures b.Next? ==>
              RunSeq(Idlers(words), c, [If([], ElseBody([WordRef("drop")]))], b.state, 2) == DropIf(c, words, b.state)
  {
    var m := Idlers(words);
    if a.Next? {
      RunOne(m, c, If([], NoElse), a.state, 2);
    }
    if b.Next? {
      RunOne(m, c, If([], ElseBody([WordRef("drop")])), b.state, 2);
      if |b.state.stack| > 0 {
        RunOne(m, c, WordRef("drop"), Pop(b.state), 2);
        RunIdleWord(c, words, "drop", Pop(b.state));
      }
    }
  }

  // ----- what is left -----

  /** No ?DUP stands immediately before an IF, at any depth. */
  predicate NoPair(s: seq<Expr>)
    decreases SizeSeq(s), 1, |s|
  {
    !IsPair(s) && (s != [] ==> NoPairIn(s[0]) && NoPair(s[1..]))
  }

  predicate NoPairIn(e: Expr)
    decreases SizeExpr(e), 0
  {
    match e
    case If(thenBody, elseBody) => NoPair(thenBody) && NoPairElse(elseBody)
    case BeginUntil(body) => NoPair(body)
    case BeginAgain(body) => NoPair(body)
    case BeginWhileRepeat(pred, body) => NoPair(pred) && NoPair(body)
    case DoLoop(_, body, _) => NoPair(body)
    case Case(arms, default) => NoPairArms(arms) && NoPairElse(default)
    case _ => true
  }

  predicate NoPairElse(e: Else)
    decreases SizeElse(e), 0
  {
    e.ElseBody? ==> NoPair(e.body)
  }

  predicate NoPairArms(arms: seq<Arm>)
    decreases SizeArms(arms), 0
  {
    arms != [] ==> NoPair(arms[0].matchExpr) && NoPair(arms[0].body) && NoPairArms(arms[1..])
  }

  lemma NoPairCons(e: Expr, s: seq<Expr>)
    requires NoPairIn(e) && NoPair(s) && (IsQdup(e) ==> s == [] || !s[0].If?)
    ensures NoPair([e] + s)
  {
    assert ([e] + s)[1..] == s;
  }

  /** The desugaring leaves no pair, and its result starts with an IF only where the body does. */
  lemma {:induction false} QdupLeavesNoPair(s: seq<Expr>)
    ensures NoPair(QdupSeq(s))
    ensures QdupSeq(s) != [] && QdupSeq(s)[0].If? ==> s[0].If?
    decreases SizeSeq(s), 1, |s|
  {
    if s == [] {
    } else if IsPair(s) {
      var e := s[1];
      assert s[1..][1..] == s[2..];
      assert SizeSeq(s) == SizeExpr(s[0]) + SizeExpr(e) + SizeSeq(s[2..]);
      PairLeavesNoPair(e);
      QdupLeavesNoPair(s[2..]);
      var p := QdupPair(e);
      NoPairCons(p[1], QdupSeq(s[2..]));
      assert Lower("dup") == "dup";
      NoPairCons(p[0], [p[1]] + QdupSeq(s[2..]));
      assert p + QdupSeq(s[2..]) == [p[0]] + ([p[1]] + QdupSeq(s[2..]));
    } else {
      ExprLeavesNoPair(s[0]);
      QdupLeavesNoPair(s[1..]);
      NoPairCons(QdupExpr(s[0]), QdupSeq(s[1..]));
    }
  }

  lemma {:induction false} PairLeavesNoPair(e: Expr)
    requires e.If?
    ensures NoPairIn(QdupPair(e)[0]) && NoPairIn(QdupPair(e)[1])
    decreases SizeExpr(e), 0, 0
  {
    match e
    case If(thenBody, elseBody) =>
      QdupLeavesNoPair(thenBody);
      ElseLeavesNoPair(elseBody);
      assert Lower("drop") == "drop";
      NoPairCons(WordRef("drop"), QdupElseSeq(elseBody));
  }

  lemma {:induction false} ElseLeavesNoPair(e: Else)
    ensures NoPairElse(QdupElse(e)) && NoPair(QdupElseSeq(e))
    decreases SizeElse(e), 0, 0
  {
    match e
    case NoElse =>
    case ElseBody(body) => QdupLeavesNoPair(body);
  }

  lemma {:induction false} ExprLeavesNoPair(e: Expr)
    ensures NoPairIn(QdupExpr(e))
    decreases SizeExpr(e), 0, 0
  {
    match e
    case If(thenBody, elseBody) =>
      QdupLeavesNoPair(thenBody);
      ElseLeavesNoPair(elseBody);
    case BeginUntil(body) => QdupLeavesNoPair(body);
    case BeginAgain(body) => QdupLeavesNoPair(body);
    case BeginWhileRepeat(pred, body) =>
      QdupLeavesNoPair(pred);
      QdupLeavesNoPair(body);
    case DoLoop(_, body, _) => QdupLeavesNoPair(body);
    case Case(arms, default) =>
      ArmsLeaveNoPair(arms);
      ElseLeavesNoPair(default);
    case _ =>
  }

  lemma {:induction false} ArmsLeaveNoPair(arms: seq<Arm>)
    ensures NoPairArms(QdupArms(arms))
    decreases SizeArms(arms), 0, 0
  {
    if arms != [] {
      QdupLeavesNoPair(arms[0].matchExpr);
      QdupLeavesNoPair(arms[0].body);
      ArmsLeaveNoPair(arms[1..]);
      var b := QdupArms(arms);
      assert b[0] == Arm(QdupSeq(arms[0].matchExpr), QdupSeq(arms[0].body)) && b[1..] == QdupArms(arms[1..]);
    }
  }
}
