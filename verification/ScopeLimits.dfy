/** Locals bound inside a branch: exactly when what is emitted behind the branch finds the right value. */
module ScopeLimits {
  import opened Common
  import opened Forth
  import opened Equivalence
  import opened Factor
  import opened Scopes
  import opened Emit
  import opened Lifting
  import opened EmitSim

  // ----- a branch that binds locals -----

  /** Values for locals, in the order in which they are bound. */
  type Bindings = seq<(string, int)>

  /** v1 {: y1 :} v2 {: y2 :} and so on. */
  function Binding(b: Bindings): seq<Expr> {
    if b == [] then [] else [Lit(b[0].1), Locals([b[0].0])] + Binding(b[1..])
  }

  /** a {: x :} IF v1 {: y1 :} .. THEN x */
  function Branching(x: string, a: int, b: Bindings): seq<Expr> {
    [Lit(a)] + ([Locals([x])] + ([If(Binding(b), NoElse)] + [WordRef(x)]))
  }

  /** A name as it is kept, that can be bound and read. */
  predicate PlainName(x: string) {
    Lower(x) == x && '.' !in x && x != "_"
  }

  predicate PlainNames(locals: set<string>, b: Bindings) {
    forall p <- b :: p.0 in locals && PlainName(p.0)
  }

  /** What a local holds behind the bindings. */
  function Last(b: Bindings, locals: map<string, Cell>): map<string, Cell> {
    if b == [] then locals else Last(b[1..], locals[b[0].0 := Number(b[0].1)])
  }

  // ----- the standard -----

  lemma OneBind(x: string, st: State)
    requires PlainName(x) && |st.stack| > 0
    ensures BindLocals([x], st) == Next(Pop(st).(locals := st.locals[x := Top(st.stack)]))
  {
    assert [x][..0] == [];
  }

  lemma PushBind(m: Machine, c: Context, x: string, v: int, rest: seq<Expr>, st: State, fuel: nat)
    requires PlainName(x)
    ensures RunSeq(m, c, [Lit(v)] + ([Locals([x])] + rest), st, fuel)
         == RunSeq(m, c, rest, st.(locals := st.locals[x := Number(v)]), fuel)
  {
    var st1 := Push(st, Number(v));
    RunCons(m, c, Lit(v), [Locals([x])] + rest, st, fuel);
    RunCons(m, c, Locals([x]), rest, st1, fuel);
    OneBind(x, st1);
    assert Drop(st.stack + [Number(v)]) == st.stack;
  }

  lemma {:induction false} BindingRuns(m: Machine, c: Context, b: Bindings, st: State, fuel: nat)
    requires PlainNames(c.locals, b)
    ensures RunSeq(m, c, Binding(b), st, fuel) == Next(st.(locals := Last(b, st.locals)))
    decreases b
  {
    if b != [] {
      assert b[0] in b;
      assert Binding(b) == [Lit(b[0].1)] + ([Locals([b[0].0])] + Binding(b[1..]));
      PushBind(m, c, b[0].0, b[0].1, Binding(b[1..]), st, fuel);
      BindingRuns(m, c, b[1..], st.(locals := st.locals[b[0].0 := Number(b[0].1)]), fuel);
    }
  }

  /** From a flag, the body leaves what x holds behind the branch that has been taken. */
  lemma BranchingRuns(m: Machine, c: Context, x: string, a: int, b: Bindings, st: State, fuel: nat)
    requires x in c.locals && PlainName(x) && PlainNames(c.locals, b) && |st.stack| > 0 && Top(st.stack).Number?
    ensures var here := st.locals[x := Number(a)];
            var locals := if Top(st.stack).n != 0 then Last(b, here) else here;
            x in locals && RunSeq(m, c, Branching(x, a, b), st, fuel)
                           == Next(Push(Pop(st).(locals := locals), locals[x]))
  {
    var here := st.locals[x := Number(a)];
    var locals := if Top(st.stack).n != 0 then Last(b, here) else here;
    var st1, e := st.(locals := here), If(Binding(b), NoElse);
    PushBind(m, c, x, a, [e] + [WordRef(x)], st, fuel);
    BindingRuns(m, c, b, Pop(st1), fuel);
    LastKeeps(b, here, x);
    RunCons(m, c, e, [WordRef(x)], st1, fuel);
    RunOne(m, c, WordRef(x), Pop(st).(locals := locals), fuel);
  }

  lemma {:induction false} LastKeeps(b: Bindings, locals: map<string, Cell>, x: string)
    requires x in locals
    ensures x in Last(b, locals)
    decreases b
  {
    if b != [] {
      LastKeeps(b[1..], locals[b[0].0 := Number(b[0].1)], x);
    }
  }

  // ----- what is emitted -----

  lemma EmitOne(n: Names, x: string)
    requires PlainName(x)
    ensures EmitExpr(n, Locals([x])) == [Bind(x)]
  {
    SanitizedExactly(x);
    assert [x][..0] == [] && EmitBinds([x]) == [EmitBind(x)] + EmitBinds([]);
  }

  lemma PushBindQ(f: FMachine, scope: set<string>, n: Names, x: string, v: int, rest: seq<Expr>, st: State, fuel: nat)
    requires PlainName(x)
    ensures RunQ(f, scope, EmitSeq(n, [Lit(v)] + ([Locals([x])] + rest)), Lift(st), fuel)
         == RunQ(f, scope, EmitSeq(n, rest), Lift(st.(locals := st.locals[x := Number(v)])), fuel)
  {
    var st1 := Push(st, Number(v));
    EmitCons(n, Lit(v), [Locals([x])] + rest);
    EmitCons(n, Locals([x]), rest);
    EmitOne(n, x);
    RunQCons(f, scope, Num(v), [Bind(x)] + EmitSeq(n, rest), Lift(st), fuel);
    LiftPush(st, Number(v));
    RunQCons(f, scope, Bind(x), EmitSeq(n, rest), Lift(st1), fuel);
    LiftPop(st1);
    assert Drop(st.stack + [Number(v)]) == st.stack;
  }

  lemma {:induction false} BindingRunsQ(f: FMachine, scope: set<string>, n: Names, b: Bindings, st: State, fuel: nat)
    requires PlainNames(n.locals, b)
    ensures RunQ(f, scope, EmitSeq(n, Binding(b)), Lift(st), fuel) == FNext(Lift(st.(locals := Last(b, st.locals))))
    decreases b
  {
    if b != [] {
      assert b[0] in b;
      assert Binding(b) == [Lit(b[0].1)] + ([Locals([b[0].0])] + Binding(b[1..]));
      PushBindQ(f, scope, n, b[0].0, b[0].1, Binding(b[1..]), st, fuel);
      BindingRunsQ(f, scope, n, b[1..], st.(locals := st.locals[b[0].0 := Number(b[0].1)]), fuel);
    }
  }

  /** The branch is a quotation, and what it binds is gone behind it. */
  lemma BranchRunsQ(f: FMachine, scope: set<string>, n: Names, b: Bindings, st: State, fuel: nat)
    requires f.lexical && PlainNames(n.locals, b) && |st.stack| > 0 && Top(st.stack).Number?
    ensures RunQ(f, scope, EmitExpr(n, If(Binding(b), NoElse)), Lift(st), fuel) == FNext(Lift(Pop(st)))
  {
    var q := EmitSeq(n, Binding(b));
    assert EmitExpr(n, If(Binding(b), NoElse)) == [ZeroP] + [UnlessTok(q)];
    SimIfTok(f, scope, UnlessTok(q), st, fuel);
    BindingRunsQ(f, scope, n, b, Pop(st), fuel);
  }

  lemma BranchingRunsQ(f: FMachine, scope: set<string>, n: Names, x: string, a: int, b: Bindings, st: State, fuel: nat)
    requires f.lexical && x in n.locals && PlainName(x) && PlainNames(n.locals, b)
    requires |st.stack| > 0 && Top(st.stack).Number?
    ensures RunQ(f, scope, EmitSeq(n, Branching(x, a, b)), Lift(st), fuel)
         == FNext(Lift(Push(Pop(st).(locals := st.locals[x := Number(a)]), Number(a))))
  {
    var e := If(Binding(b), NoElse);
    var st1 := st.(locals := st.locals[x := Number(a)]);
    PushBindQ(f, scope, n, x, a, [e] + [WordRef(x)], st, fuel);
    BranchRunsQ(f, scope, n, b, st1, fuel);
    EmitCons(n, e, [WordRef(x)]);
    ReadBehind(f, scope, n, x, EmitExpr(n, e), st1, Pop(st1), fuel);
  }

  /** A local read behind a quotation. */
  lemma ReadBehind(f: FMachine, scope: set<string>, n: Names, x: string, q: seq<Token>, st: State, st1: State,
                   fuel: nat)
    requires x in n.locals && Lower(x) == x && x in st1.locals && RunQ(f, scope, q, Lift(st), fuel) == FNext(Lift(st1))
    ensures RunQ(f, scope, q + EmitSeq(n, [WordRef(x)]), Lift(st), fuel) == FNext(Lift(Push(st1, st1.locals[x])))
  {
    assert [WordRef(x)][1..] == [] && EmitSeq(n, [WordRef(x)]) == [LocalTok(x)];
    RunQConcat(f, scope, q, [LocalTok(x)], Lift(st), fuel);
    RunQOne(f, scope, LocalTok(x), Lift(st1), fuel);
    LiftPush(st1, st1.locals[x]);
  }

  // ----- exactly when -----

  /** The emitted body leaves what the body leaves under the standard. */
  ghost predicate BranchRight(f: FMachine, m: Machine, c: Context, x: string, a: int, b: Bindings, st: State,
                              fuel: nat) {
    Shown(RunQ(f, c.locals, EmitSeq(m.NamesOf(c), Branching(x, a, b)), Lift(st), fuel))
    == Shown(LiftOutcome(RunSeq(m, c, Branching(x, a, b), st, fuel)))
  }

  /** A flag on the stack. */
  predicate Flagged(st: State) {
    |st.stack| > 0 && Top(st.stack).Number?
  }

  lemma BranchExactlyAt(f: FMachine, m: Machine, c: Context, x: string, a: int, b: Bindings, st: State, fuel: nat)
    requires f.lexical && x in c.locals && PlainName(x) && PlainNames(c.locals, b) && Flagged(st)
    ensures x in Last(b, map[x := Number(a)])
    ensures BranchRight(f, m, c, x, a, b, st, fuel) <==>
            Top(st.stack).n == 0 || Last(b, map[x := Number(a)])[x] == Number(a)
  {
    var here := st.locals[x := Number(a)];
    BranchingRuns(m, c, x, a, b, st, fuel);
    BranchingRunsQ(f, c.locals, m.NamesOf(c), x, a, b, st, fuel);
    LastKeeps(b, here, x);
    LastSame(b, here, map[x := Number(a)], x);
    var v := if Top(st.stack).n != 0 then Last(b, here)[x] else Number(a);
    PushedLast(Lift(Pop(st)).stack, V(Number(a)), V(v));
    assert Lift(Push(Pop(st), v)).stack == Lift(Pop(st)).stack + [V(v)];
    assert Lift(Push(Pop(st), Number(a))).stack == Lift(Pop(st)).stack + [V(Number(a))];
  }

  lemma PushedLast(s: seq<Value>, v: Value, w: Value)
    ensures s + [v] == s + [w] <==> v == w
  {
    assert (s + [v])[|s|] == v && (s + [w])[|s|] == w;
  }

  lemma {:induction false} LastSame(b: Bindings, p: map<string, Cell>, q: map<string, Cell>, x: string)
    requires x in p && x in q && p[x] == q[x]
    ensures x in Last(b, p) && x in Last(b, q) && Last(b, p)[x] == Last(b, q)[x]
    decreases b
  {
    if b != [] {
      LastSame(b[1..], p[b[0].0 := Number(b[0].1)], q[b[0].0 := Number(b[0].1)], x);
    }
  }

  /** A local that is bound and, behind a branch that binds locals, read: on every stack with a flag what is
      emitted leaves what the standard leaves if and only if the branch leaves the local with the value it had.
      In emitted code what a branch binds is not seen behind it. */
  lemma BranchExactly(f: FMachine, m: Machine, c: Context, x: string, a: int, b: Bindings, fuel: nat)
    requires f.lexical && x in c.locals && PlainName(x) && PlainNames(c.locals, b)
    ensures x in Last(b, map[x := Number(a)])
    ensures (forall st: State | Flagged(st) :: BranchRight(f, m, c, x, a, b, st, fuel)) <==>
            Last(b, map[x := Number(a)])[x] == Number(a)
  {
    LastKeeps(b, map[x := Number(a)], x);
    forall st: State | Flagged(st)
      ensures BranchRight(f, m, c, x, a, b, st, fuel) <==>
              Top(st.stack).n == 0 || Last(b, map[x := Number(a)])[x] == Number(a)
    {
      BranchExactlyAt(f, m, c, x, a, b, st, fuel);
    }
    assert Flagged(State([Number(1)], map[], World(map[], map[], [], [], [])));
  }

  /** 1 {: x :} IF 2 {: x :} THEN x leaves two under the standard where the branch is taken, and one in emitted
      code. */
  lemma BranchExample(f: FMachine, m: Machine, c: Context, st: State, fuel: nat)
    requires f.lexical && "x" in c.locals && st.stack == [Number(1)]
    ensures var o := RunSeq(m, c, Branching("x", 1, [("x", 2)]), st, fuel);
            o.Next? && o.state.stack == [Number(2)]
    ensures var fo := RunQ(f, c.locals, EmitSeq(m.NamesOf(c), Branching("x", 1, [("x", 2)])), Lift(st), fuel);
            fo.FNext? && fo.state.stack == [V(Number(1))]
  {
    assert Lower("x") == "x" && '.' !in "x";
    var b: Bindings := [("x", 2)];
    assert b[1..] == [] && b[0] == ("x", 2);
    BranchingRuns(m, c, "x", 1, b, st, fuel);
    BranchingRunsQ(f, c.locals, m.NamesOf(c), "x", 1, b, st, fuel);
    assert Last(b, st.locals["x" := Number(1)]) == st.locals["x" := Number(1)]["x" := Number(2)];
    assert Pop(st).stack == [];
  }
}
