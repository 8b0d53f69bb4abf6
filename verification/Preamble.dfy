/** The inputs of a definition whose locals are all bound inside it are bound on entry and pushed back
    (emit_definition_mid_locals_only in src/compiler/emit.rs): what that does to the stack. */
module Preamble {
  import opened Common
  import opened Forth
  import opened Factor
  import opened Emit
  import opened Lifting
  import Lex

  /** The first place of a name. */
  function First(names: seq<string>, x: string): (i: nat)
    requires x in names
    ensures i < |names| && names[i] == x
  {
    if names[0] == x then 0 else 1 + First(names[1..], x)
  }

  lemma {:induction false} FirstBefore(names: seq<string>, x: string, k: nat)
    requires k <= |names| && x in names[..k]
    ensures First(names[..k], x) == First(names, x)
    decreases names
  {
    if names[0] != x {
      assert names[..k][1..] == names[1..][..k - 1];
      FirstBefore(names[1..], x, k - 1);
    } else {
      assert names[..k][0] == x;
    }
  }

  lemma {:induction false} BoundOthers(names: seq<string>, items: seq<Cell>, locals: map<string, Cell>, x: string)
    requires |items| == |names| && x !in names && x in locals
    ensures x in Bound(names, items, locals) && Bound(names, items, locals)[x] == locals[x]
    decreases |names|
  {
    if names != [] {
      var k := |names| - 1;
      assert names[k] in names;
      BoundOthers(names[..k], items[..k], locals[names[k] := items[k]], x);
    }
  }

  /** Of several inputs with one name the leftmost is kept. */
  lemma {:induction false} BoundFirst(names: seq<string>, items: seq<Cell>, locals: map<string, Cell>, x: string)
    requires |items| == |names| && x in names
    ensures x in Bound(names, items, locals) && Bound(names, items, locals)[x] == items[First(names, x)]
    decreases |names|
  {
    var k := |names| - 1;
    var locals1 := locals[names[k] := items[k]];
    if x in names[..k] {
      BoundFirst(names[..k], items[..k], locals1, x);
      FirstBefore(names, x, k);
    } else {
      BoundOthers(names[..k], items[..k], locals1, x);
      forall i | 0 <= i < k
        ensures names[i] != x
      {
        assert names[..k][i] == names[i];
      }
    }
  }

  lemma {:induction false} TakeInputsRun(f: FMachine, scope: set<string>, names: seq<string>, base: seq<Cell>,
                                         items: seq<Cell>, st: State, fuel: nat)
    requires |items| == |names| && st.stack == base + items
    ensures RunQ(f, scope, TakeInputs(names), Lift(st), fuel)
         == FNext(Lift(st.(stack := base, locals := Bound(names, items, st.locals))))
    decreases |names|
  {
    if names == [] {
      assert base + items == base;
    } else {
      var k := |names| - 1;
      var st1 := Pop(st).(locals := st.locals[names[k] := items[k]]);
      assert names[k] in names;
      assert Drop(base + items) == base + items[..k];
      LiftPop(st);
      RunQCons(f, scope, Bind(names[k]), TakeInputs(names[..k]), Lift(st), fuel);
      TakeInputsRun(f, scope, names[..k], base, items[..k], st1, fuel);
    }
  }

  /** What the names of the inputs push. */
  function Named(names: seq<string>, locals: map<string, Cell>): (s: seq<Cell>)
    requires forall x <- names :: x in locals
    ensures |s| == |names|
  {
    seq(|names|, i requires 0 <= i < |names| => locals[names[i]])
  }

  lemma {:induction false} PushInputsRun(f: FMachine, scope: set<string>, names: seq<string>, st: State, fuel: nat)
    requires forall x <- names :: x in st.locals
    ensures RunQ(f, scope, PushInputs(names), Lift(st), fuel)
         == FNext(Lift(st.(stack := st.stack + Named(names, st.locals))))
    decreases |names|
  {
    if names == [] {
      assert st.stack + Named(names, st.locals) == st.stack;
    } else {
      var v := st.locals[names[0]];
      LiftPush(st, v);
      RunQCons(f, scope, LocalTok(names[0]), PushInputs(names[1..]), Lift(st), fuel);
      PushInputsRun(f, scope, names[1..], Push(st, v), fuel);
      assert Named(names, st.locals) == [v] + Named(names[1..], st.locals);
      assert st.stack + [v] + Named(names[1..], st.locals) == st.stack + Named(names, st.locals);
    }
  }

  // ----- when the stack is restored -----

  /** The items as they come back: each is that of the first input of its name. */
  function Back(names: seq<string>, items: seq<Cell>): (s: seq<Cell>)
    requires |items| == |names|
    ensures |s| == |names|
  {
    seq(|names|, i requires 0 <= i < |names| => items[First(names, names[i])])
  }

  lemma PreambleRun(f: FMachine, scope: set<string>, names: seq<string>, base: seq<Cell>, items: seq<Cell>, st: State,
                    fuel: nat)
    requires |items| == |names| && st.stack == base + items
    ensures var o := RunQ(f, scope, Restore(names), Lift(st), fuel);
            o == FNext(Lift(st.(stack := base + Back(names, items), locals := Bound(names, items, st.locals))))
  {
    var locals := Bound(names, items, st.locals);
    forall x | x in names
      ensures x in locals && locals[x] == items[First(names, x)]
    {
      BoundFirst(names, items, st.locals, x);
    }
    RunQConcat(f, scope, TakeInputs(names), PushInputs(names), Lift(st), fuel);
    TakeInputsRun(f, scope, names, base, items, st, fuel);
    PushInputsRun(f, scope, names, st.(stack := base, locals := locals), fuel);
    assert Named(names, locals) == Back(names, items);
  }

  lemma {:induction false} FirstDistinct(names: seq<string>, i: nat)
    requires Distinct(names) && i < |names|
    ensures First(names, names[i]) == i
  {
    var j := First(names, names[i]);
    assert names[j] == names[i];
  }

  /** The preamble binds the inputs and leaves the stack as it was, or underflows. */
  ghost predicate Restores(f: FMachine, scope: set<string>, names: seq<string>, st: State, fuel: nat) {
    RunQ(f, scope, Restore(names), Lift(st), fuel) == LiftOutcome(BindInputs(names, st))
  }

  lemma {:induction false} TakeShallow(f: FMachine, scope: set<string>, names: seq<string>, st: State, fuel: nat)
    requires |st.stack| < |names|
    ensures RunQ(f, scope, TakeInputs(names), Lift(st), fuel) == FUnderflow
    decreases |names|
  {
    var k := |names| - 1;
    RunQCons(f, scope, Bind(names[k]), TakeInputs(names[..k]), Lift(st), fuel);
    if |st.stack| > 0 {
      LiftPop(st);
      TakeShallow(f, scope, names[..k], Pop(st).(locals := st.locals[names[k] := Top(st.stack)]), fuel);
    }
  }

  lemma DistinctRestores(f: FMachine, scope: set<string>, names: seq<string>, st: State, fuel: nat)
    requires Distinct(names)
    ensures Restores(f, scope, names, st, fuel)
  {
    if |st.stack| < |names| {
      RunQConcat(f, scope, TakeInputs(names), PushInputs(names), Lift(st), fuel);
      TakeShallow(f, scope, names, st, fuel);
    } else {
      var d := |st.stack| - |names|;
      var items := st.stack[d..];
      assert st.stack == st.stack[..d] + items;
      PreambleRun(f, scope, names, st.stack[..d], items, st, fuel);
      forall i | 0 <= i < |names|
        ensures Back(names, items)[i] == items[i]
      {
        FirstDistinct(names, i);
      }
      assert Back(names, items) == items;
    }
  }

  /** Numbered items. */
  function Counted(n: nat): State {
    State(seq(n, k => Number(k)), map[], World(map[], map[], [], [], []))
  }

  lemma TwiceFails(f: FMachine, scope: set<string>, names: seq<string>, i: nat, j: nat, fuel: nat)
    requires j < i < |names| && names[j] == names[i]
    ensures var o := RunQ(f, scope, Restore(names), Lift(Counted(|names|)), fuel);
            o.FNext? && o.state.stack != Lift(Counted(|names|)).stack
  {
    var st := Counted(|names|);
    var back := Back(names, st.stack);
    assert st.stack == [] + st.stack && back == [] + back;
    PreambleRun(f, scope, names, [], st.stack, st, fuel);
    BackTwice(names, st.stack, i, j);
    NotCounted(back, i, j);
  }

  lemma BackTwice(names: seq<string>, items: seq<Cell>, i: nat, j: nat)
    requires |items| == |names| && i < |names| && j < |names| && names[i] == names[j]
    ensures Back(names, items)[i] == Back(names, items)[j]
  {}

  lemma NotCounted(s: seq<Cell>, i: nat, j: nat)
    requires j < i < |s| && s[i] == s[j]
    ensures AsValues(s) != Lift(Counted(|s|)).stack
  {
    assert Lift(Counted(|s|)).stack[i] == V(Number(i)) && Lift(Counted(|s|)).stack[j] == V(Number(j));
  }

  /** From every state the preamble restores what it has taken, and binds it, if and only if no two inputs
      have the same name. */
  lemma PreambleExactly(f: FMachine, scope: set<string>, names: seq<string>, fuel: nat)
    ensures (forall st: State :: Restores(f, scope, names, st, fuel)) <==> Distinct(names)
  {
    if Distinct(names) {
      forall st: State
        ensures Restores(f, scope, names, st, fuel)
      {
        DistinctRestores(f, scope, names, st, fuel);
      }
    } else {
      var j, i :| 0 <= j < i < |names| && names[j] == names[i];
      TwiceFails(f, scope, names, i, j, fuel);
      assert !Restores(f, scope, names, Counted(|names|), fuel);
    }
  }

  /** Inputs counted by inference are numbered, and so have different names. */
  lemma NumberedDistinct(d: Definition)
    requires d.declared.Undeclared?
    ensures Distinct(Inputs(d))
  {
    var names := Inputs(d);
    forall i, j | 0 <= i < j < |names|
      ensures names[i] != names[j]
    {
      Lex.DigitsRead(i, 10);
      Lex.DigitsRead(j, 10);
      assert NumberedName(i)[3..] == Digits(i, 10) && NumberedName(j)[3..] == Digits(j, 10);
    }
  }
}
