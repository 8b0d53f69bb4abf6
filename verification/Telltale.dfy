/** A runtime that tells runs apart: each builtin takes what its table entry says and leaves items that
    occur nowhere else. */
module Telltale {
  import opened Forth
  import opened Frame
  import opened Effects
  import opened EffectSound
  import opened EffectLimits

  /** Literals and builtins of the table. */
  predicate PlainCode(env: Env, n: Names, s: seq<Expr>) {
    forall e <- s :: e.Lit? || (e.WordRef? && IsTabled(env, n, e.name))
  }

  const nowhere := Context({}, "")
  const noNames := Names({}, {})

  /** Literals and builtins of the table, the last a builtin that leaves something. */
  predicate EndsInBuiltin(table: map<string, Eff>, s: seq<Expr>) {
    && "exit" !in table && "recurse" !in table
    && PlainCode(Env(map[], table, {}), noNames, s)
    && s != [] && s[|s| - 1].WordRef?
    && Lookup(table, Lower(s[|s| - 1].name)).Known? && Lookup(table, Lower(s[|s| - 1].name)).outputs >= 1
  }

  /** New items, numbered from k. */
  function News(k: nat, count: nat): (s: seq<Cell>)
    ensures |s| == count && forall i :: 0 <= i < count ==> s[i] == Address("new", k + i)
  {
    seq(count, i => Address("new", k + i))
  }

  function NewPrim(table: map<string, Eff>, lc: string, s: seq<Cell>, w: World): PrimResult {
    var eff := Lookup(table, lc);
    if eff == Unknown then PrimFault
    else if |s| < eff.inputs then PrimUnderflow
    else
      Done(s[..|s| - eff.inputs] + News(|w.output|, eff.outputs), w.(output := w.output + Zeros(eff.outputs)))
  }

  ghost predicate Tells(m: Machine, table: map<string, Eff>) {
    forall lc, s, w :: m.prim(lc, s, w) == NewPrim(table, lc, s, w)
  }

  lemma TellsMeets(m: Machine, table: map<string, Eff>)
    requires Tells(m, table) && "exit" !in table && "recurse" !in table
    ensures MeetsTable(m, table) && Framed(m)
  {
    forall lc, s, w | lc in table
      ensures PrimFits(m.prim(lc, s, w), s, table[lc])
    {
      assert m.prim(lc, s, w) == NewPrim(table, lc, s, w);
    }
    forall lc, below, s, w | !m.prim(lc, s, w).PrimUnderflow?
      ensures m.prim(lc, below + s, w) == UnderPrim(below, m.prim(lc, s, w))
    {
      assert m.prim(lc, s, w) == NewPrim(table, lc, s, w);
      assert m.prim(lc, below + s, w) == NewPrim(table, lc, below + s, w);
      var eff := Lookup(table, lc);
      if eff.Known? {
        var keep := |s| - eff.inputs;
        assert (below + s)[..|below| + keep] == below + s[..keep];
        assert below + s[..keep] + News(|w.output|, eff.outputs) == below + (s[..keep] + News(|w.output|, eff.outputs));
      }
    }
  }

  // ----- what a run leaves, known beforehand -----

  /** What code has done to its stack: how many of the items it found it has taken, what it has put
      there, and the number of the next new item. */
  datatype Made = Made(taken: nat, items: seq<Cell>, next: nat)

  function MakeExpr(env: Env, e: Expr, a: Made): Made {
    match e
    case Lit(v) => a.(items := a.items + [Number(v)])
    case WordRef(name) =>
      (match Lookup(env.table, Lower(name))
       case Known(i, o) =>
         if |a.items| >= i then Made(a.taken, a.items[..|a.items| - i] + News(a.next, o), a.next + o)
         else Made(a.taken + (i - |a.items|), News(a.next, o), a.next + o)
       case Unknown => a)
    case _ => a
  }

  function MakeSeq(env: Env, s: seq<Expr>, a: Made): Made
    decreases s
  {
    if s == [] then a else MakeSeq(env, s[1..], MakeExpr(env, s[0], a))
  }

  function MadeEffect(a: Made): Eff {
    Known(a.taken, |a.items|)
  }

  lemma {:induction false} MakeEffect(env: Env, n: Names, s: seq<Expr>, a: Made)
    requires PlainCode(env, n, s)
    ensures MadeEffect(MakeSeq(env, s, a)) == Then(MadeEffect(a), InferBlock(env, n, s))
    decreases s
  {
    if s == [] {
      ThenIdentity(MadeEffect(a));
    } else {
      var a1 := MakeExpr(env, s[0], a);
      assert s[0] in s;
      assert MadeEffect(a1) == Then(MadeEffect(a), InferExpr(env, n, s[0]));
      MakeEffect(env, n, s[1..], a1);
      ThenAssociative(MadeEffect(a), InferExpr(env, n, s[0]), InferBlock(env, n, s[1..]));
    }
  }

  lemma {:induction false} TakenGrows(env: Env, s: seq<Expr>, a: Made)
    ensures MakeSeq(env, s, a).taken >= a.taken
    decreases s
  {
    if s != [] {
      TakenGrows(env, s[1..], MakeExpr(env, s[0], a));
    }
  }

  predicate Holds(st: State, base: seq<Cell>, a: Made) {
    a.taken <= |base| && st.stack == base[..|base| - a.taken] + a.items && |st.world.output| == a.next
  }

  lemma MakeStep(m: Machine, env: Env, c: Context, e: Expr, base: seq<Cell>, st: State, a: Made, fuel: nat)
    requires Tells(m, env.table) && PlainCode(env, m.NamesOf(c), [e]) && Holds(st, base, a)
    requires MakeExpr(env, e, a).taken <= |base|
    ensures var o := RunExpr(m, c, e, st, fuel);
            o.Next? && o.state.locals == st.locals && Holds(o.state, base, MakeExpr(env, e, a))
  {
    assert e in [e];
    match e
    case Lit(v) =>
      assert base[..|base| - a.taken] + a.items + [Number(v)] == base[..|base| - a.taken] + (a.items + [Number(v)]);
    case WordRef(name) =>
      var lc := Lower(name);
      assert m.prim(lc, st.stack, st.world) == NewPrim(env.table, lc, st.stack, st.world);
      MakePrim(env.table, lc, base, st, a, MakeExpr(env, e, a));
  }

  lemma MakePrim(table: map<string, Eff>, lc: string, base: seq<Cell>, st: State, a: Made, a1: Made)
    requires Lookup(table, lc).Known? && Holds(st, base, a) && a1.taken <= |base|
    requires var eff := Lookup(table, lc);
             a1 == if |a.items| >= eff.inputs
                   then Made(a.taken, a.items[..|a.items| - eff.inputs] + News(a.next, eff.outputs), a.next + eff.outputs)
                   else Made(a.taken + (eff.inputs - |a.items|), News(a.next, eff.outputs), a.next + eff.outputs)
    ensures var r := NewPrim(table, lc, st.stack, st.world);
            r.Done? && Holds(st.(stack := r.stack, world := r.world), base, a1)
  {
    var eff := Lookup(table, lc);
    var keep, left := |st.stack| - eff.inputs, |base| - a.taken;
    if |a.items| >= eff.inputs {
      var items := a.items[..|a.items| - eff.inputs];
      assert st.stack[..keep] == base[..left] + items;
      assert base[..left] + items + News(a.next, eff.outputs) == base[..left] + (items + News(a.next, eff.outputs));
    } else {
      assert st.stack[..keep] == base[..keep];
    }
  }

  /** Plain code leaves what was computed beforehand, on top of what it has not taken. */
  lemma {:induction false} MakeRun(m: Machine, env: Env, c: Context, s: seq<Expr>, base: seq<Cell>, st: State, a: Made,
                                   fuel: nat)
    requires Tells(m, env.table) && PlainCode(env, m.NamesOf(c), s) && Holds(st, base, a)
    requires MakeSeq(env, s, a).taken <= |base|
    ensures var o := RunSeq(m, c, s, st, fuel);
            o.Next? && o.state.locals == st.locals && Holds(o.state, base, MakeSeq(env, s, a))
    decreases s
  {
    if s != [] {
      var a1 := MakeExpr(env, s[0], a);
      TakenGrows(env, s[1..], a1);
      assert s[0] in s;
      MakeStep(m, env, c, s[0], base, st, a, fuel);
      MakeRun(m, env, c, s[1..], base, RunExpr(m, c, s[0], st, fuel).state, a1, fuel);
    }
  }

  /** Items are literals, or new and numbered below the next. */
  predicate Own(a: Made) {
    forall x <- a.items :: x.Number? || (x.Address? && x.name == "new" && x.offset < a.next)
  }

  lemma {:induction false} MakeOwn(env: Env, s: seq<Expr>, a: Made)
    requires Own(a)
    ensures Own(MakeSeq(env, s, a))
    decreases s
  {
    if s != [] {
      MakeOwn(env, s[1..], MakeExpr(env, s[0], a));
    }
  }

  lemma {:induction false} MakeConcat(env: Env, s: seq<Expr>, t: seq<Expr>, a: Made)
    ensures MakeSeq(env, s + t, a) == MakeSeq(env, t, MakeSeq(env, s, a))
    decreases s
  {
    if s == [] {
      assert s + t == t;
    } else {
      assert (s + t)[1..] == s[1..] + t;
      MakeConcat(env, s[1..], t, MakeExpr(env, s[0], a));
    }
  }

  /** Code that ends in a builtin leaves on top an item that occurs nowhere below. */
  lemma TopIsNew(env: Env, n: Names, s: seq<Expr>)
    requires s != [] && PlainCode(env, n, s) && s[|s| - 1].WordRef?
    requires Lookup(env.table, Lower(s[|s| - 1].name)).outputs >= 1
    ensures var items := MakeSeq(env, s, Made(0, [], 0)).items;
            && |items| >= 1
            && items[|items| - 1].Address? && items[|items| - 1].name == "new"
            && forall i :: 0 <= i < |items| - 1 ==> items[i] != items[|items| - 1]
  {
    var last := s[|s| - 1];
    assert s == s[..|s| - 1] + [last] && last in s;
    var a := MakeSeq(env, s[..|s| - 1], Made(0, [], 0));
    MakeOwn(env, s[..|s| - 1], Made(0, [], 0));
    MakeConcat(env, s[..|s| - 1], [last], Made(0, [], 0));
    assert [last][1..] == [];
    assert MakeSeq(env, [last], a) == MakeExpr(env, last, a);
    var items := MakeExpr(env, last, a).items;
    forall i | 0 <= i < |items| - 1
      ensures items[i] != items[|items| - 1]
    {
      if items[i] in a.items && items[i].Address? {
        assert items[i].offset < a.next;
      }
    }
  }
}
