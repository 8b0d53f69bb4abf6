/** Binding RECURSE to the enclosing definition (src/compiler/lower_recurse.rs). */
module LowerRecurse {
  import opened Forth
  import opened Equivalence
  import opened Congruence

  // ----- the transformation -----

  predicate IsRecurse(e: Expr) {
    e.WordRef? && Lower(e.name) == "recurse"
  }

  /** Every RECURSE becomes a reference to `target`, at every depth. */
  function RecurseSeq(s: seq<Expr>, target: string): seq<Expr>
    decreases SizeSeq(s), 1, |s|
  {
    if s == [] then [] else [RecurseExpr(s[0], target)] + RecurseSeq(s[1..], target)
  }

  function RecurseExpr(e: Expr, target: string): Expr
    decreases SizeExpr(e), 0
  {
    match e
    case WordRef(_) => if IsRecurse(e) then WordRef(target) else e
    case If(thenBody, elseBody) => If(RecurseSeq(thenBody, target), RecurseElse(elseBody, target))
    case BeginUntil(body) => BeginUntil(RecurseSeq(body, target))
    case BeginAgain(body) => BeginAgain(RecurseSeq(body, target))
    case BeginWhileRepeat(pred, body) => BeginWhileRepeat(RecurseSeq(pred, target), RecurseSeq(body, target))
    case DoLoop(isQdo, body, kind) => DoLoop(isQdo, RecurseSeq(body, target), kind)
    case Case(arms, default) => Case(RecurseArms(arms, target), RecurseElse(default, target))
    case _ => e
  }

  function RecurseElse(e: Else, target: string): Else
    decreases SizeElse(e), 0
  {
    match e
    case NoElse => NoElse
    case ElseBody(body) => ElseBody(RecurseSeq(body, target))
  }

  function RecurseArms(arms: seq<Arm>, target: string): seq<Arm>
    decreases SizeArms(arms), 0
  {
    if arms == [] then []
    else [Arm(RecurseSeq(arms[0].matchExpr, target), RecurseSeq(arms[0].body, target))] + RecurseArms(arms[1..], target)
  }

  /** The `saw` flag: a RECURSE somewhere in the body. */
  predicate SawSeq(s: seq<Expr>)
    decreases SizeSeq(s), 1, |s|
  {
    s != [] && (SawExpr(s[0]) || SawSeq(s[1..]))
  }

  predicate SawExpr(e: Expr)
    decreases SizeExpr(e), 0
  {
    match e
    case WordRef(_) => IsRecurse(e)
    case If(thenBody, elseBody) => SawSeq(thenBody) || SawElse(elseBody)
    case BeginUntil(body) => SawSeq(body)
    case BeginAgain(body) => SawSeq(body)
    case BeginWhileRepeat(pred, body) => SawSeq(pred) || SawSeq(body)
    case DoLoop(_, body, _) => SawSeq(body)
    case Case(arms, default) => SawArms(arms) || SawElse(default)
    case _ => false
  }

  predicate SawElse(e: Else)
    decreases SizeElse(e), 0
  {
    e.ElseBody? && SawSeq(e.body)
  }

  predicate SawArms(arms: seq<Arm>)
    decreases SizeArms(arms), 0
  {
    arms != [] && (SawSeq(arms[0].matchExpr) || SawSeq(arms[0].body) || SawArms(arms[1..]))
  }

  // ----- a whole program -----

  datatype Item = DefItem(name: string, def: Definition) | OtherItem

  predicate LacksEffect(item: Item) {
    item.DefItem? && item.def.declared == Undeclared && SawSeq(item.def.body)
  }

  function Missing(items: seq<Item>): seq<string> {
    if items == [] then []
    else (if LacksEffect(items[0]) then [items[0].name] else []) + Missing(items[1..])
  }

  lemma {:induction false} MissingSnoc(items: seq<Item>, item: Item)
    ensures Missing(items + [item]) == Missing(items) + if LacksEffect(item) then [item.name] else []
  {
    if items == [] {
      assert Missing([item]) == (if LacksEffect(item) then [item.name] else []) + Missing([]) by {
        assert [item][1..] == [];
      }
      assert [] + [item] == [item];
    } else {
      assert (items + [item])[1..] == items[1..] + [item];
      MissingSnoc(items[1..], item);
    }
  }

  /** No definition is reported if and only if every definition that uses RECURSE declares its effect. */
  lemma {:induction false} NothingMissing(items: seq<Item>)
    ensures Missing(items) == [] <==>
            forall item <- items :: item.DefItem? && SawSeq(item.def.body) ==> item.def.declared.Effect?
  {
    if items != [] {
      NothingMissing(items[1..]);
      assert items == [items[0]] + items[1..];
    }
  }

  // ----- meaning -----

  /** RECURSE and the definition's own name reach the same definition: neither is hidden. */
  predicate SelfVisible(c: Context, words: set<string>) {
    Lower(c.self) == "recurse" || (Lower(c.self) !in c.locals && "recurse" !in c.locals && "recurse" !in words)
  }

  lemma {:induction false} RecursePreserves(m: Machine, c: Context, s: seq<Expr>)
    requires Lower(c.self) in m.defs && SelfVisible(c, m.Words())
    ensures SameSeq(m, c, s, RecurseSeq(s, c.self))
    decreases SizeSeq(s), 1, |s|
  {
    if s != [] {
      RecurseExprPreserves(m, c, s[0]);
      RecursePreserves(m, c, s[1..]);
      SameCons(m, c, s[0], RecurseExpr(s[0], c.self), s[1..], RecurseSeq(s[1..], c.self));
      assert s == [s[0]] + s[1..];
    }
  }

  lemma {:induction false} RecurseElsePreserves(m: Machine, c: Context, e: Else)
    requires Lower(c.self) in m.defs && SelfVisible(c, m.Words())
    ensures SameElse(m, c, e, RecurseElse(e, c.self))
    decreases SizeElse(e), 0, 0
  {
    match e
    case NoElse =>
    case ElseBody(body) =>
      RecursePreserves(m, c, body);
      SameElseBody(m, c, body, RecurseSeq(body, c.self));
  }

  lemma RecurseWordPreserves(m: Machine, c: Context, e: Expr)
    requires IsRecurse(e) && Lower(c.self) in m.defs && SelfVisible(c, m.Words())
    ensures SameExpr(m, c, e, WordRef(c.self))
  {
    forall st, fuel
      ensures RunExpr(m, c, e, st, fuel) == RunExpr(m, c, WordRef(c.self), st, fuel)
    {
      if Lower(c.self) != "recurse" {
        assert Resolve(m.NamesOf(c), e.name) == Builtin;
        assert Resolve(m.NamesOf(c), c.self) == UserDefined;
      }
    }
  }

  lemma {:induction false} RecurseExprPreserves(m: Machine, c: Context, e: Expr)
    requires Lower(c.self) in m.defs && SelfVisible(c, m.Words())
    ensures SameExpr(m, c, e, RecurseExpr(e, c.self))
    decreases SizeExpr(e), 1, 0
  {
    match e
    case WordRef(_) =>
      if IsRecurse(e) {
        RecurseWordPreserves(m, c, e);
      }
    case If(thenBody, elseBody) =>
      RecursePreserves(m, c, thenBody);
      RecurseElsePreserves(m, c, elseBody);
      SameIf(m, c, thenBody, RecurseSeq(thenBody, c.self), elseBody, RecurseElse(elseBody, c.self));
    case BeginUntil(body) =>
      RecursePreserves(m, c, body);
      SameLoop(m, c, e, RecurseExpr(e, c.self));
    case BeginAgain(body) =>
      RecursePreserves(m, c, body);
      SameLoop(m, c, e, RecurseExpr(e, c.self));
    case BeginWhileRepeat(pred, body) =>
      RecursePreserves(m, c, pred);
      RecursePreserves(m, c, body);
      SameLoop(m, c, e, RecurseExpr(e, c.self));
    case DoLoop(_, body, _) =>
      RecursePreserves(m, c, body);
      SameLoop(m, c, e, RecurseExpr(e, c.self));
    case Case(arms, default) =>
      RecurseArmsPreserve(m, c, arms);
      RecurseElsePreserves(m, c, default);
      SameCase(m, c, arms, RecurseArms(arms, c.self), default, RecurseElse(default, c.self));
    case _ =>
  }

  lemma {:induction false} RecurseArmsPreserve(m: Machine, c: Context, arms: seq<Arm>)
    requires Lower(c.self) in m.defs && SelfVisible(c, m.Words())
    ensures SameArms(m, c, arms, RecurseArms(arms, c.self))
    decreases SizeArms(arms), 0, 0
  {
    if arms != [] {
      RecursePreserves(m, c, arms[0].matchExpr);
      RecursePreserves(m, c, arms[0].body);
      RecurseArmsPreserve(m, c, arms[1..]);
      var b := RecurseArms(arms, c.self);
      assert b[0] == Arm(RecurseSeq(arms[0].matchExpr, c.self), RecurseSeq(arms[0].body, c.self));
      assert b[1..] == RecurseArms(arms[1..], c.self);
    }
  }

  // ----- exactly when -----

  ghost predicate AlwaysRight(c: Context, words: set<string>) {
    forall m: Machine, s | m.Words() == words && Lower(c.self) in m.defs :: SameSeq(m, c, s, RecurseSeq(s, c.self))
  }

  /** Definitions that push a zero, except that `self` pushes a one. */
  ghost function Pushers(words: set<string>, self: string): (m: Machine)
    ensures m.Words() == words
  {
    Machine(map lc | lc in words :: Defining([Lit(if lc == self then 1 else 0)]),
            map[], (lc: string, stack: seq<Cell>, w: World) => Done(stack, w), false)
  }

  lemma RunPusher(words: set<string>, self: string, lc: string, st: State)
    requires lc in words
    ensures Call(Pushers(words, self), lc, st, 1) == Next(Push(st, Number(if lc == self then 1 else 0)))
  {
    var m := Pushers(words, self);
    RunOne(m, Context({}, lc), m.defs[lc].body[0], st.(locals := map[]), 1);
  }

  /** Binding RECURSE to the name is right for every body and every machine if and only if neither of
      the two is hidden by a local, nor RECURSE by another definition. */
  lemma RecurseExactly(c: Context, words: set<string>)
    requires Lower(c.self) in words
    ensures AlwaysRight(c, words) <==> SelfVisible(c, words)
  {
    var self := Lower(c.self);
    if SelfVisible(c, words) {
      forall m: Machine, s | m.Words() == words && Lower(c.self) in m.defs
        ensures SameSeq(m, c, s, RecurseSeq(s, c.self))
      {
        RecursePreserves(m, c, s);
      }
    } else {
      var m := Pushers(words, self);
      var st := State([], map["recurse" := Number(5), self := Number(7)], World(map[], map[], [], [], []));
      var s := [WordRef("recurse")];
      assert Lower("recurse") == "recurse";
      assert RecurseSeq(s, c.self) == [WordRef(c.self)];
      RunOne(m, c, WordRef("recurse"), st, 2);
      RunOne(m, c, WordRef(c.self), st, 2);
      RunPusher(words, self, self, st);
      if "recurse" in words {
        RunPusher(words, self, "recurse", st);
      }
      var a, b := RunSeq(m, c, s, st, 2), RunSeq(m, c, RecurseSeq(s, c.self), st, 2);
      assert a.Next? && a.state.stack
                       == [Number(if "recurse" in c.locals then 5 else if "recurse" in words then 0 else 1)];
      assert b.Next? && b.state.stack == [Number(if self in c.locals then 7 else 1)];
      assert a.state.stack[0] != b.state.stack[0];
      assert !SameSeq(m, c, s, RecurseSeq(s, c.self));
    }
  }

  // ----- what is left -----

  /** No RECURSE is left, unless the definition itself has that name. */
  lemma {:induction false} RecurseLeavesNone(s: seq<Expr>, target: string)
    requires Lower(target) != "recurse"
    ensures !SawSeq(RecurseSeq(s, target))
    decreases SizeSeq(s), 1, |s|
  {
    if s != [] {
      ExprLeavesNone(s[0], target);
      RecurseLeavesNone(s[1..], target);
      var b := RecurseSeq(s, target);
      assert b[1..] == RecurseSeq(s[1..], target);
    }
  }

  lemma {:induction false} ExprLeavesNone(e: Expr, target: string)
    requires Lower(target) != "recurse"
    ensures !SawExpr(RecurseExpr(e, target))
    decreases SizeExpr(e), 0, 0
  {
    match e
    case If(thenBody, elseBody) =>
      RecurseLeavesNone(thenBody, target);
      ElseLeavesNone(elseBody, target);
    case BeginUntil(body) => RecurseLeavesNone(body, target);
    case BeginAgain(body) => RecurseLeavesNone(body, target);
    case BeginWhileRepeat(pred, body) =>
      RecurseLeavesNone(pred, target);
      RecurseLeavesNone(body, target);
    case DoLoop(_, body, _) => RecurseLeavesNone(body, target);
    case Case(arms, default) =>
      ArmsLeaveNone(arms, target);
      ElseLeavesNone(default, target);
    case _ =>
  }

  lemma {:induction false} ElseLeavesNone(e: Else, target: string)
    requires Lower(target) != "recurse"
    ensures !SawElse(RecurseElse(e, target))
    decreases SizeElse(e), 0, 0
  {
    match e
    case NoElse =>
    case ElseBody(body) => RecurseLeavesNone(body, target);
  }

  lemma {:induction false} ArmsLeaveNone(arms: seq<Arm>, target: string)
    requires Lower(target) != "recurse"
    ensures !SawArms(RecurseArms(arms, target))
    decreases SizeArms(arms), 0, 0
  {
    if arms != [] {
      RecurseLeavesNone(arms[0].matchExpr, target);
      RecurseLeavesNone(arms[0].body, target);
      ArmsLeaveNone(arms[1..], target);
      var b := RecurseArms(arms, target);
      assert b[0] == Arm(RecurseSeq(arms[0].matchExpr, target), RecurseSeq(arms[0].body, target));
      assert b[1..] == RecurseArms(arms[1..], target);
    }
  }

  // ----- the pass over a program -----

  /** The two bodies run alike in a definition called `self`, wherever neither that name nor RECURSE is
      hidden. */
  ghost predicate AlikeFor(self: string, a: seq<Expr>, b: seq<Expr>) {
    forall m: Machine, c: Context | c.self == self && Lower(self) in m.defs && SelfVisible(c, m.Words()) ::
      SameSeq(m, c, a, b)
  }

  /** Only the body of a definition changes: it runs as before, and does not say RECURSE any more. */
  ghost predicate BoundTo(before: Item, after: Item) {
    match before
    case OtherItem => after == OtherItem
    case DefItem(name, def) =>
      && after.DefItem? && after.name == name && after.def == def.(body := after.def.body)
      && (Lower(name) != "recurse" ==> !SawSeq(after.def.body))
      && AlikeFor(name, def.body, after.def.body)
  }

  lemma RecurseBinds(item: Item)
    requires item.DefItem?
    ensures BoundTo(item, item.(def := item.def.(body := RecurseSeq(item.def.body, item.name))))
  {
    var name, body := item.name, item.def.body;
    forall m: Machine, c: Context | c.self == name && Lower(name) in m.defs && SelfVisible(c, m.Words())
      ensures SameSeq(m, c, body, RecurseSeq(body, name))
    {
      RecursePreserves(m, c, body);
    }
    if Lower(name) != "recurse" {
      RecurseLeavesNone(body, name);
    }
  }

  /** The positions `at`, in order, are those of the definitions that say RECURSE and declare no effect;
      `missing` holds their names. */
  predicate Reported(missing: seq<string>, at: seq<nat>, items: seq<Item>) {
    && |at| == |missing|
    && (forall j :: 0 <= j < |at| ==>
          at[j] < |items| && items[at[j]].DefItem? && missing[j] == items[at[j]].name)
    && (forall i, j :: 0 <= i < j < |at| ==> at[i] < at[j])
    && (forall k: nat :: k < |items| ==>
          (k in at <==> items[k].DefItem? && items[k].def.declared == Undeclared && SawSeq(items[k].def.body)))
  }

  lemma ReportedSnoc(missing: seq<string>, at: seq<nat>, items: seq<Item>, item: Item)
    requires Reported(missing, at, items)
    ensures LacksEffect(item) ==> Reported(missing + [item.name], at + [|items|], items + [item])
    ensures !LacksEffect(item) ==> Reported(missing, at, items + [item])
  {
    var n: nat := |items|;
    assert forall k :: 0 <= k < n ==> (items + [item])[k] == items[k];
    assert n !in at;
    assert forall k: nat :: k < n ==> (k in at + [n] <==> k in at);
  }

  lemma ReportedNext(missing: seq<string>, at: seq<nat>, items: seq<Item>, i: nat)
    requires i < |items| && Reported(missing, at, items[..i]) && missing == Missing(items[..i])
    ensures LacksEffect(items[i]) ==>
              && Reported(missing + [items[i].name], at + [i], items[..i + 1])
              && missing + [items[i].name] == Missing(items[..i + 1])
    ensures !LacksEffect(items[i]) ==>
              Reported(missing, at, items[..i + 1]) && missing == Missing(items[..i + 1])
  {
    MissingSnoc(items[..i], items[i]);
    ReportedSnoc(missing, at, items[..i], items[i]);
    assert items[..i + 1] == items[..i] + [items[i]];
  }

  /** Rewrites one definition in place, and tells whether it says RECURSE. */
  method RewriteDef(items: array<Item>, i: nat) returns (saw: bool)
    requires i < items.Length && items[i].DefItem?
    modifies items
    ensures BoundTo(old(items[i]), items[i]) && saw == SawSeq(old(items[i]).def.body)
    ensures items[..] == old(items[..])[i := items[i]]
  {
    var name, def := items[i].name, items[i].def;
    RecurseBinds(items[i]);
    saw := SawSeq(def.body);
    items[i] := DefItem(name, def.(body := RecurseSeq(def.body, name)));
  }

  /** The first i items have been rewritten, the others are as they were. */
  ghost predicate LoweredTo(was: seq<Item>, now: seq<Item>, i: nat) {
    && |now| == |was| && i <= |was|
    && (forall k :: 0 <= k < i ==> BoundTo(was[k], now[k]))
    && (forall k :: i <= k < |was| ==> now[k] == was[k])
  }

  lemma LoweredNext(was: seq<Item>, now: seq<Item>, i: nat, item: Item)
    requires LoweredTo(was, now, i) && i < |was| && BoundTo(was[i], item)
    ensures LoweredTo(was, now[i := item], i + 1)
  {}

  /** Rewrites the definitions of a program in place, and names in order those that use RECURSE without
      a declared stack effect. */
  method LowerProgram(items: array<Item>) returns (missing: seq<string>)
    modifies items
    ensures forall k :: 0 <= k < items.Length ==> BoundTo(old(items[k]), items[k])
    ensures exists at :: Reported(missing, at, old(items[..]))
    ensures missing == Missing(old(items[..]))
  {
    missing := [];
    ghost var was, at: seq<nat> := items[..], [];
    for i := 0 to items.Length
      invariant LoweredTo(was, items[..], i)
      invariant Reported(missing, at, was[..i]) && missing == Missing(was[..i])
    {
      ghost var before := items[..];
      assert items[i] == before[i] == was[i];
      if items[i].DefItem? {
        var name, declared := items[i].name, items[i].def.declared;
        var saw := RewriteDef(items, i);
        ReportedNext(missing, at, was, i);
        if saw && declared == Undeclared {
          missing, at := missing + [name], at + [i];
        }
      } else {
        ReportedNext(missing, at, was, i);
      }
      LoweredNext(was, before, i, items[i]);
      assert items[..] == before[i := items[i]];
    }
    assert was[..items.Length] == was;
    assert forall k :: 0 <= k < items.Length ==> items[..][k] == items[k] && was[k] == old(items[k]);
  }
}
