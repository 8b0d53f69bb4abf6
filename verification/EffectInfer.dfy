/** Inference over a whole program (infer_with_prior), and when its result can be trusted. */
module EffectInfer {
  import opened Forth
  import opened Effects
  import opened EffectSound

  /** A colon definition, another word with a fixed effect, or an item without one. */
  datatype Item = DefItem(name: string, def: Definition) | FixedItem(name: string, eff: Eff) | OtherItem

  datatype EffectError =
    | Mismatch(name: string, declared: Eff, inferred: Eff)
    | CaseNeedsDefault(name: string)

  datatype Inference = Inference(user: map<string, Eff>, body: map<string, Eff>, errors: seq<EffectError>)

  // ----- the two passes -----

  function Declaration(d: Definition): Eff {
    match d.declared
    case Undeclared => Unknown
    case Effect(names, o) => Known(|names|, o)
  }

  function Seeded(user: map<string, Eff>, item: Item): map<string, Eff> {
    match item
    case DefItem(name, d) => user[Lower(name) := Declaration(d)]
    case FixedItem(name, eff) => user[Lower(name) := eff]
    case OtherItem => user
  }

  function Seed(items: seq<Item>, user: map<string, Eff>): map<string, Eff> {
    if items == [] then user else Seed(items[1..], Seeded(user, items[0]))
  }

  /** A declared effect is compared with the body's; with parameters only the outputs are. */
  function Check(name: string, d: Definition, body: Eff): seq<EffectError> {
    if d.declared.Undeclared? || body == Unknown then []
    else
      var inferred := if d.params == [] then body else Known(|d.declared.inputs|, body.outputs);
      if Declaration(d) != inferred then [Mismatch(name, Declaration(d), inferred)] else []
  }

  /** One definition: its body is inferred with what is known so far. */
  function Walked(table: map<string, Eff>, words: set<string>, r: Inference, item: Item): Inference {
    match item
    case DefItem(name, d) =>
      var n := Names(d.scope, words);
      var body := InferBlock(Env(r.user, table, {}), n, d.body);
      Inference(if d.declared.Undeclared? then r.user[Lower(name) := body] else r.user,
                r.body[Lower(name) := body],
                r.errors + Check(name, d, body) + CaseWarnings(Env(r.user, table, {}), n, d.body, name))
    case _ => r
  }

  function Walk(table: map<string, Eff>, words: set<string>, items: seq<Item>, r: Inference): Inference
    decreases items
  {
    if items == [] then r else Walk(table, words, items[1..], Walked(table, words, r, items[0]))
  }

  function Infer(table: map<string, Eff>, words: set<string>, items: seq<Item>, prior: map<string, Eff>): Inference {
    Walk(table, words, items, Inference(Seed(items, prior), map[], []))
  }

  /** The imperative form: maps and an error list updated item by item. */
  method InferWithPrior(table: map<string, Eff>, words: set<string>, items: seq<Item>, prior: map<string, Eff>)
    returns (user: map<string, Eff>, body: map<string, Eff>, errors: seq<EffectError>)
    ensures Inference(user, body, errors) == Infer(table, words, items, prior)
  {
    user := prior;
    for i := 0 to |items|
      invariant Seed(items, prior) == Seed(items[i..], user)
    {
      assert items[i..][1..] == items[i + 1..];
      match items[i]
      case DefItem(name, d) => user := user[Lower(name) := Declaration(d)];
      case FixedItem(name, eff) => user := user[Lower(name) := eff];
      case OtherItem =>
    }
    assert items[|items|..] == [];
    body, errors := map[], [];
    for i := 0 to |items|
      invariant Infer(table, words, items, prior) == Walk(table, words, items[i..], Inference(user, body, errors))
    {
      assert items[i..][1..] == items[i + 1..];
      match items[i]
      case DefItem(name, d) =>
        var n := Names(d.scope, words);
        var eff := InferBlockLoop(Env(user, table, {}), n, d.body);
        body := body[Lower(name) := eff];
        errors := errors + Check(name, d, eff) + CaseWarnings(Env(user, table, {}), n, d.body, name);
        if d.declared.Undeclared? {
          user := user[Lower(name) := eff];
        }
      case _ =>
    }
  }

  // ----- CASE without a default -----

  /** An arm whose effect differs from that of the path where nothing matches. */
  predicate ArmDiffers(env: Env, n: Names, arm: Arm) {
    var eff := Then(Known(1, 0), InferBlock(env, n, arm.body));
    eff.Known? && eff != Known(1, 0)
  }

  function CaseWarnings(env: Env, n: Names, s: seq<Expr>, name: string): seq<EffectError>
    decreases SizeSeq(s), 1, |s|
  {
    if s == [] then [] else ExprWarnings(env, n, s[0], name) + CaseWarnings(env, n, s[1..], name)
  }

  function ExprWarnings(env: Env, n: Names, e: Expr, name: string): seq<EffectError>
    decreases SizeExpr(e), 0
  {
    match e
    case If(thenBody, elseBody) => CaseWarnings(env, n, thenBody, name) + ElseWarnings(env, n, elseBody, name)
    case BeginUntil(body) => CaseWarnings(env, n, body, name)
    case BeginAgain(body) => CaseWarnings(env, n, body, name)
    case DoLoop(_, body, _) => CaseWarnings(env, n, body, name)
    case BeginWhileRepeat(pred, body) => CaseWarnings(env, n, pred, name) + CaseWarnings(env, n, body, name)
    case Case(arms, default) =>
      (if default == NoElse && exists arm <- arms :: ArmDiffers(env, n, arm) then [CaseNeedsDefault(name)] else []) +
      ArmsWarnings(env, n, arms, name) + ElseWarnings(env, n, default, name)
    case _ => []
  }

  function ElseWarnings(env: Env, n: Names, e: Else, name: string): seq<EffectError>
    decreases SizeElse(e), 0
  {
    match e
    case NoElse => []
    case ElseBody(body) => CaseWarnings(env, n, body, name)
  }

  function ArmsWarnings(env: Env, n: Names, arms: seq<Arm>, name: string): seq<EffectError>
    decreases SizeArms(arms), 0
  {
    if arms == [] then []
    else
      CaseWarnings(env, n, arms[0].matchExpr, name) + CaseWarnings(env, n, arms[0].body, name) +
      ArmsWarnings(env, n, arms[1..], name)
  }

  /** Every match expression adds one item, and needs at most the selector and its copy. */
  predicate PlainSeq(env: Env, n: Names, s: seq<Expr>)
    decreases SizeSeq(s), 1, |s|
  {
    s != [] ==> PlainExpr(env, n, s[0]) && PlainSeq(env, n, s[1..])
  }

  predicate PlainExpr(env: Env, n: Names, e: Expr)
    decreases SizeExpr(e), 0
  {
    match e
    case If(thenBody, elseBody) => PlainSeq(env, n, thenBody) && PlainElse(env, n, elseBody)
    case BeginUntil(body) => PlainSeq(env, n, body)
    case BeginAgain(body) => PlainSeq(env, n, body)
    case BeginWhileRepeat(pred, body) => PlainSeq(env, n, pred) && PlainSeq(env, n, body)
    case DoLoop(_, body, _) => PlainSeq(env, n, body)
    case Case(arms, default) => PlainArms(env, n, arms) && PlainElse(env, n, default)
    case _ => true
  }

  predicate PlainElse(env: Env, n: Names, e: Else)
    decreases SizeElse(e), 0
  {
    e.ElseBody? ==> PlainSeq(env, n, e.body)
  }

  predicate PlainArms(env: Env, n: Names, arms: seq<Arm>)
    decreases SizeArms(arms), 0
  {
    arms != [] ==>
      (var m0 := InferBlock(env, n, arms[0].matchExpr);
       PlainSeq(env, n, arms[0].matchExpr) && PlainSeq(env, n, arms[0].body) &&
       OneMore(m0) && (m0.Known? ==> m0.inputs <= 2) && PlainArms(env, n, arms[1..]))
  }

  /** Where match expressions add one item, every arm has the effect of the whole. */
  lemma PlainEffect(env: Env, n: Names, arms: seq<Arm>, default: Else)
    requires arms != [] && PlainArms(env, n, arms) && InferCase(env, n, arms, default).Known?
    ensures InferBlock(env, n, arms[0].matchExpr).Known?
    ensures InferCase(env, n, arms[1..], default) == InferCase(env, n, arms, default)
    ensures Then(Known(1, 0), InferBlock(env, n, arms[0].body)) == InferCase(env, n, arms, default)
  {}

  lemma {:induction false} PlainCase(env: Env, n: Names, arms: seq<Arm>)
    requires PlainArms(env, n, arms) && InferCase(env, n, arms, NoElse).Known?
    ensures InferCase(env, n, arms, NoElse) == Known(1, 0)
    ensures forall arm <- arms :: !ArmDiffers(env, n, arm)
    decreases |arms|
  {
    if arms != [] {
      PlainEffect(env, n, arms, NoElse);
      PlainCase(env, n, arms[1..]);
      forall arm | arm in arms
        ensures !ArmDiffers(env, n, arm)
      {
        if arm != arms[0] {
          assert arm in arms[1..];
        }
      }
    }
  }

  /** A body whose effect is known and whose match expressions add one item draws no CASE warning: a warning
      means that inference gave up. */
  lemma {:induction false} KnownNotWarned(env: Env, n: Names, s: seq<Expr>, name: string)
    requires PlainSeq(env, n, s) && InferBlock(env, n, s).Known?
    ensures CaseWarnings(env, n, s, name) == []
    decreases SizeSeq(s), 1, |s|
  {
    if s != [] {
      ExprNotWarned(env, n, s[0], name);
      KnownNotWarned(env, n, s[1..], name);
    }
  }

  lemma {:induction false} ExprNotWarned(env: Env, n: Names, e: Expr, name: string)
    requires PlainExpr(env, n, e) && InferExpr(env, n, e).Known?
    ensures ExprWarnings(env, n, e, name) == []
    decreases SizeExpr(e), 0
  {
    match e
    case If(thenBody, elseBody) =>
      KnownNotWarned(env, n, thenBody, name);
      ElseNotWarned(env, n, elseBody, name);
    case BeginUntil(body) => KnownNotWarned(env, n, body, name);
    case DoLoop(_, body, _) => KnownNotWarned(env, n, body, name);
    case BeginWhileRepeat(pred, body) =>
      KnownNotWarned(env, n, pred, name);
      KnownNotWarned(env, n, body, name);
    case Case(arms, default) =>
      ArmsNotWarned(env, n, arms, default, name);
      if default == NoElse {
        PlainCase(env, n, arms);
      }
    case _ =>
  }

  lemma {:induction false} ElseNotWarned(env: Env, n: Names, e: Else, name: string)
    requires PlainElse(env, n, e) && InferElse(env, n, e).Known?
    ensures ElseWarnings(env, n, e, name) == []
    decreases SizeElse(e), 0
  {
    match e
    case NoElse =>
    case ElseBody(body) => KnownNotWarned(env, n, body, name);
  }

  lemma {:induction false} ArmsNotWarned(env: Env, n: Names, arms: seq<Arm>, default: Else, name: string)
    requires PlainArms(env, n, arms) && PlainElse(env, n, default) && InferCase(env, n, arms, default).Known?
    ensures ArmsWarnings(env, n, arms, name) == [] && ElseWarnings(env, n, default, name) == []
    decreases SizeArms(arms) + SizeElse(default), 1
  {
    if arms == [] {
      ElseNotWarned(env, n, default, name);
    } else {
      PlainEffect(env, n, arms, default);
      KnownNotWarned(env, n, arms[0].matchExpr, name);
      KnownNotWarned(env, n, arms[0].body, name);
      ArmsNotWarned(env, n, arms[1..], default, name);
    }
  }

  // ----- what the walk establishes -----

  predicate DefinesIn(items: seq<Item>, lc: string) {
    exists item <- items :: item.DefItem? && Lower(item.name) == lc
  }

  predicate NamesIn(items: seq<Item>, lc: string) {
    exists item <- items :: !item.OtherItem? && Lower(item.name) == lc
  }

  /** No name is defined twice, which resolution has already rejected. */
  predicate Distinct(items: seq<Item>) {
    items != [] ==> (items[0].OtherItem? || !NamesIn(items[1..], Lower(items[0].name))) && Distinct(items[1..])
  }

  /** Definitions still to be walked whose effect is not declared are unknown. */
  predicate Pending(items: seq<Item>, user: map<string, Eff>) {
    forall item <- items :: item.DefItem? ==> Lookup(user, Lower(item.name)) == Declaration(item.def)
  }

  lemma {:induction false} SeedPending(items: seq<Item>, user: map<string, Eff>)
    requires Distinct(items)
    ensures Pending(items, Seed(items, user))
    ensures forall lc :: !NamesIn(items, lc) ==> Lookup(Seed(items, user), lc) == Lookup(user, lc)
  {
    if items != [] {
      SeedPending(items[1..], Seeded(user, items[0]));
      assert items == [items[0]] + items[1..];
    }
  }

  predicate NoMismatch(errors: seq<EffectError>) {
    forall e <- errors :: !e.Mismatch?
  }

  /** What inference leaves for one definition. */
  predicate Settled(table: map<string, Eff>, words: set<string>, r: Inference, item: Item)
    requires item.DefItem?
  {
    var lc, d := Lower(item.name), item.def;
    && lc in r.body
    && (r.body[lc].Known? ==> InferBlock(Env(r.user, table, {}), Names(d.scope, words), d.body) == r.body[lc])
    && Lookup(r.user, lc) == (if d.declared.Undeclared? then r.body[lc] else Declaration(d))
    && (NoMismatch(r.errors) ==> Check(item.name, d, r.body[lc]) == [])
  }

  lemma {:induction false} WalkKnowsMore(table: map<string, Eff>, words: set<string>, items: seq<Item>, r: Inference)
    requires Distinct(items) && Pending(items, r.user)
    ensures var r1 := Walk(table, words, items, r);
            && KnowsMore(r.user, r1.user)
            && r.errors <= r1.errors
            && (forall lc :: !DefinesIn(items, lc) ==>
                               Lookup(r1.user, lc) == Lookup(r.user, lc) && Lookup(r1.body, lc) == Lookup(r.body, lc))
            && (forall lc :: lc in r.body ==> lc in r1.body)
    decreases items
  {
    if items != [] {
      var r1 := Walked(table, words, r, items[0]);
      assert items == [items[0]] + items[1..];
      StepPending(table, words, items, r);
      WalkKnowsMore(table, words, items[1..], r1);
    }
  }

  lemma StepPending(table: map<string, Eff>, words: set<string>, items: seq<Item>, r: Inference)
    requires items != [] && Distinct(items) && Pending(items, r.user)
    ensures Pending(items[1..], Walked(table, words, r, items[0]).user)
    ensures KnowsMore(r.user, Walked(table, words, r, items[0]).user)
    ensures r.errors <= Walked(table, words, r, items[0]).errors
  {
    var r1 := Walked(table, words, r, items[0]);
    assert items[0] in items;
    forall item | item in items[1..] && item.DefItem?
      ensures Lookup(r1.user, Lower(item.name)) == Declaration(item.def)
    {
      assert item in items;
      assert NamesIn(items[1..], Lower(item.name));
    }
  }

  lemma {:induction false} WalkSettles(table: map<string, Eff>, words: set<string>, items: seq<Item>, r: Inference)
    requires Distinct(items) && Pending(items, r.user)
    ensures forall item <- items :: item.DefItem? ==> Settled(table, words, Walk(table, words, items, r), item)
    decreases items
  {
    if items != [] {
      var r1 := Walked(table, words, r, items[0]);
      StepPending(table, words, items, r);
      WalkSettles(table, words, items[1..], r1);
      if items[0].DefItem? {
        FirstSettled(table, words, items, r);
      }
      assert items == [items[0]] + items[1..];
    }
  }

  lemma FirstSettled(table: map<string, Eff>, words: set<string>, items: seq<Item>, r: Inference)
    requires items != [] && items[0].DefItem? && Distinct(items) && Pending(items, r.user)
    ensures Settled(table, words, Walk(table, words, items, r), items[0])
  {
    var item := items[0];
    var lc, d := Lower(item.name), item.def;
    var r1, r2 := Walked(table, words, r, item), Walk(table, words, items, r);
    StepPending(table, words, items, r);
    WalkKnowsMore(table, words, items[1..], r1);
    assert r2 == Walk(table, words, items[1..], r1);
    assert !DefinesIn(items[1..], lc) by {
      assert !NamesIn(items[1..], lc);
    }
    assert r2.body[lc] == r1.body[lc];
    assert item in items;
    if r1.body[lc].Known? {
      InferStable(Env(r.user, table, {}), r2.user, Names(d.scope, words), d.body);
    }
    if Check(item.name, d, r1.body[lc]) != [] {
      CheckSeen(item.name, d, r1.body[lc], r.errors, r2.errors,
                CaseWarnings(Env(r.user, table, {}), Names(d.scope, words), d.body, item.name));
    }
  }

  lemma CheckSeen(name: string, d: Definition, body: Eff, before: seq<EffectError>, after: seq<EffectError>,
                  warnings: seq<EffectError>)
    requires before + Check(name, d, body) + warnings <= after && Check(name, d, body) != []
    ensures !NoMismatch(after)
  {
    var first := Check(name, d, body)[0];
    assert (before + Check(name, d, body) + warnings)[|before|] == first;
    assert after[|before|] == first;
  }

  // ----- the main result -----

  /** The definitions of the program are those of the machine. */
  ghost predicate Runs(m: Machine, items: seq<Item>) {
    forall item <- items :: item.DefItem? ==> Lower(item.name) in m.defs && m.defs[Lower(item.name)] == item.def
  }

  /** A definition whose declared inputs are its parameters and what its body takes besides. */
  predicate ParamsCounted(d: Definition, body: Eff) {
    d.params != [] && body.Known? ==> d.declared.Effect? && |d.declared.inputs| == |d.params| + body.inputs
  }

  /** The inputs of a definition without a declared effect have been counted by inference. */
  predicate Annotated(d: Definition, body: Eff) {
    d.declared.Undeclared? && d.inferred.Some? && body.Known? ==> d.inferred.value == body.inputs
  }

  /** All bodies are known, regular and without a mismatch, and words of other sources have been passed. */
  ghost predicate Trusted(m: Machine, table: map<string, Eff>, items: seq<Item>, r: Inference) {
    var env := Env(r.user, table, {});
    && NoMismatch(r.errors)
    && (forall item <- items :: item.DefItem? ==> ItemTrusted(env, m.Words(), r, item))
    && (forall lc :: lc in m.defs && !DefinesIn(items, lc) ==>
          DefChecked(env, m.Words(), m.defs[lc], Lookup(r.user, lc)) && Covered(m, m.defs[lc], Lookup(r.user, lc)))
    && (forall lc :: lc in m.vars && lc !in m.defs && Lookup(r.user, lc).Known? ==> r.user[lc] == Known(0, 1))
  }

  predicate ItemTrusted(env: Env, words: set<string>, r: Inference, item: Item)
    requires item.DefItem?
  {
    && Lower(item.name) in r.body && r.body[Lower(item.name)].Known?
    && RegularSeq(env, Names(item.def.scope, words), item.def.body, Ans)
    && ParamsCounted(item.def, r.body[Lower(item.name)]) && Annotated(item.def, r.body[Lower(item.name)])
  }

  /** A definition that is settled and trusted has the effect that callers use. */
  lemma TrustedChecked(m: Machine, table: map<string, Eff>, r: Inference, item: Item)
    requires item.DefItem? && Settled(table, m.Words(), r, item) && NoMismatch(r.errors)
    requires ItemTrusted(Env(r.user, table, {}), m.Words(), r, item)
    ensures DefChecked(Env(r.user, table, {}), m.Words(), item.def, Lookup(r.user, Lower(item.name)))
    ensures Lookup(r.user, Lower(item.name)).Known?
  {}

  /** Inference that can be trusted has passed the program: what it says of each definition is right. */
  lemma InferencePassed(m: Machine, table: map<string, Eff>, items: seq<Item>, prior: map<string, Eff>)
    requires Distinct(items) && Runs(m, items) && MeetsTable(m, table)
    requires Trusted(m, table, items, Infer(table, m.Words(), items, prior))
    ensures var r := Infer(table, m.Words(), items, prior);
            && Passed(m, Env(r.user, table, {}))
            && forall item <- items :: item.DefItem? ==> Lookup(r.user, Lower(item.name)).Known?
  {
    var words := m.Words();
    var r := Infer(table, words, items, prior);
    var env := Env(r.user, table, {});
    SeedPending(items, prior);
    WalkSettles(table, words, items, Inference(Seed(items, prior), map[], []));
    forall item | item in items && item.DefItem?
      ensures DefChecked(env, words, item.def, Lookup(r.user, Lower(item.name))) &&
              Lookup(r.user, Lower(item.name)).Known?
    {
      TrustedChecked(m, table, r, item);
    }
    forall l | l in m.defs
      ensures DefChecked(env, words, m.defs[l], Lookup(r.user, l))
    {
      if DefinesIn(items, l) {
        var item :| item in items && item.DefItem? && Lower(item.name) == l;
        assert m.defs[l] == item.def;
      }
    }
  }

  /** If all bodies are known and no mismatch is reported, every definition, recursive ones included,
      does what its effect says: no underflow, nothing deeper touched, the right depth. */
  lemma InferenceSound(m: Machine, table: map<string, Eff>, items: seq<Item>, prior: map<string, Eff>, lc: string,
                       st: State, fuel: nat)
    requires Distinct(items) && Runs(m, items) && MeetsTable(m, table)
    requires Trusted(m, table, items, Infer(table, m.Words(), items, prior))
    requires DefinesIn(items, lc)
    requires var eff := Lookup(Infer(table, m.Words(), items, prior).user, lc);
             eff.Known? ==> |st.stack| >= eff.inputs
    ensures FitsEff(Call(m, lc, st, fuel), st, Lookup(Infer(table, m.Words(), items, prior).user, lc))
  {
    InferencePassed(m, table, items, prior);
    var item :| item in items && item.DefItem? && Lower(item.name) == lc;
    SoundCall(m, Env(Infer(table, m.Words(), items, prior).user, table, {}), lc, st, fuel);
  }
}
