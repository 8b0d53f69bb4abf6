/** Globals in place of narrow variables give the same run as addresses and memory. */
module GlobalsMeaning {
  import opened Forth
  import opened Equivalence
  import opened Escape
  import opened Globals

  // ----- cells that do not reach a narrow variable -----

  /** Neither the address of a narrow variable nor its token. */
  predicate CleanCell(narrow: set<string>, v: Cell) {
    (v.Address? || v.Xt?) ==> v.name !in narrow
  }

  predicate Clean(narrow: set<string>, s: seq<Cell>) {
    forall v <- s :: CleanCell(narrow, v)
  }

  // ----- worlds seen through a map -----

  /** How a world looks once the narrow variables are put into memory, and where that makes sense. */
  datatype Rep = Rep(image: World -> World, ready: World -> bool)

  function IState(im: Rep, st: State): State {
    st.(world := im.image(st.world))
  }

  function IOutcome(im: Rep, o: Outcome): Outcome {
    match o
    case Next(st) => Next(IState(im, st))
    case Exit(st) => Exit(IState(im, st))
    case other => other
  }

  function ITurn(im: Rep, t: Turn): Turn {
    match t
    case Leave(o) => Leave(IOutcome(im, o))
    case Repeat(st) => Repeat(IState(im, st))
  }

  function IPrim(im: Rep, r: PrimResult): PrimResult {
    match r
    case Done(s, w) => Done(s, im.image(w))
    case other => other
  }

  predicate Ready(narrow: set<string>, im: Rep, st: State) {
    && Clean(narrow, st.stack) && im.ready(st.world)
    && forall x :: x in st.locals ==> CleanCell(narrow, st.locals[x])
  }

  predicate ReadyPrim(narrow: set<string>, im: Rep, r: PrimResult) {
    r.Done? ==> Clean(narrow, r.stack) && im.ready(r.world)
  }

  predicate ReadyOutcome(narrow: set<string>, im: Rep, o: Outcome) {
    o.Next? || o.Exit? ==> Ready(narrow, im, o.state)
  }

  // ----- the two machines -----

  function GlobDefs(defs: map<string, Definition>, narrow: set<string>): map<string, Definition> {
    map lc | lc in defs :: defs[lc].(body := GlobSeq(defs[lc].body, narrow))
  }

  function GlobVars(vars: map<string, Storage>, narrow: set<string>): map<string, Storage> {
    map x | x in vars :: if x in narrow then Variable(Narrow) else vars[x]
  }

  const wordSinks := {"@", "!", "+!"}
  const byteSinks := {"c@", "c!"}

  /** An access to a global, as a builtin. */
  function AccessPrim(g: Machine, access: Access, x: string, s: seq<Cell>, w: World): PrimResult {
    match access
    case Get => if x in w.values then Done(s + [w.values[x]], w) else PrimFault
    case Set => StoreTop(x, s, w)
    case Add =>
      if x !in w.values then PrimFault
      else
        match g.prim("+", s + [w.values[x]], w)
        case Done(s1, w1) => StoreTop(x, s1, w1)
        case other => other
  }

  function StoreTop(x: string, s: seq<Cell>, w: World): PrimResult {
    if s == [] then PrimUnderflow else Done(Drop(s), w.(values := w.values[x := Top(s)]))
  }

  /** Storing a VALUE, or a global, is seen as it happens. */
  ghost predicate ToKept(narrow: set<string>, im: Rep, name: string, v: Cell, w: World) {
    im.ready(w) && CleanCell(narrow, v) ==>
      var w1 := w.(values := w.values[name := v]);
      im.ready(w1) && im.image(w1) == im.image(w).(values := im.image(w).values[name := v])
  }

  ghost predicate GetKept(narrow: set<string>, im: Rep, name: string, w: World) {
    im.ready(w) ==>
      && (name in im.image(w).values <==> name in w.values)
      && (name in w.values ==> im.image(w).values[name] == w.values[name] && CleanCell(narrow, w.values[name]))
  }

  ghost predicate LoopsKept(im: Rep, w: World, loops: seq<LoopFrame>) {
    im.ready(w) ==>
      && im.image(w).loops == w.loops
      && im.ready(w.(loops := loops)) && im.image(w.(loops := loops)) == im.image(w).(loops := loops)
  }

  ghost predicate PrimKept(m: Machine, g: Machine, narrow: set<string>, im: Rep, p: string, s: seq<Cell>, w: World) {
    im.ready(w) && Clean(narrow, s) ==>
      m.prim(p, s, im.image(w)) == IPrim(im, g.prim(p, s, w)) && ReadyPrim(narrow, im, g.prim(p, s, w))
  }

  /** The sink on the variable's address does what the access to the global does, unless the value of a
      variable that is accessed by bytes does not fit one. */
  ghost predicate UseKept(m: Machine, g: Machine, narrow: set<string>, bytes: set<string>, im: Rep, x: string,
                          p: string, s: seq<Cell>, w: World)
    requires p in sinks
  {
    im.ready(w) && Clean(narrow, s) && (p in byteSinks ==> x in bytes) ==>
      var r, a := m.prim(p, s + [Address(x, 0)], im.image(w)), AccessPrim(g, AccessOf(p), x, s, w);
      (x in bytes && r == PrimFault) || (r == IPrim(im, a) && ReadyPrim(narrow, im, a))
  }

  /** Through the map, the builtins of m do what those of g do, and a variable with its sink does what the
      access to the global does. */
  ghost predicate Mirrors(m: Machine, g: Machine, narrow: set<string>, bytes: set<string>, im: Rep) {
    && g.restoring == m.restoring && g.defs == GlobDefs(m.defs, narrow) && g.vars == GlobVars(m.vars, narrow)
    && (forall x <- narrow :: x !in m.defs && x in m.vars && m.vars[x] == Variable(Wide))
    && (forall name, v, w :: name !in narrow ==> ToKept(narrow, im, name, v, w))
    && (forall name, w :: name !in narrow ==> GetKept(narrow, im, name, w))
    && (forall w, loops :: LoopsKept(im, w, loops))
    && (forall p, s, w :: PrimKept(m, g, narrow, im, p, s, w))
    && (forall x, p, s, w :: x in narrow && p in sinks ==> UseKept(m, g, narrow, bytes, im, x, p, s, w))
  }

  // ----- programs that use their variables as the analysis found -----

  /** Without variables that are accessed by bytes, only the sinks of whole cells are used. */
  function UsedSinks(bytes: set<string>): set<string> {
    if bytes == {} then wordSinks else sinks
  }

  /** No local hides a narrow variable, and no local or definition hides a sink that is used. */
  predicate Clear(n: Names, narrow: set<string>, bytes: set<string>) {
    LocalsClear(n.locals, narrow, bytes) && UsedSinks(bytes) !! n.words
  }

  predicate LocalsClear(locals: set<string>, narrow: set<string>, bytes: set<string>) {
    UsedSinks(bytes) !! locals && narrow !! locals
  }

  /** No tick or TO of a narrow variable, byte accesses to the given ones only, and no access to a global
      yet. */
  predicate Tame(s: seq<Expr>, narrow: set<string>, bytes: set<string>)
    decreases SizeSeq(s), 1, |s|
  {
    s != [] ==>
      && TameExpr(s[0], narrow, bytes) && Tame(s[1..], narrow, bytes)
      && (IsUse(s, narrow) && Lower(s[1].name) in byteSinks ==> Lower(s[0].name) in bytes)
  }

  predicate TameExpr(e: Expr, narrow: set<string>, bytes: set<string>)
    decreases SizeExpr(e), 0
  {
    match e
    case Tick(name) => Lower(name) !in narrow
    case To(name) => Lower(name) !in narrow
    case Global(_, _) => false
    case If(thenBody, elseBody) => Tame(thenBody, narrow, bytes) && TameElse(elseBody, narrow, bytes)
    case BeginUntil(body) => Tame(body, narrow, bytes)
    case BeginAgain(body) => Tame(body, narrow, bytes)
    case BeginWhileRepeat(pred, body) => Tame(pred, narrow, bytes) && Tame(body, narrow, bytes)
    case DoLoop(_, body, _) => Tame(body, narrow, bytes)
    case Case(arms, default) => TameArms(arms, narrow, bytes) && TameElse(default, narrow, bytes)
    case _ => true
  }

  predicate TameElse(e: Else, narrow: set<string>, bytes: set<string>)
    decreases SizeElse(e), 0
  {
    e.ElseBody? ==> Tame(e.body, narrow, bytes)
  }

  predicate TameArms(arms: seq<Arm>, narrow: set<string>, bytes: set<string>)
    decreases SizeArms(arms), 0
  {
    arms != [] ==>
      Tame(arms[0].matchExpr, narrow, bytes) && Tame(arms[0].body, narrow, bytes) && TameArms(arms[1..], narrow, bytes)
  }

  predicate SeqFit(s: seq<Expr>, narrow: set<string>, bytes: set<string>) {
    Escaping(s, narrow) == {} && Tame(s, narrow, bytes)
  }

  predicate ExprFit(e: Expr, narrow: set<string>, bytes: set<string>) {
    Inside(e, narrow) == {} && TameExpr(e, narrow, bytes) && (e.WordRef? ==> Lower(e.name) !in narrow)
  }

  predicate DefFit(d: Definition, words: set<string>, narrow: set<string>, bytes: set<string>) {
    Clear(Names(d.scope, words), narrow, bytes) && SeqFit(d.body, narrow, bytes)
  }

  ghost predicate ProgramFit(m: Machine, narrow: set<string>, bytes: set<string>) {
    forall lc :: lc in m.defs ==> DefFit(m.defs[lc], m.Words(), narrow, bytes)
  }

  // ----- what is compared -----

  /** The run with memory is that with globals, seen through the map; or it stopped at a value that does
      not fit a byte. */
  ghost predicate Seen(narrow: set<string>, bytes: set<string>, im: Rep, o: Outcome, go: Outcome) {
    (bytes != {} && o == Fault) || (o == IOutcome(im, go) && ReadyOutcome(narrow, im, go))
  }

  ghost predicate SeenTurn(narrow: set<string>, bytes: set<string>, im: Rep, t: Turn, gt: Turn) {
    (bytes != {} && t == Leave(Fault)) ||
    (t == ITurn(im, gt) &&
     (match gt
      case Leave(o) => ReadyOutcome(narrow, im, o)
      case Repeat(st) => Ready(narrow, im, st)))
  }

  lemma ReadyPop(narrow: set<string>, im: Rep, st: State)
    requires Ready(narrow, im, st) && |st.stack| > 0
    ensures Ready(narrow, im, Pop(st)) && CleanCell(narrow, Top(st.stack)) && IState(im, Pop(st)) == Pop(IState(im, st))
  {}

  lemma ReadyPush(narrow: set<string>, im: Rep, st: State, v: Cell)
    requires Ready(narrow, im, st) && CleanCell(narrow, v)
    ensures Ready(narrow, im, Push(st, v)) && IState(im, Push(st, v)) == Push(IState(im, st), v)
  {}

  // ----- one access -----

  function Ended(st: State, r: PrimResult): Outcome {
    match r
    case Done(s, w) => Next(st.(stack := s, world := w))
    case PrimUnderflow => Underflow
    case PrimFault => Fault
  }

  lemma AccessIs(g: Machine, c: Context, access: Access, x: string, st: State, fuel: nat)
    ensures RunExpr(g, c, Global(access, x), st, fuel) == Ended(st, AccessPrim(g, access, x, st.stack, st.world))
  {}

  /** A variable pushes its address, and the sink behind it is a builtin. */
  lemma UseRuns(m: Machine, c: Context, v: Expr, k: Expr, st: State, fuel: nat)
    requires v.WordRef? && IsSink(k)
    requires Lower(v.name) !in c.locals && Lower(v.name) !in m.defs
    requires Lower(v.name) in m.vars && m.vars[Lower(v.name)] == Variable(Wide)
    requires Lower(k.name) !in c.locals && Lower(k.name) !in m.Words()
    ensures RunSeq(m, c, [v, k], st, fuel) ==
            Ended(st, m.prim(Lower(k.name), st.stack + [Address(Lower(v.name), 0)], st.world))
  {
    var x, p := Lower(v.name), Lower(k.name);
    var st1 := Push(st, Address(x, 0));
    assert [v, k] == [v] + [k];
    RunCons(m, c, v, [k], st, fuel);
    assert Resolve(m.NamesOf(c), v.name) == UserDefined;
    assert RunExpr(m, c, v, st, fuel) == Next(st1);
    RunOne(m, c, k, st1, fuel);
    assert p != "exit" && p != "recurse";
    assert Resolve(m.NamesOf(c), k.name) == Builtin;
    assert RunExpr(m, c, k, st1, fuel) == RunPrim(m, p, st1);
  }

  /** The variable and its sink in memory, against the access to the global. */
  lemma AccessRuns(m: Machine, g: Machine, narrow: set<string>, bytes: set<string>, im: Rep, c: Context, v: Expr,
                   k: Expr, st: State, fuel: nat)
    requires Mirrors(m, g, narrow, bytes, im) && Clear(m.NamesOf(c), narrow, bytes) && Ready(narrow, im, st)
    requires v.WordRef? && Lower(v.name) in narrow && IsSink(k)
    requires Lower(k.name) in byteSinks ==> Lower(v.name) in bytes
    ensures Seen(narrow, bytes, im, RunSeq(m, c, [v, k], IState(im, st), fuel),
                 RunExpr(g, c, UseAccess(v, k), st, fuel))
  {
    var x, p := Lower(v.name), Lower(k.name);
    assert p in wordSinks || p in byteSinks;
    assert p in UsedSinks(bytes);
    UseRuns(m, c, v, k, IState(im, st), fuel);
    assert UseKept(m, g, narrow, bytes, im, x, p, st.stack, st.world);
    AccessIs(g, c, AccessOf(p), x, st, fuel);
  }

  // ----- whole runs -----

  lemma {:induction false} BindImage(narrow: set<string>, im: Rep, names: seq<string>, st: State)
    requires Ready(narrow, im, st)
    ensures BindLocals(names, IState(im, st)) == IOutcome(im, BindLocals(names, st))
    ensures ReadyOutcome(narrow, im, BindLocals(names, st))
    decreases names
  {
    if names != [] && |st.stack| > 0 {
      var last := names[|names| - 1];
      ReadyPop(narrow, im, st);
      var st1 := Pop(st);
      BindImage(narrow, im, names[..|names| - 1],
                if last == "_" then st1 else st1.(locals := st1.locals[Lower(last) := Top(st.stack)]));
    }
  }

  lemma {:induction false} BoundClean(narrow: set<string>, names: seq<string>, items: seq<Cell>,
                                      locals: map<string, Cell>)
    requires |items| == |names| && Clean(narrow, items)
    requires forall x :: x in locals ==> CleanCell(narrow, locals[x])
    ensures forall x :: x in Bound(names, items, locals) ==> CleanCell(narrow, Bound(names, items, locals)[x])
    decreases |names|
  {
    if names != [] {
      var k := |names| - 1;
      BoundClean(narrow, names[..k], items[..k], locals[names[k] := items[k]]);
    }
  }

  lemma StartImage(narrow: set<string>, im: Rep, params: seq<string>, inputs: seq<string>, st: State)
    requires Ready(narrow, im, st)
    ensures Start(params, inputs, IState(im, st)) == IOutcome(im, Start(params, inputs, st))
    ensures ReadyOutcome(narrow, im, Start(params, inputs, st))
  {
    var st0 := st.(locals := map[]);
    assert IState(im, st).(locals := map[]) == IState(im, st0);
    if inputs == [] {
      BindImage(narrow, im, params, st0);
    } else if |st.stack| >= |inputs| {
      BoundClean(narrow, inputs, st.stack[|st.stack| - |inputs|..], map[]);
    }
  }

  /** The program with globals does what the program with memory does: the same stack and output, and the
      same world once the globals are put back into memory. */
  lemma {:induction false} GlobSeqRuns(m: Machine, g: Machine, narrow: set<string>, bytes: set<string>, im: Rep,
                                       c: Context, s: seq<Expr>, st: State, fuel: nat)
    requires Mirrors(m, g, narrow, bytes, im) && ProgramFit(m, narrow, bytes) && Clear(m.NamesOf(c), narrow, bytes)
    requires SeqFit(s, narrow, bytes) && Ready(narrow, im, st)
    ensures Seen(narrow, bytes, im, RunSeq(m, c, s, IState(im, st), fuel), RunSeq(g, c, GlobSeq(s, narrow), st, fuel))
    decreases fuel, SizeSeq(s), 6, |s|
  {
    if s == [] {
    } else if IsUse(s, narrow) {
      PairSize(s);
      var a, rest := UseAccess(s[0], s[1]), s[2..];
      assert s == [s[0], s[1]] + rest;
      assert Escaping(s[1..], narrow) == {} && Tame(s[1..], narrow, bytes);
      RunConcat(m, c, [s[0], s[1]], rest, IState(im, st), fuel);
      AccessRuns(m, g, narrow, bytes, im, c, s[0], s[1], st, fuel);
      RunCons(g, c, a, GlobSeq(rest, narrow), st, fuel);
      var go := RunExpr(g, c, a, st, fuel);
      if go.Next? && Ready(narrow, im, go.state) {
        GlobSeqRuns(m, g, narrow, bytes, im, c, rest, go.state, fuel);
      }
    } else {
      var e, e' := s[0], GlobExpr(s[0], narrow);
      assert s == [e] + s[1..];
      assert HeadEscapes(s, narrow) == {};
      GlobExprRuns(m, g, narrow, bytes, im, c, e, st, fuel);
      RunCons(m, c, e, s[1..], IState(im, st), fuel);
      RunCons(g, c, e', GlobSeq(s[1..], narrow), st, fuel);
      var go := RunExpr(g, c, e', st, fuel);
      if go.Next? && Ready(narrow, im, go.state) {
        GlobSeqRuns(m, g, narrow, bytes, im, c, s[1..], go.state, fuel);
      }
    }
  }

  lemma {:induction false} GlobExprRuns(m: Machine, g: Machine, narrow: set<string>, bytes: set<string>, im: Rep,
                                        c: Context, e: Expr, st: State, fuel: nat)
    requires Mirrors(m, g, narrow, bytes, im) && ProgramFit(m, narrow, bytes) && Clear(m.NamesOf(c), narrow, bytes)
    requires ExprFit(e, narrow, bytes) && Ready(narrow, im, st)
    ensures Seen(narrow, bytes, im, RunExpr(m, c, e, IState(im, st), fuel),
                 RunExpr(g, c, GlobExpr(e, narrow), st, fuel))
    decreases fuel, SizeExpr(e), 5
  {
    match e
    case WordRef(name) => GlobWordRuns(m, g, narrow, bytes, im, c, name, st, fuel);
    case If(_, _) => GlobIfRuns(m, g, narrow, bytes, im, c, e, st, fuel);
    case Case(arms, default) => GlobArmsRun(m, g, narrow, bytes, im, c, arms, default, st, fuel);
    case DoLoop(_, _, _) => GlobDoRuns(m, g, narrow, bytes, im, c, e, st, fuel);
    case BeginUntil(_) => GlobLoopRuns(m, g, narrow, bytes, im, c, e, st, fuel);
    case BeginAgain(_) => GlobLoopRuns(m, g, narrow, bytes, im, c, e, st, fuel);
    case BeginWhileRepeat(_, _) => GlobLoopRuns(m, g, narrow, bytes, im, c, e, st, fuel);
    case Locals(names) => BindImage(narrow, im, names, st);
    case To(name) =>
      if |st.stack| > 0 {
        ReadyPop(narrow, im, st);
        assert ToKept(narrow, im, Lower(name), Top(st.stack), st.world);
      }
    case Lit(v) => ReadyPush(narrow, im, st, Number(v));
    case Tick(name) => ReadyPush(narrow, im, st, Xt(Lower(name)));
  }

  lemma {:induction false} GlobIfRuns(m: Machine, g: Machine, narrow: set<string>, bytes: set<string>, im: Rep,
                                      c: Context, e: Expr, st: State, fuel: nat)
    requires e.If?
    requires Mirrors(m, g, narrow, bytes, im) && ProgramFit(m, narrow, bytes) && Clear(m.NamesOf(c), narrow, bytes)
    requires ExprFit(e, narrow, bytes) && Ready(narrow, im, st)
    ensures Seen(narrow, bytes, im, RunExpr(m, c, e, IState(im, st), fuel),
                 RunExpr(g, c, GlobExpr(e, narrow), st, fuel))
    decreases fuel, SizeExpr(e), 4
  {
    if |st.stack| > 0 {
      ReadyPop(narrow, im, st);
      GlobSeqRuns(m, g, narrow, bytes, im, c, e.thenBody, Pop(st), fuel);
      GlobElseRuns(m, g, narrow, bytes, im, c, e.elseBody, Pop(st), fuel);
    }
  }

  lemma {:induction false} GlobElseRuns(m: Machine, g: Machine, narrow: set<string>, bytes: set<string>, im: Rep,
                                        c: Context, e: Else, st: State, fuel: nat)
    requires Mirrors(m, g, narrow, bytes, im) && ProgramFit(m, narrow, bytes) && Clear(m.NamesOf(c), narrow, bytes)
    requires InElse(e, narrow) == {} && TameElse(e, narrow, bytes) && Ready(narrow, im, st)
    ensures Seen(narrow, bytes, im, RunElse(m, c, e, IState(im, st), fuel),
                 RunElse(g, c, GlobElse(e, narrow), st, fuel))
    decreases fuel, SizeElse(e), 1
  {
    match e
    case NoElse =>
    case ElseBody(body) => GlobSeqRuns(m, g, narrow, bytes, im, c, body, st, fuel);
  }

  lemma SameWords(m: Machine, g: Machine, narrow: set<string>, bytes: set<string>, im: Rep)
    requires Mirrors(m, g, narrow, bytes, im)
    ensures g.defs.Keys == m.defs.Keys && g.vars.Keys == m.vars.Keys && g.Words() == m.Words()
  {}

  lemma {:induction false} GlobWordRuns(m: Machine, g: Machine, narrow: set<string>, bytes: set<string>, im: Rep,
                                        c: Context, name: string, st: State, fuel: nat)
    requires Mirrors(m, g, narrow, bytes, im) && ProgramFit(m, narrow, bytes) && Lower(name) !in narrow
    requires Ready(narrow, im, st)
    ensures Seen(narrow, bytes, im, RunWord(m, c, name, IState(im, st), fuel), RunWord(g, c, name, st, fuel))
    decreases fuel, 0, 0
  {
    var lc := Lower(name);
    SameWords(m, g, narrow, bytes, im);
    match Resolve(m.NamesOf(c), name)
    case Local => if lc in st.locals { ReadyPush(narrow, im, st, st.locals[lc]); }
    case UserDefined =>
      if lc !in m.defs {
        GlobVarRuns(m, g, narrow, bytes, im, lc, st);
      } else if fuel > 0 {
        GlobCallRuns(m, g, narrow, bytes, im, lc, st, fuel - 1);
      }
    case Return =>
    case Builtin =>
      if lc == "recurse" {
        if Lower(c.self) in m.defs && fuel > 0 {
          GlobCallRuns(m, g, narrow, bytes, im, Lower(c.self), st, fuel - 1);
        }
      } else {
        GlobPrimRuns(m, g, narrow, bytes, im, lc, st);
      }
  }

  lemma GlobPrimRuns(m: Machine, g: Machine, narrow: set<string>, bytes: set<string>, im: Rep, lc: string, st: State)
    requires Mirrors(m, g, narrow, bytes, im) && Ready(narrow, im, st)
    ensures Seen(narrow, bytes, im, RunPrim(m, lc, IState(im, st)), RunPrim(g, lc, st))
  {
    assert PrimKept(m, g, narrow, im, lc, st.stack, st.world);
  }

  lemma GlobVarRuns(m: Machine, g: Machine, narrow: set<string>, bytes: set<string>, im: Rep, lc: string, st: State)
    requires Mirrors(m, g, narrow, bytes, im) && lc in m.vars && lc !in narrow && Ready(narrow, im, st)
    requires lc in g.vars
    ensures Seen(narrow, bytes, im, RunVar(m.vars[lc], lc, IState(im, st)), RunVar(g.vars[lc], lc, st))
  {
    assert GetKept(narrow, im, lc, st.world);
    match m.vars[lc]
    case Variable(Wide) => ReadyPush(narrow, im, st, Address(lc, 0));
    case Variable(Narrow) =>
    case Value => if lc in st.world.values { ReadyPush(narrow, im, st, st.world.values[lc]); }
  }

  lemma {:induction false} GlobCallRuns(m: Machine, g: Machine, narrow: set<string>, bytes: set<string>, im: Rep,
                                        lc: string, st: State, fuel: nat)
    requires Mirrors(m, g, narrow, bytes, im) && ProgramFit(m, narrow, bytes) && lc in m.defs && lc in g.defs
    requires Ready(narrow, im, st)
    ensures Seen(narrow, bytes, im, Call(m, lc, IState(im, st), fuel), Call(g, lc, st, fuel))
    decreases fuel
  {
    var d := m.defs[lc];
    var c := Context(d.scope, lc);
    assert DefFit(d, m.Words(), narrow, bytes);
    assert g.defs[lc] == d.(body := GlobSeq(d.body, narrow));
    GlobInputs(d, narrow);
    StartImage(narrow, im, d.params, g.Preamble(d), st);
    var o := Start(d.params, g.Preamble(d), st);
    if o.Next? {
      GlobSeqRuns(m, g, narrow, bytes, im, c, d.body, o.state, fuel);
      EndImage(m, g, narrow, bytes, im, st, o.state, RunSeq(m, c, d.body, IState(im, o.state), fuel),
               RunSeq(g, c, GlobSeq(d.body, narrow), o.state, fuel));
    }
  }

  lemma EndImage(m: Machine, g: Machine, narrow: set<string>, bytes: set<string>, im: Rep, caller: State, entry: State,
                 o: Outcome, go: Outcome)
    requires g.restoring == m.restoring && Ready(narrow, im, caller) && Ready(narrow, im, entry)
    requires Seen(narrow, bytes, im, o, go)
    ensures Seen(narrow, bytes, im, EndCall(m, IState(im, caller), IState(im, entry), o), EndCall(g, caller, entry, go))
  {}

  lemma {:induction false} GlobArmsRun(m: Machine, g: Machine, narrow: set<string>, bytes: set<string>, im: Rep,
                                       c: Context, arms: seq<Arm>, default: Else, st: State, fuel: nat)
    requires Mirrors(m, g, narrow, bytes, im) && ProgramFit(m, narrow, bytes) && Clear(m.NamesOf(c), narrow, bytes)
    requires InArms(arms, narrow) == {} && TameArms(arms, narrow, bytes)
    requires InElse(default, narrow) == {} && TameElse(default, narrow, bytes) && Ready(narrow, im, st)
    ensures Seen(narrow, bytes, im, RunArms(m, c, arms, default, IState(im, st), fuel),
                 RunArms(g, c, GlobArms(arms, narrow), GlobElse(default, narrow), st, fuel))
    decreases fuel, SizeArms(arms) + SizeElse(default), 2
  {
    if arms == [] {
      GlobElseRuns(m, g, narrow, bytes, im, c, default, st, fuel);
      var go := RunElse(g, c, GlobElse(default, narrow), st, fuel);
      if go.Next? && |go.state.stack| > 0 && Ready(narrow, im, go.state) {
        ReadyPop(narrow, im, go.state);
      }
    } else if |st.stack| > 0 {
      GlobArmRuns(m, g, narrow, bytes, im, c, arms, default, st, fuel);
    }
  }

  lemma {:induction false} GlobArmRuns(m: Machine, g: Machine, narrow: set<string>, bytes: set<string>, im: Rep,
                                       c: Context, arms: seq<Arm>, default: Else, st: State, fuel: nat)
    requires arms != [] && |st.stack| > 0
    requires Mirrors(m, g, narrow, bytes, im) && ProgramFit(m, narrow, bytes) && Clear(m.NamesOf(c), narrow, bytes)
    requires InArms(arms, narrow) == {} && TameArms(arms, narrow, bytes)
    requires InElse(default, narrow) == {} && TameElse(default, narrow, bytes) && Ready(narrow, im, st)
    ensures Seen(narrow, bytes, im, RunArms(m, c, arms, default, IState(im, st), fuel),
                 RunArms(g, c, GlobArms(arms, narrow), GlobElse(default, narrow), st, fuel))
    decreases fuel, SizeArms(arms) + SizeElse(default), 1
  {
    var arms' := GlobArms(arms, narrow);
    assert arms'[0] == Arm(GlobSeq(arms[0].matchExpr, narrow), GlobSeq(arms[0].body, narrow));
    assert arms'[1..] == GlobArms(arms[1..], narrow);
    GlobSeqRuns(m, g, narrow, bytes, im, c, arms[0].matchExpr, st, fuel);
    var go := RunSeq(g, c, arms'[0].matchExpr, st, fuel);
    if go.Next? && Ready(narrow, im, go.state) && |go.state.stack| >= 2 {
      var st1 := go.state;
      ReadyPop(narrow, im, st1);
      ReadyPop(narrow, im, Pop(st1));
      if Top(st1.stack) == Top(Drop(st1.stack)) {
        GlobSeqRuns(m, g, narrow, bytes, im, c, arms[0].body, Pop(Pop(st1)), fuel);
      } else {
        GlobArmsRun(m, g, narrow, bytes, im, c, arms[1..], default, Pop(st1), fuel);
      }
    }
  }

  lemma FrameImage(m: Machine, g: Machine, narrow: set<string>, bytes: set<string>, im: Rep, st: State, limit: int,
                   start: int)
    requires Mirrors(m, g, narrow, bytes, im) && Ready(narrow, im, st)
    ensures PushFrame(IState(im, st), limit, start) == IState(im, PushFrame(st, limit, start))
    ensures Ready(narrow, im, PushFrame(st, limit, start))
  {
    assert LoopsKept(im, st.world, st.world.loops + [LoopFrame(limit, start, false)]);
  }

  lemma {:induction false} GlobDoRuns(m: Machine, g: Machine, narrow: set<string>, bytes: set<string>, im: Rep,
                                      c: Context, e: Expr, st: State, fuel: nat)
    requires e.DoLoop?
    requires Mirrors(m, g, narrow, bytes, im) && ProgramFit(m, narrow, bytes) && Clear(m.NamesOf(c), narrow, bytes)
    requires ExprFit(e, narrow, bytes) && Ready(narrow, im, st)
    ensures Seen(narrow, bytes, im, RunExpr(m, c, e, IState(im, st), fuel),
                 RunExpr(g, c, GlobExpr(e, narrow), st, fuel))
    decreases fuel, SizeExpr(e), 4, 1
  {
    if |st.stack| >= 2 {
      ReadyPop(narrow, im, st);
      ReadyPop(narrow, im, Pop(st));
      if Top(st.stack).Number? && Top(Drop(st.stack)).Number? {
        var start, limit, st1 := Top(st.stack).n, Top(Drop(st.stack)).n, Pop(Pop(st));
        FrameImage(m, g, narrow, bytes, im, st1, limit, start);
        GlobLoopRuns(m, g, narrow, bytes, im, c, e, PushFrame(st1, limit, start), fuel);
      }
    }
  }

  lemma BumpImage(m: Machine, g: Machine, narrow: set<string>, bytes: set<string>, im: Rep, st: State, step: int)
    requires Mirrors(m, g, narrow, bytes, im) && Ready(narrow, im, st)
    ensures SeenTurn(narrow, bytes, im, Bump(IState(im, st), step), Bump(st, step))
  {
    var n := |st.world.loops|;
    assert LoopsKept(im, st.world, []);
    if n > 0 {
      var frame := st.world.loops[n - 1];
      assert LoopsKept(im, st.world, st.world.loops[..n - 1]);
      assert LoopsKept(im, st.world, st.world.loops[n - 1 := frame.(index := frame.index + step)]);
    }
  }

  lemma DoTurnImage(m: Machine, g: Machine, narrow: set<string>, bytes: set<string>, im: Rep, kind: LoopKind,
                    o: Outcome, go: Outcome)
    requires Mirrors(m, g, narrow, bytes, im) && Seen(narrow, bytes, im, o, go)
    ensures SeenTurn(narrow, bytes, im, DoTurn(kind, o), DoTurn(kind, go))
  {
    if go.Next? && Ready(narrow, im, go.state) {
      if kind == Plus1 {
        BumpImage(m, g, narrow, bytes, im, go.state, 1);
      } else if |go.state.stack| > 0 {
        ReadyPop(narrow, im, go.state);
        if Top(go.state.stack).Number? {
          BumpImage(m, g, narrow, bytes, im, Pop(go.state), Top(go.state.stack).n);
        }
      }
    }
  }

  lemma FlagImage(narrow: set<string>, bytes: set<string>, im: Rep, o: Outcome, go: Outcome)
    requires Seen(narrow, bytes, im, o, go)
    ensures SeenTurn(narrow, bytes, im, UntilTurn(o), UntilTurn(go))
    ensures SeenTurn(narrow, bytes, im, WhileTest(o), WhileTest(go))
    ensures SeenTurn(narrow, bytes, im, AgainTurn(o), AgainTurn(go))
  {
    if go.Next? && Ready(narrow, im, go.state) && |go.state.stack| > 0 {
      ReadyPop(narrow, im, go.state);
    }
  }

  lemma {:induction false} GlobLoopRuns(m: Machine, g: Machine, narrow: set<string>, bytes: set<string>, im: Rep,
                                        c: Context, e: Expr, st: State, fuel: nat)
    requires IsLoop(e)
    requires Mirrors(m, g, narrow, bytes, im) && ProgramFit(m, narrow, bytes) && Clear(m.NamesOf(c), narrow, bytes)
    requires ExprFit(e, narrow, bytes) && Ready(narrow, im, st)
    ensures IsLoop(GlobExpr(e, narrow))
    ensures Seen(narrow, bytes, im, RunLoop(m, c, e, IState(im, st), fuel),
                 RunLoop(g, c, GlobExpr(e, narrow), st, fuel))
    decreases fuel, SizeExpr(e), 4, 0
  {
    var e' := GlobExpr(e, narrow);
    assert IsLoop(e');
    if fuel > 0 {
      GlobTurnRuns(m, g, narrow, bytes, im, c, e, st, fuel);
      var gt := LoopTurn(g, c, e', st, fuel);
      if gt.Repeat? && Ready(narrow, im, gt.state) {
        GlobLoopRuns(m, g, narrow, bytes, im, c, e, gt.state, fuel - 1);
      }
    }
  }

  lemma {:induction false} GlobTurnRuns(m: Machine, g: Machine, narrow: set<string>, bytes: set<string>, im: Rep,
                                        c: Context, e: Expr, st: State, fuel: nat)
    requires IsLoop(e)
    requires Mirrors(m, g, narrow, bytes, im) && ProgramFit(m, narrow, bytes) && Clear(m.NamesOf(c), narrow, bytes)
    requires ExprFit(e, narrow, bytes) && Ready(narrow, im, st)
    ensures IsLoop(GlobExpr(e, narrow))
    ensures SeenTurn(narrow, bytes, im, LoopTurn(m, c, e, IState(im, st), fuel),
                     LoopTurn(g, c, GlobExpr(e, narrow), st, fuel))
    decreases fuel, SizeExpr(e), 3
  {
    var first := if e.BeginWhileRepeat? then e.pred else e.body;
    var o, go := RunSeq(m, c, first, IState(im, st), fuel), RunSeq(g, c, GlobSeq(first, narrow), st, fuel);
    GlobSeqRuns(m, g, narrow, bytes, im, c, first, st, fuel);
    FlagImage(narrow, bytes, im, o, go);
    match e
    case BeginUntil(_) =>
    case BeginAgain(_) =>
    case DoLoop(_, _, kind) => DoTurnImage(m, g, narrow, bytes, im, kind, o, go);
    case BeginWhileRepeat(_, body) =>
      var gt := WhileTest(go);
      if gt.Repeat? && Ready(narrow, im, gt.state) {
        GlobSeqRuns(m, g, narrow, bytes, im, c, body, gt.state, fuel);
        FlagImage(narrow, bytes, im, RunSeq(m, c, body, IState(im, gt.state), fuel),
                  RunSeq(g, c, GlobSeq(body, narrow), gt.state, fuel));
      }
  }
}
