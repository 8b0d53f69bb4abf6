/** Narrow variables as memory cells: the emitted globals give the run with addresses and memory. */
module GlobalsMemory {
  import opened Forth
  import opened Equivalence
  import opened Escape
  import opened Globals
  import opened GlobalsMeaning
  import Refuse

  // ----- a world with its globals put into memory -----

  function Places(narrow: set<string>): set<Cell> {
    set x | x in narrow :: Address(x, 0)
  }

  function CellsOf(narrow: set<string>, mem: map<Cell, Cell>, vals: map<string, Cell>): map<Cell, Cell> {
    map a | a in mem.Keys + Places(narrow) ::
      if a in Places(narrow) then if a.name in vals then vals[a.name] else Number(0) else mem[a]
  }

  function ImageOf(narrow: set<string>, w: World): World {
    w.(memory := CellsOf(narrow, w.memory, w.values), values := w.values - narrow)
  }

  predicate IsByte(v: Cell) {
    v.Number? && 0 <= v.n < 256
  }

  /** All narrow variables are globals that have been set, those accessed by bytes hold bytes, and nothing
      in the world reaches a narrow variable. */
  predicate ReadyWorld(narrow: set<string>, bytes: set<string>, w: World) {
    && narrow <= w.values.Keys
    && (forall x <- bytes :: x in w.values && IsByte(w.values[x]))
    && (forall x :: x in w.values ==> CleanCell(narrow, w.values[x]))
    && (forall a :: a in w.memory ==> CleanCell(narrow, a) && CleanCell(narrow, w.memory[a]))
    && Clean(narrow, w.rstack) && Clean(narrow, w.output)
  }

  function InMemory(narrow: set<string>, bytes: set<string>): Rep {
    Rep(w => ImageOf(narrow, w), w => ReadyWorld(narrow, bytes, w))
  }

  // ----- the runtime with memory -----

  /** A cell that was never stored to holds zero. */
  function Read(w: World, a: Cell): Cell {
    if a in w.memory then w.memory[a] else Number(0)
  }

  function Fetch(s: seq<Cell>, w: World): PrimResult {
    if s == [] then PrimUnderflow
    else if !Top(s).Address? then PrimFault
    else Done(Drop(s) + [Read(w, Top(s))], w)
  }

  /** C@ fetches the low byte of a number. */
  function FetchByte(s: seq<Cell>, w: World): PrimResult {
    if s == [] then PrimUnderflow
    else if !Top(s).Address? || !Read(w, Top(s)).Number? then PrimFault
    else Done(Drop(s) + [Number(Read(w, Top(s)).n % 256)], w)
  }

  function StoreAt(s: seq<Cell>, w: World, v: Cell): PrimResult
    requires |s| >= 2
  {
    Done(Drop(Drop(s)), w.(memory := w.memory[Top(s) := v]))
  }

  function Store(s: seq<Cell>, w: World): PrimResult {
    if |s| < 2 then PrimUnderflow
    else if !Top(s).Address? then PrimFault
    else StoreAt(s, w, Top(Drop(s)))
  }

  /** C! replaces the low byte of a number. */
  function StoreByte(s: seq<Cell>, w: World): PrimResult {
    if |s| < 2 then PrimUnderflow
    else if !Top(s).Address? || !Read(w, Top(s)).Number? || !Top(Drop(s)).Number? then PrimFault
    else
      var held := Read(w, Top(s)).n;
      StoreAt(s, w, Number(held - held % 256 + Top(Drop(s)).n % 256))
  }

  function AddTo(s: seq<Cell>, w: World): PrimResult {
    if |s| < 2 then PrimUnderflow
    else if !Top(s).Address? || !Read(w, Top(s)).Number? || !Top(Drop(s)).Number? then PrimFault
    else StoreAt(s, w, Number(Top(Drop(s)).n + Read(w, Top(s)).n))
  }

  function Plus(s: seq<Cell>, w: World): PrimResult {
    if |s| < 2 then PrimUnderflow
    else if !Top(s).Number? || !Top(Drop(s)).Number? then PrimFault
    else Done(Drop(Drop(s)) + [Number(Top(Drop(s)).n + Top(s).n)], w)
  }

  function SinkPrim(p: string, s: seq<Cell>, w: World): PrimResult
    requires p in sinks
  {
    if p == "@" then Fetch(s, w)
    else if p == "c@" then FetchByte(s, w)
    else if p == "!" then Store(s, w)
    else if p == "c!" then StoreByte(s, w)
    else AddTo(s, w)
  }

  /** The sinks work on memory, and + adds numbers. */
  ghost predicate MemoryPrims(m: Machine) {
    && (forall p, s, w :: p in sinks ==> m.prim(p, s, w) == SinkPrim(p, s, w))
    && (forall s, w :: m.prim("+", s, w) == Plus(s, w))
  }

  /** A builtin other than EXECUTE that is not given a narrow variable does the same whether the variable is
      in memory or a global, and does not come to one by itself. */
  ghost predicate Discreet(m: Machine, narrow: set<string>, bytes: set<string>) {
    forall p, s, w :: p != "execute" ==> PrimKept(m, m, narrow, InMemory(narrow, bytes), p, s, w)
  }

  /** The machine with memory: narrow variables are words that push their addresses. */
  ghost predicate MemoryRuntime(m: Machine, narrow: set<string>, bytes: set<string>) {
    && MemoryPrims(m) && Discreet(m, narrow, bytes) && bytes <= narrow
    && forall x <- narrow :: x !in m.defs && x in m.vars && m.vars[x] == Variable(Wide)
  }

  /** The machine with globals, whose builtins are the same where they are not given a narrow variable.  EXECUTE
      runs words of the program, which correspond. */
  ghost predicate GlobalRuntime(g: Machine, m: Machine, narrow: set<string>, bytes: set<string>) {
    && g.restoring == m.restoring && g.defs == GlobDefs(m.defs, narrow) && g.vars == GlobVars(m.vars, narrow)
    && (forall p, s, w :: p != "execute" && ReadyWorld(narrow, bytes, w) && Clean(narrow, s) ==>
          g.prim(p, s, w) == m.prim(p, s, w))
    && (forall s, w :: PrimKept(m, g, narrow, InMemory(narrow, bytes), "execute", s, w))
  }

  // ----- storing only what fits -----

  /** A store to a variable that is accessed by bytes, of something that is not a byte. */
  predicate Unfit(bytes: set<string>, p: string, s: seq<Cell>, w: World) {
    && |s| >= 2 && Top(s).Address? && Top(s).offset == 0 && Top(s).name in bytes
    && (((p == "!" || p == "c!") && !IsByte(Top(Drop(s)))) ||
        (p == "+!" && Read(w, Top(s)).Number? && Top(Drop(s)).Number? &&
         !IsByte(Number(Top(Drop(s)).n + Read(w, Top(s)).n))))
  }

  /** The same machine, except that such stores fail. */
  ghost predicate Checks(k: Machine, m: Machine, bytes: set<string>) {
    && k.defs == m.defs && k.vars == m.vars && k.restoring == m.restoring
    && forall p, s, w :: k.prim(p, s, w) == if Unfit(bytes, p, s, w) then PrimFault else m.prim(p, s, w)
  }

  lemma ChecksNothing(m: Machine)
    ensures Checks(m, m, {})
  {}

  // ----- the machines mirror each other -----

  lemma InMemoryIs(narrow: set<string>, bytes: set<string>, w: World)
    ensures InMemory(narrow, bytes).image(w) == ImageOf(narrow, w)
    ensures InMemory(narrow, bytes).ready(w) == ReadyWorld(narrow, bytes, w)
  {}

  lemma PlaceRead(narrow: set<string>, w: World, x: string)
    requires x in narrow && x in w.values
    ensures Read(ImageOf(narrow, w), Address(x, 0)) == w.values[x]
  {
    assert Address(x, 0) in Places(narrow);
  }

  /** Setting a global is storing to its cell. */
  lemma PlaceSet(narrow: set<string>, w: World, x: string, v: Cell)
    requires x in narrow
    ensures var w1 := ImageOf(narrow, w);
            ImageOf(narrow, w.(values := w.values[x := v])) == w1.(memory := w1.memory[Address(x, 0) := v])
  {
    assert Address(x, 0) in Places(narrow);
    var a, b := CellsOf(narrow, w.memory, w.values[x := v]), CellsOf(narrow, w.memory, w.values)[Address(x, 0) := v];
    assert a.Keys == b.Keys;
    assert forall k :: k in a ==> a[k] == b[k];
    assert a == b;
    assert w.values[x := v] - narrow == w.values - narrow;
  }

  lemma ReadySet(narrow: set<string>, bytes: set<string>, w: World, x: string, v: Cell)
    requires ReadyWorld(narrow, bytes, w) && CleanCell(narrow, v) && (x in bytes ==> IsByte(v))
    ensures ReadyWorld(narrow, bytes, w.(values := w.values[x := v]))
  {}

  lemma ToIsKept(narrow: set<string>, bytes: set<string>, name: string, v: Cell, w: World)
    requires name !in narrow && bytes <= narrow
    ensures ToKept(narrow, InMemory(narrow, bytes), name, v, w)
  {
    var w1 := w.(values := w.values[name := v]);
    InMemoryIs(narrow, bytes, w);
    InMemoryIs(narrow, bytes, w1);
    if ReadyWorld(narrow, bytes, w) && CleanCell(narrow, v) {
      ReadySet(narrow, bytes, w, name, v);
      var a, b := CellsOf(narrow, w.memory, w1.values), CellsOf(narrow, w.memory, w.values);
      assert a.Keys == b.Keys;
      assert forall k :: k in a ==> a[k] == b[k];
      assert a == b;
      assert w1.values - narrow == (w.values - narrow)[name := v];
    }
  }

  lemma GetIsKept(narrow: set<string>, bytes: set<string>, name: string, w: World)
    requires name !in narrow
    ensures GetKept(narrow, InMemory(narrow, bytes), name, w)
  {
    InMemoryIs(narrow, bytes, w);
  }

  lemma LoopsAreKept(narrow: set<string>, bytes: set<string>, w: World, loops: seq<LoopFrame>)
    ensures LoopsKept(InMemory(narrow, bytes), w, loops)
  {
    InMemoryIs(narrow, bytes, w);
    InMemoryIs(narrow, bytes, w.(loops := loops));
  }

  lemma PrimIsKept(m: Machine, k: Machine, g: Machine, narrow: set<string>, bytes: set<string>, p: string, s: seq<Cell>,
                   w: World)
    requires MemoryRuntime(m, narrow, bytes) && Checks(k, m, bytes) && GlobalRuntime(g, m, narrow, bytes)
    ensures PrimKept(k, g, narrow, InMemory(narrow, bytes), p, s, w)
  {
    InMemoryIs(narrow, bytes, w);
    if ReadyWorld(narrow, bytes, w) && Clean(narrow, s) {
      if p != "execute" {
        assert PrimKept(m, m, narrow, InMemory(narrow, bytes), p, s, w);
      } else {
        assert PrimKept(m, g, narrow, InMemory(narrow, bytes), p, s, w);
      }
      assert |s| > 0 ==> Top(s) in s;
      assert !Unfit(bytes, p, s, ImageOf(narrow, w));
    }
  }

  /** What each sink makes of the variable's cell, and what the access makes of the global. */
  lemma UseIsKept(m: Machine, k: Machine, g: Machine, narrow: set<string>, bytes: set<string>, x: string, p: string,
                  s: seq<Cell>, w: World)
    requires MemoryRuntime(m, narrow, bytes) && Checks(k, m, bytes) && GlobalRuntime(g, m, narrow, bytes)
    requires x in narrow && p in sinks
    ensures UseKept(k, g, narrow, bytes, InMemory(narrow, bytes), x, p, s, w)
  {
    var im, a := InMemory(narrow, bytes), Address(x, 0);
    InMemoryIs(narrow, bytes, w);
    if ReadyWorld(narrow, bytes, w) && Clean(narrow, s) && (p in byteSinks ==> x in bytes) {
      PlaceRead(narrow, w, x);
      assert Drop(s + [a]) == s && Top(s + [a]) == a;
      assert k.prim(p, s + [a], ImageOf(narrow, w)) ==
             if Unfit(bytes, p, s + [a], ImageOf(narrow, w)) then PrimFault
             else SinkPrim(p, s + [a], ImageOf(narrow, w));
      if p == "@" || p == "c@" {
        assert Clean(narrow, s + [w.values[x]]);
      } else if p == "!" || p == "c!" {
        StoreIsKept(narrow, bytes, x, p, s, w);
      } else {
        AddIsKept(m, g, narrow, bytes, x, s, w);
      }
    }
  }

  lemma StoredIsKept(narrow: set<string>, bytes: set<string>, x: string, s: seq<Cell>, w: World, v: Cell)
    requires x in narrow && ReadyWorld(narrow, bytes, w) && Clean(narrow, s) && CleanCell(narrow, v)
    requires x in bytes ==> IsByte(v)
    ensures var im, r := InMemory(narrow, bytes), Done(s, w.(values := w.values[x := v]));
            && ReadyPrim(narrow, im, r)
            && IPrim(im, r) == Done(s, ImageOf(narrow, w).(memory := ImageOf(narrow, w).memory[Address(x, 0) := v]))
  {
    InMemoryIs(narrow, bytes, w.(values := w.values[x := v]));
    ReadySet(narrow, bytes, w, x, v);
    PlaceSet(narrow, w, x, v);
  }

  lemma StoreIsKept(narrow: set<string>, bytes: set<string>, x: string, p: string, s: seq<Cell>, w: World)
    requires x in narrow && (p == "!" || (p == "c!" && x in bytes)) && ReadyWorld(narrow, bytes, w) && Clean(narrow, s)
    ensures var im, a := InMemory(narrow, bytes), StoreTop(x, s, w);
            Unfit(bytes, p, s + [Address(x, 0)], ImageOf(narrow, w)) ||
            (SinkPrim(p, s + [Address(x, 0)], ImageOf(narrow, w)) == IPrim(im, a) && ReadyPrim(narrow, im, a))
  {
    var a := Address(x, 0);
    PlaceRead(narrow, w, x);
    assert Drop(s + [a]) == s && Top(s + [a]) == a;
    if s != [] {
      var v := Top(s);
      assert v in s;
      if x !in bytes || IsByte(v) {
        assert Clean(narrow, Drop(s));
        StoredIsKept(narrow, bytes, x, Drop(s), w, v);
      }
    }
  }

  /** Adding to a cell that holds r, and adding to the global. */
  lemma AddedCell(g: Machine, x: string, s: seq<Cell>, w: World, w1: World, r: Cell)
    requires x in w.values && w.values[x] == r && Read(w1, Address(x, 0)) == r
    requires g.prim("+", s + [r], w) == Plus(s + [r], w)
    ensures var a, sum := Address(x, 0), if s != [] && Top(s).Number? && r.Number? then Top(s).n + r.n else 0;
            if s == [] then AddTo(s + [a], w1) == AccessPrim(g, Add, x, s, w) == PrimUnderflow
            else if !Top(s).Number? || !r.Number? then AddTo(s + [a], w1) == AccessPrim(g, Add, x, s, w) == PrimFault
            else
              && AddTo(s + [a], w1) == Done(Drop(s), w1.(memory := w1.memory[a := Number(sum)]))
              && AccessPrim(g, Add, x, s, w) == Done(Drop(s), w.(values := w.values[x := Number(sum)]))
  {
    var a := Address(x, 0);
    assert Drop(s + [a]) == s && Top(s + [a]) == a;
    assert Drop(s + [r]) == s && Top(s + [r]) == r;
    if s != [] && Top(s).Number? && r.Number? {
      var sum := Number(Top(s).n + r.n);
      assert Drop(Drop(s) + [sum]) == Drop(s) && Top(Drop(s) + [sum]) == sum;
    }
  }

  lemma AddIsKept(m: Machine, g: Machine, narrow: set<string>, bytes: set<string>, x: string, s: seq<Cell>, w: World)
    requires MemoryRuntime(m, narrow, bytes) && GlobalRuntime(g, m, narrow, bytes)
    requires x in narrow && ReadyWorld(narrow, bytes, w) && Clean(narrow, s)
    ensures var im, a := InMemory(narrow, bytes), AccessPrim(g, Add, x, s, w);
            Unfit(bytes, "+!", s + [Address(x, 0)], ImageOf(narrow, w)) ||
            (AddTo(s + [Address(x, 0)], ImageOf(narrow, w)) == IPrim(im, a) && ReadyPrim(narrow, im, a))
  {
    var a, r := Address(x, 0), w.values[x];
    PlaceRead(narrow, w, x);
    assert Clean(narrow, s + [r]);
    assert g.prim("+", s + [r], w) == Plus(s + [r], w);
    AddedCell(g, x, s, w, ImageOf(narrow, w), r);
    if s != [] && Top(s).Number? && r.Number? {
      var sum := Number(Top(s).n + r.n);
      SumUnfit(bytes, x, s, ImageOf(narrow, w), r.n);
      if x !in bytes || IsByte(sum) {
        assert Clean(narrow, Drop(s));
        StoredIsKept(narrow, bytes, x, Drop(s), w, sum);
      }
    }
  }

  lemma SumUnfit(bytes: set<string>, x: string, s: seq<Cell>, w: World, held: int)
    requires s != [] && Top(s).Number? && Read(w, Address(x, 0)) == Number(held)
    ensures Unfit(bytes, "+!", s + [Address(x, 0)], w) <==> x in bytes && !IsByte(Number(Top(s).n + held))
  {
    assert Drop(s + [Address(x, 0)]) == s && Top(s + [Address(x, 0)]) == Address(x, 0);
  }

  lemma MemoryMirrors(m: Machine, k: Machine, g: Machine, narrow: set<string>, bytes: set<string>)
    requires MemoryRuntime(m, narrow, bytes) && Checks(k, m, bytes) && GlobalRuntime(g, m, narrow, bytes)
    ensures Mirrors(k, g, narrow, bytes, InMemory(narrow, bytes))
  {
    var im := InMemory(narrow, bytes);
    forall name, v, w | name !in narrow
      ensures ToKept(narrow, im, name, v, w)
    {
      ToIsKept(narrow, bytes, name, v, w);
    }
    forall name, w | name !in narrow
      ensures GetKept(narrow, im, name, w)
    {
      GetIsKept(narrow, bytes, name, w);
    }
    forall w, loops
      ensures LoopsKept(im, w, loops)
    {
      LoopsAreKept(narrow, bytes, w, loops);
    }
    forall p, s, w
      ensures PrimKept(k, g, narrow, im, p, s, w)
    {
      PrimIsKept(m, k, g, narrow, bytes, p, s, w);
    }
    forall x, p, s, w | x in narrow && p in sinks
      ensures UseKept(k, g, narrow, bytes, im, x, p, s, w)
    {
      UseIsKept(m, k, g, narrow, bytes, x, p, s, w);
    }
  }

  // ----- the main result -----

  /** Program and body use their narrow variables only as the analysis found, and the state reaches none. */
  ghost predicate Usable(m: Machine, narrow: set<string>, bytes: set<string>, c: Context, s: seq<Expr>, st: State) {
    && ProgramFit(m, narrow, bytes) && Clear(m.NamesOf(c), narrow, bytes) && SeqFit(s, narrow, bytes)
    && Ready(narrow, InMemory(narrow, bytes), st)
  }

  lemma UsableChecked(m: Machine, k: Machine, narrow: set<string>, bytes: set<string>, c: Context, s: seq<Expr>,
                      st: State)
    requires Checks(k, m, bytes) && Usable(m, narrow, bytes, c, s, st)
    ensures Usable(k, narrow, bytes, c, s, st)
  {
    assert k.Words() == m.Words();
  }

  /** Unless a value that does not fit a byte is stored to a variable that is accessed by bytes, the
      program gives the same run with globals as with addresses and memory: same outcome, same stack, same
      output, and the same world once the globals are put into memory. */
  lemma GlobalsPreserve(m: Machine, k: Machine, g: Machine, narrow: set<string>, bytes: set<string>, c: Context,
                        s: seq<Expr>, st: State, fuel: nat)
    requires MemoryRuntime(m, narrow, bytes) && Checks(k, m, bytes) && GlobalRuntime(g, m, narrow, bytes)
    requires Usable(m, narrow, bytes, c, s, st)
    requires RunSeq(k, c, s, IState(InMemory(narrow, bytes), st), fuel) != Fault
    ensures RunSeq(m, c, s, IState(InMemory(narrow, bytes), st), fuel)
         == IOutcome(InMemory(narrow, bytes), RunSeq(g, c, GlobSeq(s, narrow), st, fuel))
  {
    MemoryMirrors(m, k, g, narrow, bytes);
    UsableChecked(m, k, narrow, bytes, c, s, st);
    GlobSeqRuns(k, g, narrow, bytes, InMemory(narrow, bytes), c, s, st, fuel);
    Refuse.SeqUntil(k, m, c, s, IState(InMemory(narrow, bytes), st), fuel);
  }

  /** Without byte accesses to narrow variables the two runs agree always, failures included. */
  lemma CellsPreserve(m: Machine, g: Machine, narrow: set<string>, c: Context, s: seq<Expr>, st: State, fuel: nat)
    requires MemoryRuntime(m, narrow, {}) && GlobalRuntime(g, m, narrow, {}) && Usable(m, narrow, {}, c, s, st)
    ensures RunSeq(m, c, s, IState(InMemory(narrow, {}), st), fuel)
         == IOutcome(InMemory(narrow, {}), RunSeq(g, c, GlobSeq(s, narrow), st, fuel))
  {
    ChecksNothing(m);
    MemoryMirrors(m, m, g, narrow, {});
    GlobSeqRuns(m, g, narrow, {}, InMemory(narrow, {}), c, s, st, fuel);
  }

  // ----- a runtime that is discreet -----

  /** The sinks and +; the other builtins do nothing. */
  function SinkRuntime(p: string, s: seq<Cell>, w: World): PrimResult {
    if p in sinks then SinkPrim(p, s, w) else if p == "+" then Plus(s, w) else Done(s, w)
  }

  lemma ReadKept(narrow: set<string>, bytes: set<string>, w: World, a: Cell)
    requires ReadyWorld(narrow, bytes, w) && CleanCell(narrow, a)
    ensures Read(ImageOf(narrow, w), a) == Read(w, a) && CleanCell(narrow, Read(w, a))
  {
    assert a !in Places(narrow);
  }

  lemma StoreKept(narrow: set<string>, bytes: set<string>, s: seq<Cell>, w: World, v: Cell)
    requires ReadyWorld(narrow, bytes, w) && Clean(narrow, s) && CleanCell(narrow, v) && |s| >= 2
    ensures SameOn(narrow, bytes, StoreAt(s, ImageOf(narrow, w), v), StoreAt(s, w, v))
  {
    var a, w1 := Top(s), w.(memory := w.memory[Top(s) := v]);
    assert a in s && a !in Places(narrow);
    InMemoryIs(narrow, bytes, w1);
    var x, y := CellsOf(narrow, w1.memory, w.values), CellsOf(narrow, w.memory, w.values)[a := v];
    assert x.Keys == y.Keys;
    assert forall k :: k in x ==> x[k] == y[k];
    assert x == y;
    assert Clean(narrow, Drop(Drop(s)));
  }

  /** The sinks themselves are discreet, so that the assumptions can be met. */
  lemma SinksDiscreet(m: Machine, narrow: set<string>, bytes: set<string>)
    requires forall p, s, w :: m.prim(p, s, w) == SinkRuntime(p, s, w)
    ensures MemoryPrims(m) && forall p, s, w :: PrimKept(m, m, narrow, InMemory(narrow, bytes), p, s, w)
  {
    var im := InMemory(narrow, bytes);
    forall p, s, w
      ensures PrimKept(m, m, narrow, im, p, s, w)
    {
      InMemoryIs(narrow, bytes, w);
      if ReadyWorld(narrow, bytes, w) && Clean(narrow, s) {
        SinkKept(narrow, bytes, p, s, w);
      }
    }
  }

  lemma SinkKept(narrow: set<string>, bytes: set<string>, p: string, s: seq<Cell>, w: World)
    requires ReadyWorld(narrow, bytes, w) && Clean(narrow, s)
    ensures SameOn(narrow, bytes, SinkRuntime(p, s, ImageOf(narrow, w)), SinkRuntime(p, s, w))
  {
    InMemoryIs(narrow, bytes, w);
    if p in sinks && s != [] {
      if p == "@" || p == "c@" {
        FetchKept(narrow, bytes, s, w);
      } else if |s| >= 2 {
        StoresKept(narrow, bytes, s, w);
      }
    } else if p == "+" && |s| >= 2 {
      PlusKept(narrow, bytes, s, w);
    }
  }

  ghost predicate SameOn(narrow: set<string>, bytes: set<string>, r: PrimResult, gr: PrimResult) {
    r == IPrim(InMemory(narrow, bytes), gr) && ReadyPrim(narrow, InMemory(narrow, bytes), gr)
  }

  lemma FetchKept(narrow: set<string>, bytes: set<string>, s: seq<Cell>, w: World)
    requires ReadyWorld(narrow, bytes, w) && Clean(narrow, s) && s != []
    ensures SameOn(narrow, bytes, Fetch(s, ImageOf(narrow, w)), Fetch(s, w))
    ensures SameOn(narrow, bytes, FetchByte(s, ImageOf(narrow, w)), FetchByte(s, w))
  {
    InMemoryIs(narrow, bytes, w);
    assert Top(s) in s;
    ReadKept(narrow, bytes, w, Top(s));
    assert Clean(narrow, Drop(s) + [Read(w, Top(s))]);
    if Read(w, Top(s)).Number? {
      assert Clean(narrow, Drop(s) + [Number(Read(w, Top(s)).n % 256)]);
    }
  }

  lemma StoresKept(narrow: set<string>, bytes: set<string>, s: seq<Cell>, w: World)
    requires ReadyWorld(narrow, bytes, w) && Clean(narrow, s) && |s| >= 2
    ensures SameOn(narrow, bytes, Store(s, ImageOf(narrow, w)), Store(s, w))
    ensures SameOn(narrow, bytes, StoreByte(s, ImageOf(narrow, w)), StoreByte(s, w))
    ensures SameOn(narrow, bytes, AddTo(s, ImageOf(narrow, w)), AddTo(s, w))
  {
    assert Top(s) in s && Top(Drop(s)) in s;
    ReadKept(narrow, bytes, w, Top(s));
    StoreKept(narrow, bytes, s, w, Top(Drop(s)));
    FaultKept(narrow, bytes);
    if Read(w, Top(s)).Number? && Top(Drop(s)).Number? {
      var held, v := Read(w, Top(s)).n, Top(Drop(s)).n;
      StoreKept(narrow, bytes, s, w, Number(held - held % 256 + v % 256));
      StoreKept(narrow, bytes, s, w, Number(v + held));
      StoresAre(s, w, held, v);
      StoresAre(s, ImageOf(narrow, w), held, v);
    }
  }

  lemma FaultKept(narrow: set<string>, bytes: set<string>)
    ensures SameOn(narrow, bytes, PrimFault, PrimFault)
  {}

  lemma StoresAre(s: seq<Cell>, w: World, held: int, v: int)
    requires |s| >= 2 && Read(w, Top(s)) == Number(held) && Top(Drop(s)) == Number(v)
    ensures StoreByte(s, w)
         == if !Top(s).Address? then PrimFault else StoreAt(s, w, Number(held - held % 256 + v % 256))
    ensures AddTo(s, w) == if !Top(s).Address? then PrimFault else StoreAt(s, w, Number(v + held))
  {}

  lemma PlusKept(narrow: set<string>, bytes: set<string>, s: seq<Cell>, w: World)
    requires ReadyWorld(narrow, bytes, w) && Clean(narrow, s) && |s| >= 2
    ensures SameOn(narrow, bytes, Plus(s, ImageOf(narrow, w)), Plus(s, w))
  {
    InMemoryIs(narrow, bytes, w);
    assert Clean(narrow, Drop(Drop(s)));
    if Top(s).Number? && Top(Drop(s)).Number? {
      assert Clean(narrow, Drop(Drop(s)) + [Number(Top(Drop(s)).n + Top(s).n)]);
    }
  }
}
