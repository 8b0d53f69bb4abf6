/** Contexts in which no emitted word has the name of a local or an input. */
module EmitLegible {
  import opened Common
  import opened Forth
  import opened Factor
  import opened Emit
  import opened EmitSim

  // ----- the words that may be emitted -----

  predicate IsBuiltinWord(n: Names, lc: string) {
    Lower(lc) == lc && lc != "recurse" && Resolve(n, lc) == Builtin
  }

  /** A local has the name under which this builtin is written, and does not replace it. */
  predicate HidesBuiltin(scope: set<string>, n: Names, lc: string) {
    IsBuiltinWord(n, lc) && Written(lc).Some? && Written(lc).value in scope
  }

  predicate NoneHidden(scope: set<string>, n: Names, table: seq<(string, string)>)
    decreases |table|
  {
    table != [] ==> !HidesBuiltin(scope, n, table[0].0) && NoneHidden(scope, n, table[1..])
  }

  lemma {:induction false} NoneHiddenIn(scope: set<string>, n: Names, table: seq<(string, string)>, lc: string)
    requires NoneHidden(scope, n, table) && Find(table, lc).Some?
    ensures !HidesBuiltin(scope, n, lc)
    decreases |table|
  {
    if table[0].0 != lc {
      NoneHiddenIn(scope, n, table[1..], lc);
    }
  }

  /** A builtin of the table that is hidden. */
  lemma {:induction false} SomeHidden(scope: set<string>, n: Names, table: seq<(string, string)>) returns (lc: string)
    requires !NoneHidden(scope, n, table)
    ensures HidesBuiltin(scope, n, lc)
    decreases |table|
  {
    if HidesBuiltin(scope, n, table[0].0) {
      lc := table[0].0;
    } else {
      lc := SomeHidden(scope, n, table[1..]);
    }
  }

  function Narrows(vars: map<string, Storage>): set<string> {
    set x | x in vars && vars[x] == Variable(Narrow)
  }

  function Values(vars: map<string, Storage>): set<string> {
    set x | x in vars && vars[x] == Value
  }

  /** No local of the emitted word, inputs included, has the name of a word that some body in it is emitted
      with: the words of WHILE and CASE; the builtins written bare that no local or definition replaces; the
      words of the program under their written names, unless a local replaces them; the words that work on
      globals, if there are narrow variables or VALUEs.  And no local is written with a dot. */
  predicate Legible(scope: set<string>, c: Context, defs: set<string>, vars: map<string, Storage>) {
    var n := Names(c.locals, defs + vars.Keys);
    && Dotless(c.locals)
    && "f" !in scope && "dup" !in scope && "drop" !in scope && "=" !in scope
    && NoneHidden(scope, n, bareBuiltins)
    && (forall w <- defs + vars.Keys :: w !in c.locals || w in Narrows(vars) ==> Mangle(w) !in scope)
    && (Narrows(vars) != {} ==> "get-global" !in scope && "set-global" !in scope && "+" !in scope)
    && (Values(vars) != {} ==> "set-global" !in scope)
    && (forall v <- Values(vars) :: Holding(v) !in scope)
  }

  // ----- legible contexts -----

  lemma ClearTwo(a: Token, b: Token, names: set<string>)
    ensures ClearQ([a, b], names) <==> ClearTok(a, names) && ClearTok(b, names)
  {
    assert [a, b][1..] == [b];
    ClearOne(b, names);
  }

  predicate IsLeaf(e: Expr) {
    e.WordRef? || e.Tick? || e.To? || e.Global?
  }

  /** The words of WHILE and CASE are not hidden, nor is any other word that is named in the context. */
  ghost predicate LeavesClear(m: Machine, scope: set<string>, c: Context) {
    && "f" !in scope && "dup" !in scope && "drop" !in scope && "=" !in scope
    && forall e :: IsLeaf(e) && NamedExpr(m, c, e) ==> ClearQ(EmitExpr(m.NamesOf(c), e), scope)
  }

  /** In a context whose leaves are clear no emitted word is hidden, whatever the body. */
  lemma {:induction false} LeavesSuffice(m: Machine, scope: set<string>, c: Context, s: seq<Expr>)
    requires LeavesClear(m, scope, c) && NamedSeq(m, c, s)
    ensures ClearQ(EmitSeq(m.NamesOf(c), s), scope)
    decreases SizeSeq(s), 2, |s|
  {
    if s != [] {
      LeavesSufficeExpr(m, scope, c, s[0]);
      LeavesSuffice(m, scope, c, s[1..]);
      ClearConcat(EmitExpr(m.NamesOf(c), s[0]), EmitSeq(m.NamesOf(c), s[1..]), scope);
    }
  }

  lemma {:induction false} LeavesSufficeExpr(m: Machine, scope: set<string>, c: Context, e: Expr)
    requires LeavesClear(m, scope, c) && NamedExpr(m, c, e)
    ensures ClearQ(EmitExpr(m.NamesOf(c), e), scope)
    decreases SizeExpr(e), 1
  {
    var n := m.NamesOf(c);
    match e
    case Lit(v) => ClearOne(Num(v), scope);
    case Locals(names) => BindsClear(names, scope);
    case If(thenBody, elseBody) =>
      LeavesSuffice(m, scope, c, thenBody);
      LeavesSufficeElse(m, scope, c, elseBody);
      ClearTwo(ZeroP, EmitExpr(n, e)[1], scope);
    case Case(arms, default) => LeavesSufficeCase(m, scope, c, arms, default);
    case _ =>
      if IsLoop(e) {
        LeavesSufficeLoop(m, scope, c, e);
        ClearOne(EmitLoop(n, e), scope);
      } else {
        assert IsLeaf(e);
      }
  }

  lemma {:induction false} BindsClear(names: seq<string>, scope: set<string>)
    ensures ClearQ(EmitBinds(names), scope)
    decreases |names|
  {
    if names != [] {
      var last, rest := EmitBind(names[|names| - 1]), names[..|names| - 1];
      BindsClear(rest, scope);
      ClearOne(last, scope);
      ClearConcat([last], EmitBinds(rest), scope);
    }
  }

  lemma {:induction false} LeavesSufficeElse(m: Machine, scope: set<string>, c: Context, e: Else)
    requires LeavesClear(m, scope, c) && NamedElse(m, c, e)
    ensures ClearQ(EmitElse(m.NamesOf(c), e), scope)
    decreases SizeElse(e), 0
  {
    match e
    case NoElse =>
    case ElseBody(body) => LeavesSuffice(m, scope, c, body);
  }

  lemma {:induction false} LeavesSufficeLoop(m: Machine, scope: set<string>, c: Context, e: Expr)
    requires IsLoop(e) && LeavesClear(m, scope, c) && NamedExpr(m, c, e)
    ensures ClearTok(EmitLoop(m.NamesOf(c), e), scope)
    decreases SizeExpr(e), 0
  {
    var n := m.NamesOf(c);
    LeavesSuffice(m, scope, c, e.body);
    match e
    case BeginUntil(body) =>
      ClearOne(ZeroP, scope);
      ClearConcat(EmitSeq(n, body), [ZeroP], scope);
    case BeginAgain(body) =>
      ClearOne(Bare("t"), scope);
      ClearConcat(EmitSeq(n, body), [Bare("t")], scope);
    case BeginWhileRepeat(pred, body) =>
      var ift := IfTok([Bare("f")], EmitSeq(n, body) + [Bare("t")]);
      LeavesSuffice(m, scope, c, pred);
      assert Spelling(Bare("f")) == Some("f");
      ClearOne(Bare("f"), scope);
      ClearOne(Bare("t"), scope);
      ClearConcat(EmitSeq(n, body), [Bare("t")], scope);
      ClearTwo(ZeroP, ift, scope);
      ClearConcat(EmitSeq(n, pred), [ZeroP, ift], scope);
    case DoLoop(_, body, kind) =>
      ClearOne(Num(1), scope);
      ClearConcat(EmitSeq(n, body), if kind == Plus1 then [Num(1)] else [], scope);
  }

  lemma {:induction false} LeavesSufficeCase(m: Machine, scope: set<string>, c: Context, arms: seq<Arm>, default: Else)
    requires LeavesClear(m, scope, c) && NamedArms(m, c, arms) && NamedElse(m, c, default)
    ensures ClearQ(EmitCase(m.NamesOf(c), arms, default), scope)
    decreases SizeArms(arms) + SizeElse(default), 1
  {
    var n := m.NamesOf(c);
    if arms == [] {
      LeavesSufficeElse(m, scope, c, default);
      ClearOne(KernelDrop, scope);
      ClearConcat(EmitElse(n, default), [KernelDrop], scope);
    } else {
      var q, test := EmitSeq(n, arms[0].matchExpr), EmitTest(n, arms, default);
      assert Spelling(Bare("dup")) == Some("dup") && Spelling(Bare("drop")) == Some("drop");
      assert Spelling(Bare("=")) == Some("=");
      LeavesSuffice(m, scope, c, arms[0].matchExpr);
      LeavesSuffice(m, scope, c, arms[0].body);
      LeavesSufficeCase(m, scope, c, arms[1..], default);
      ClearOne(Bare("drop"), scope);
      ClearConcat([Bare("drop")], EmitSeq(n, arms[0].body), scope);
      ClearTwo(Bare("="), test[1], scope);
      ClearOne(Bare("dup"), scope);
      ClearConcat([Bare("dup")], q, scope);
      ClearConcat([Bare("dup")] + q, test, scope);
    }
  }

  lemma WordClear(m: Machine, scope: set<string>, c: Context, name: string)
    requires NamedExpr(m, c, WordRef(name)) && !HidesBuiltin(scope, m.NamesOf(c), Lower(name))
    requires Resolve(m.NamesOf(c), name) == UserDefined ==> Mangle(Lower(name)) !in scope
    ensures ClearQ(EmitExpr(m.NamesOf(c), WordRef(name)), scope)
  {
    var lc := Lower(name);
    LowerTwice(name);
    assert Spelling(UserTok(Mangle(lc))) == Some(Mangle(lc));
    ClearOne(EmitWord(m.NamesOf(c), name), scope);
  }

  lemma LowerTwice(name: string)
    ensures Lower(Lower(name)) == Lower(name)
  {}

  lemma TickClear(m: Machine, scope: set<string>, c: Context, name: string)
    requires Resolve(m.NamesOf(c), name) != Local
    requires Resolve(m.NamesOf(c), name) == UserDefined ==> Mangle(Lower(name)) !in scope
    requires Resolve(m.NamesOf(c), name) != UserDefined && Written(Lower(name)).Some? ==>
               Written(Lower(name)).value !in scope
    ensures ClearQ(EmitExpr(m.NamesOf(c), Tick(name)), scope)
  {
    ClearOne(XtTok(TickName(m.NamesOf(c), name), Lower(name)), scope);
  }

  /** EXIT and RECURSE are not written bare. */
  lemma NotWritten(lc: string)
    requires Written(lc).Some?
    ensures lc != "exit" && lc != "recurse"
  {
    FindAmong(bareBuiltins, lc);
    var i :| 0 <= i < |bareBuiltins| && bareBuiltins[i].0 == lc;
    assert |bareBuiltins| == 22;
    assert bareBuiltins[i].0 != "exit" && bareBuiltins[i].0 != "recurse";
  }

  lemma {:induction false} FindAmong(table: seq<(string, string)>, lc: string)
    requires Find(table, lc).Some?
    ensures exists i :: 0 <= i < |table| && table[i].0 == lc
  {
    if table[0].0 != lc {
      FindAmong(table[1..], lc);
      var i :| 0 <= i < |table[1..]| && table[1..][i].0 == lc;
      assert table[i + 1].0 == lc;
    }
  }

  lemma ToClear(scope: set<string>, n: Names, name: string)
    requires "set-global" !in scope && Holding(Lower(name)) !in scope
    ensures ClearQ(EmitExpr(n, To(name)), scope)
  {
    var t, u := SymTok(Holding(Lower(name)), Lower(name)), Bare("set-global");
    assert Spelling(t) == Some(Holding(Lower(name))) && Spelling(u) == Some("set-global");
    ClearTwo(t, u, scope);
  }

  lemma GlobalClear(scope: set<string>, access: Access, x: string)
    requires Mangle(x) !in scope && "get-global" !in scope && "set-global" !in scope && "+" !in scope
    ensures ClearQ(EmitGlobal(access, x), scope)
  {
    var t, g, s, p := UserTok(Mangle(x)), Bare("get-global"), Bare("set-global"), Bare("+");
    assert Spelling(t) == Some(Mangle(x)) && Spelling(g) == Some("get-global");
    assert Spelling(s) == Some("set-global") && Spelling(p) == Some("+");
    ClearTwo(t, g, scope);
    ClearTwo(t, s, scope);
    ClearOne(p, scope);
    ClearConcat([p], [t, s], scope);
    ClearConcat([t, g], [p] + [t, s], scope);
  }

  /** A legible context is one whose leaves are clear. */
  lemma LegibleLeaf(m: Machine, scope: set<string>, c: Context, e: Expr)
    requires Legible(scope, c, m.defs.Keys, m.vars) && IsLeaf(e) && NamedExpr(m, c, e)
    ensures ClearQ(EmitExpr(m.NamesOf(c), e), scope)
  {
    var n := m.NamesOf(c);
    match e
    case WordRef(name) =>
      BuiltinShown(scope, n, Lower(name));
      WordClear(m, scope, c, name);
    case Tick(name) =>
      LowerTwice(name);
      if Written(Lower(name)).Some? {
        NotWritten(Lower(name));
        BuiltinShown(scope, n, Lower(name));
      }
      TickClear(m, scope, c, name);
    case To(name) =>
      assert Lower(name) in Values(m.vars);
      ToClear(scope, n, name);
    case Global(access, x) =>
      assert x in Narrows(m.vars) && x in m.defs.Keys + m.vars.Keys;
      GlobalClear(scope, access, x);
  }

  lemma BuiltinShown(scope: set<string>, n: Names, lc: string)
    requires NoneHidden(scope, n, bareBuiltins)
    ensures !HidesBuiltin(scope, n, lc)
  {
    if Written(lc).Some? {
      NoneHiddenIn(scope, n, bareBuiltins, lc);
    }
  }

  lemma LegibleClear(m: Machine, scope: set<string>, c: Context, s: seq<Expr>)
    requires Legible(scope, c, m.defs.Keys, m.vars) && NamedSeq(m, c, s)
    ensures ClearQ(EmitSeq(m.NamesOf(c), s), scope)
  {
    forall e | IsLeaf(e) && NamedExpr(m, c, e)
      ensures ClearQ(EmitExpr(m.NamesOf(c), e), scope)
    {
      LegibleLeaf(m, scope, c, e);
    }
    LeavesSuffice(m, scope, c, s);
  }
}
