/** How often counted loops turn (bump-loop and do-loop in factor/forth/runtime/runtime.factor). */
module CountedLoops {
  import opened Forth
  import opened Equivalence
  import opened EffectLimits

  /** Every run of the body ends and leaves the loop frames as they were: it has no LEAVE. */
  ghost predicate KeepsFrames(m: Machine, c: Context, body: seq<Expr>, fuel: nat) {
    forall st: State, f: nat | f <= fuel :: FramesKept(RunSeq(m, c, body, st, f), st)
  }

  predicate FramesKept(o: Outcome, st: State) {
    o.Next? && o.state.world.loops == st.world.loops
  }

  /** The innermost frame. */
  function Frame(st: State): LoopFrame
    requires st.world.loops != []
  {
    st.world.loops[|st.world.loops| - 1]
  }

  function AtLeastOne(n: int): nat {
    if n >= 1 then n else 1
  }

  lemma Stepped(m: Machine, c: Context, e: Expr, st: State, fuel: nat)
    requires e.DoLoop? && e.kind == Plus1 && st.world.loops != [] && !Frame(st).left
    requires FramesKept(RunSeq(m, c, e.body, st, fuel), st)
    ensures var frame, n := Frame(st), |st.world.loops|;
            match LoopTurn(m, c, e, st, fuel)
            case Leave(o) => frame.index + 1 >= frame.limit && o.Next? && o.state.world.loops == st.world.loops[..n - 1]
            case Repeat(st1) =>
              && frame.index + 1 < frame.limit && |st1.world.loops| == n
              && st1.world.loops[..n - 1] == st.world.loops[..n - 1] && Frame(st1) == frame.(index := frame.index + 1)
  {}

  /** A DO LOOP without LEAVE turns once for each number from the start up to the limit, but at least once, drops
      its frame, and is done if and only if the fuel is enough for that. */
  lemma {:induction false} CountExactly(m: Machine, c: Context, e: Expr, st: State, fuel: nat)
    requires e.DoLoop? && e.kind == Plus1 && st.world.loops != [] && !Frame(st).left
    requires KeepsFrames(m, c, e.body, fuel)
    ensures var turns, o := AtLeastOne(Frame(st).limit - Frame(st).index), RunLoop(m, c, e, st, fuel);
            && Turns(m, c, e, st, fuel) == (if fuel < turns then fuel else turns)
            && (fuel < turns ==> o == Timeout)
            && (fuel >= turns ==> o.Next? && o.state.world.loops == st.world.loops[..|st.world.loops| - 1])
    decreases fuel
  {
    if fuel > 0 {
      assert FramesKept(RunSeq(m, c, e.body, st, fuel), st);
      Stepped(m, c, e, st, fuel);
      var t := LoopTurn(m, c, e, st, fuel);
      if t.Repeat? {
        CountExactly(m, c, e, t.state, fuel - 1);
      }
    }
  }

  /** The same from the words DO and ?DO: the latter does nothing if limit and start are equal. */
  lemma DoCounts(m: Machine, c: Context, e: Expr, st: State, fuel: nat)
    requires e.DoLoop? && e.kind == Plus1 && KeepsFrames(m, c, e.body, fuel)
    requires |st.stack| >= 2 && Top(st.stack).Number? && Top(Drop(st.stack)).Number?
    ensures var start, limit, o := Top(st.stack).n, Top(Drop(st.stack)).n, RunExpr(m, c, e, st, fuel);
            var turns: nat := if e.isQdo && limit == start then 0 else AtLeastOne(limit - start);
            if fuel < turns then o == Timeout else o.Next? && o.state.world.loops == st.world.loops
  {
    var start, limit := Top(st.stack).n, Top(Drop(st.stack)).n;
    if !(e.isQdo && limit == start) {
      var st1 := PushFrame(Pop(Pop(st)), limit, start);
      assert st1.world.loops[..|st1.world.loops| - 1] == st.world.loops;
      CountExactly(m, c, e, st1, fuel);
    }
  }

  /** A +LOOP that counts down by one, and does nothing else. */
  lemma {:induction false} DownExactly(m: Machine, c: Context, e: Expr, st: State, fuel: nat)
    requires e.DoLoop? && e.kind == PlusN && e.body == [Lit(-1)] && st.world.loops != [] && !Frame(st).left
    ensures var frame, o := Frame(st), RunLoop(m, c, e, st, fuel);
            if fuel > 0 && frame.index > frame.limit then o.Next? && Turns(m, c, e, st, fuel) == 1 else o == Timeout
    decreases fuel
  {
    if fuel > 0 {
      var frame, n := Frame(st), |st.world.loops|;
      RunOne(m, c, Lit(-1), st, fuel);
      assert RunSeq(m, c, e.body, st, fuel) == Next(Push(st, Number(-1)));
      assert Pop(Push(st, Number(-1))) == st;
      var t := LoopTurn(m, c, e, st, fuel);
      assert t == Bump(st, -1);
      if t.Repeat? {
        assert Frame(t.state) == frame.(index := frame.index - 1);
        DownExactly(m, c, e, t.state, fuel - 1);
      }
    }
  }
}
