/** The hand-off of commands between host, dispatcher and listener (src/session.rs), as a transition
    system whose steps are the critical sections of the three threads. */
module Session {
  import opened Common

  // ----- state -----

  datatype Command = Eval(source: string) | Shutdown

  /** Where the dispatcher thread stands. */
  datatype Dispatcher =
    | Receiving
    | Clearing(command: Command)
    | Posting(command: Command)
    | Waiting
    | Flushing
    | Replying
    | Closed

  /** Where the listener loop stands. */
  datatype Listener =
    | Asking
    | Evaluating(text: string)
    | Publishing(text: string)
    | Signalling
    | Exited

  /** `sent` and `accepted`, `started`, `finished`, `replies` are histories: all commands sent, those the
      dispatcher has received, the texts the listener began and ended, and the number of replies. */
  datatype Sys = Sys(channel: seq<Command>, open: bool, pending: Option<string>, done: bool,
                     dispatcher: Dispatcher, listener: Listener,
                     sent: seq<Command>, accepted: nat, started: seq<string>, finished: seq<string>, replies: nat)

  const Initial := Sys([], true, None, false, Receiving, Asking, [], 0, [], [], 0)

  const exitMarker := "__exit__"

  const preamble := "USING: forth.runtime ; rebind-host-streams\n"

  function Prefixed(source: string): string {
    preamble + source
  }

  function Text(c: Command): string {
    match c
    case Eval(source) => Prefixed(source)
    case Shutdown => exitMarker
  }

  const nul := 0 as char

  // ----- steps -----

  datatype Step =
    | Send(source: string)
    | Close
    | Receive
    | Clear
    | Post
    | Wake
    | Flush
    | Reply
    | Take
    | Evaluate
    | Publish
    | Signal

  predicate IsHost(step: Step) {
    step.Send? || step.Close?
  }

  predicate Enabled(s: Sys, step: Step) {
    match step
    case Send(_) => s.open
    case Close => s.open
    case Receive => s.dispatcher.Receiving? && s.channel != []
    case Clear => s.dispatcher.Clearing?
    case Post => s.dispatcher.Posting?
    case Wake => s.dispatcher.Waiting? && s.done
    case Flush => s.dispatcher.Flushing?
    case Reply => s.dispatcher.Replying?
    case Take => s.listener.Asking? && s.pending.Some?
    case Evaluate => s.listener.Evaluating?
    case Publish => s.listener.Publishing?
    case Signal => s.listener.Signalling?
  }

  function Apply(s: Sys, step: Step): Sys
    requires Enabled(s, step)
  {
    match step
    case Send(source) => s.(channel := s.channel + [Eval(source)], sent := s.sent + [Eval(source)])
    case Close => s.(channel := s.channel + [Shutdown], sent := s.sent + [Shutdown], open := false)
    case Receive =>
      s.(channel := s.channel[1..], dispatcher := Clearing(s.channel[0]), accepted := s.accepted + 1)
    case Clear => s.(done := false, dispatcher := Posting(s.dispatcher.command))
    case Post =>
      s.(pending := Some(Text(s.dispatcher.command)),
         dispatcher := if s.dispatcher.command.Eval? then Waiting else Closed)
    case Wake => s.(dispatcher := Flushing)
    case Flush => s.(dispatcher := Replying)
    case Reply => s.(dispatcher := Receiving, replies := s.replies + 1)
    case Take =>
      var text := s.pending.value;
      if text == exitMarker || nul in text then s.(pending := None, listener := Exited)
      else s.(pending := None, listener := Evaluating(text), started := s.started + [text])
    case Evaluate => s.(listener := Publishing(s.listener.text), finished := s.finished + [s.listener.text])
    case Publish => s.(listener := Signalling)
    case Signal => s.(listener := Asking, done := true)
  }

  /** States that some interleaving of the threads can lead to. */
  ghost predicate Reachable(s: Sys, steps: nat)
    decreases steps
  {
    if steps == 0 then s == Initial
    else exists s0, step :: Reachable(s0, steps - 1) && Enabled(s0, step) && Apply(s0, step) == s
  }

  // ----- the invariant -----

  /** The texts of a run of evaluations. */
  function Texts(commands: seq<Command>): (t: seq<string>)
    ensures |t| == |commands|
    ensures forall i :: 0 <= i < |t| ==> t[i] == Text(commands[i])
  {
    seq(|commands|, i requires 0 <= i < |commands| => Text(commands[i]))
  }

  predicate AllEvals(commands: seq<Command>) {
    forall c <- commands :: c.Eval?
  }

  predicate Clean(commands: seq<Command>) {
    forall c <- commands :: c.Eval? ==> nul !in c.source
  }

  /** A shutdown is the last command ever sent, and closes the channel. */
  predicate WellSent(s: Sys) {
    && s.accepted <= |s.sent|
    && s.channel == s.sent[s.accepted..]
    && if s.open then AllEvals(s.sent)
       else s.sent != [] && s.sent[|s.sent| - 1] == Shutdown && AllEvals(s.sent[..|s.sent| - 1])
  }

  /** The command being handled: received last, not yet answered. */
  function Current(s: Sys): Command
    requires 0 < s.accepted <= |s.sent|
  {
    s.sent[s.accepted - 1]
  }

  /** Between commands: everything received was answered. */
  predicate Rested(s: Sys, answered: nat) {
    && answered <= |s.sent|
    && s.replies == answered
    && s.started == Texts(s.sent[..answered]) && s.finished == s.started
    && Clean(s.sent[..answered]) && AllEvals(s.sent[..answered])
    && s.pending == None && s.listener == Asking
  }

  /** The command in hand has been posted: it is pending, or runs, or is done. */
  predicate InFlight(s: Sys) {
    && 0 < s.accepted <= |s.sent| && Current(s).Eval?
    && s.replies == s.accepted - 1
    && Clean(s.sent[..s.replies]) && AllEvals(s.sent[..s.replies])
    && var before, text := Texts(s.sent[..s.replies]), Text(Current(s));
       match s.listener
       case Asking =>
         if s.done then s.pending == None && Answered(s)
         else s.pending == Some(text) && s.started == before && s.finished == before
       case Evaluating(t) => Running(s, t) && s.finished == before
       case Publishing(t) => Running(s, t) && s.finished == s.started
       case Signalling => Running(s, text) && s.finished == s.started
       case Exited => nul in text && !s.done && s.pending == None && s.started == before && s.finished == before
  }

  predicate Running(s: Sys, t: string)
    requires 0 < s.accepted <= |s.sent| && s.replies <= |s.sent|
  {
    && t == Text(Current(s)) && nul !in t && !s.done && s.pending == None
    && s.started == Texts(s.sent[..s.replies]) + [t]
  }

  predicate Answered(s: Sys)
    requires 0 < s.accepted <= |s.sent|
  {
    && s.started == Texts(s.sent[..s.accepted]) && s.finished == s.started && Clean(s.sent[..s.accepted])
  }

  predicate Inv(s: Sys) {
    && WellSent(s)
    && match s.dispatcher
       case Receiving => Rested(s, s.accepted)
       case Clearing(c) => s.accepted > 0 && c == Current(s) && Rested(s, s.accepted - 1)
       case Posting(c) => s.accepted > 0 && c == Current(s) && Rested(s, s.accepted - 1) && !s.done
       case Waiting => InFlight(s)
       case Flushing => InFlight(s) && s.done
       case Replying => InFlight(s) && s.done
       case Closed =>
         && s.accepted > 0 && Current(s) == Shutdown
         && if s.listener.Exited?
            then s.pending == None && Rested(s.(listener := Asking), s.accepted - 1)
            else s.pending == Some(exitMarker) && Rested(s.(pending := None), s.accepted - 1)
  }

  lemma PreambleClean()
    ensures nul !in preamble
  {
    forall i | 0 <= i < |preamble|
      ensures preamble[i] != nul
    {}
  }

  /** User text is never read as the exit marker, whatever it is. */
  lemma NeverMarker(source: string)
    ensures Prefixed(source) != exitMarker
    ensures nul in Prefixed(source) <==> nul in source
  {
    PreambleClean();
    assert |preamble| > |exitMarker|;
  }

  lemma TextsSnoc(sent: seq<Command>, n: nat)
    requires n < |sent|
    ensures Texts(sent[..n + 1]) == Texts(sent[..n]) + [Text(sent[n])]
    ensures sent[..n + 1] == sent[..n] + [sent[n]]
  {}

  /** A new command at the end of the channel changes nothing about those before it. */
  lemma LaterKeeps(s: Sys, s1: Sys, c: Command)
    requires s1.sent == s.sent + [c] && s1 == s.(sent := s1.sent, channel := s1.channel, open := s1.open)
    ensures forall a: nat :: Rested(s, a) ==> Rested(s1, a)
    ensures InFlight(s) ==> InFlight(s1)
    ensures 0 < s.accepted <= |s.sent| ==> Current(s1) == Current(s)
  {
    assert forall a: nat :: a <= |s.sent| ==> s1.sent[..a] == s.sent[..a];
  }

  lemma HostKeeps(s: Sys, step: Step)
    requires Inv(s) && Enabled(s, step) && IsHost(step)
    ensures Inv(Apply(s, step))
  {
    var s1 := Apply(s, step);
    var n := |s.sent|;
    var c := s1.sent[n];
    assert s1.sent[..n] == s.sent;
    assert s1.sent[s.accepted..] == s.sent[s.accepted..] + [c];
    assert WellSent(s1);
    LaterKeeps(s, s1, c);
    LaterKeeps(s.(listener := Asking), s1.(listener := Asking), c);
    LaterKeeps(s.(pending := None), s1.(pending := None), c);
  }

  lemma ReceiveKeeps(s: Sys)
    requires Inv(s) && Enabled(s, Receive)
    ensures Inv(Apply(s, Receive))
  {
    assert s.channel[1..] == s.sent[s.accepted + 1..];
  }

  lemma TakeKeeps(s: Sys)
    requires Inv(s) && Enabled(s, Take)
    ensures Inv(Apply(s, Take))
  {
    match s.dispatcher
    case Waiting => NeverMarker(Current(s).source);
    case _ =>
  }

  /** A command that has been run to its end is answered by the signal. */
  lemma SignalAnswers(s: Sys)
    requires InFlight(s) && s.listener == Signalling
    ensures InFlight(Apply(s, Signal))
  {
    TextsSnoc(s.sent, s.replies);
    NeverMarker(Current(s).source);
    var answered := s.sent[..s.replies] + [Current(s)];
    assert s.sent[..s.accepted] == answered;
    assert Clean(answered);
  }

  lemma SignalKeeps(s: Sys)
    requires Inv(s) && Enabled(s, Signal)
    ensures Inv(Apply(s, Signal))
  {
    assert s.dispatcher.Waiting?;
    SignalAnswers(s);
  }

  lemma PostKeeps(s: Sys)
    requires Inv(s) && Enabled(s, Post)
    ensures Inv(Apply(s, Post))
  {}

  /** Every step keeps the invariant. */
  lemma StepKeeps(s: Sys, step: Step)
    requires Inv(s) && Enabled(s, step)
    ensures Inv(Apply(s, step))
  {
    match step
    case Send(_) => HostKeeps(s, step);
    case Close => HostKeeps(s, step);
    case Receive => ReceiveKeeps(s);
    case Post => PostKeeps(s);
    case Take => TakeKeeps(s);
    case Signal => SignalKeeps(s);
    case _ =>
  }

  lemma {:induction false} ReachableInv(s: Sys, steps: nat)
    requires Reachable(s, steps)
    ensures Inv(s)
    decreases steps
  {
    if steps > 0 {
      var s0, step :| Reachable(s0, steps - 1) && Enabled(s0, step) && Apply(s0, step) == s;
      ReachableInv(s0, steps - 1);
      StepKeeps(s0, step);
    }
  }

  // ----- safety -----

  /** At most one command is in flight: received and not answered. */
  lemma OneInFlight(s: Sys, steps: nat)
    requires Reachable(s, steps)
    ensures s.replies <= s.accepted <= s.replies + 1
    ensures s.pending.Some? ==> s.listener.Asking?
  {
    ReachableInv(s, steps);
  }

  /** The listener's histories are made of the first texts sent, and differ by the one that runs. */
  lemma History(s: Sys)
    requires Inv(s)
    ensures s.replies <= |s.finished| <= |s.started| <= |s.sent| && |s.started| <= s.replies + 1
    ensures s.started == Texts(s.sent[..|s.started|]) && s.finished == Texts(s.sent[..|s.finished|])
  {
    if InFlight(s) {
      TextsSnoc(s.sent, s.replies);
      assert |Texts(s.sent[..s.replies])| == s.replies;
    }
  }

  /** What the listener begins was sent by the host and holds no NUL. */
  lemma StartedClean(s: Sys)
    requires Inv(s)
    ensures |s.started| <= |s.sent| && AllEvals(s.sent[..|s.started|]) && Clean(s.sent[..|s.started|])
  {
    if InFlight(s) && |s.started| > s.replies {
      TextsSnoc(s.sent, s.replies);
      NeverMarker(Current(s).source);
      var begun := s.sent[..s.replies] + [Current(s)];
      assert s.sent[..|s.started|] == begun;
      assert AllEvals(begun) && Clean(begun);
    }
  }

  /** Commands run in channel order, each exactly once: the i-th text the listener began is the preamble
      and the source of the i-th command sent, and it has ended all of them but at most the last. */
  lemma InOrderOnce(s: Sys, steps: nat)
    requires Reachable(s, steps)
    ensures |s.finished| <= |s.started| <= |s.sent| && |s.started| <= |s.finished| + 1
    ensures forall i :: 0 <= i < |s.started| ==>
              && s.sent[i].Eval? && '\0' !in s.sent[i].source
              && s.started[i] == "USING: forth.runtime ; rebind-host-streams\n" + s.sent[i].source
    ensures forall i :: 0 <= i < |s.finished| ==> s.finished[i] == s.started[i]
  {
    ReachableInv(s, steps);
    History(s);
    StartedClean(s);
    forall i | 0 <= i < |s.started|
      ensures s.sent[i].Eval? && nul !in s.sent[i].source && s.started[i] == Text(s.sent[i])
    {
      assert s.sent[..|s.started|][i] in s.sent[..|s.started|];
    }
  }

  /** A reply is sent only after its own command has ended, and before the next one begins. */
  lemma ReplyBetween(s: Sys, steps: nat)
    requires Reachable(s, steps)
    ensures s.replies <= |s.finished| && |s.started| <= s.replies + 1
    ensures Enabled(s, Reply) ==> |s.finished| == s.replies + 1 == |s.started|
    ensures Enabled(s, Post) ==> |s.finished| == s.replies == |s.started|
  {
    ReachableInv(s, steps);
  }

  /** The listener leaves its loop only for a shutdown or for a text that holds a NUL. */
  lemma ExitOnly(s: Sys, steps: nat)
    requires Reachable(s, steps) && s.listener.Exited?
    ensures 0 < s.accepted <= |s.sent| && (Current(s) == Shutdown || (Current(s).Eval? && nul in Current(s).source))
  {
    ReachableInv(s, steps);
    if Current(s).Eval? {
      NeverMarker(Current(s).source);
    }
  }

  // ----- progress -----

  /** The dispatcher waits for a signal that the listener will not give. */
  predicate Deadlocked(s: Sys) {
    s.dispatcher.Waiting? && !s.done && ((s.listener.Asking? && s.pending == None) || s.listener.Exited?)
  }

  /** The threads wait for each other if and only if a text with a NUL was received. */
  lemma DeadlockExactly(s: Sys, steps: nat)
    requires Reachable(s, steps)
    ensures s.accepted <= |s.sent|
    ensures Deadlocked(s) ==> !Clean(s.sent[..s.accepted])
    ensures !Clean(s.sent[..s.accepted]) && (forall step :: Enabled(s, step) ==> IsHost(step)) ==> Deadlocked(s)
  {
    ReachableInv(s, steps);
    if s.accepted > 0 {
      TextsSnoc(s.sent, s.accepted - 1);
      if Current(s).Eval? {
        NeverMarker(Current(s).source);
      }
    }
    if Deadlocked(s) {
      assert Current(s) in s.sent[..s.accepted];
    } else if !Clean(s.sent[..s.accepted]) && (forall step :: Enabled(s, step) ==> IsHost(step)) {
      SomeStep(s);
    }
  }

  /** If no thread can move and there is no deadlock, all is answered or shut down. */
  lemma SomeStep(s: Sys)
    requires Inv(s) && forall step :: Enabled(s, step) ==> IsHost(step)
    ensures Deadlocked(s) || (s.dispatcher.Receiving? && s.channel == []) ||
            (s.dispatcher.Closed? && s.listener.Exited?)
  {
    assert !Enabled(s, Receive) && !Enabled(s, Clear) && !Enabled(s, Post) && !Enabled(s, Wake);
    assert !Enabled(s, Flush) && !Enabled(s, Reply) && !Enabled(s, Take) && !Enabled(s, Evaluate);
    assert !Enabled(s, Publish) && !Enabled(s, Signal);
  }

  /** Without NULs, when the threads come to rest every evaluation sent has been answered. */
  lemma AllAnswered(s: Sys, steps: nat)
    requires Reachable(s, steps) && Clean(s.sent)
    requires forall step :: Enabled(s, step) ==> IsHost(step)
    ensures s.replies == |s.finished| == if s.open then |s.sent| else |s.sent| - 1
  {
    ReachableInv(s, steps);
    SomeStep(s);
    CleanPrefix(s.sent, s.accepted);
    DeadlockExactly(s, steps);
    if s.dispatcher.Receiving? {
      assert s.sent[..s.accepted] == s.sent;
      assert !s.open ==> Shutdown in s.sent;
    }
    if s.dispatcher.Closed? {
      ShutdownLast(s);
    }
  }

  lemma CleanPrefix(commands: seq<Command>, n: nat)
    requires n <= |commands| && Clean(commands)
    ensures Clean(commands[..n])
  {}

  lemma EvalBefore(s: Sys, i: nat)
    requires WellSent(s) && i < |s.sent| && (s.open || i < |s.sent| - 1)
    ensures s.sent[i].Eval?
  {
    if s.open {
      assert s.sent[i] in s.sent;
    } else {
      assert s.sent[..|s.sent| - 1][i] in s.sent[..|s.sent| - 1];
    }
  }

  /** Only the last command received can be a shutdown. */
  lemma ShutdownLast(s: Sys)
    requires WellSent(s) && s.accepted > 0
    ensures Current(s) == Shutdown ==> !s.open && s.accepted == |s.sent|
  {
    if s.open || s.accepted < |s.sent| {
      EvalBefore(s, s.accepted - 1);
    }
  }

  // ----- termination -----

  function DispatcherLeft(d: Dispatcher): nat {
    match d
    case Receiving => 0
    case Clearing(_) => 5
    case Posting(_) => 4
    case Waiting => 3
    case Flushing => 2
    case Replying => 1
    case Closed => 0
  }

  function ListenerLeft(l: Listener): nat {
    match l
    case Asking => 0
    case Evaluating(_) => 3
    case Publishing(_) => 2
    case Signalling => 1
    case Exited => 0
  }

  function Left(s: Sys): nat {
    20 * |s.channel| + 2 * DispatcherLeft(s.dispatcher) + ListenerLeft(s.listener) +
    (if s.pending.Some? then 4 else 0) +
    (if s.dispatcher.Clearing? || s.dispatcher.Posting? then 4 else 0)
  }

  /** Every step of the dispatcher and the listener uses up some of what is left to do, so that without
      new commands the threads come to rest. */
  lemma Progress(s: Sys, step: Step)
    requires Inv(s) && Enabled(s, step) && !IsHost(step)
    ensures Left(Apply(s, step)) < Left(s)
  {}

  // ----- a text with a NUL -----

  /** Once deadlocked, always deadlocked: no later command is answered. */
  lemma DeadlockStays(s: Sys, step: Step)
    requires Inv(s) && Deadlocked(s) && Enabled(s, step)
    ensures Deadlocked(Apply(s, step)) && Apply(s, step).replies == s.replies && IsHost(step)
  {}

  /** Runs steps one after another, as far as they are enabled. */
  function Run(s: Sys, steps: seq<Step>): Sys
    decreases |steps|
  {
    if steps == [] then s
    else if Enabled(s, steps[0]) then Run(Apply(s, steps[0]), steps[1..])
    else s
  }

  lemma RunStep(s: Sys, step: Step, rest: seq<Step>)
    requires Enabled(s, step)
    ensures Run(s, [step] + rest) == Run(Apply(s, step), rest)
  {
    assert ([step] + rest)[1..] == rest;
  }

  /** At rest, the next text deadlocks the threads if and only if it holds a NUL. */
  lemma NulStops(s: Sys, source: string)
    requires Inv(s) && s.open && s.dispatcher.Receiving? && s.channel == []
    ensures Deadlocked(Run(s, [Send(source)] + ([Receive] + ([Clear] + ([Post] + ([Take] + [])))))) <==> nul in source
  {
    NeverMarker(source);
    var s1 := Apply(s, Send(source));
    var s2 := Apply(s1, Receive);
    var s3 := Apply(s2, Clear);
    var s4 := Apply(s3, Post);
    RunStep(s, Send(source), [Receive] + ([Clear] + ([Post] + ([Take] + []))));
    RunStep(s1, Receive, [Clear] + ([Post] + ([Take] + [])));
    RunStep(s2, Clear, [Post] + ([Take] + []));
    RunStep(s3, Post, [Take] + []);
    RunStep(s4, Take, []);
  }

  // ----- the shared fields -----

  /** The slots that the dispatcher and the listener share under their locks, with a record of the
      whole system.  Each method is one critical section. */
  class IoState {
    var listenerPending: Option<string>
    var listenerDone: bool
    ghost var system: Sys

    ghost predicate Valid()
      reads this
    {
      Inv(system) && system.pending == listenerPending && system.done == listenerDone
    }

    constructor ()
      ensures Valid() && system == Initial
    {
      listenerPending, listenerDone, system := None, false, Initial;
    }

    /** The dispatcher marks the command not done. */
    method ClearDone()
      requires Valid() && Enabled(system, Clear)
      modifies this
      ensures Valid() && system == Apply(old(system), Clear)
    {
      StepKeeps(system, Clear);
      listenerDone := false;
      system := Apply(system, Clear);
    }

    /** The dispatcher posts the source behind the preamble, or the exit marker; the slot is always free. */
    method PostPending(command: Command)
      requires Valid() && system.dispatcher == Posting(command)
      modifies this
      ensures Valid() && system == Apply(old(system), Post)
      ensures old(listenerPending) == None
      ensures match command
              case Eval(source) =>
                listenerPending == Some("USING: forth.runtime ; rebind-host-streams\n" + source)
              case Shutdown => listenerPending == Some("__exit__")
    {
      StepKeeps(system, Post);
      var text;
      match command {
        case Eval(source) => text := Prefixed(source);
        case Shutdown => text := exitMarker;
      }
      listenerPending := Some(text);
      system := Apply(system, Post);
    }

    /** nf_rt_next_command, once the slot is filled: None stands for the null pointer. */
    method NextCommand() returns (text: Option<string>)
      requires Valid() && Enabled(system, Take)
      modifies this
      ensures Valid() && system == Apply(old(system), Take) && listenerPending == None
      ensures text == None <==>
              old(listenerPending).value == "__exit__" || '\0' in old(listenerPending).value
      ensures text.Some? ==> text == old(listenerPending) && system.started == old(system).started + [text.value]
    {
      StepKeeps(system, Take);
      var taken := listenerPending.value;
      listenerPending := None;
      system := Apply(system, Take);
      if taken == exitMarker || nul in taken {
        text := None;
      } else {
        text := Some(taken);
      }
    }

    /** nf_rt_command_done. */
    method CommandDone()
      requires Valid() && Enabled(system, Signal)
      modifies this
      ensures Valid() && system == Apply(old(system), Signal) && listenerDone
    {
      StepKeeps(system, Signal);
      listenerDone := true;
      system := Apply(system, Signal);
    }

    /** A step that touches neither slot. */
    ghost method Elsewhere(step: Step)
      requires Valid() && Enabled(system, step) && !step.Clear? && !step.Post? && !step.Take? && !step.Signal?
      modifies this`system
      ensures Valid() && system == Apply(old(system), step)
    {
      StepKeeps(system, step);
      system := Apply(system, step);
    }
  }
}
