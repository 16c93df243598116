/** The shutdown protocol of the relay, over every interleaving. */
module RelayShutdown {
  import opened Text
  import opened RelayStream
  import opened RelayMachine

  predicate Returning(s: State) {
    s.main.Reporting? || s.main.ClosingRemote? || s.main.ClosingLocal? || s.main.Returned?
  }

  predicate Failing(pc: PipePc) {
    pc.Checking? || pc.Sending? || pc.Flagging? || pc.Exited?
  }

  /** What holds of one pipe with respect to the shared state. */
  predicate PipeControl(s: State, d: Dir) {
    var p := s.P(d);
    && (p.pc.Unstarted? <==> s.main.Starting0? || (s.main.Starting1? && d == Inbound))
    && (Failing(p.pc) <==> p.fault != NoFault)
    && (p.sawErred.Some? <==> p.pc.Sending? || p.pc.Flagging? || p.pc.Exited?)
    && (p.pc.Sending? ==> p.sawErred == Some(false) && s.winner != Some(d))
    && (p.pc.Flagging? ==> p.sawErred == Some(false) && s.winner == Some(d) && !s.erred)
    && (p.pc.Exited? ==> s.erred && (p.sawErred == Some(true) || s.winner == Some(d)))
    && (p.sawErred == Some(true) ==> p.pc.Exited? && s.winner != Some(d))
    && (s.winner == Some(d) ==> if s.erred then p.pc.Exited? else p.pc.Flagging?)
  }

  /** The shared part of the protocol: one rendezvous, which is what releases
      the main goroutine, and closes only after it. */
  predicate Control(s: State) {
    && s.meetings == (if s.winner.Some? then 1 else 0)
    && (s.winner.Some? <==> Returning(s))
    && (s.erred ==> s.winner.Some?)
    && (s.rclosed <==> s.main.ClosingLocal? || s.main.Returned?)
    && (s.lclosed <==> s.main.Returned?)
    && PipeControl(s, Outbound)
    && PipeControl(s, Inbound)
  }

  lemma ControlMain(cfg: Setup, s: State)
    requires Control(s) && Enabled(cfg, s, Main)
    ensures Control(Exec(cfg, s, Main))
  {
  }

  lemma ControlMeet(cfg: Setup, s: State, d: Dir)
    requires Control(s) && Enabled(cfg, s, Meet(d))
    ensures Control(Exec(cfg, s, Meet(d)))
  {
  }

  lemma ControlFlag(cfg: Setup, s: State, d: Dir)
    requires Control(s) && Enabled(cfg, s, Flag(d))
    ensures Control(Exec(cfg, s, Flag(d)))
  {
  }

  /** How a step that touches nothing shared moves the control part of its
      pipe: only Check looks at erred, only a failed operation sets a fault. */
  predicate LocalMove(s: State, step: Step, p: Pipe, p': Pipe) {
    if step.Check? then
      p.pc.Checking? && p' == p.(pc := if s.erred then Exited else Sending, sawErred := Some(s.erred))
    else
      && !p.pc.Unstarted? && !Failing(p.pc)
      && !p'.pc.Unstarted? && p'.sawErred == p.sawErred
      && if step.ReadFail? || step.WriteFail? then p'.pc.Checking? && p'.fault != NoFault
         else !Failing(p'.pc) && p'.fault == p.fault
  }

  predicate Local(step: Step) {
    step != Main && !step.Meet? && !step.Flag?
  }

  lemma LocalMoves(cfg: Setup, s: State, step: Step)
    requires Enabled(cfg, s, step) && Local(step)
    ensures Exec(cfg, s, step) == s.With(step.d, PipeExec(cfg, s, step.d, step))
    ensures LocalMove(s, step, s.P(step.d), PipeExec(cfg, s, step.d, step))
  {
  }

  lemma LocalKeepsControl(s: State, step: Step, p': Pipe)
    requires Control(s) && Local(step) && LocalMove(s, step, s.P(step.d), p')
    ensures Control(s.With(step.d, p'))
  {
    var d, t := step.d, s.With(step.d, p');
    assert t.P(d) == p' && t.P(Other(d)) == s.P(Other(d));
    assert PipeControl(s, d) && PipeControl(s, Other(d));
    assert PipeControl(t, d);
    assert PipeControl(t, Other(d));
  }

  lemma ControlStep(cfg: Setup, s: State, step: Step)
    requires Control(s) && Enabled(cfg, s, step)
    ensures Control(Exec(cfg, s, step))
  {
    match step
    case Main => ControlMain(cfg, s);
    case Meet(d) => ControlMeet(cfg, s, d);
    case Flag(d) => ControlFlag(cfg, s, d);
    case _ =>
      LocalMoves(cfg, s, step);
      LocalKeepsControl(s, step, PipeExec(cfg, s, step.d, step));
  }

  lemma {:induction false} ControlRun(cfg: Setup, s: State, steps: seq<Step>)
    requires Control(s) && Runs(cfg, s, steps)
    ensures Control(After(cfg, s, steps))
    decreases |steps|
  {
    if steps != [] {
      ControlStep(cfg, s, steps[0]);
      ControlRun(cfg, Exec(cfg, s, steps[0]), steps[1..]);
    }
  }

  lemma ControlReachable(cfg: Setup, s: State)
    requires Reachable(cfg, s)
    ensures Control(s)
  {
    var steps :| Runs(cfg, INITIAL, steps) && After(cfg, INITIAL, steps) == s;
    ControlRun(cfg, INITIAL, steps);
  }

  /** Shutdown safety, in every reachable state of every interleaving. */
  lemma ShutdownSafety(cfg: Setup, s: State)
    requires Reachable(cfg, s)
    ensures s.meetings <= 1
    ensures s.erred ==> s.meetings == 1
    ensures Returning(s) ==> s.meetings == 1 && exists d :: s.winner == Some(d) && s.P(d).fault != NoFault
    ensures s.lclosed ==> s.rclosed
    ensures s.rclosed ==> Returning(s)
  {
    ControlReachable(cfg, s);
    if Returning(s) {
      assert s.P(s.winner.value).fault != NoFault;
    }
  }

  /** A step of one pipe leaves the other pipe as it was. */
  lemma MovedPipe(cfg: Setup, s: State, step: Step)
    requires Enabled(cfg, s, step) && step != Main
    ensures Exec(cfg, s, step).P(step.d) == PipeExec(cfg, s, step.d, step)
    ensures Exec(cfg, s, step).P(Other(step.d)) == s.P(Other(step.d))
  {
  }

  // ----- counting rendezvous in a run -----------------------------------

  function Meetings(steps: seq<Step>): nat {
    if steps == [] then 0 else (if steps[0].Meet? then 1 else 0) + Meetings(steps[1..])
  }

  lemma {:induction false} MeetingsCounted(cfg: Setup, s: State, steps: seq<Step>)
    requires Runs(cfg, s, steps)
    ensures After(cfg, s, steps).meetings == s.meetings + Meetings(steps)
    decreases |steps|
  {
    if steps != [] {
      MeetingsCounted(cfg, Exec(cfg, s, steps[0]), steps[1..]);
    }
  }

  /** No run has two rendezvous. */
  lemma AtMostOneRendezvous(cfg: Setup, steps: seq<Step>)
    requires Runs(cfg, INITIAL, steps)
    ensures Meetings(steps) <= 1
  {
    MeetingsCounted(cfg, INITIAL, steps);
    ControlRun(cfg, INITIAL, steps);
  }

  // ----- the fate of the second pipe ------------------------------------

  /** erred is true exactly when some pipe has executed its write of erred. */
  lemma {:induction false} ErredIffFlagged(cfg: Setup, s: State, steps: seq<Step>)
    requires Runs(cfg, s, steps)
    ensures After(cfg, s, steps).erred <==> s.erred || exists i | 0 <= i < |steps| :: steps[i].Flag?
    decreases |steps|
  {
    if steps != [] {
      var t, rest := Exec(cfg, s, steps[0]), steps[1..];
      ErredIffFlagged(cfg, t, rest);
      if exists i | 0 <= i < |rest| :: rest[i].Flag? {
        var i :| 0 <= i < |rest| && rest[i].Flag?;
        assert steps[i + 1].Flag?;
      }
      if exists i | 0 <= i < |steps| :: steps[i].Flag? {
        var i :| 0 <= i < |steps| && steps[i].Flag?;
        assert i == 0 || rest[i - 1].Flag?;
      }
    }
  }

  /** A pipe that lost the rendezvous and is at the send. */
  predicate Stranded(s: State, d: Dir) {
    s.winner == Some(Other(d)) && s.P(d).pc.Sending?
  }

  /** A stranded pipe stays at the send in every continuation. */
  lemma {:induction false} StrandedForever(cfg: Setup, s: State, d: Dir, steps: seq<Step>)
    requires Control(s) && Stranded(s, d) && Runs(cfg, s, steps)
    ensures Stranded(After(cfg, s, steps), d)
    decreases |steps|
  {
    if steps != [] {
      ControlStep(cfg, s, steps[0]);
      StrandedForever(cfg, Exec(cfg, s, steps[0]), d, steps[1..]);
    }
  }

  lemma SawErredStep(cfg: Setup, s: State, step: Step, d: Dir)
    requires Control(s) && Enabled(cfg, s, step) && s.P(d).sawErred.Some?
    ensures Exec(cfg, s, step).P(d).sawErred == s.P(d).sawErred
  {
  }

  /** What a pipe read in erred never changes. */
  lemma {:induction false} SawErredKept(cfg: Setup, s: State, d: Dir, steps: seq<Step>)
    requires Control(s) && Runs(cfg, s, steps) && s.P(d).sawErred.Some?
    ensures After(cfg, s, steps).P(d).sawErred == s.P(d).sawErred
    decreases |steps|
  {
    if steps != [] {
      SawErredStep(cfg, s, steps[0], d);
      ControlStep(cfg, s, steps[0]);
      SawErredKept(cfg, Exec(cfg, s, steps[0]), d, steps[1..]);
    }
  }

  /** The exact fate of a pipe, read off the run: if its check of erred comes
      after the other pipe's write of erred it has exited; if the check came
      before that write it is at the send, or won the rendezvous itself. */
  lemma FateOfCheck(cfg: Setup, before: seq<Step>, d: Dir, after: seq<Step>)
    requires Runs(cfg, INITIAL, before + [Check(d)] + after)
    ensures var z := After(cfg, INITIAL, before + [Check(d)] + after);
            if exists i | 0 <= i < |before| :: before[i].Flag?
            then z.P(d).pc.Exited? && z.winner == Some(Other(d))
            else z.winner == Some(d) || z.P(d).pc.Sending?
  {
    var upto := before + [Check(d)];
    RunsAppend(cfg, INITIAL, upto, after);
    RunsAppend(cfg, INITIAL, before, [Check(d)]);
    var s := After(cfg, INITIAL, before);
    var t := After(cfg, INITIAL, upto);
    assert t == Exec(cfg, s, Check(d)) by {
      assert [Check(d)][1..] == [];
    }
    ControlRun(cfg, INITIAL, before);
    ControlRun(cfg, INITIAL, upto);
    ErredIffFlagged(cfg, INITIAL, before);
    assert t.P(d).sawErred == Some(s.erred);
    SawErredKept(cfg, t, d, after);
    ControlRun(cfg, t, after);
    var z := After(cfg, t, after);
    assert PipeControl(z, d);
    assert z.winner.Some? ==> z.winner.value == d || z.winner.value == Other(d);
  }

  // ----- after both closes ----------------------------------------------

  /** Steps a pipe can still take once both connections are closed. */
  function Remaining(cfg: Setup, d: Dir, pc: PipePc): nat {
    match pc
    case Rewriting(_, k, _) => 6 + (if k <= |cfg.SideOf(d).exprs| then |cfg.SideOf(d).exprs| - k else 0)
    case Posting(_, _) => 5
    case Writing(_, _) => 3
    case Counting(_) => 4
    case Reading => 3
    case Checking => 2
    case Flagging => 1
    case _ => 0
  }

  function Measure(cfg: Setup, s: State): nat {
    Remaining(cfg, Outbound, s.outbound.pc) + Remaining(cfg, Inbound, s.inbound.pc)
  }

  lemma MeasureDrops(cfg: Setup, s: State, step: Step)
    requires Control(s) && s.main.Returned? && Enabled(cfg, s, step)
    ensures Exec(cfg, s, step).main.Returned?
    ensures Measure(cfg, Exec(cfg, s, step)) < Measure(cfg, s)
  {
  }

  /** Once Proxy has returned no run is longer than the measure. */
  lemma {:induction false} RunsEnd(cfg: Setup, s: State, steps: seq<Step>)
    requires Control(s) && s.main.Returned? && Runs(cfg, s, steps)
    ensures After(cfg, s, steps).main.Returned?
    ensures |steps| + Measure(cfg, After(cfg, s, steps)) <= Measure(cfg, s)
    decreases |steps|
  {
    if steps != [] {
      MeasureDrops(cfg, s, steps[0]);
      ControlStep(cfg, s, steps[0]);
      RunsEnd(cfg, Exec(cfg, s, steps[0]), steps[1..]);
    }
  }

  ghost predicate Quiescent(cfg: Setup, s: State) {
    forall step: Step :: !Enabled(cfg, s, step)
  }

  function SomeReply(cfg: Setup): (r: Reply)
    ensures cfg.Admits(r)
  {
    if cfg.hasClient then PostFailed else NoClient
  }

  /** An enabled step of a pipe that is not blocked or finished. */
  function NextOf(cfg: Setup, d: Dir, pc: PipePc): Step {
    match pc
    case Rewriting(_, k, _) => if k < |cfg.SideOf(d).exprs| then Evaluate(d) else Callback(d)
    case Posting(_, _) => Post(d, SomeReply(cfg))
    case Writing(_, _) => WriteFail(d, 0)
    case Counting(_) => Count(d)
    case Reading => ReadFail(d, 0)
    case Checking => Check(d)
    case Flagging => Flag(d)
    case _ => Meet(d)
  }

  /** The parts of the data invariant that keep a pipe from getting stuck. */
  predicate InRange(cfg: Setup, s: State, d: Dir) {
    && s.P(d).Consumed() <= |cfg.Wire(d)|
    && (s.P(d).pc.Rewriting? ==> s.P(d).pc.k <= |cfg.SideOf(d).exprs|)
  }

  lemma InRangeStep(cfg: Setup, s: State, step: Step, d: Dir)
    requires Enabled(cfg, s, step) && InRange(cfg, s, d)
    ensures InRange(cfg, Exec(cfg, s, step), d)
  {
    if step == Main {
      var p' := MainExec(s).P(d);
      assert p' == s.P(d) || p' == s.P(d).(pc := Reading);
    } else {
      MovedPipe(cfg, s, step);
      if step.d == d {
        PipeInRange(cfg, s, step);
      } else {
        assert d == Other(step.d);
      }
    }
  }

  lemma PipeInRange(cfg: Setup, s: State, step: Step)
    requires Enabled(cfg, s, step) && step != Main && InRange(cfg, s, step.d)
    ensures var p' := PipeExec(cfg, s, step.d, step);
            p'.Consumed() <= |cfg.Wire(step.d)| &&
            (p'.pc.Rewriting? ==> p'.pc.k <= |cfg.SideOf(step.d).exprs|)
  {
    var p := s.P(step.d);
    if step.ReadOk? {
      FlattenAppend(p.taken, [cfg.Wire(step.d)[p.Consumed()..p.Consumed() + step.n]]);
    }
  }

  lemma {:induction false} InRangeRun(cfg: Setup, s: State, steps: seq<Step>, d: Dir)
    requires Runs(cfg, s, steps) && InRange(cfg, s, d)
    ensures InRange(cfg, After(cfg, s, steps), d)
    decreases |steps|
  {
    if steps != [] {
      InRangeStep(cfg, s, steps[0], d);
      InRangeRun(cfg, Exec(cfg, s, steps[0]), steps[1..], d);
    }
  }

  lemma InRangeReachable(cfg: Setup, s: State, d: Dir)
    requires Reachable(cfg, s)
    ensures InRange(cfg, s, d)
  {
    var steps :| Runs(cfg, INITIAL, steps) && After(cfg, INITIAL, steps) == s;
    InRangeRun(cfg, INITIAL, steps, d);
  }

  lemma NextEnabled(cfg: Setup, s: State, d: Dir)
    requires InRange(cfg, s, d)
    requires !s.P(d).pc.Exited? && !s.P(d).pc.Sending? && !s.P(d).pc.Unstarted?
    ensures Enabled(cfg, s, NextOf(cfg, d, s.P(d).pc))
  {
  }

  /** The two ends: when Proxy has returned and nothing can move, the winner
      has exited, and the other pipe has exited iff it read erred as true;
      otherwise it is stranded at the send. */
  lemma QuiescentEnds(cfg: Setup, s: State)
    requires Reachable(cfg, s) && s.main.Returned?
    ensures Quiescent(cfg, s) <==> forall d: Dir :: s.P(d).pc.Exited? || s.P(d).pc.Sending?
    ensures Quiescent(cfg, s) ==>
              exists w: Dir :: s.winner == Some(w) && s.P(w).pc.Exited? &&
                               if s.P(Other(w)).sawErred == Some(true) then s.P(Other(w)).pc.Exited?
                               else Stranded(s, Other(w))
  {
    ControlReachable(cfg, s);
    forall d: Dir | !s.P(d).pc.Exited? && !s.P(d).pc.Sending?
      ensures Enabled(cfg, s, NextOf(cfg, d, s.P(d).pc))
    {
      InRangeReachable(cfg, s, d);
      NextEnabled(cfg, s, d);
    }
    if Quiescent(cfg, s) {
      var w := s.winner.value;
      assert Other(Other(w)) == w;
      assert s.P(w).pc.Exited?;
    }
  }

  /** From every state in which Proxy has returned a run leads to an end; by
      RunsEnd every way of continuing gets there. */
  lemma EndIsReached(cfg: Setup, s: State) returns (steps: seq<Step>)
    requires Reachable(cfg, s) && s.main.Returned?
    ensures Runs(cfg, s, steps) && Quiescent(cfg, After(cfg, s, steps))
    decreases Measure(cfg, s)
  {
    ControlReachable(cfg, s);
    if exists step: Step :: Enabled(cfg, s, step) {
      var step: Step :| Enabled(cfg, s, step);
      MeasureDrops(cfg, s, step);
      ReachableStep(cfg, s, step);
      var rest := EndIsReached(cfg, Exec(cfg, s, step));
      steps := [step] + rest;
      assert steps[1..] == rest;
    } else {
      steps := [];
    }
  }

  lemma ReachableStep(cfg: Setup, s: State, step: Step)
    requires Reachable(cfg, s) && Enabled(cfg, s, step)
    ensures Reachable(cfg, Exec(cfg, s, step))
  {
    var steps :| Runs(cfg, INITIAL, steps) && After(cfg, INITIAL, steps) == s;
    RunsAppend(cfg, INITIAL, steps, [step]);
    assert [step][1..] == [];
    assert Runs(cfg, s, [step]) && After(cfg, s, [step]) == Exec(cfg, s, step);
    assert Runs(cfg, INITIAL, steps + [step]);
  }

  /** There is no deadlock before Proxy returns. */
  lemma NoEarlyDeadlock(cfg: Setup, s: State)
    requires Reachable(cfg, s) && !s.main.Returned?
    ensures exists step: Step :: Enabled(cfg, s, step)
  {
    ControlReachable(cfg, s);
    InRangeReachable(cfg, s, Outbound);
    if s.main.Waiting? {
      assert !s.P(Outbound).pc.Exited?;
      if s.P(Outbound).pc.Sending? {
        assert Enabled(cfg, s, Meet(Outbound));
      } else {
        NextEnabled(cfg, s, Outbound);
      }
    } else {
      assert Enabled(cfg, s, Main);
    }
  }

  // ----- the race -------------------------------------------------------

  lemma {:induction false} RunOne(cfg: Setup, s: State, steps: seq<Step>)
    requires steps != [] && Enabled(cfg, s, steps[0])
    ensures Runs(cfg, s, steps) <==> Runs(cfg, Exec(cfg, s, steps[0]), steps[1..])
    ensures Runs(cfg, s, steps) ==> After(cfg, s, steps) == After(cfg, Exec(cfg, s, steps[0]), steps[1..])
  {
  }

  /** The run up to Proxy's return with only the outbound pipe failed. */
  const TO_RETURN := [Main, Main, ReadFail(Outbound, 0), Check(Outbound), Meet(Outbound), Main, Main, Main]

  function ReturnedState(): State {
    State(Returned,
          FRESH_PIPE.(pc := Flagging, fault := ReadFault, sawErred := Some(false)),
          FRESH_PIPE.(pc := Reading), false, true, true, 1, Some(Outbound))
  }

  lemma ReturnReached(cfg: Setup)
    ensures Runs(cfg, INITIAL, TO_RETURN) && After(cfg, INITIAL, TO_RETURN) == ReturnedState()
  {
    var s0 := INITIAL;
    var s1 := Exec(cfg, s0, Main);
    var s2 := Exec(cfg, s1, Main);
    var s3 := Exec(cfg, s2, ReadFail(Outbound, 0));
    var s4 := Exec(cfg, s3, Check(Outbound));
    var s5 := Exec(cfg, s4, Meet(Outbound));
    var s6 := Exec(cfg, s5, Main);
    var s7 := Exec(cfg, s6, Main);
    var s8 := Exec(cfg, s7, Main);
    assert s8 == ReturnedState();
    RunOne(cfg, s7, TO_RETURN[7..]);
    RunOne(cfg, s6, TO_RETURN[6..]);
    RunOne(cfg, s5, TO_RETURN[5..]);
    RunOne(cfg, s4, TO_RETURN[4..]);
    RunOne(cfg, s3, TO_RETURN[3..]);
    RunOne(cfg, s2, TO_RETURN[2..]);
    RunOne(cfg, s1, TO_RETURN[1..]);
    RunOne(cfg, s0, TO_RETURN);
  }

  lemma RunThree(cfg: Setup, s: State, a: Step, b: Step, c: Step)
    requires Enabled(cfg, s, a)
    requires Enabled(cfg, Exec(cfg, s, a), b)
    requires Enabled(cfg, Exec(cfg, Exec(cfg, s, a), b), c)
    ensures Runs(cfg, s, [a, b, c])
    ensures After(cfg, s, [a, b, c]) == Exec(cfg, Exec(cfg, Exec(cfg, s, a), b), c)
  {
    var s1 := Exec(cfg, s, a);
    RunOne(cfg, Exec(cfg, s1, b), [c]);
    RunOne(cfg, s1, [b, c]);
    RunOne(cfg, s, [a, b, c]);
    assert [a, b, c][1..] == [b, c] && [b, c][1..] == [c];
  }

  function EndState(inbound: Pipe): State {
    ReturnedState().(erred := true, inbound := inbound,
                     outbound := FRESH_PIPE.(pc := Exited, fault := ReadFault, sawErred := Some(false)))
  }

  lemma EndReached(cfg: Setup, a: Step, b: Step, c: Step, z: State)
    requires Enabled(cfg, ReturnedState(), a)
    requires Enabled(cfg, Exec(cfg, ReturnedState(), a), b)
    requires Enabled(cfg, Exec(cfg, Exec(cfg, ReturnedState(), a), b), c)
    requires z == Exec(cfg, Exec(cfg, Exec(cfg, ReturnedState(), a), b), c)
    ensures Reachable(cfg, z)
  {
    hide Enabled, Exec;
    ReturnReached(cfg);
    RunThree(cfg, ReturnedState(), a, b, c);
    RunsAppend(cfg, INITIAL, TO_RETURN, [a, b, c]);
    assert Runs(cfg, INITIAL, TO_RETURN + [a, b, c]);
  }

  /** The second pipe's check of erred races with the winner's write of it:
      whatever the configuration, some schedule strands the inbound pipe. */
  lemma StrandedEndOccurs(cfg: Setup) returns (z: State)
    ensures Reachable(cfg, z) && Quiescent(cfg, z) && Stranded(z, Inbound)
  {
    z := EndState(FRESH_PIPE.(pc := Sending, fault := ReadFault, sawErred := Some(false)));
    EndReached(cfg, ReadFail(Inbound, 0), Check(Inbound), Flag(Outbound), z);
    QuiescentEnds(cfg, z);
  }

  /** The schedule with the check and the write exchanged ends both pipes. */
  lemma CleanEndOccurs(cfg: Setup) returns (z: State)
    ensures Reachable(cfg, z) && Quiescent(cfg, z) && forall d: Dir :: z.P(d).pc.Exited?
  {
    z := EndState(FRESH_PIPE.(pc := Exited, fault := ReadFault, sawErred := Some(true)));
    EndReached(cfg, ReadFail(Inbound, 0), Flag(Outbound), Check(Inbound), z);
    QuiescentEnds(cfg, z);
  }
}
