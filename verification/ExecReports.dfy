/** What the owner of a run is told, tied to what happened in the run: the child that was started, the
    status its wait reported, the faults of its output, and why a run is refused. */
module ExecReports {
  import opened Options
  import opened ExecProtocol
  import opened ExecSupervisor

  // ---- Exit codes ----

  /** A normal exit is recorded as its exit code, whatever stands above the low sixteen bits. */
  lemma ExitCodeIsRecorded(high: nat, code: nat)
    requires code <= 255
    ensures RecordedCode(0x1_0000 * high + 256 * code) == code
  {
    var word := 0x1_0000 * high + 256 * code;
    assert word == 128 * (512 * high + 2 * code);
    assert word == 256 * (256 * high + code);
  }

  /** A death by signal is recorded as 128 plus the signal, with or without a core dump. */
  lemma SignalIsRecorded(high: nat, core: bool, signal: nat)
    requires 1 <= signal <= 126
    ensures RecordedCode(256 * high + (if core then 128 else 0) + signal) == 128 + signal
  {
    var word := 256 * high + (if core then 128 else 0) + signal;
    assert word == 128 * (2 * high + if core then 1 else 0) + signal;
  }

  // ---- Frames and the steps that send them ----

  /** The frames a step sends to a run: none, or one. */
  function FramesOf(s: State, step: Step, r: RunId): seq<Response> {
    match step
    case Refuse(q) => if q == r then [RunUnavailable] else []
    case ReportFailure(q) => if q == r then [SpawnFailedFrame] else []
    case SendStarted(q) => if q == r then [StartedFrame(s.pid, s.startTicks)] else []
    case SendTerminal(q) => if q == r then [CurrentResponse(s)] else []
    case SendDrained(q) => if q == r then [DrainedFrame(OutputFailed(s))] else []
    case _ => []
  }

  predicate OutputFailed(s: State) {
    s.drainError || s.stdout.failed || s.stderr.failed
  }

  predicate Sends(step: Step) {
    step.Refuse? || step.ReportFailure? || step.SendStarted? || step.SendTerminal? || step.SendDrained?
  }

  /** The child and its output are as before. */
  predicate SameChild(s: State, s': State) {
    s'.waiter == s.waiter && s'.pid == s.pid && s'.startTicks == s.startTicks && s'.exitCode == s.exitCode
  }

  predicate SameOutput(s: State, s': State) {
    s'.drainer == s.drainer && s'.drainError == s.drainError && s'.stdout == s.stdout && s'.stderr == s.stderr
  }

  /** Steps of a run's connection, but for the spawn. */
  predicate OfConnection(step: Step) {
    || Sends(step)
    || step.Request? || step.Enter? || step.CleanUp? || step.Mark? || step.Finish?
  }

  /** Steps of the input reader and of the main goroutine. */
  predicate OfInput(step: Step) {
    step.ReadInput? || step.JudgeInput? || step.ForwardInput? || step.Shutdown?
  }

  lemma ConnectionStep(s: State, step: Step)
    requires Enabled(s, step) && OfConnection(step)
    ensures SameChild(s, Apply(s, step)) && SameOutput(s, Apply(s, step))
    ensures !step.Enter? ==> Apply(s, step).owner == s.owner
    ensures !step.Mark? ==> Apply(s, step).phase == s.phase
  {
    match step {
      case Request(_) => case Enter(_) => case CleanUp(_) => case Mark(_) => case Finish(_) =>
      case Refuse(_) => case ReportFailure(_) => case SendStarted(_) => case SendTerminal(_) => case SendDrained(_) =>
    }
  }

  lemma InputStep(s: State, step: Step)
    requires Enabled(s, step) && OfInput(step)
    ensures SameChild(s, Apply(s, step)) && SameOutput(s, Apply(s, step))
    ensures Apply(s, step).owner == s.owner && Apply(s, step).phase == s.phase && Apply(s, step).runs == s.runs
  {
  }

  /** Steps of the child, its waiter and its output pipes. */
  predicate OfChild(step: Step) {
    step.WaitChild? || step.CompleteDrain? || step.DiscardOutput? || step.FailOutput?
  }

  lemma ChildStep(s: State, step: Step)
    requires Enabled(s, step) && OfChild(step)
    ensures Apply(s, step).owner == s.owner && Apply(s, step).runs == s.runs
    ensures Apply(s, step).pid == s.pid && Apply(s, step).startTicks == s.startTicks
    ensures step.WaitChild? ==> SameOutput(s, Apply(s, step))
    ensures !step.WaitChild? ==> SameChild(s, Apply(s, step)) && Apply(s, step).phase == s.phase
  {
    match step {
      case WaitChild(_) => case CompleteDrain(_) =>
      case DiscardOutput(isStdout) => if isStdout { } else { }
      case FailOutput(isStdout) => if isStdout { } else { }
    }
  }

  lemma QuietMove(s: State, step: Step, r: RunId)
    requires Enabled(s, step) && OfConnection(step) && !Sends(step)
    ensures r in s.runs ==> r in Apply(s, step).runs && Apply(s, step).runs[r].sent == s.runs[r].sent
    ensures r !in s.runs && r in Apply(s, step).runs ==> Apply(s, step).runs[r].sent == []
  {
    match step { case Request(_) => case Enter(_) => case CleanUp(_) => case Mark(_) => case Finish(_) => }
  }

  /** A spawn moves its own run, and no other. */
  lemma SpawnRuns(s: State, q: RunId, outcome: SpawnOutcome)
    requires q in s.runs
    ensures SpawnEffect(s, q, outcome).runs == s.runs[q := s.runs[q].(at := if outcome.Success? then Spawned else Cleaning)]
  {
    match outcome { case NoProcess => case NoDescriptor => case NoIdentity => case Success(_, _) => }
  }

  lemma SpawnMove(s: State, step: Step, r: RunId)
    requires Enabled(s, step) && step.Spawn?
    ensures r in s.runs <==> r in Apply(s, step).runs
    ensures r in s.runs ==> Apply(s, step).runs[r].sent == s.runs[r].sent
  {
    SpawnRuns(s, step.run, step.outcome);
  }

  lemma QuietStep(s: State, step: Step, r: RunId)
    requires Enabled(s, step) && !Sends(step)
    ensures r in s.runs ==> r in Apply(s, step).runs && Apply(s, step).runs[r].sent == s.runs[r].sent
    ensures r !in s.runs && r in Apply(s, step).runs ==> Apply(s, step).runs[r].sent == []
  {
    if OfInput(step) {
      InputStep(s, step);
    } else if OfChild(step) {
      ChildStep(s, step);
    } else if step.Spawn? {
      SpawnMove(s, step, r);
    } else {
      QuietMove(s, step, r);
    }
  }

  lemma SendingStep(s: State, step: Step, r: RunId)
    requires Enabled(s, step) && Sends(step)
    ensures r in s.runs <==> r in Apply(s, step).runs
    ensures r in s.runs ==> Apply(s, step).runs[r].sent == s.runs[r].sent + FramesOf(s, step, r)
  {
    match step {
      case Refuse(_) => case ReportFailure(_) => case SendStarted(_) => case SendTerminal(_) => case SendDrained(_) =>
    }
  }

  /** A step adds to what a run was sent just the frames it sends. */
  lemma SendStep(s: State, step: Step, r: RunId)
    requires Enabled(s, step) && r in Apply(s, step).runs
    ensures r !in s.runs ==> Apply(s, step).runs[r].sent == []
    ensures r in s.runs ==> Apply(s, step).runs[r].sent == s.runs[r].sent + FramesOf(s, step, r)
  {
    if Sends(step) { SendingStep(s, step, r); } else { QuietStep(s, step, r); }
  }

  /** The step that sent frame `n`. */
  lemma {:induction false} SentAt(states: seq<State>, steps: seq<Step>, i: nat, r: RunId, n: nat) returns (j: nat)
    requires IsRun(states, steps) && i < |states| && r in states[i].runs && n < |states[i].runs[r].sent|
    ensures j < i && r in states[j].runs && Enabled(states[j], steps[j])
    ensures states[j].runs[r].sent == states[i].runs[r].sent[..n]
    ensures FramesOf(states[j], steps[j], r) == [states[i].runs[r].sent[n]]
  {
    j := i - 1;
    SendStep(states[j], steps[j], r);
    if n < |states[j].runs[r].sent| {
      j := SentAt(states, steps, j, r, n);
    }
  }

  /** The second frame tells the end and the third the drain. */
  lemma FrameNumber(s: State, step: Step, r: RunId)
    requires Inv(s) && Enabled(s, step) && r in s.runs && FramesOf(s, step, r) != []
    ensures |s.runs[r].sent| == 1 ==>
              && step == SendTerminal(r) && s.waiter == Done && s.owner == Some(r)
              && s.runs[r].sent == [StartedFrame(s.pid, s.startTicks)]
    ensures |s.runs[r].sent| == 2 ==> step == SendDrained(r)
  {
    PastClaimOrRefused(s, step, r);
  }

  lemma PastClaimOrRefused(s: State, step: Step, r: RunId)
    requires Inv(s) && Enabled(s, step) && r in s.runs && FramesOf(s, step, r) != []
    ensures s.owner == Some(r) || (step == Refuse(r) && s.runs[r].sent == [])
  {
    assert s.owner == Some(r) || GuestInv(s.runs[r]);
  }

  // ---- The child's identity ----

  /** Once a child runs, its identity is that of the one successful spawn. */
  lemma {:induction false} SpawnedAt(states: seq<State>, steps: seq<Step>, i: nat) returns (j: nat)
    requires IsRun(states, steps) && i < |states| && states[i].waiter != Idle
    ensures j < i && steps[j].Spawn? && steps[j].outcome == Success(states[i].pid, states[i].startTicks)
    ensures states[i].owner == Some(steps[j].run)
  {
    j := i - 1;
    RunKeeps(states, steps, j);
    IdentityStep(states[j], steps[j]);
    if states[j].waiter != Idle {
      j := SpawnedAt(states, steps, j);
    }
  }

  lemma IdentityStep(s: State, step: Step)
    requires Inv(s) && Enabled(s, step)
    ensures var s' := Apply(s, step);
            && (s.waiter != Idle ==>
                  s'.waiter != Idle && s'.pid == s.pid && s'.startTicks == s.startTicks && s'.owner == s.owner)
            && (s.waiter == Idle && s'.waiter != Idle ==>
                  step.Spawn? && step.outcome == Success(s'.pid, s'.startTicks) && s'.owner == Some(step.run))
  {
    if OfConnection(step) {
      ConnectionStep(s, step);
    } else if OfInput(step) {
      InputStep(s, step);
    } else if OfChild(step) {
      ChildStep(s, step);
    } else {
      PastClaimOwns(s, step.run);
    }
  }

  // ---- The child's end ----

  /** The frame that tells a child's end. */
  function EndFrame(pid: int, ticks: nat, status: WaitOutcome): Response {
    match status
    case Status(word) => Response(true, "", "exited", pid, ticks, Some(RecordedCode(word)))
    case _ => Response(false, "CHILD_STATUS_UNKNOWN", "unknown", pid, ticks, None)
  }

  /** After the wait, the current frame is that of the status it reported, at every later moment. */
  lemma {:induction false} WaitedAt(states: seq<State>, steps: seq<Step>, i: nat) returns (j: nat)
    requires IsRun(states, steps) && i < |states| && states[i].waiter == Done
    ensures j < i && steps[j].WaitChild?
    ensures CurrentResponse(states[i]) == EndFrame(states[i].pid, states[i].startTicks, steps[j].status)
  {
    j := i - 1;
    RunKeeps(states, steps, j);
    WaitStep(states[j], steps[j]);
    if states[j].waiter == Done {
      j := WaitedAt(states, steps, j);
    }
  }

  lemma WaitStep(s: State, step: Step)
    requires Inv(s) && Enabled(s, step)
    ensures var s' := Apply(s, step);
            && (s.waiter == Done ==> s'.waiter == Done && CurrentResponse(s') == CurrentResponse(s) && !step.WaitChild?)
            && (s.waiter != Done && step.WaitChild? ==>
                  s'.waiter == Done && CurrentResponse(s') == EndFrame(s'.pid, s'.startTicks, step.status))
            && (s.waiter != Done && !step.WaitChild? ==> s'.waiter != Done)
  {
    if OfConnection(step) {
      ConnectionStep(s, step);
      if step.Mark? { PastClaimOwns(s, step.run); }
    } else if OfInput(step) {
      InputStep(s, step);
    } else if OfChild(step) {
      ChildStep(s, step);
    } else {
      PastClaimOwns(s, step.run);
    }
  }

  // ---- The child's output ----

  /** A fault of the output: a failed drain, or a failed write to a pipe not yet discarded. */
  predicate OutputFault(s: State, step: Step) {
    || step == CompleteDrain(true)
    || (step == FailOutput(true) && !s.stdout.discarded)
    || (step == FailOutput(false) && !s.stderr.discarded)
  }

  /** Some earlier step was a fault of the output. */
  predicate FaultBefore(states: seq<State>, steps: seq<Step>, i: nat)
    requires i <= |steps| < |states|
  {
    i > 0 && (FaultBefore(states, steps, i - 1) || OutputFault(states[i - 1], steps[i - 1]))
  }

  lemma {:induction false} FaultBeforeIs(states: seq<State>, steps: seq<Step>, i: nat)
    requires i <= |steps| < |states|
    ensures FaultBefore(states, steps, i) <==> exists k | 0 <= k < i :: OutputFault(states[k], steps[k])
  {
    if i > 0 { FaultBeforeIs(states, steps, i - 1); }
  }

  lemma {:induction false} OutputFailedAt(states: seq<State>, steps: seq<Step>, i: nat)
    requires IsRun(states, steps) && i < |states|
    ensures OutputFailed(states[i]) <==> FaultBefore(states, steps, i)
    ensures states[i].drainer != Done ==> !states[i].drainError
  {
    if i > 0 {
      OutputFailedAt(states, steps, i - 1);
      SpawnFindsNoDrain(states, steps, i - 1);
      OutputStep(states[i - 1], steps[i - 1]);
    }
  }

  lemma SpawnFindsNoDrain(states: seq<State>, steps: seq<Step>, i: nat)
    requires IsRun(states, steps) && i < |steps|
    ensures steps[i].Spawn? ==> states[i].drainer != Done
  {
    if steps[i].Spawn? {
      RunKeeps(states, steps, i);
      PastClaimOwns(states[i], steps[i].run);
    }
  }

  lemma OutputStep(s: State, step: Step)
    requires Enabled(s, step) && (s.drainer != Done ==> !s.drainError) && (step.Spawn? ==> s.drainer != Done)
    ensures OutputFailed(Apply(s, step)) <==> OutputFailed(s) || OutputFault(s, step)
    ensures Apply(s, step).drainer != Done ==> !Apply(s, step).drainError
  {
    if OfConnection(step) {
      ConnectionStep(s, step);
    } else if OfInput(step) {
      InputStep(s, step);
    } else {
      PipeStep(s, step);
    }
  }

  lemma PipeStep(s: State, step: Step)
    requires Enabled(s, step) && (s.drainer != Done ==> !s.drainError) && (step.Spawn? ==> s.drainer != Done)
    requires OfChild(step) || step.Spawn?
    ensures OutputFailed(Apply(s, step)) <==> OutputFailed(s) || OutputFault(s, step)
    ensures Apply(s, step).drainer != Done ==> !Apply(s, step).drainError
  {
    match step {
      case Spawn(_, outcome) => match outcome { case NoProcess => case NoDescriptor => case NoIdentity => case Success(_, _) => }
      case WaitChild(_) => case CompleteDrain(_) =>
      case DiscardOutput(isStdout) => if isStdout { } else { }
      case FailOutput(isStdout) => if isStdout { } else { }
    }
  }

  // ---- Why a run is refused, fails to start or starts ----

  datatype Fate = Undecided | Refused | Unborn | Born

  /** What is already decided about a run that has not been sent a frame. */
  function FateOf(at: RunAt): Fate {
    match at
    case Refusing => Refused
    case Cleaning => Unborn
    case Marking => Unborn
    case Reporting => Unborn
    case Spawned => Born
    case _ => Undecided
  }

  /** The step that decides it: an entry after a claim or after the input was given up, or a spawn. */
  predicate Decides(s: State, step: Step, r: RunId, fate: Fate) {
    match fate
    case Refused => step == Enter(r) && (s.claimed || s.inputClosed)
    case Unborn => step.Spawn? && step.run == r && !step.outcome.Success?
    case Born => step.Spawn? && step.run == r && step.outcome.Success?
    case Undecided => false
  }

  lemma FateStep(s: State, step: Step, r: RunId)
    requires Enabled(s, step) && r in Apply(s, step).runs && FateOf(Apply(s, step).runs[r].at) != Undecided
    ensures r in s.runs
    ensures || FateOf(s.runs[r].at) == FateOf(Apply(s, step).runs[r].at)
            || Decides(s, step, r, FateOf(Apply(s, step).runs[r].at))
  {
    if OfInput(step) {
      InputStep(s, step);
    } else if OfChild(step) {
      ChildStep(s, step);
    } else if step.Spawn? {
      SpawnDecides(s, step, r);
    } else {
      FateMoves(s, step, r);
    }
  }

  lemma FateMoves(s: State, step: Step, r: RunId)
    requires Enabled(s, step) && r in Apply(s, step).runs && FateOf(Apply(s, step).runs[r].at) != Undecided
    requires OfConnection(step)
    ensures r in s.runs
    ensures || FateOf(s.runs[r].at) == FateOf(Apply(s, step).runs[r].at)
            || Decides(s, step, r, FateOf(Apply(s, step).runs[r].at))
  {
    match step {
      case Request(_) => case Enter(_) => case CleanUp(_) => case Mark(_) => case Finish(_) =>
      case Refuse(_) => case ReportFailure(_) => case SendStarted(_) => case SendTerminal(_) => case SendDrained(_) =>
    }
  }

  lemma SpawnDecides(s: State, step: Step, r: RunId)
    requires Enabled(s, step) && step.Spawn? && r in Apply(s, step).runs
    requires FateOf(Apply(s, step).runs[r].at) != Undecided
    ensures r in s.runs
    ensures s.runs[r] == Apply(s, step).runs[r] || Decides(s, step, r, FateOf(Apply(s, step).runs[r].at))
  {
    SpawnRuns(s, step.run, step.outcome);
  }

  lemma {:induction false} DecidedAt(states: seq<State>, steps: seq<Step>, i: nat, r: RunId) returns (j: nat)
    requires IsRun(states, steps) && i < |states| && r in states[i].runs && FateOf(states[i].runs[r].at) != Undecided
    ensures j < i && Decides(states[j], steps[j], r, FateOf(states[i].runs[r].at))
  {
    j := i - 1;
    FateStep(states[j], steps[j], r);
    if FateOf(states[j].runs[r].at) == FateOf(states[i].runs[r].at) {
      j := DecidedAt(states, steps, j, r);
    }
  }

  /** The first frame tells which of the three it was: refused at the entry because the run was claimed
      or the input given up, a failed spawn, or a child. */
  lemma FateIsTold(states: seq<State>, steps: seq<Step>, i: nat, r: RunId) returns (j: nat)
    requires IsRun(states, steps) && i < |states| && r in states[i].runs && states[i].runs[r].sent != []
    ensures j < i
    ensures var frame := states[i].runs[r].sent[0];
            || (frame == CodeOnly("RUN_UNAVAILABLE") && Decides(states[j], steps[j], r, Refused))
            || (frame == Response(false, "SPAWN_FAILED", "spawn-failed", 0, 0, None) && Decides(states[j], steps[j], r, Unborn))
            || (frame.ok && frame.state == "running" && Decides(states[j], steps[j], r, Born))
  {
    var k := SentAt(states, steps, i, r, 0);
    RunKeeps(states, steps, k);
    FirstFrameStep(states[k], steps[k], r);
    j := DecidedAt(states, steps, k, r);
  }

  lemma FirstFrameStep(s: State, step: Step, r: RunId)
    requires Inv(s) && Enabled(s, step) && r in s.runs && FramesOf(s, step, r) != [] && s.runs[r].sent == []
    ensures match FateOf(s.runs[r].at)
            case Refused => step == Refuse(r)
            case Unborn => step == ReportFailure(r)
            case Born => step == SendStarted(r)
            case Undecided => false
  {
    PastClaimOrRefused(s, step, r);
  }

  // ---- Giving up on the owner's input ----

  /** Input arrives or ends while no run is claimed. */
  predicate GivesUp(s: State, step: Step) {
    step == JudgeInput && s.input.JudgingInput? && !s.claimed && (s.input.count != 0 || s.input.failed)
  }

  lemma {:induction false} InputClosedAt(states: seq<State>, steps: seq<Step>, i: nat)
    requires IsRun(states, steps) && i < |states|
    ensures states[i].inputClosed <==> GivenUpBefore(states, steps, i)
    ensures states[i].inputClosed ==> states[i].finished > 0
  {
    if i > 0 {
      InputClosedAt(states, steps, i - 1);
      GivingUpStep(states[i - 1], steps[i - 1]);
    }
  }

  predicate GivenUpBefore(states: seq<State>, steps: seq<Step>, i: nat)
    requires i <= |steps| < |states|
  {
    i > 0 && (GivenUpBefore(states, steps, i - 1) || GivesUp(states[i - 1], steps[i - 1]))
  }

  lemma {:induction false} GivenUpBeforeIs(states: seq<State>, steps: seq<Step>, i: nat)
    requires i <= |steps| < |states|
    ensures GivenUpBefore(states, steps, i) <==> exists k | 0 <= k < i :: GivesUp(states[k], steps[k])
  {
    if i > 0 { GivenUpBeforeIs(states, steps, i - 1); }
  }

  lemma GivingUpStep(s: State, step: Step)
    requires Enabled(s, step) && (s.inputClosed ==> s.finished > 0)
    ensures Apply(s, step).inputClosed <==> s.inputClosed || GivesUp(s, step)
    ensures Apply(s, step).inputClosed ==> Apply(s, step).finished > 0
  {
    match step {
      case Spawn(_, outcome) => match outcome { case NoProcess => case NoDescriptor => case NoIdentity => case Success(_, _) => }
      case Request(_) => case Enter(_) => case CleanUp(_) => case Mark(_) => case Finish(_) =>
      case Refuse(_) => case ReportFailure(_) => case SendStarted(_) => case SendTerminal(_) => case SendDrained(_) =>
      case ReadInput(_, _) => case JudgeInput => case ForwardInput(_) => case WaitChild(_) => case CompleteDrain(_) =>
      case DiscardOutput(_) => case FailOutput(_) => case Shutdown =>
    }
  }

  /** An unclaimed supervisor gives up, and finishes, exactly when its input has brought a byte, an error
      or its end. */
  lemma GivenUpExactly(states: seq<State>, steps: seq<Step>, i: nat)
    requires IsRun(states, steps) && i < |states|
    ensures states[i].inputClosed <==> exists k | 0 <= k < i :: GivesUp(states[k], steps[k])
    ensures states[i].owner == None ==> (states[i].finished == 1 <==> states[i].inputClosed)
  {
    InputClosedAt(states, steps, i);
    GivenUpBeforeIs(states, steps, i);
    RunKeeps(states, steps, i);
  }

  // ---- What the owner is told ----

  /** A connection that is told a child's end is told the identity the one successful spawn gave it
      and the outcome the one wait for the child reported. */
  lemma EndIsTold(states: seq<State>, steps: seq<Step>, i: nat, r: RunId) returns (spawn: nat, wait: nat)
    requires IsRun(states, steps) && i < |states| && r in states[i].runs && |states[i].runs[r].sent| >= 2
    ensures spawn < wait < i && steps[wait].WaitChild?
    ensures forall k | 0 <= k < |steps| && steps[k].WaitChild? :: k == wait
    ensures steps[spawn].Spawn? && steps[spawn].run == r && steps[spawn].outcome.Success?
    ensures var pid, ticks, sent := steps[spawn].outcome.pid, steps[spawn].outcome.ticks, states[i].runs[r].sent;
            sent[0] == Response(true, "", "running", pid, ticks, None) && sent[1] == EndFrame(pid, ticks, steps[wait].status)
  {
    var j := SentAt(states, steps, i, r, 1);
    RunKeeps(states, steps, j);
    FrameNumber(states[j], steps[j], r);
    wait := WaitedAt(states, steps, j);
    WaiterIsBusy(states, steps, wait);
    spawn := SpawnedAt(states, steps, wait);
    IdentityStays(states, steps, wait, j);
    assert states[i].runs[r].sent[0] == states[j].runs[r].sent[0];
    forall k | 0 <= k < |steps| && steps[k].WaitChild? ensures k == wait {
      if k < wait { OneWait(states, steps, k, wait); } else if wait < k { OneWait(states, steps, wait, k); }
    }
  }

  /** The child is waited for once. */
  lemma OneWait(states: seq<State>, steps: seq<Step>, i: nat, j: nat)
    requires IsRun(states, steps) && i < j < |steps| && steps[i].WaitChild?
    ensures !steps[j].WaitChild?
  {
    RunKeeps(states, steps, i);
    WaitStep(states[i], steps[i]);
    WaitIsOver(states, steps, i + 1, j);
    RunKeeps(states, steps, j);
    WaitStep(states[j], steps[j]);
  }

  lemma {:induction false} WaitIsOver(states: seq<State>, steps: seq<Step>, i: nat, j: nat)
    requires IsRun(states, steps) && i <= j < |states| && states[i].waiter == Done
    ensures states[j].waiter == Done
  {
    if i < j {
      WaitIsOver(states, steps, i, j - 1);
      RunKeeps(states, steps, j - 1);
      WaitStep(states[j - 1], steps[j - 1]);
    }
  }

  lemma WaiterIsBusy(states: seq<State>, steps: seq<Step>, i: nat)
    requires IsRun(states, steps) && i < |steps| && steps[i].WaitChild?
    ensures states[i].waiter == Busy
  {
  }

  lemma {:induction false} IdentityStays(states: seq<State>, steps: seq<Step>, i: nat, j: nat)
    requires IsRun(states, steps) && i <= j < |states| && states[i].waiter != Idle
    ensures states[j].pid == states[i].pid && states[j].startTicks == states[i].startTicks
    ensures states[j].owner == states[i].owner && states[j].waiter != Idle
  {
    if i < j {
      IdentityStays(states, steps, i, j - 1);
      RunKeeps(states, steps, j - 1);
      IdentityStep(states[j - 1], steps[j - 1]);
    }
  }

  /** The drained frame is ok exactly if neither the drain nor an output pipe had failed when it was sent. */
  lemma DrainIsTold(states: seq<State>, steps: seq<Step>, i: nat, r: RunId) returns (j: nat)
    requires IsRun(states, steps) && i < |states| && r in states[i].runs && |states[i].runs[r].sent| >= 3
    ensures j < i && steps[j] == SendDrained(r) && states[j].drained > 0
    ensures var frame := states[i].runs[r].sent[2];
            && frame.state == "drained"
            && (frame.ok <==> !exists k | 0 <= k < j :: OutputFault(states[k], steps[k]))
            && frame.code == (if frame.ok then "" else "OUTPUT_DRAIN_FAILED")
  {
    j := SentAt(states, steps, i, r, 2);
    RunKeeps(states, steps, j);
    FrameNumber(states[j], steps[j], r);
    OutputFailedAt(states, steps, j);
    FaultBeforeIs(states, steps, j);
  }
}
