/** The exec supervisor: connections that ask to run, the goroutine that reads the owner's input, the
    child's waiter and drainer, and the main goroutine, interleaved one lock section, channel close or
    frame at a time. */
module ExecSupervisor {
  import opened Options
  import opened ExecProtocol

  type RunId = nat

  datatype Phase = Starting | Running | Exited | Unknown | SpawnFailed

  /** The child's process descriptor: not obtained, open, or closed by the main goroutine. */
  datatype Descriptor = Unset | Open | Shut

  datatype Worker = Idle | Busy | Done

  datatype Input = ReadingInput | JudgingInput(count: nat, failed: bool) | ForwardingInput(failed: bool) | StoppedInput

  /** One run request on its own connection. */
  datatype RunAt =
    | Entering | Refusing
    | Claimed
    | Cleaning | Marking | Reporting
    | Spawned | AwaitingExit | AwaitingDrain
    | Finishing
    | Ended

  datatype Run = Run(at: RunAt, sent: seq<Response>)

  /** An output pipe to the engine: whether its bytes are discarded and whether a write failed first. */
  datatype Output = Output(discarded: bool, failed: bool)

  /** `exited`, `drained` and `finished` count closes of the completion channels; `children` and `owner`
      are history. */
  datatype State = State(
    phase: Phase, claimed: bool, inputClosed: bool,
    pidfd: Descriptor, pid: int, startTicks: nat, exitCode: int,
    exited: nat, drained: nat, finished: nat,
    drainError: bool, stdout: Output, stderr: Output,
    input: Input, waiter: Worker, drainer: Worker, mainDone: bool,
    runs: map<RunId, Run>,
    children: nat, owner: Option<RunId>)

  const Initial := State(Starting, false, false, Unset, 0, 0, 0, 0, 0, 0, false, Output(false, false),
                         Output(false, false), ReadingInput, Idle, Idle, false, map[], 0, None)

  /** How an attempt to start the child ends: before a process exists, with a process but no
      descriptor, with a process whose identity cannot be read, or with a running child. */
  datatype SpawnOutcome = NoProcess | NoDescriptor | NoIdentity | Success(pid: int, ticks: nat)

  /** What waiting for the child reports: an error, a kernel status word, or something else. */
  datatype WaitOutcome = WaitFailed | Status(word: nat) | OtherStatus

  datatype Step =
    | Request(run: RunId)
    | Enter(run: RunId)
    | Refuse(run: RunId)
    | Spawn(run: RunId, outcome: SpawnOutcome)
    | CleanUp(run: RunId)
    | Mark(run: RunId)
    | ReportFailure(run: RunId)
    | SendStarted(run: RunId)
    | SendTerminal(run: RunId)
    | SendDrained(run: RunId)
    | Finish(run: RunId)
    | ReadInput(count: nat, failed: bool)
    | JudgeInput
    | ForwardInput(ok: bool)
    | WaitChild(status: WaitOutcome)
    | CompleteDrain(failed: bool)
    | DiscardOutput(isStdout: bool)
    | FailOutput(isStdout: bool)
    | Shutdown

  // ---- Exit status words, as Linux encodes them ----

  function TermSignal(word: nat): nat { word % 128 }
  predicate ExitedNormally(word: nat) { TermSignal(word) == 0 }
  predicate Signaled(word: nat) { TermSignal(word) != 0 && TermSignal(word) != 127 }

  function ExitStatus(word: nat): int {
    if ExitedNormally(word) then word / 256 % 256 else -1
  }

  /** The exit code the supervisor records. */
  function RecordedCode(word: nat): int {
    if Signaled(word) then 128 + TermSignal(word) else ExitStatus(word)
  }

  /** Every status of an ended child gives a code of one byte; only a stopped child's would not. */
  lemma RecordedCodeIsByte(word: nat)
    ensures 0 <= RecordedCode(word) <= 255 <==> TermSignal(word) != 127
  {
  }

  // ---- Steps ----

  function FinishOnce(s: State): State {
    if s.finished == 0 then s.(finished := s.finished + 1) else s
  }

  function Move(s: State, r: RunId, at: RunAt): State
    requires r in s.runs
  {
    s.(runs := s.runs[r := s.runs[r].(at := at)])
  }

  /** The frame of the supervisor's current state, as the run connection reports it. */
  function CurrentResponse(s: State): Response {
    if s.phase == Exited then ExitedFrame(s.pid, s.startTicks, s.exitCode)
    else Response(false, "CHILD_STATUS_UNKNOWN", PhaseName(s.phase), s.pid, s.startTicks, None)
  }

  function PhaseName(p: Phase): string {
    match p
    case Starting => "starting" case Running => "running" case Exited => "exited" case Unknown => "unknown"
    case SpawnFailed => "spawn-failed"
  }

  function Send(s: State, r: RunId, frame: Response, at: RunAt): State
    requires r in s.runs
  {
    s.(runs := s.runs[r := Run(at, s.runs[r].sent + [frame])])
  }

  predicate At(s: State, r: RunId, at: RunAt) {
    r in s.runs && s.runs[r].at == at
  }

  predicate Enabled(s: State, step: Step) {
    match step
    case Request(r) => r !in s.runs
    case Enter(r) => At(s, r, Entering)
    case Refuse(r) => At(s, r, Refusing)
    case Spawn(r, outcome) => At(s, r, Claimed) && (outcome.Success? ==> ProcessIdentity(outcome.pid, outcome.ticks))
    case CleanUp(r) => At(s, r, Cleaning)
    case Mark(r) => At(s, r, Marking)
    case ReportFailure(r) => At(s, r, Reporting)
    case SendStarted(r) => At(s, r, Spawned)
    case SendTerminal(r) => At(s, r, AwaitingExit) && s.exited > 0
    case SendDrained(r) => At(s, r, AwaitingDrain) && s.drained > 0
    case Finish(r) => At(s, r, Finishing)
    case ReadInput(_, _) => s.input == ReadingInput
    case JudgeInput => s.input.JudgingInput?
    case ForwardInput(_) => s.input.ForwardingInput?
    case WaitChild(outcome) => s.waiter == Busy && (outcome.Status? ==> TermSignal(outcome.word) != 127)
    case CompleteDrain(_) => s.drainer == Busy
    case DiscardOutput(_) => true
    case FailOutput(_) => true
    case Shutdown => s.finished > 0 && !s.mainDone
  }

  function SpawnEffect(s: State, r: RunId, outcome: SpawnOutcome): State
    requires r in s.runs
  {
    match outcome
    case NoProcess => Move(s, r, Cleaning)
    case NoDescriptor => Move(s.(children := s.children + 1), r, Cleaning)
    case NoIdentity => Move(s.(children := s.children + 1, pidfd := Open), r, Cleaning)
    case Success(pid, ticks) =>
      Move(s.(children := s.children + 1, pidfd := Open, pid := pid, startTicks := ticks, phase := Running,
              waiter := Busy, drainer := Busy), r, Spawned)
  }

  function WaitEffect(s: State, outcome: WaitOutcome): State {
    match outcome
    case Status(word) => s.(phase := Exited, exitCode := RecordedCode(word), exited := s.exited + 1, waiter := Done)
    case _ => s.(phase := Unknown, exited := s.exited + 1, waiter := Done)
  }

  function Failing(o: Output): Output {
    Output(true, o.failed || !o.discarded)
  }

  function Apply(s: State, step: Step): State
    requires Enabled(s, step)
  {
    match step
    case Request(r) => s.(runs := s.runs[r := Run(Entering, [])])
    case Enter(r) =>
      if s.claimed || s.inputClosed then Move(s, r, Refusing)
      else Move(s.(claimed := true, owner := Some(r)), r, Claimed)
    case Refuse(r) => Send(s, r, RunUnavailable, Ended)
    case Spawn(r, outcome) => SpawnEffect(s, r, outcome)
    case CleanUp(r) => Move(s, r, Marking)
    case Mark(r) => Move(s.(phase := SpawnFailed), r, Reporting)
    case ReportFailure(r) => Send(s, r, SpawnFailedFrame, Finishing)
    case SendStarted(r) => Send(s, r, StartedFrame(s.pid, s.startTicks), AwaitingExit)
    case SendTerminal(r) => Send(s, r, CurrentResponse(s), AwaitingDrain)
    case SendDrained(r) => Send(s, r, DrainedFrame(s.drainError || s.stdout.failed || s.stderr.failed), Finishing)
    case Finish(r) => Move(FinishOnce(s), r, Ended)
    case ReadInput(count, failed) => s.(input := JudgingInput(count, failed))
    case JudgeInput =>
      if s.claimed then s.(input := ForwardingInput(s.input.failed))
      else if s.input.count != 0 || s.input.failed then FinishOnce(s.(inputClosed := true, input := StoppedInput))
      else s.(input := ReadingInput)
    case ForwardInput(ok) => s.(input := if ok && !s.input.failed then ReadingInput else StoppedInput)
    case WaitChild(outcome) => WaitEffect(s, outcome)
    case CompleteDrain(failed) => s.(drainError := failed, drained := s.drained + 1, drainer := Done)
    case DiscardOutput(isStdout) =>
      if isStdout then s.(stdout := s.stdout.(discarded := true)) else s.(stderr := s.stderr.(discarded := true))
    case FailOutput(isStdout) =>
      if isStdout then s.(stdout := Failing(s.stdout)) else s.(stderr := Failing(s.stderr))
    case Shutdown => s.(mainDone := true, pidfd := if s.pidfd == Open then Shut else s.pidfd)
  }

  ghost predicate IsRun(states: seq<State>, steps: seq<Step>) {
    && |states| == |steps| + 1
    && states[0] == Initial
    && forall i | 0 <= i < |steps| :: Enabled(states[i], steps[i]) && states[i + 1] == Apply(states[i], steps[i])
  }

  // ---- The invariant ----

  /** Facts about the child and the completion channels. */
  predicate CoreInv(s: State) {
    && s.claimed == s.owner.Some?
    && !(s.claimed && s.inputClosed)
    && s.children <= 1
    && (s.waiter == Idle <==> s.phase == Starting || s.phase == SpawnFailed)
    && (s.waiter == Busy <==> s.phase == Running)
    && s.exited == (if s.waiter == Done then 1 else 0)
    && s.drained == (if s.drainer == Done then 1 else 0)
    && s.finished <= 1
    && (s.phase == Running ==> s.pidfd == Open && s.finished == 0 && s.children == 1)
    && (s.waiter != Idle ==> ProcessIdentity(s.pid, s.startTicks))
    && (s.phase == Exited ==> 0 <= s.exitCode <= 255)
    && (s.mainDone ==> s.finished == 1)
    && (s.owner == None ==> s.phase == Starting && s.children == 0 && s.pidfd == Unset && s.drainer == Idle)
    && (s.finished == 1 && !s.inputClosed ==> s.owner.Some?)
    && (s.inputClosed ==> s.input == StoppedInput)
  }

  /** Where the owning run stands, what it has sent, and what that says about the child. */
  predicate OwnerInv(s: State, run: Run) {
    match run.at
    case Claimed => run.sent == [] && s.phase == Starting && s.children == 0 && s.pidfd == Unset && s.drainer == Idle
                    && s.finished == 0
    case Cleaning => run.sent == [] && s.phase == Starting && s.drainer == Idle && s.finished == 0 && s.pidfd != Shut
    case Marking => run.sent == [] && s.phase == Starting && s.drainer == Idle && s.finished == 0
    case Reporting => run.sent == [] && s.phase == SpawnFailed && s.finished == 0
    case Spawned => run.sent == [] && s.waiter != Idle && s.drainer != Idle && s.finished == 0
    case AwaitingExit => run.sent == [StartedFrame(s.pid, s.startTicks)] && s.waiter != Idle && s.drainer != Idle
                         && s.finished == 0
    case AwaitingDrain => |run.sent| == 2 && PartialScript(run.sent) && s.waiter == Done && s.drainer != Idle
                          && s.finished == 0
    case Finishing => CompleteScript(run.sent) && s.phase != Running && s.phase != Starting && s.finished == 0
                      && (s.waiter == Done ==> s.drainer == Done)
    case Ended => CompleteScript(run.sent) && s.phase != Running && s.phase != Starting && s.finished == 1
                  && (s.waiter == Done ==> s.drainer == Done)
    case _ => false
  }

  predicate GuestInv(run: Run) {
    match run.at
    case Entering => run.sent == []
    case Refusing => run.sent == []
    case Ended => run.sent == [RunUnavailable]
    case _ => false
  }

  ghost predicate Inv(s: State) {
    && CoreInv(s)
    && (s.owner.Some? ==> s.owner.value in s.runs && OwnerInv(s, s.runs[s.owner.value]))
    && (forall r | r in s.runs && s.owner != Some(r) :: GuestInv(s.runs[r]))
  }

  /** A run past the claim is the owner. */
  lemma PastClaimOwns(s: State, r: RunId)
    requires Inv(s) && r in s.runs && s.runs[r].at !in {Entering, Refusing, Ended}
    ensures s.owner == Some(r)
  {
    assert s.owner == Some(r) || GuestInv(s.runs[r]);
  }

  /** A step of the owning run. */
  lemma OwnerMoved(s: State, r: RunId, s': State)
    requires Inv(s) && s.owner == Some(r) && s'.owner == Some(r)
    requires r in s'.runs && s'.runs == s.runs[r := s'.runs[r]]
    requires CoreInv(s') && OwnerInv(s', s'.runs[r])
    ensures Inv(s')
  {
    forall g | g in s'.runs && g != r ensures GuestInv(s'.runs[g]) {
      assert GuestInv(s.runs[g]);
    }
  }

  lemma SpawnKeeps(s: State, r: RunId, outcome: SpawnOutcome)
    requires Inv(s) && Enabled(s, Spawn(r, outcome))
    ensures Inv(Apply(s, Spawn(r, outcome)))
  {
    PastClaimOwns(s, r);
    var s' := Apply(s, Spawn(r, outcome));
    OwnerMoved(s, r, s');
  }

  predicate IsOwnerStep(step: Step) {
    step.CleanUp? || step.Mark? || step.ReportFailure? || step.SendStarted? || step.SendTerminal? || step.SendDrained?
    || step.Finish?
  }

  lemma OwnerStepKeeps(s: State, step: Step)
    requires Inv(s) && IsOwnerStep(step) && Enabled(s, step)
    ensures Inv(Apply(s, step))
  {
    var r := step.run;
    PastClaimOwns(s, r);
    OwnerCore(s, r, step);
    OwnerAdvances(s, r, step);
    OwnerMoved(s, r, Apply(s, step));
  }

  lemma OwnerCore(s: State, r: RunId, step: Step)
    requires CoreInv(s) && IsOwnerStep(step) && Enabled(s, step) && step.run == r
    requires s.owner == Some(r) && OwnerInv(s, s.runs[r])
    ensures CoreInv(Apply(s, step))
  {
    match step {
      case Mark(_) => case Finish(_) =>
      case CleanUp(_) => case SendStarted(_) => case ReportFailure(_) => case SendTerminal(_) => case SendDrained(_) =>
    }
  }

  lemma OwnerAdvances(s: State, r: RunId, step: Step)
    requires CoreInv(s) && IsOwnerStep(step) && Enabled(s, step) && step.run == r
    requires s.owner == Some(r) && OwnerInv(s, s.runs[r])
    ensures r in Apply(s, step).runs && OwnerInv(Apply(s, step), Apply(s, step).runs[r])
  {
    if step.CleanUp? || step.Mark? || step.Finish? { OwnerMoves(s, r, step); } else { OwnerSends(s, r, step); }
  }

  lemma OwnerMoves(s: State, r: RunId, step: Step)
    requires CoreInv(s) && (step.CleanUp? || step.Mark? || step.Finish?) && Enabled(s, step) && step.run == r
    requires OwnerInv(s, s.runs[r])
    ensures r in Apply(s, step).runs && OwnerInv(Apply(s, step), Apply(s, step).runs[r])
  {
  }

  lemma OwnerSends(s: State, r: RunId, step: Step)
    requires CoreInv(s) && Enabled(s, step)
    requires (step.ReportFailure? || step.SendStarted? || step.SendTerminal? || step.SendDrained?) && step.run == r
    requires OwnerInv(s, s.runs[r])
    ensures r in Apply(s, step).runs && OwnerInv(Apply(s, step), Apply(s, step).runs[r])
  {
    match step {
      case SendStarted(_) => assert [] + [StartedFrame(s.pid, s.startTicks)] == [StartedFrame(s.pid, s.startTicks)];
      case ReportFailure(_) => assert [] + [SpawnFailedFrame] == [SpawnFailedFrame];
      case SendTerminal(_) => SentTerminal(s, s.runs[r]);
      case SendDrained(_) => SentDrained(s.runs[r].sent, s.drainError || s.stdout.failed || s.stderr.failed);
    }
  }

  lemma SentTerminal(s: State, run: Run)
    requires CoreInv(s) && s.exited > 0 && run.at == AwaitingExit && OwnerInv(s, run)
    ensures |run.sent + [CurrentResponse(s)]| == 2 && PartialScript(run.sent + [CurrentResponse(s)])
  {
    assert IsTerminalOf(CurrentResponse(s), run.sent[0]);
  }

  lemma SentDrained(sent: seq<Response>, failed: bool)
    requires |sent| == 2 && PartialScript(sent)
    ensures CompleteScript(sent + [DrainedFrame(failed)])
  {
    assert IsDrained(DrainedFrame(failed));
  }

  lemma EnterKeeps(s: State, r: RunId)
    requires Inv(s) && Enabled(s, Enter(r))
    ensures Inv(Apply(s, Enter(r)))
  {
    var s' := Apply(s, Enter(r));
    assert s.owner != Some(r);
    assert GuestInv(s.runs[r]);
    forall g | g in s'.runs && s'.owner != Some(g) ensures GuestInv(s'.runs[g]) {
      if g != r { assert GuestInv(s.runs[g]); }
    }
  }

  /** A step that concerns no run request. */
  lemma RunsUntouched(s: State, s': State)
    requires Inv(s) && s'.runs == s.runs && s'.owner == s.owner && CoreInv(s')
    requires s.owner.Some? ==> OwnerInv(s', s.runs[s.owner.value])
    ensures Inv(s')
  {
    forall g | g in s'.runs && s'.owner != Some(g) ensures GuestInv(s'.runs[g]) {
      assert GuestInv(s.runs[g]);
    }
  }

  lemma InputKeeps(s: State, input: Input)
    requires Inv(s) && s.input != StoppedInput
    ensures Inv(s.(input := input))
  {
    RunsUntouched(s, s.(input := input));
  }

  lemma JudgeKeeps(s: State)
    requires Inv(s) && Enabled(s, JudgeInput)
    ensures Inv(Apply(s, JudgeInput))
  {
    if s.claimed {
      InputKeeps(s, ForwardingInput(s.input.failed));
    } else if s.input.count != 0 || s.input.failed {
      RunsUntouched(s, FinishOnce(s.(inputClosed := true, input := StoppedInput)));
    } else {
      InputKeeps(s, ReadingInput);
    }
  }

  lemma WaitKeeps(s: State, status: WaitOutcome)
    requires Inv(s) && Enabled(s, WaitChild(status))
    ensures Inv(Apply(s, WaitChild(status)))
  {
    if status.Status? { RecordedCodeIsByte(status.word); }
    RunsUntouched(s, WaitEffect(s, status));
  }

  lemma DrainKeeps(s: State, failed: bool)
    requires Inv(s) && Enabled(s, CompleteDrain(failed))
    ensures Inv(Apply(s, CompleteDrain(failed)))
  {
    RunsUntouched(s, Apply(s, CompleteDrain(failed)));
  }

  lemma OutputKeeps(s: State, stdout: Output, stderr: Output)
    requires Inv(s)
    ensures Inv(s.(stdout := stdout, stderr := stderr))
  {
    RunsUntouched(s, s.(stdout := stdout, stderr := stderr));
  }

  lemma OutputStepKeeps(s: State, step: Step)
    requires Inv(s) && (step.DiscardOutput? || step.FailOutput?)
    ensures Inv(Apply(s, step))
  {
    var s' := Apply(s, step);
    OutputKeeps(s, s'.stdout, s'.stderr);
    assert s' == s.(stdout := s'.stdout, stderr := s'.stderr);
  }

  lemma ShutdownKeeps(s: State)
    requires Inv(s) && Enabled(s, Shutdown)
    ensures Inv(Apply(s, Shutdown))
  {
    RunsUntouched(s, Apply(s, Shutdown));
  }

  predicate IsBackground(step: Step) {
    step.ReadInput? || step.JudgeInput? || step.ForwardInput? || step.WaitChild? || step.CompleteDrain?
    || step.DiscardOutput? || step.FailOutput? || step.Shutdown?
  }

  lemma BackgroundKeeps(s: State, step: Step)
    requires Inv(s) && IsBackground(step) && Enabled(s, step)
    ensures Inv(Apply(s, step))
  {
    match step {
      case ReadInput(_, _) => InputStepKeeps(s, step);
      case JudgeInput => JudgeKeeps(s);
      case ForwardInput(_) => InputStepKeeps(s, step);
      case WaitChild(status) => WaitKeeps(s, status);
      case CompleteDrain(failed) => DrainKeeps(s, failed);
      case DiscardOutput(_) => OutputStepKeeps(s, step);
      case FailOutput(_) => OutputStepKeeps(s, step);
      case Shutdown => ShutdownKeeps(s);
    }
  }

  lemma InputStepKeeps(s: State, step: Step)
    requires Inv(s) && (step.ReadInput? || step.ForwardInput?) && Enabled(s, step)
    ensures Inv(Apply(s, step))
  {
    InputKeeps(s, Apply(s, step).input);
  }

  lemma StepKeeps(s: State, step: Step)
    requires Inv(s) && Enabled(s, step)
    ensures Inv(Apply(s, step))
  {
    if IsBackground(step) {
      BackgroundKeeps(s, step);
    } else if IsOwnerStep(step) {
      OwnerStepKeeps(s, step);
    } else {
      match step
      case Request(r) => RequestKeeps(s, r);
      case Enter(r) => EnterKeeps(s, r);
      case Refuse(r) => RefuseKeeps(s, r);
      case Spawn(r, outcome) => SpawnKeeps(s, r, outcome);
    }
  }

  lemma RequestKeeps(s: State, r: RunId)
    requires Inv(s) && Enabled(s, Request(r))
    ensures Inv(Apply(s, Request(r)))
  {
  }

  lemma RefuseKeeps(s: State, r: RunId)
    requires Inv(s) && Enabled(s, Refuse(r))
    ensures Inv(Apply(s, Refuse(r)))
  {
    var s' := Apply(s, Refuse(r));
    assert s.owner != Some(r);
    assert GuestInv(s.runs[r]);
    assert s'.runs[r].sent == [RunUnavailable];
  }

  // ---- Consequences over all runs ----

  lemma {:induction false} RunKeeps(states: seq<State>, steps: seq<Step>, i: nat)
    requires IsRun(states, steps) && i < |states|
    ensures Inv(states[i])
  {
    if i > 0 {
      RunKeeps(states, steps, i - 1);
      StepKeeps(states[i - 1], steps[i - 1]);
    }
  }

  /** Claiming a run and giving up on the owner's input exclude each other; one child at most is ever
      started; no completion channel is closed twice; and while the child runs its descriptor is open
      and the supervisor is not finished. */
  lemma SupervisorSafety(states: seq<State>, steps: seq<Step>, i: nat)
    requires IsRun(states, steps) && i < |states|
    ensures var s := states[i];
            && !(s.claimed && s.inputClosed)
            && s.children <= 1
            && s.exited <= 1 && s.drained <= 1 && s.finished <= 1
            && (s.phase == Running ==> s.finished == 0 && s.pidfd == Open && s.children == 1)
            && (s.mainDone ==> s.phase != Running)
  {
    RunKeeps(states, steps, i);
  }

  /** The phases a supervisor may pass through. */
  predicate PhaseOrder(before: Phase, after: Phase) {
    || before == after
    || (before == Starting && after in {Running, SpawnFailed})
    || (before == Running && after in {Exited, Unknown})
  }

  lemma PhasesAdvance(states: seq<State>, steps: seq<Step>, i: nat)
    requires IsRun(states, steps) && i < |steps|
    ensures PhaseOrder(states[i].phase, states[i + 1].phase)
  {
    RunKeeps(states, steps, i);
    PhaseStep(states[i], steps[i]);
  }

  lemma PhaseStep(s: State, step: Step)
    requires Inv(s) && Enabled(s, step)
    ensures PhaseOrder(s.phase, Apply(s, step).phase)
  {
    match step
    case Spawn(r, _) => PastClaimOwns(s, r);
    case Mark(r) => PastClaimOwns(s, r);
    case _ =>
  }

  /** Terminal phases are final: once the child has ended or failed to start, the phase stays. */
  lemma {:induction false} EndIsFinal(states: seq<State>, steps: seq<Step>, i: nat, j: nat)
    requires IsRun(states, steps) && i <= j < |states|
    requires states[i].phase in {Exited, Unknown, SpawnFailed}
    ensures states[j].phase == states[i].phase
  {
    if i < j {
      EndIsFinal(states, steps, i, j - 1);
      PhasesAdvance(states, steps, j - 1);
    }
  }

  /** What any run connection has been sent: one refusal, or a beginning of the script, and the whole
      script once that run has ended. At most one connection ever gets more than a refusal. */
  lemma FramesFollowScript(states: seq<State>, steps: seq<Step>, i: nat, r: RunId)
    requires IsRun(states, steps) && i < |states| && r in states[i].runs
    ensures var s, sent := states[i], states[i].runs[r].sent;
            && (sent == [RunUnavailable] || PartialScript(sent))
            && (s.runs[r].at == Ended ==> sent == [RunUnavailable] || CompleteScript(sent))
            && (forall q | q in s.runs && q != r && sent != [] && sent != [RunUnavailable] ::
                  s.runs[q].sent == [] || s.runs[q].sent == [RunUnavailable])
  {
    RunKeeps(states, steps, i);
    var s := states[i];
    if s.owner != Some(r) { assert GuestInv(s.runs[r]); }
    forall q | q in s.runs && q != r && s.runs[r].sent != [] && s.runs[r].sent != [RunUnavailable]
      ensures s.runs[q].sent == [] || s.runs[q].sent == [RunUnavailable]
    {
      assert s.owner == Some(r);
      assert GuestInv(s.runs[q]);
    }
  }

  // ---- Control requests ----

  datatype Control = Control(op: string, signal: int, rows: nat, cols: nat)

  datatype Effect = NoEffect | SignalChild(signal: int) | ResizeTerminal(rows: nat, cols: nat)

  /** Answer to a control request, and the effect asked of the kernel; `kernelOk` is the kernel's answer. */
  function Handle(s: State, hasPty: bool, request: Control, kernelOk: bool): (Response, Effect) {
    if request.op == "signal" && (request.signal < 1 || request.signal > 64 || request.rows != 0 || request.cols != 0) then
      (CodeOnly("INVALID_SIGNAL"), NoEffect)
    else if request.op == "resize" && request.signal != 0 then (CodeOnly("INVALID_REQUEST"), NoEffect)
    else if request.op == "signal" then
      if s.phase != Running then (CodeOnly("CHILD_NOT_RUNNING"), NoEffect)
      else if !kernelOk then (CodeOnly("SIGNAL_FAILED"), SignalChild(request.signal))
      else (Response(true, "", "", 0, 0, None), SignalChild(request.signal))
    else if request.op == "resize" then
      if !hasPty || s.phase != Running then (CodeOnly("PTY_NOT_RUNNING"), NoEffect)
      else if request.rows == 0 || request.cols == 0 then (CodeOnly("INVALID_PTY_SIZE"), NoEffect)
      else if !kernelOk then (CodeOnly("PTY_FAILED"), ResizeTerminal(request.rows, request.cols))
      else (Response(true, "", "", 0, 0, None), ResizeTerminal(request.rows, request.cols))
    else (CodeOnly("INVALID_REQUEST"), NoEffect)
  }

  /** In every reachable state, a control request touches the kernel only for the one running child,
      through its open descriptor; and an accepted request has done so. */
  lemma ControlReachesOnlyTheChild(states: seq<State>, steps: seq<Step>, i: nat, hasPty: bool, request: Control, kernelOk: bool)
    requires IsRun(states, steps) && i < |states|
    ensures var s := states[i];
            var (response, effect) := Handle(s, hasPty, request, kernelOk);
            && (effect != NoEffect ==> s.phase == Running && s.pidfd == Open && s.children == 1 && !s.mainDone)
            && (response.ok ==> effect != NoEffect)
            && (effect.SignalChild? ==> 1 <= effect.signal <= 64)
            && (effect.ResizeTerminal? ==> hasPty && effect.rows > 0 && effect.cols > 0)
  {
    RunKeeps(states, steps, i);
  }

  predicate ValidSignal(request: Control) {
    request.op == "signal" && 1 <= request.signal <= 64 && request.rows == 0 && request.cols == 0
  }

  predicate ValidResize(request: Control) {
    request.op == "resize" && request.signal == 0
  }

  /** A request is accepted exactly if it is well formed, the child runs, there is a terminal to resize and the kernel
      agrees; otherwise the code says which of these failed. The kernel is asked for exactly what was requested. */
  lemma ControlIsAnswered(s: State, hasPty: bool, request: Control, kernelOk: bool)
    ensures var (response, effect) := Handle(s, hasPty, request, kernelOk);
            var running, sized := s.phase == Running, request.rows > 0 && request.cols > 0;
            && (effect == SignalChild(request.signal) <==> ValidSignal(request) && running)
            && (effect == ResizeTerminal(request.rows, request.cols) <==> ValidResize(request) && hasPty && running && sized)
            && (effect == NoEffect || effect == SignalChild(request.signal) || effect == ResizeTerminal(request.rows, request.cols))
            && (response.ok <==> effect != NoEffect && kernelOk)
            && (response.ok ==> response.code == "")
            && (response.code == "CHILD_NOT_RUNNING" <==> ValidSignal(request) && !running)
            && (response.code == "PTY_NOT_RUNNING" <==> ValidResize(request) && !(hasPty && running))
            && (response.code == "INVALID_PTY_SIZE" <==> ValidResize(request) && hasPty && running && !sized)
            && (response.code == "INVALID_SIGNAL" <==> request.op == "signal" && !ValidSignal(request))
            && (response.code == "INVALID_REQUEST" <==> request.op != "signal" && !ValidResize(request))
            && (response.code == "SIGNAL_FAILED" <==> effect.SignalChild? && !kernelOk)
            && (response.code == "PTY_FAILED" <==> effect.ResizeTerminal? && !kernelOk)
  {
    CodesDiffer();
  }

  lemma CodesDiffer()
    ensures |"CHILD_NOT_RUNNING"| == 17 && |"PTY_NOT_RUNNING"| == 15 && |"INVALID_PTY_SIZE"| == 16 && |"INVALID_SIGNAL"| == 14
    ensures |"INVALID_REQUEST"| == 15 && |"SIGNAL_FAILED"| == 13 && |"PTY_FAILED"| == 10
    ensures "PTY_NOT_RUNNING"[0] == 'P' && "INVALID_REQUEST"[0] == 'I'
  {
  }

  /** A failed launch is cleaned up while the descriptor it obtained is still open and before the
      supervisor can finish. */
  lemma CleanUpHoldsDescriptor(states: seq<State>, steps: seq<Step>, i: nat)
    requires IsRun(states, steps) && i < |steps| && steps[i].CleanUp?
    ensures states[i].pidfd != Shut && states[i].finished == 0 && !states[i].mainDone && states[i].children <= 1
  {
    RunKeeps(states, steps, i);
    PastClaimOwns(states[i], steps[i].run);
  }
}
