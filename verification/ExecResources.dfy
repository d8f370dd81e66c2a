/** What the supervisor does with its input, its output pipes and the child's descriptor, in every run. */
module ExecResources {
  import opened Options
  import opened ExecProtocol
  import opened ExecSupervisor
  import opened ExecReports

  /** Input, descriptor and main goroutine are as before. */
  predicate SameOwnerSide(s: State, s': State) {
    s'.input == s.input && s'.pidfd == s.pidfd && s'.mainDone == s.mainDone
  }

  lemma ConnectionLeaves(s: State, step: Step)
    requires Enabled(s, step) && OfConnection(step)
    ensures SameOwnerSide(s, Apply(s, step))
  {
    match step {
      case Request(_) => case Enter(_) => case CleanUp(_) => case Mark(_) => case Finish(_) =>
      case Refuse(_) => case ReportFailure(_) => case SendStarted(_) => case SendTerminal(_) => case SendDrained(_) =>
    }
  }

  lemma ChildLeaves(s: State, step: Step)
    requires Enabled(s, step) && OfChild(step)
    ensures SameOwnerSide(s, Apply(s, step))
  {
    match step {
      case WaitChild(_) => case CompleteDrain(_) =>
      case DiscardOutput(isStdout) => if isStdout { } else { }
      case FailOutput(isStdout) => if isStdout { } else { }
    }
  }

  lemma SpawnLeaves(s: State, step: Step)
    requires Enabled(s, step) && step.Spawn?
    ensures Apply(s, step).input == s.input && Apply(s, step).mainDone == s.mainDone
    ensures Apply(s, step).pidfd == if step.outcome.NoIdentity? || step.outcome.Success? then Open else s.pidfd
  {
    match step.outcome { case NoProcess => case NoDescriptor => case NoIdentity => case Success(_, _) => }
  }

  // ---- The child's descriptor ----

  /** The spawn obtained a descriptor. */
  predicate ObtainsDescriptor(step: Step) {
    step.Spawn? && (step.outcome.NoIdentity? || step.outcome.Success?)
  }

  lemma DescriptorStep(s: State, step: Step)
    requires Enabled(s, step)
    ensures Apply(s, step).pidfd != Unset <==> s.pidfd != Unset || ObtainsDescriptor(step)
    ensures (s.mainDone ==> s.pidfd != Open && !step.Spawn?) ==> (Apply(s, step).mainDone ==> Apply(s, step).pidfd != Open)
  {
    if OfConnection(step) {
      ConnectionLeaves(s, step);
    } else if OfChild(step) {
      ChildLeaves(s, step);
    } else if step.Spawn? {
      SpawnLeaves(s, step);
    }
  }

  /** Some earlier spawn obtained a descriptor. */
  predicate ObtainedBefore(steps: seq<Step>, i: nat)
    requires i <= |steps|
  {
    i > 0 && (ObtainedBefore(steps, i - 1) || ObtainsDescriptor(steps[i - 1]))
  }

  lemma {:induction false} ObtainedBeforeIs(steps: seq<Step>, i: nat)
    requires i <= |steps|
    ensures ObtainedBefore(steps, i) <==> exists k | 0 <= k < i :: ObtainsDescriptor(steps[k])
  {
    if i > 0 { ObtainedBeforeIs(steps, i - 1); }
  }

  lemma {:induction false} DescriptorAt(states: seq<State>, steps: seq<Step>, i: nat)
    requires IsRun(states, steps) && i < |states|
    ensures states[i].pidfd != Unset <==> ObtainedBefore(steps, i)
    ensures states[i].mainDone ==> states[i].pidfd != Open
  {
    if i > 0 {
      DescriptorAt(states, steps, i - 1);
      NoSpawnAtTheEnd(states, steps, i - 1);
      DescriptorStep(states[i - 1], steps[i - 1]);
    }
  }

  /** The child's descriptor is held exactly from the spawn that obtained it, and none is left open when
      the main goroutine is done. */
  lemma DescriptorIsReleased(states: seq<State>, steps: seq<Step>, i: nat)
    requires IsRun(states, steps) && i < |states|
    ensures states[i].pidfd != Unset <==> exists k | 0 <= k < i :: ObtainsDescriptor(steps[k])
    ensures states[i].mainDone ==> states[i].pidfd != Open
  {
    DescriptorAt(states, steps, i);
    ObtainedBeforeIs(steps, i);
  }

  lemma NoSpawnAtTheEnd(states: seq<State>, steps: seq<Step>, i: nat)
    requires IsRun(states, steps) && i < |steps|
    ensures states[i].mainDone ==> !steps[i].Spawn?
  {
    if steps[i].Spawn? {
      RunKeeps(states, steps, i);
      PastClaimOwns(states[i], steps[i].run);
    }
  }

  // ---- Discarded output ----

  predicate Discards(step: Step, isStdout: bool) {
    step == DiscardOutput(isStdout) || step == FailOutput(isStdout)
  }

  lemma DiscardStep(s: State, step: Step)
    requires Enabled(s, step)
    ensures Apply(s, step).stdout.discarded <==> s.stdout.discarded || Discards(step, true)
    ensures Apply(s, step).stderr.discarded <==> s.stderr.discarded || Discards(step, false)
  {
    if OfConnection(step) {
      ConnectionStep(s, step);
    } else if OfInput(step) {
      InputStep(s, step);
    } else {
      DiscardPipe(s, step);
    }
  }

  lemma DiscardPipe(s: State, step: Step)
    requires Enabled(s, step) && (OfChild(step) || step.Spawn?)
    ensures Apply(s, step).stdout.discarded <==> s.stdout.discarded || Discards(step, true)
    ensures Apply(s, step).stderr.discarded <==> s.stderr.discarded || Discards(step, false)
  {
    match step {
      case Spawn(_, outcome) => match outcome { case NoProcess => case NoDescriptor => case NoIdentity => case Success(_, _) => }
      case WaitChild(_) => case CompleteDrain(_) =>
      case DiscardOutput(isStdout) => if isStdout { } else { }
      case FailOutput(isStdout) => if isStdout { } else { }
    }
  }

  predicate DiscardedBefore(steps: seq<Step>, i: nat, isStdout: bool)
    requires i <= |steps|
  {
    exists k | 0 <= k < i :: Discards(steps[k], isStdout)
  }

  lemma DiscardedStep(steps: seq<Step>, i: nat, isStdout: bool)
    requires 0 < i <= |steps|
    ensures DiscardedBefore(steps, i, isStdout) <==> DiscardedBefore(steps, i - 1, isStdout) || Discards(steps[i - 1], isStdout)
  {
  }

  /** An output pipe is discarded exactly from the first time its reader went away or a write to it
      failed; so a write that fails later is no fault of the drain. */
  lemma {:induction false} DiscardedExactly(states: seq<State>, steps: seq<Step>, i: nat)
    requires IsRun(states, steps) && i < |states|
    ensures states[i].stdout.discarded <==> DiscardedBefore(steps, i, true)
    ensures states[i].stderr.discarded <==> DiscardedBefore(steps, i, false)
  {
    if i > 0 {
      DiscardedExactly(states, steps, i - 1);
      DiscardStep(states[i - 1], steps[i - 1]);
      DiscardedStep(steps, i, true);
      DiscardedStep(steps, i, false);
    }
  }

  // ---- The owner's input ----

  predicate ReadsInput(step: Step) {
    step.ReadInput? || step.JudgeInput? || step.ForwardInput?
  }

  /** The input reader ends: it gives up before a claim, its write to the child fails, or the read
      before that write had failed. */
  predicate EndsInput(s: State, step: Step) {
    || GivesUp(s, step)
    || (step.ForwardInput? && s.input.ForwardingInput? && (!step.ok || s.input.failed))
  }

  /** What the input reader is at, said by its last step. */
  predicate Follows(input: Input, s: State, step: Step) {
    match input
    case JudgingInput(count, failed) => step == ReadInput(count, failed)
    case ForwardingInput(failed) => step == JudgeInput && s.claimed && s.input.JudgingInput? && s.input.failed == failed
    case StoppedInput => EndsInput(s, step)
    case ReadingInput =>
      || (step == ForwardInput(true) && s.input == ForwardingInput(false))
      || (step == JudgeInput && !s.claimed && s.input == JudgingInput(0, false))
  }

  lemma ReaderStep(s: State, step: Step)
    requires Enabled(s, step)
    ensures !ReadsInput(step) ==> Apply(s, step).input == s.input
    ensures ReadsInput(step) ==> Follows(Apply(s, step).input, s, step)
  {
    if OfConnection(step) {
      ConnectionLeaves(s, step);
    } else if OfChild(step) {
      ChildLeaves(s, step);
    } else if step.Spawn? {
      SpawnLeaves(s, step);
    }
  }

  /** In every run the input reader reads, judges, forwards and reads again, ends exactly when input
      arrives or ends unclaimed, a write fails or a read failed, and never starts again. */
  lemma {:induction false} InputFollows(states: seq<State>, steps: seq<Step>, i: nat) returns (j: nat)
    requires IsRun(states, steps) && i < |states| && states[i].input != ReadingInput
    ensures j < i && ReadsInput(steps[j]) && Follows(states[i].input, states[j], steps[j])
    ensures forall k | j < k < i :: !ReadsInput(steps[k])
  {
    j := i - 1;
    ReaderStep(states[j], steps[j]);
    if !ReadsInput(steps[j]) {
      j := InputFollows(states, steps, j);
    }
  }
}
