/** The two-marker authority protocol: instances that start concurrently, crash at any moment and lose
    replies, all trying to own one object store through create-only markers under two prefixes. */
module Authority {
  import opened Options

  type InstanceId = nat

  /** The marker an instance expects: schema version, instance, backend kind and authority digest. */
  datatype Marker = Marker(schema: nat, instance: string, kind: string, authority: string)

  /** What a marker key holds. A malformed object reads as corrupt. */
  datatype Content = Valid(marker: Marker) | Corrupt

  datatype Prefix = System | R2

  /** Where one instance stands. The first two reads only count; `present` is the count so far. */
  datatype At =
    | Counting(prefix: Prefix, present: nat)
    | Reading(prefix: Prefix)
    | Creating(prefix: Prefix)
    | Confirming(prefix: Prefix)
    | Verifying(prefix: Prefix)
    | Succeeded
    | Mismatch
    | Failed
    | Crashed

  datatype Instance = Instance(expected: Marker, at: At)

  datatype State = State(system: Option<Content>, r2: Option<Content>, instances: map<InstanceId, Instance>)

  /** How a create-only write ends: as the store decides, with the reply lost after or before it took
      effect, or refused for no reason. */
  datatype PutOutcome = Decided | LostAfter | LostBefore | Refused

  datatype Step =
    | Preflight(id: InstanceId, expected: Marker)
    | Verify(id: InstanceId, expected: Marker)
    | Read(id: InstanceId, fault: bool)
    | Create(id: InstanceId, outcome: PutOutcome)
    | Crash(id: InstanceId)

  function Held(s: State, p: Prefix): Option<Content> {
    match p case System => s.system case R2 => s.r2
  }

  function WithHeld(s: State, p: Prefix, c: Content): State {
    match p case System => s.(system := Some(c)) case R2 => s.(r2 := Some(c))
  }

  predicate Live(at: At) {
    at.Counting? || at.Reading? || at.Creating? || at.Confirming? || at.Verifying?
  }

  predicate Enabled(s: State, step: Step) {
    match step
    case Preflight(id, _) => id !in s.instances
    case Verify(id, _) => id !in s.instances
    case Read(id, _) => id in s.instances && Live(s.instances[id].at) && !s.instances[id].at.Creating?
    case Create(id, _) => id in s.instances && s.instances[id].at.Creating?
    case Crash(id) => id in s.instances && Live(s.instances[id].at)
  }

  /** The next position after a read that returned `held`. */
  function AfterRead(at: At, expected: Marker, held: Option<Content>): At
    requires Live(at) && !at.Creating?
  {
    if held == Some(Corrupt) then Failed
    else
      var ours := held == Some(Valid(expected));
      match at
      case Counting(p, present) =>
        if held.Some? && !ours then Mismatch
        else
          var count := if ours then present + 1 else present;
          if p == System then Counting(R2, count)
          else if count == 1 then Mismatch
          else Reading(System)
      case Reading(p) =>
        if ours then Ensured(p) else if held.Some? then Mismatch else Creating(p)
      case Confirming(p) => if ours then Ensured(p) else Mismatch
      case Verifying(p) => if !ours then Mismatch else if p == System then Verifying(R2) else Succeeded
  }

  function Ensured(p: Prefix): At { if p == System then Reading(R2) else Succeeded }

  function Apply(s: State, step: Step): State
    requires Enabled(s, step)
  {
    match step
    case Preflight(id, expected) => s.(instances := s.instances[id := Instance(expected, Counting(System, 0))])
    case Verify(id, expected) => s.(instances := s.instances[id := Instance(expected, Verifying(System))])
    case Read(id, fault) =>
      var x := s.instances[id];
      var at := if fault then Failed else AfterRead(x.at, x.expected, Held(s, x.at.prefix));
      s.(instances := s.instances[id := x.(at := at)])
    case Create(id, outcome) =>
      var x := s.instances[id];
      var takesEffect := (outcome == Decided || outcome == LostAfter) && Held(s, x.at.prefix) == None;
      var stored := if takesEffect then WithHeld(s, x.at.prefix, Valid(x.expected)) else s;
      var at := if outcome == LostAfter || outcome == LostBefore then Failed else Confirming(x.at.prefix);
      stored.(instances := s.instances[id := x.(at := at)])
    case Crash(id) => s.(instances := s.instances[id := s.instances[id].(at := Crashed)])
  }

  /** A run from any stored contents with no instance started yet. */
  ghost predicate IsRun(states: seq<State>, steps: seq<Step>) {
    && |states| == |steps| + 1
    && states[0].instances == map[]
    && IsContinuation(states, steps)
  }

  ghost predicate IsContinuation(states: seq<State>, steps: seq<Step>) {
    && |states| == |steps| + 1
    && forall i | 0 <= i < |steps| :: Enabled(states[i], steps[i]) && states[i + 1] == Apply(states[i], steps[i])
  }

  // ---- What every step keeps ----

  /** What an instance's position says about the store. */
  predicate InstanceInv(s: State, x: Instance) {
    && (x.at == Reading(R2) || x.at == Creating(R2) || x.at == Confirming(R2) || x.at == Verifying(R2) ==>
          s.system == Some(Valid(x.expected)))
    && (x.at == Succeeded ==> s.system == Some(Valid(x.expected)) && s.r2 == Some(Valid(x.expected)))
  }

  ghost predicate Inv(s: State) {
    forall id | id in s.instances :: InstanceInv(s, s.instances[id])
  }

  predicate Consistent(s: State) {
    s.r2.Some? ==> s.system == s.r2
  }

  lemma StepKeeps(s: State, step: Step)
    requires Inv(s) && Enabled(s, step)
    ensures var s' := Apply(s, step);
            && Inv(s')
            && (s.system.Some? ==> s'.system == s.system)
            && (s.r2.Some? ==> s'.r2 == s.r2)
            && (Consistent(s) ==> Consistent(s'))
  {
    var s' := Apply(s, step);
    match step
    case Preflight(_, _) =>
    case Verify(_, _) =>
    case Crash(_) =>
    case Read(id, _) => assert InstanceInv(s, s.instances[id]);
    case Create(id, _) => assert InstanceInv(s, s.instances[id]);
  }

  lemma {:induction false} RunKeeps(states: seq<State>, steps: seq<Step>, i: nat)
    requires IsRun(states, steps) && i < |states|
    ensures Inv(states[i])
    ensures Consistent(states[0]) ==> Consistent(states[i])
  {
    if i > 0 {
      RunKeeps(states, steps, i - 1);
      StepKeeps(states[i - 1], steps[i - 1]);
    }
  }

  /** A marker, once under either prefix, is there unchanged for the rest of the run. */
  lemma {:induction false} MarkersNeverChange(states: seq<State>, steps: seq<Step>, i: nat, j: nat, p: Prefix)
    requires IsRun(states, steps) && i <= j < |states| && Held(states[i], p).Some?
    ensures Held(states[j], p) == Held(states[i], p)
  {
    if i < j {
      MarkersNeverChange(states, steps, i, j - 1, p);
      RunKeeps(states, steps, j - 1);
      StepKeeps(states[j - 1], steps[j - 1]);
    }
  }

  /** From a store where it holds, a marker under the R2 prefix is always the one under the system prefix. */
  lemma R2FollowsSystem(states: seq<State>, steps: seq<Step>, i: nat)
    requires IsRun(states, steps) && i < |states| && Consistent(states[0])
    ensures states[i].r2.Some? ==> states[i].system == states[i].r2
  {
    RunKeeps(states, steps, i);
  }

  /** Whatever the store held at first, two instances that ever succeed in a run, at any two moments,
      expected the same marker. */
  lemma SingleAuthority(states: seq<State>, steps: seq<Step>, i: nat, j: nat, a: InstanceId, b: InstanceId)
    requires IsRun(states, steps) && i <= j < |states|
    requires a in states[i].instances && states[i].instances[a].at == Succeeded
    requires b in states[j].instances && states[j].instances[b].at == Succeeded
    ensures states[i].instances[a].expected == states[j].instances[b].expected
  {
    RunKeeps(states, steps, i);
    RunKeeps(states, steps, j);
    assert InstanceInv(states[i], states[i].instances[a]);
    assert InstanceInv(states[j], states[j].instances[b]);
    MarkersNeverChange(states, steps, i, j, System);
  }

  // ---- Exactly one marker ----

  predicate Ended(at: At) { at.Mismatch? || at.Failed? || at.Crashed? }

  /** With exactly one marker stored nobody gets past counting, and nobody verifies past a missing marker. */
  predicate StuckAt(s: State, at: At) {
    match at
    case Counting(p, present) => present == if p == R2 && s.system.Some? then 1 else 0
    case Verifying(p) => p == System || s.system.Some?
    case _ => Ended(at)
  }

  predicate Half(s: State) { s.system.Some? <==> s.r2 == None }

  ghost predicate Stuck(s: State) {
    Half(s) && forall id | id in s.instances :: StuckAt(s, s.instances[id].at)
  }

  lemma StuckStays(s: State, step: Step)
    requires Stuck(s) && Enabled(s, step)
    ensures Stuck(Apply(s, step))
  {
    var s' := Apply(s, step);
    forall id | id in s'.instances ensures StuckAt(s', s'.instances[id].at) {
      if id in s.instances { assert StuckAt(s, s.instances[id].at); }
    }
  }

  /** Half an initialisation is final: if exactly one marker is stored and every instance has ended without
      success, no later instance can ever succeed, not even the marker's own. */
  lemma {:induction false} HalfInitialisedIsFinal(states: seq<State>, steps: seq<Step>, i: nat)
    requires IsContinuation(states, steps) && i < |states| && Half(states[0])
    requires forall id | id in states[0].instances :: Ended(states[0].instances[id].at)
    ensures Stuck(states[i])
    ensures forall id | id in states[i].instances :: states[i].instances[id].at != Succeeded
  {
    if i > 0 {
      HalfInitialisedIsFinal(states, steps, i - 1);
      StuckStays(states[i - 1], steps[i - 1]);
    }
    forall id | id in states[i].instances ensures states[i].instances[id].at != Succeeded {
      assert StuckAt(states[i], states[i].instances[id].at);
    }
  }

  // ---- Runs of one instance among others that have ended ----

  /** One instance beside others that do nothing more. */
  ghost function Beside(others: map<InstanceId, Instance>, id: InstanceId, expected: Marker,
                        system: Option<Content>, r2: Option<Content>, at: At): State
  {
    State(system, r2, others[id := Instance(expected, at)])
  }

  lemma BesideReads(others: map<InstanceId, Instance>, id: InstanceId, expected: Marker, system: Option<Content>, r2: Option<Content>, at: At)
    requires Live(at) && !at.Creating?
    ensures var s := Beside(others, id, expected, system, r2, at);
            && Enabled(s, Read(id, false))
            && Apply(s, Read(id, false)) == Beside(others, id, expected, system, r2, AfterRead(at, expected, if at.prefix == System then system else r2))
  {
  }

  lemma BesideCreates(others: map<InstanceId, Instance>, id: InstanceId, expected: Marker, system: Option<Content>, r2: Option<Content>, p: Prefix)
    requires (if p == System then system else r2) == None
    ensures var s, ours := Beside(others, id, expected, system, r2, Creating(p)), Some(Valid(expected));
            && Enabled(s, Create(id, Decided))
            && Apply(s, Create(id, Decided))
               == Beside(others, id, expected, if p == System then ours else system, if p == R2 then ours else r2, Confirming(p))
  {
  }

  /** A run goes on with any enabled step. */
  lemma Extended(states: seq<State>, steps: seq<Step>, step: Step, next: State) returns (states': seq<State>, steps': seq<Step>)
    requires IsContinuation(states, steps) && Enabled(states[|states| - 1], step) && next == Apply(states[|states| - 1], step)
    ensures IsContinuation(states', steps') && states'[0] == states[0] && states'[|states'| - 1] == next
  {
    states', steps' := states + [next], steps + [step];
  }

  /** A read that finds what the store holds. */
  lemma ReadsOn(states: seq<State>, steps: seq<Step>, others: map<InstanceId, Instance>, id: InstanceId, expected: Marker,
                system: Option<Content>, r2: Option<Content>, at: At, next: At)
    returns (states': seq<State>, steps': seq<Step>)
    requires IsContinuation(states, steps) && states[|states| - 1] == Beside(others, id, expected, system, r2, at)
    requires Live(at) && !at.Creating? && next == AfterRead(at, expected, if at.prefix == System then system else r2)
    ensures IsContinuation(states', steps') && states'[0] == states[0]
    ensures states'[|states'| - 1] == Beside(others, id, expected, system, r2, next)
  {
    BesideReads(others, id, expected, system, r2, at);
    states', steps' := Extended(states, steps, Read(id, false), Beside(others, id, expected, system, r2, next));
  }

  /** A preflight counts what the store holds: no marker, or both. */
  lemma Counts(s: State, id: InstanceId, expected: Marker, held: Option<Content>) returns (states: seq<State>, steps: seq<Step>)
    requires id !in s.instances && s.system == s.r2 == held && (held == None || held == Some(Valid(expected)))
    ensures IsContinuation(states, steps) && states[0] == s
    ensures states[|states| - 1] == Beside(s.instances, id, expected, held, held, Reading(System))
  {
    var count := if held == None then 0 else 1;
    states, steps := Extended([s], [], Preflight(id, expected), Beside(s.instances, id, expected, held, held, Counting(System, 0)));
    states, steps := ReadsOn(states, steps, s.instances, id, expected, held, held, Counting(System, 0), Counting(R2, count));
    states, steps := ReadsOn(states, steps, s.instances, id, expected, held, held, Counting(R2, count), Reading(System));
  }

  /** Undisturbed, an instance on an empty store creates the system marker. */
  lemma CreatesFirst(s: State, id: InstanceId, expected: Marker) returns (states: seq<State>, steps: seq<Step>)
    requires id !in s.instances && s.system == None && s.r2 == None
    ensures IsContinuation(states, steps) && states[0] == s
    ensures states[|states| - 1] == Beside(s.instances, id, expected, Some(Valid(expected)), None, Confirming(System))
  {
    states, steps := Counts(s, id, expected, None);
    states, steps := ReadsOn(states, steps, s.instances, id, expected, None, None, Reading(System), Creating(System));
    BesideCreates(s.instances, id, expected, None, None, System);
    states, steps := Extended(states, steps, Create(id, Decided),
                              Beside(s.instances, id, expected, Some(Valid(expected)), None, Confirming(System)));
  }

  /** Undisturbed, an instance on an empty store succeeds and leaves both markers. */
  lemma AloneSucceeds(s: State, id: InstanceId, expected: Marker) returns (states: seq<State>, steps: seq<Step>)
    requires id !in s.instances && s.system == None && s.r2 == None
    ensures IsContinuation(states, steps) && states[0] == s
    ensures states[|states| - 1] == Beside(s.instances, id, expected, Some(Valid(expected)), Some(Valid(expected)), Succeeded)
  {
    var ours := Some(Valid(expected));
    states, steps := CreatesFirst(s, id, expected);
    states, steps := ReadsOn(states, steps, s.instances, id, expected, ours, None, Confirming(System), Reading(R2));
    states, steps := ReadsOn(states, steps, s.instances, id, expected, ours, None, Reading(R2), Creating(R2));
    BesideCreates(s.instances, id, expected, ours, None, R2);
    states, steps := Extended(states, steps, Create(id, Decided), Beside(s.instances, id, expected, ours, ours, Confirming(R2)));
    states, steps := ReadsOn(states, steps, s.instances, id, expected, ours, ours, Confirming(R2), Succeeded);
  }

  /** Undisturbed, an instance that finds both of its markers succeeds and changes nothing. */
  lemma ReturnsToItsOwn(s: State, id: InstanceId, expected: Marker) returns (states: seq<State>, steps: seq<Step>)
    requires id !in s.instances && s.system == Some(Valid(expected)) && s.r2 == Some(Valid(expected))
    ensures IsContinuation(states, steps) && states[0] == s
    ensures states[|states| - 1] == Beside(s.instances, id, expected, s.system, s.r2, Succeeded)
  {
    states, steps := Counts(s, id, expected, s.system);
    states, steps := ReadsOn(states, steps, s.instances, id, expected, s.system, s.r2, Reading(System), Reading(R2));
    states, steps := ReadsOn(states, steps, s.instances, id, expected, s.system, s.r2, Reading(R2), Succeeded);
  }

  /** What a verification finds: it succeeds exactly if both markers are its own. */
  function Verdict(expected: Marker, system: Option<Content>, r2: Option<Content>): At {
    var ours := Some(Valid(expected));
    if system == ours && r2 == ours then Succeeded
    else if system == Some(Corrupt) || (system == ours && r2 == Some(Corrupt)) then Failed
    else Mismatch
  }

  /** Undisturbed, a verification ends with that verdict and changes nothing. */
  lemma VerifiesExactly(s: State, id: InstanceId, expected: Marker) returns (states: seq<State>, steps: seq<Step>)
    requires id !in s.instances
    ensures IsContinuation(states, steps) && states[0] == s
    ensures states[|states| - 1] == Beside(s.instances, id, expected, s.system, s.r2, Verdict(expected, s.system, s.r2))
  {
    states, steps := Extended([s], [], Verify(id, expected), Beside(s.instances, id, expected, s.system, s.r2, Verifying(System)));
    if s.system == Some(Valid(expected)) {
      states, steps := ReadsOn(states, steps, s.instances, id, expected, s.system, s.r2, Verifying(System), Verifying(R2));
      states, steps := ReadsOn(states, steps, s.instances, id, expected, s.system, s.r2, Verifying(R2), Verdict(expected, s.system, s.r2));
    } else {
      states, steps := ReadsOn(states, steps, s.instances, id, expected, s.system, s.r2, Verifying(System), Verdict(expected, s.system, s.r2));
    }
  }

  /** Where a verification may stand. */
  predicate OnlyVerifies(at: At) {
    at.Verifying? || at == Succeeded || Ended(at)
  }

  /** In every run an instance that started to verify never creates a marker. */
  lemma {:induction false} VerifierOnlyReads(states: seq<State>, steps: seq<Step>, j: nat, i: nat, id: InstanceId)
    requires IsContinuation(states, steps) && j < i < |states| && steps[j].Verify? && steps[j].id == id
    ensures id in states[i].instances && OnlyVerifies(states[i].instances[id].at)
    ensures i < |steps| ==> !(steps[i].Create? && steps[i].id == id)
  {
    if i - 1 == j {
      assert states[i] == Apply(states[j], steps[j]);
    } else {
      VerifierOnlyReads(states, steps, j, i - 1, id);
      assert states[i] == Apply(states[i - 1], steps[i - 1]);
    }
  }

  /** That state is reachable: one instance that crashes between its two creations leaves it. */
  lemma CrashLeavesHalf(expected: Marker) returns (states: seq<State>, steps: seq<Step>)
    ensures IsRun(states, steps) && states[0] == State(None, None, map[])
    ensures states[|states| - 1] == State(Some(Valid(expected)), None, map[0 := Instance(expected, Crashed)])
  {
    states, steps := CreatesFirst(State(None, None, map[]), 0, expected);
    states, steps := Extended(states, steps, Crash(0), Beside(map[], 0, expected, Some(Valid(expected)), None, Crashed));
  }

  /** So does a creation whose reply is lost: the instance fails, and its marker is there. */
  lemma LostReplyLeavesHalf(expected: Marker) returns (states: seq<State>, steps: seq<Step>)
    ensures IsRun(states, steps) && states[0] == State(None, None, map[])
    ensures states[|states| - 1] == State(Some(Valid(expected)), None, map[0 := Instance(expected, Failed)])
  {
    var empty := State(None, None, map[]);
    states, steps := Counts(empty, 0, expected, None);
    states, steps := ReadsOn(states, steps, map[], 0, expected, None, None, Reading(System), Creating(System));
    states, steps := Extended(states, steps, Create(0, LostAfter), Beside(map[], 0, expected, Some(Valid(expected)), None, Failed));
  }

  // ---- Why an instance fails, and when it creates ----

  /** The instance meets a fault, a corrupt marker or a lost reply at this step. */
  predicate FailureCut(s: State, step: Step, id: InstanceId) {
    && id in s.instances
    && (|| step == Read(id, true)
        || (step == Read(id, false) && Live(s.instances[id].at) && Held(s, s.instances[id].at.prefix) == Some(Corrupt))
        || step == Create(id, LostAfter) || step == Create(id, LostBefore))
  }

  lemma FailureStep(s: State, step: Step, id: InstanceId)
    requires Enabled(s, step) && id in Apply(s, step).instances
    ensures id !in s.instances ==> Apply(s, step).instances[id].at != Failed && !FailureCut(s, step, id)
    ensures id in s.instances ==>
              (Apply(s, step).instances[id].at == Failed <==> s.instances[id].at == Failed || FailureCut(s, step, id))
  {
  }

  /** An instance fails exactly if it has met a fault, a corrupt marker or a lost reply: a marker of another
      instance is a mismatch, not a failure. */
  lemma {:induction false} FailureIsCut(states: seq<State>, steps: seq<Step>, i: nat, id: InstanceId)
    requires IsRun(states, steps) && i < |states| && id in states[i].instances
    ensures states[i].instances[id].at == Failed <==> exists j | 0 <= j < i :: FailureCut(states[j], steps[j], id)
  {
    FailureStep(states[i - 1], steps[i - 1], id);
    if id in states[i - 1].instances {
      FailureIsCut(states, steps, i - 1, id);
    } else {
      NotStartedYet(states, steps, i - 1, id);
    }
  }

  lemma {:induction false} NotStartedYet(states: seq<State>, steps: seq<Step>, i: nat, id: InstanceId)
    requires IsRun(states, steps) && i < |states| && id !in states[i].instances
    ensures forall j | 0 <= j < i :: id !in states[j].instances
  {
    if i > 0 {
      assert states[i] == Apply(states[i - 1], steps[i - 1]);
      NotStartedYet(states, steps, i - 1, id);
    }
  }

  /** Whenever an instance is about to create a marker, its last step was a read that found none there. */
  lemma {:induction false} CreatesOnlyWhatWasMissing(states: seq<State>, steps: seq<Step>, i: nat, id: InstanceId) returns (j: nat)
    requires IsRun(states, steps) && i < |states| && id in states[i].instances && states[i].instances[id].at.Creating?
    ensures j < i && steps[j] == Read(id, false) && Held(states[j], states[i].instances[id].at.prefix) == None
    ensures forall k | j < k < i :: steps[k].id != id
  {
    j := i - 1;
    CreatingStep(states[j], steps[j], id);
    if steps[j].id != id {
      j := CreatesOnlyWhatWasMissing(states, steps, j, id);
    }
  }

  lemma CreatingStep(s: State, step: Step, id: InstanceId)
    requires Enabled(s, step) && id in Apply(s, step).instances && Apply(s, step).instances[id].at.Creating?
    ensures step.id != id ==> id in s.instances && s.instances[id] == Apply(s, step).instances[id]
    ensures step.id == id ==> step == Read(id, false) && Held(s, Apply(s, step).instances[id].at.prefix) == None
  {
  }

  // ---- When a restart can succeed ----

  /** No instance is at work any more. */
  ghost predicate Quiet(s: State) {
    forall id | id in s.instances :: !Live(s.instances[id].at)
  }

  /** A continuation at whose end an instance started in it, expecting this marker, has succeeded. */
  ghost predicate Restarts(s: State, expected: Marker, states: seq<State>, steps: seq<Step>, id: InstanceId) {
    && IsContinuation(states, steps) && states[0] == s && id !in s.instances
    && id in states[|states| - 1].instances && states[|states| - 1].instances[id] == Instance(expected, Succeeded)
  }

  ghost predicate CanRestart(s: State, expected: Marker) {
    exists states, steps, id :: Restarts(s, expected, states, steps, id)
  }

  lemma {:induction false} ContinuationKeeps(states: seq<State>, steps: seq<Step>, i: nat)
    requires IsContinuation(states, steps) && i < |states| && Inv(states[0])
    ensures Inv(states[i])
    ensures states[0].system.Some? ==> states[i].system == states[0].system
    ensures states[0].r2.Some? ==> states[i].r2 == states[0].r2
  {
    if i > 0 {
      ContinuationKeeps(states, steps, i - 1);
      StepKeeps(states[i - 1], steps[i - 1]);
    }
  }

  /** Success names what the store held at first, if it held both markers; with exactly one there is none. */
  lemma RestartNeeds(s: State, expected: Marker, states: seq<State>, steps: seq<Step>, id: InstanceId)
    requires Inv(s) && Quiet(s) && Restarts(s, expected, states, steps, id)
    ensures (s.system == None && s.r2 == None) || (s.system == Some(Valid(expected)) && s.r2 == Some(Valid(expected)))
  {
    var last := |states| - 1;
    ContinuationKeeps(states, steps, last);
    assert InstanceInv(states[last], states[last].instances[id]);
    if Half(s) {
      forall x | x in s.instances ensures Ended(s.instances[x].at) {
        assert InstanceInv(s, s.instances[x]);
      }
      HalfInitialisedIsFinal(states, steps, last);
      assert false;
    }
  }

  lemma {:induction false} UnusedId(used: set<InstanceId>) returns (id: InstanceId)
    ensures forall x | x in used :: x < id
  {
    if used == {} {
      id := 0;
    } else {
      var x :| x in used;
      var rest := UnusedId(used - {x});
      id := if x < rest then rest else x + 1;
      forall y | y in used ensures y < id {
        assert y == x || y in used - {x};
      }
    }
  }

  /** Once no instance is at work, a new one can succeed if and only if the store holds no marker or both of
      its own. */
  lemma RestartCondition(s: State, expected: Marker)
    requires Inv(s) && Quiet(s)
    ensures CanRestart(s, expected) <==>
              (s.system == None && s.r2 == None) || (s.system == Some(Valid(expected)) && s.r2 == Some(Valid(expected)))
  {
    if CanRestart(s, expected) {
      var states, steps, id :| Restarts(s, expected, states, steps, id);
      RestartNeeds(s, expected, states, steps, id);
    }
    var id := UnusedId(s.instances.Keys);
    if s.system == None && s.r2 == None {
      var states, steps := AloneSucceeds(s, id, expected);
      assert Restarts(s, expected, states, steps, id);
    } else if s.system == Some(Valid(expected)) && s.r2 == Some(Valid(expected)) {
      var states, steps := ReturnsToItsOwn(s, id, expected);
      assert Restarts(s, expected, states, steps, id);
    }
  }
}
