/** What ends a taker and a registrar, in every run of the callback protocol: why a taker fails and a
    registrar leaves, what each does before it tries, that no open connection is dropped, that nothing
    is stuck, and runs that reach the end. */
module CallbackProgress {
  import opened Options
  import opened CallbackPool
  import opened CallbackProtocol

  // ---- Why a taker fails and why a registrar leaves ----

  /** The taker's deadline or cancellation strikes at this step. */
  predicate TakerCut(step: Step, t: TakerId) {
    step == OfTaker(t, Look(true)) || step == OfTaker(t, Expire) || step == OfTaker(t, Confirm(true))
  }

  /** The registrar's deadline, a closed lease, a failed reply, a failed deadline change or anything but
      a clean timeout of the idle read strikes at this step. */
  predicate RegistrarCut(s: State, step: Step, l: LeaseId) {
    && step.OfLease? && step.lease == l
    && match step.move
       case Poll(quit) => quit
       case GiveUp => true
       case Reply(ok) => !ok
       case Abandon => true
       case Interrupt(ok) => !ok
       case Join => l in s.leases && !IdleClean(s.leases[l].idle)
       case Restore(ok) => !ok
       case Release => true
       case _ => false
  }

  predicate Gone(r: Registrar) {
    r == Leaving || r == Left
  }

  /** The taker is about to return an error. */
  predicate Ending(at: Taker) {
    at.Failed? || (at.Discarding? && !at.retry)
  }

  lemma TakerStep(s: State, step: Step, t: TakerId)
    requires Enabled(s, step) && t in Apply(s, step).takers
    ensures t !in s.takers ==> !Ending(Apply(s, step).takers[t].at) && !TakerCut(step, t)
    ensures t in s.takers ==>
              (Ending(Apply(s, step).takers[t].at) <==> Ending(s.takers[t].at) || TakerCut(step, t))
  {
    match step
    case OfTaker(u, action) =>
      if u == t { match action { case _ => } }
    case _ =>
  }

  lemma RegistrarStep(s: State, step: Step, l: LeaseId)
    requires Enabled(s, step) && l in Apply(s, step).leases
    ensures l !in s.leases ==> !Gone(Apply(s, step).leases[l].registrar) && !RegistrarCut(s, step, l)
    ensures l in s.leases ==>
              (Gone(Apply(s, step).leases[l].registrar) <==> Gone(s.leases[l].registrar) || RegistrarCut(s, step, l))
  {
    match step
    case OfLease(m, move) =>
      if m == l { match move { case _ => } }
    case _ =>
  }

  /** A taker is on its way to an error exactly if its deadline or cancellation has struck: a wake-up, a
      lease closed meanwhile and a lease with another token all lead back to looking. */
  lemma {:induction false} FailureIsCut(states: seq<State>, steps: seq<Step>, i: nat, t: TakerId)
    requires IsRun(states, steps) && i < |states| && t in states[i].takers
    ensures Ending(states[i].takers[t].at) <==> exists j | 0 <= j < i :: TakerCut(steps[j], t)
  {
    TakerStep(states[i - 1], steps[i - 1], t);
    if t in states[i - 1].takers {
      FailureIsCut(states, steps, i - 1, t);
    } else {
      NoTakerYet(states, steps, i - 1, t);
    }
  }

  lemma {:induction false} NoTakerYet(states: seq<State>, steps: seq<Step>, i: nat, t: TakerId)
    requires IsRun(states, steps) && i < |states| && t !in states[i].takers
    ensures forall j | 0 <= j < i :: t !in states[j].takers && !TakerCut(steps[j], t)
  {
    if i > 0 {
      assert states[i] == Apply(states[i - 1], steps[i - 1]);
      NoTakerYet(states, steps, i - 1, t);
    }
  }

  /** A registrar gives its connection up exactly if it has met a cause: a wake-up or an admission is none. */
  lemma {:induction false} LeavingIsCut(states: seq<State>, steps: seq<Step>, i: nat, l: LeaseId)
    requires IsRun(states, steps) && i < |states| && l in states[i].leases
    ensures Gone(states[i].leases[l].registrar) <==> exists j | 0 <= j < i :: RegistrarCut(states[j], steps[j], l)
  {
    RegistrarStep(states[i - 1], steps[i - 1], l);
    if l in states[i - 1].leases {
      LeavingIsCut(states, steps, i - 1, l);
    } else {
      NoLeaseYet(states, steps, i - 1, l);
    }
  }

  lemma {:induction false} NoLeaseYet(states: seq<State>, steps: seq<Step>, i: nat, l: LeaseId)
    requires IsRun(states, steps) && i < |states| && l !in states[i].leases
    ensures forall j | 0 <= j < i :: l !in states[j].leases && !RegistrarCut(states[j], steps[j], l)
  {
    if i > 0 {
      assert states[i] == Apply(states[i - 1], steps[i - 1]);
      NoLeaseYet(states, steps, i - 1, l);
    }
  }

  predicate OfTakerStep(step: Step, t: TakerId) {
    step == Take(t) || step == Claim(t) || (step.OfTaker? && step.taker == t)
  }

  predicate OfRegistrarStep(step: Step, l: LeaseId) {
    step == Admit(l) || (step.OfLease? && step.lease == l && RegistrarMove(step.move))
  }

  predicate RegistrarMove(move: LeaseMove) {
    !move.EnterOnce? && !move.CloseDone? && !move.IdleReturn? && !move.IdleExit?
  }

  /** Every attempt to take comes right after a look at deadline and cancellation. */
  lemma {:induction false} LooksBeforeTaking(states: seq<State>, steps: seq<Step>, i: nat, t: TakerId) returns (j: nat)
    requires IsRun(states, steps) && i < |states| && t in states[i].takers && states[i].takers[t].at == Taking
    ensures j < i && steps[j] == OfTaker(t, Look(false))
    ensures forall k | j < k < i :: !OfTakerStep(steps[k], t)
  {
    j := i - 1;
    if steps[j] != OfTaker(t, Look(false)) {
      TakingStays(states[j], steps[j], t);
      j := LooksBeforeTaking(states, steps, j, t);
    }
  }

  lemma TakingStays(s: State, step: Step, t: TakerId)
    requires Enabled(s, step) && step != OfTaker(t, Look(false))
    requires t in Apply(s, step).takers && Apply(s, step).takers[t].at == Taking
    ensures t in s.takers && s.takers[t].at == Taking && !OfTakerStep(step, t)
  {
    match step
    case OfTaker(u, action) =>
      if u == t { match action { case _ => } }
    case _ =>
  }

  /** Every attempt to be admitted comes right after a poll of deadline, cancellation and lease. */
  lemma {:induction false} PollsBeforeAdmission(states: seq<State>, steps: seq<Step>, i: nat, l: LeaseId) returns (j: nat)
    requires IsRun(states, steps) && i < |states| && l in states[i].leases && states[i].leases[l].registrar == Admitting
    ensures j < i && steps[j] == OfLease(l, Poll(false)) && l in states[j].leases && states[j].leases[l].done == 0
    ensures forall k | j < k < i :: !OfRegistrarStep(steps[k], l)
  {
    j := i - 1;
    if steps[j] != OfLease(l, Poll(false)) {
      AdmittingStays(states[j], steps[j], l);
      j := PollsBeforeAdmission(states, steps, j, l);
    }
  }

  lemma AdmittingStays(s: State, step: Step, l: LeaseId)
    requires Enabled(s, step) && step != OfLease(l, Poll(false))
    requires l in Apply(s, step).leases && Apply(s, step).leases[l].registrar == Admitting
    ensures l in s.leases && s.leases[l].registrar == Admitting && !OfRegistrarStep(step, l)
  {
    match step
    case OfLease(m, move) =>
      if m == l { match move { case _ => } }
    case _ =>
  }

  /** A lease is matched only right after it was seen open. */
  lemma {:induction false} VetsBeforeMatching(states: seq<State>, steps: seq<Step>, i: nat, t: TakerId) returns (j: nat)
    requires IsRun(states, steps) && i < |states| && t in states[i].takers && states[i].takers[t].at.Matching?
    ensures j < i && steps[j] == OfTaker(t, Vet)
    ensures var l := states[i].takers[t].at.lease; l in states[j].leases && states[j].leases[l].done == 0
    ensures forall k | j < k < i :: !OfTakerStep(steps[k], t)
  {
    j := i - 1;
    MatchingStays(states[j], steps[j], t);
    if steps[j] != OfTaker(t, Vet) {
      j := VetsBeforeMatching(states, steps, j, t);
    }
  }

  lemma MatchingStays(s: State, step: Step, t: TakerId)
    requires Enabled(s, step) && t in Apply(s, step).takers && Apply(s, step).takers[t].at.Matching?
    ensures t in s.takers
    ensures step != OfTaker(t, Vet) ==> s.takers[t] == Apply(s, step).takers[t] && !OfTakerStep(step, t)
    ensures var l := Apply(s, step).takers[t].at.lease; step == OfTaker(t, Vet) ==> l in s.leases && s.leases[l].done == 0
  {
    match step
    case OfTaker(u, action) =>
      if u == t { match action { case _ => } }
    case _ =>
  }

  /** The taker stands at this lease, or the lease is closed. */
  predicate Kept(c: Claimant, l: LeaseId, x: Lease) {
    (Holding(c.at) && c.at.lease == l) || x.done > 0
  }

  /** No taker drops an open connection: every lease ever taken is the one its taker stands at, or closed. */
  lemma {:induction false} NoLeaseDropped(states: seq<State>, steps: seq<Step>, i: nat, l: LeaseId)
    requires IsRun(states, steps) && i < |states| && l in states[i].leases && states[i].leases[l].holder.Some?
    ensures var t := states[i].leases[l].holder.value; t in states[i].takers && Kept(states[i].takers[t], l, states[i].leases[l])
  {
    RunKeeps(states, steps, i - 1);
    if l in states[i - 1].leases && states[i - 1].leases[l].holder.Some? {
      HolderKept(states[i - 1], steps[i - 1], l);
      NoLeaseDropped(states, steps, i - 1, l);
      KeptStep(states[i - 1], steps[i - 1], states[i].leases[l].holder.value, l);
    } else {
      HolderSet(states[i - 1], steps[i - 1], l);
    }
  }

  lemma HolderSet(s: State, step: Step, l: LeaseId)
    requires Inv(s) && Enabled(s, step) && (l in s.leases ==> s.leases[l].holder == None)
    requires l in Apply(s, step).leases && Apply(s, step).leases[l].holder.Some?
    ensures var s' := Apply(s, step);
            var t := s'.leases[l].holder.value; t in s'.takers && Kept(s'.takers[t], l, s'.leases[l])
  {
    match step
    case OfLease(m, move) => LeaseMoveKeeps(s.leases[m], m in s.pool.entries, s.pool, move);
    case _ =>
  }

  lemma KeptStep(s: State, step: Step, t: TakerId, l: LeaseId)
    requires Inv(s) && Enabled(s, step) && t in s.takers && l in s.leases && Kept(s.takers[t], l, s.leases[l])
    ensures var s' := Apply(s, step); t in s'.takers && l in s'.leases && Kept(s'.takers[t], l, s'.leases[l])
  {
    DoneStays(s, step, l);
    assert LeaseInv(s.leases[l], l in s.pool.entries, s.pool);
    match step
    case OfTaker(u, action) =>
      if u == t { match action { case _ => } }
    case _ =>
  }

  lemma DoneStays(s: State, step: Step, l: LeaseId)
    requires Enabled(s, step) && l in s.leases
    ensures l in Apply(s, step).leases && Apply(s, step).leases[l].done >= s.leases[l].done
  {
    match step
    case OfLease(m, move) =>
      if m == l { match move { case _ => } }
    case _ =>
  }

  // ---- Nothing is stuck ----

  /** The close of this lease can go on. */
  ghost predicate CloseGoesOn(s: State, l: LeaseId) {
    Enabled(s, OfLease(l, EnterOnce)) || Enabled(s, OfLease(l, CloseDone)) || Enabled(s, CloseRemove(l))
  }

  /** The idle reader of this lease can go on. */
  ghost predicate ReaderGoesOn(s: State, l: LeaseId) {
    Enabled(s, OfLease(l, IdleReturn(0, Timeout))) || Enabled(s, OfLease(l, IdleExit))
  }

  ghost predicate TakerGoesOn(s: State, t: TakerId)
    requires t in s.takers
  {
    || (exists step :: OfTakerStep(step, t) && Enabled(s, step))
    || (s.takers[t].at.Discarding? && CloseGoesOn(s, s.takers[t].at.lease))
  }

  ghost predicate RegistrarGoesOn(s: State, l: LeaseId)
    requires l in s.leases
  {
    || (exists step :: OfRegistrarStep(step, l) && Enabled(s, step))
    || (s.leases[l].registrar == Leaving && CloseGoesOn(s, l))
    || ((s.leases[l].registrar == Joining || s.leases[l].registrar == Leaving) && ReaderGoesOn(s, l))
  }

  /** In every reachable state every taker that has not returned and every registrar that has not left
      can go on, or waits for a close or an idle reader that can. */
  lemma NothingIsStuck(states: seq<State>, steps: seq<Step>, i: nat)
    requires IsRun(states, steps) && i < |states|
    ensures var s := states[i];
            && (forall t | t in s.takers && !s.takers[t].at.Returned? && !s.takers[t].at.Failed? :: TakerGoesOn(s, t))
            && (forall l | l in s.leases && s.leases[l].registrar != Left :: RegistrarGoesOn(s, l))
  {
    RunKeeps(states, steps, i);
    var s := states[i];
    forall t | t in s.takers && !s.takers[t].at.Returned? && !s.takers[t].at.Failed? ensures TakerGoesOn(s, t) {
      assert TakerInv(s.takers[t], t, s.leases, s.pool);
      if s.pool.entries != [] { assert (s.log + s.pool.entries)[|s.log|] == s.pool.entries[0]; }
      TakerNotStuck(s, t);
    }
    forall l | l in s.leases && s.leases[l].registrar != Left ensures RegistrarGoesOn(s, l) {
      assert LeaseInv(s.leases[l], l in s.pool.entries, s.pool);
      RegistrarNotStuck(s, l);
    }
  }

  lemma TakerNotStuck(s: State, t: TakerId)
    requires t in s.takers && !s.takers[t].at.Returned? && !s.takers[t].at.Failed?
    requires Holding(s.takers[t].at) ==> s.takers[t].at.lease in s.leases
    requires s.pool.entries != [] ==> s.pool.entries[0] in s.leases
    ensures TakerGoesOn(s, t)
  {
    var at := s.takers[t].at;
    if at.Discarding? && s.leases[at.lease].once != Closed {
      CloseContinues(s, at.lease);
    } else {
      TakerCanStep(s, t, NextOfTaker(at, t));
    }
  }

  lemma TakerCanStep(s: State, t: TakerId, step: Step)
    requires t in s.takers && OfTakerStep(step, t) && Enabled(s, step)
    ensures TakerGoesOn(s, t)
  {
  }

  lemma CloseContinues(s: State, l: LeaseId)
    requires l in s.leases && s.leases[l].once != Closed
    ensures CloseGoesOn(s, l)
  {
    match s.leases[l].once
    case Fresh => assert Enabled(s, OfLease(l, EnterOnce));
    case Entered => assert Enabled(s, OfLease(l, CloseDone));
    case Draining => assert Enabled(s, CloseRemove(l));
  }

  lemma RegistrarNotStuck(s: State, l: LeaseId)
    requires l in s.leases && s.leases[l].registrar != Left && PhaseInv(s.leases[l])
    ensures RegistrarGoesOn(s, l)
  {
    var x := s.leases[l];
    if x.registrar == Admitting {
      RegistrarCanStep(s, l, Admit(l));
    } else if x.registrar == Leaving && x.once != Closed {
      CloseContinues(s, l);
    } else if (x.registrar == Leaving || x.registrar == Joining) && x.idle == Reading {
      assert Enabled(s, OfLease(l, IdleReturn(0, Timeout)));
    } else if (x.registrar == Leaving || x.registrar == Joining) && x.idle.Reported? {
      assert Enabled(s, OfLease(l, IdleExit));
    } else {
      var move := NextOfRegistrar(x.registrar);
      MoveEnabled(x, s.pool.generation, move);
      RegistrarCanStep(s, l, OfLease(l, move));
    }
  }

  lemma RegistrarCanStep(s: State, l: LeaseId, step: Step)
    requires l in s.leases && OfRegistrarStep(step, l) && Enabled(s, step)
    ensures RegistrarGoesOn(s, l)
  {
  }

  lemma MoveEnabled(x: Lease, generation: nat, move: LeaseMove)
    requires PhaseInv(x) && x.registrar != Admitting && x.registrar != Left && move == NextOfRegistrar(x.registrar)
    requires x.registrar == Leaving ==> x.once == Closed
    requires x.registrar == Leaving || x.registrar == Joining ==> x.idle != Reading && !x.idle.Reported?
    ensures LeaseEnabled(x, generation, move) && RegistrarMove(move)
  {
  }

  /** A step the taker can take at this point, whatever happens elsewhere. */
  function NextOfTaker(at: Taker, t: TakerId): Step {
    match at
    case Looking => OfTaker(t, Look(false))
    case Taking => Take(t)
    case Vetting(_) => OfTaker(t, Vet)
    case Matching(_) => OfTaker(t, Match)
    case Claiming(_) => Claim(t)
    case Confirming(_) => OfTaker(t, Confirm(false))
    case Discarding(_, _) => OfTaker(t, Discarded)
    case _ => OfTaker(t, Expire)
  }

  function NextOfRegistrar(r: Registrar): LeaseMove
    requires r != Admitting
  {
    match r
    case Polling => Poll(true)
    case Blocked(_) => GiveUp
    case Replying => Reply(true)
    case Launching => Launch
    case Announcing => Announce
    case Idling => Abandon
    case Interrupting => Interrupt(true)
    case Joining => Join
    case Restoring => Restore(true)
    case HandingOver => HandOver
    case Serving => Release
    case _ => Leave
  }

  /** The taker stands at a lease that it closes and passes over. */
  predicate Skipping(at: Taker) {
    at.Discarding? && at.retry
  }

  predicate Mismatched(leases: map<LeaseId, Lease>, l: LeaseId, token: string) {
    l in leases && leases[l].token != token
  }

  /** A lease that its taker closes and passes over has another token than the taker's. */
  lemma {:induction false} SkippedLeaseMismatches(states: seq<State>, steps: seq<Step>, i: nat, t: TakerId)
    requires IsRun(states, steps) && i < |states| && t in states[i].takers && Skipping(states[i].takers[t].at)
    ensures Mismatched(states[i].leases, states[i].takers[t].at.lease, states[i].takers[t].token)
  {
    SkipStep(states[i - 1], steps[i - 1], t);
    if states[i - 1].takers[t] == states[i].takers[t] {
      SkippedLeaseMismatches(states, steps, i - 1, t);
    }
    TokenKept(states[i - 1], steps[i - 1], states[i].takers[t].at.lease);
  }

  lemma SkipStep(s: State, step: Step, t: TakerId)
    requires Enabled(s, step) && t in Apply(s, step).takers && Skipping(Apply(s, step).takers[t].at)
    ensures t in s.takers && s.takers[t].token == Apply(s, step).takers[t].token
    ensures || s.takers[t] == Apply(s, step).takers[t]
            || Mismatched(s.leases, Apply(s, step).takers[t].at.lease, s.takers[t].token)
  {
    match step
    case OfTaker(u, action) =>
      if u == t { match action { case _ => } }
    case _ =>
  }

  lemma TokenKept(s: State, step: Step, l: LeaseId)
    requires Enabled(s, step)
    ensures l in s.leases ==> l in Apply(s, step).leases && Apply(s, step).leases[l].token == s.leases[l].token
  {
    match step
    case OfLease(m, move) =>
      if m == l { match move { case _ => } }
    case _ =>
  }

  // ---- Runs that reach the end ----

  /** A run whose last state has lease 0 and taker 0 as given. */
  ghost predicate Reaches(states: seq<State>, steps: seq<Step>, x: Lease, c: Claimant) {
    && IsRun(states, steps)
    && var s := states[|states| - 1];
       0 in s.leases && s.leases[0] == x && 0 in s.takers && s.takers[0] == c
  }

  /** The protocol does hand leases over: one registrar and one taker with the same token have a run
      that ends with the taker owning the connection. */
  lemma HandoffHappens(token: string) returns (states: seq<State>, steps: seq<Step>)
    ensures Reaches(states, steps, Served(token), Claimant(token, Returned(0)))
  {
    states, steps := TakeHappens(token);
    states, steps := HandoffFollows(states, steps, token);
  }

  /** It also does so when the taker comes first: it finds the pool empty, waits, is woken by the
      admission, and ends with the connection. */
  lemma WaitingTakerIsServed(token: string) returns (states: seq<State>, steps: seq<Step>, i: nat)
    ensures Reaches(states, steps, Served(token), Claimant(token, Returned(0)))
    ensures i + 1 < |steps| && steps[i] == Admit(0) && steps[i + 1] == OfTaker(0, Rouse)
    ensures 0 in states[i].takers && states[i].takers[0].at.Waiting?
  {
    states, steps := WaitHappens(token);
    i := |steps|;
    states, steps := Extend(states, steps, Admit(0));
    states, steps := Extend(states, steps, OfTaker(0, Rouse));
    states, steps := Extend(states, steps, OfTaker(0, Look(false)));
    states, steps := Extend(states, steps, Take(0));
    states, steps := HandoffFollows(states, steps, token);
  }

  function Served(token: string): Lease {
    Lease(token, Fresh, 0, 1, 1, 1, Serving, Reported(0, Timeout), 1, 1, 0, Some(0))
  }

  /** A served connection ends: its registrar leaves once the close and the idle reader are done. */
  lemma ConnectionEnds(token: string) returns (states: seq<State>, steps: seq<Step>)
    ensures Reaches(states, steps, Lease(token, Closed, 1, 1, 1, 1, Left, Finished(0, Timeout), 1, 1, 0, Some(0)),
                    Claimant(token, Returned(0)))
  {
    states, steps := HandoffHappens(token);
    var x, c := Served(token), Claimant(token, Returned(0));
    states, steps := LeaseMoves(states, steps, EnterOnce, x.(once := Entered), c);
    states, steps := LeaseMoves(states, steps, CloseDone, x.(once := Draining, done := 1), c);
    states, steps := Extend(states, steps, CloseRemove(0));
    states, steps := LeaseMoves(states, steps, IdleExit, x.(once := Closed, done := 1, idle := Finished(0, Timeout)), c);
    x := x.(once := Closed, done := 1, idle := Finished(0, Timeout));
    states, steps := LeaseMoves(states, steps, Release, x.(registrar := Leaving), c);
    states, steps := LeaseMoves(states, steps, Leave, x.(registrar := Left), c);
  }

  /** From the take on, nothing need stand in the way. */
  lemma HandoffFollows(states: seq<State>, steps: seq<Step>, token: string) returns (states': seq<State>, steps': seq<Step>)
    requires Reaches(states, steps, Queued(token, Replying, NotStarted), Claimant(token, Vetting(0)))
    ensures Reaches(states', steps', Served(token), Claimant(token, Returned(0)))
    ensures states <= states' && steps <= steps'
  {
    var x, c := Served(token), Claimant(token, Returned(0));
    states', steps' := AnnounceFollows(states, steps, token);
    states', steps' := ClaimFollows(states', steps', token);
    states', steps' := LeaseMoves(states', steps', Join, x.(handoff := 0, registrar := Restoring), c.(at := AwaitingHandoff(0)));
    states', steps' := LeaseMoves(states', steps', Restore(true), x.(handoff := 0, registrar := HandingOver), c.(at := AwaitingHandoff(0)));
    states', steps' := LeaseMoves(states', steps', HandOver, x, c.(at := AwaitingHandoff(0)));
    states', steps' := ReturnFollows(states', steps', token);
  }

  lemma ReturnFollows(states: seq<State>, steps: seq<Step>, token: string) returns (states': seq<State>, steps': seq<Step>)
    requires Reaches(states, steps, Served(token), Claimant(token, AwaitingHandoff(0)))
    ensures Reaches(states', steps', Served(token), Claimant(token, Returned(0)))
    ensures states <= states' && steps <= steps'
  {
    states', steps' := TakerMoves(states, steps, SeeHandoff, Served(token), Claimant(token, Confirming(0)));
    states', steps' := TakerMoves(states', steps', Confirm(false), Served(token), Claimant(token, Returned(0)));
  }

  lemma ClaimFollows(states: seq<State>, steps: seq<Step>, token: string) returns (states': seq<State>, steps': seq<Step>)
    requires Reaches(states, steps, Offered(token, 0, Idling, Reading), Claimant(token, AwaitingReady(0)))
    ensures Reaches(states', steps', Offered(token, 1, Joining, Reported(0, Timeout)), Claimant(token, AwaitingHandoff(0)))
    ensures states <= states' && steps <= steps'
  {
    var c := Claimant(token, AwaitingHandoff(0));
    states', steps' := TakerMoves(states, steps, SeeReady, Offered(token, 0, Idling, Reading), c.(at := Claiming(0)));
    states', steps' := Extend(states', steps', Claim(0));
    states', steps' := LeaseMoves(states', steps', SeeTaken, Offered(token, 1, Interrupting, Reading), c);
    states', steps' := LeaseMoves(states', steps', Interrupt(true), Offered(token, 1, Joining, Reading), c);
    states', steps' := LeaseMoves(states', steps', IdleReturn(0, Timeout), Offered(token, 1, Joining, Reported(0, Timeout)), c);
  }

  lemma AnnounceFollows(states: seq<State>, steps: seq<Step>, token: string) returns (states': seq<State>, steps': seq<Step>)
    requires Reaches(states, steps, Queued(token, Replying, NotStarted), Claimant(token, Vetting(0)))
    ensures Reaches(states', steps', Offered(token, 0, Idling, Reading), Claimant(token, AwaitingReady(0)))
    ensures states <= states' && steps <= steps'
  {
    var c := Claimant(token, AwaitingReady(0));
    states', steps' := TakerMoves(states, steps, Vet, Queued(token, Replying, NotStarted), c.(at := Matching(0)));
    states', steps' := TakerMoves(states', steps', Match, Queued(token, Replying, NotStarted), c);
    states', steps' := LeaseMoves(states', steps', Reply(true), Queued(token, Launching, NotStarted), c);
    states', steps' := LeaseMoves(states', steps', Launch, Queued(token, Announcing, Reading), c);
    states', steps' := LeaseMoves(states', steps', Announce, Offered(token, 0, Idling, Reading), c);
  }

  /** A lease taken by taker 0 before it is announced, and one announced. */
  function Queued(token: string, registrar: Registrar, idle: Idle): Lease {
    Lease(token, Fresh, 0, 0, 0, 0, registrar, idle, 1, 1, 0, Some(0))
  }

  function Offered(token: string, taken: nat, registrar: Registrar, idle: Idle): Lease {
    Lease(token, Fresh, 0, 1, taken, 0, registrar, idle, 1, 1, 0, Some(0))
  }

  lemma LeaseMoves(states: seq<State>, steps: seq<Step>, move: LeaseMove, x: Lease, c: Claimant)
    returns (states': seq<State>, steps': seq<Step>)
    requires IsRun(states, steps)
    requires var s := states[|states| - 1];
             && Enabled(s, OfLease(0, move)) && LeaseAfter(s.leases[0], s.pool.generation, move) == x
             && 0 in s.takers && s.takers[0] == c
    ensures Reaches(states', steps', x, c)
    ensures states <= states' && steps <= steps'
  {
    states', steps' := Extend(states, steps, OfLease(0, move));
  }

  lemma TakerMoves(states: seq<State>, steps: seq<Step>, action: TakerMove, x: Lease, c: Claimant)
    returns (states': seq<State>, steps': seq<Step>)
    requires IsRun(states, steps)
    requires var s := states[|states| - 1];
             && Enabled(s, OfTaker(0, action)) && s.takers[0].token == c.token
             && TakerAfter(s.takers[0].at, c.token, s.leases, s.pool.generation, action) == c.at
             && 0 in s.leases && s.leases[0] == x
    ensures Reaches(states', steps', x, c)
    ensures states <= states' && steps <= steps'
  {
    states', steps' := Extend(states, steps, OfTaker(0, action));
  }

  lemma TakeHappens(token: string) returns (states: seq<State>, steps: seq<Step>)
    ensures Reaches(states, steps, Queued(token, Replying, NotStarted), Claimant(token, Vetting(0)))
  {
    states, steps := [Initial], [];
    states, steps := Extend(states, steps, Register(0, token));
    states, steps := Extend(states, steps, Arrive(0, token));
    states, steps := Extend(states, steps, OfTaker(0, Look(false)));
    states, steps := Extend(states, steps, OfLease(0, Poll(false)));
    states, steps := Extend(states, steps, Admit(0));
    states, steps := Extend(states, steps, Take(0));
  }

  lemma WaitHappens(token: string) returns (states: seq<State>, steps: seq<Step>)
    ensures Reaches(states, steps, NewLease(token).(registrar := Admitting), Claimant(token, Waiting(0)))
    ensures states[|states| - 1].pool == Contents([], 0) && states[|states| - 1].tickets == 0
  {
    states, steps := [Initial], [];
    states, steps := Extend(states, steps, Arrive(0, token));
    states, steps := Extend(states, steps, OfTaker(0, Look(false)));
    states, steps := Extend(states, steps, Take(0));
    states, steps := Extend(states, steps, Register(0, token));
    states, steps := Extend(states, steps, OfLease(0, Poll(false)));
  }

  lemma Extend(states: seq<State>, steps: seq<Step>, step: Step) returns (states': seq<State>, steps': seq<Step>)
    requires IsRun(states, steps) && Enabled(states[|states| - 1], step)
    ensures IsRun(states', steps')
    ensures |states'| > 0 && states'[|states'| - 1] == Apply(states[|states| - 1], step)
    ensures states <= states' && steps' == steps + [step]
  {
    states', steps' := states + [Apply(states[|states| - 1], step)], steps + [step];
  }
}
