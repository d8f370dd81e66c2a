/** The reverse-callback protocol: registrars offer connections, takers claim them, and read ownership
    of a connection moves from its idle reader to the taker through four channels. Every lock section,
    channel close and select arm is one step, and steps of all goroutines interleave freely. */
module CallbackProtocol {
  import opened Options
  import opened CallbackPool

  type TakerId = nat

  /** How far the one effective Close of a connection has come: entered, `done` closed, removed. */
  datatype Once = Fresh | Entered | Draining | Closed

  datatype ReadError = NoError | Timeout | OtherError

  /** The goroutine that reads the idle connection: its single Read, its report, its exit. */
  datatype Idle =
    | NotStarted
    | Reading
    | Reported(count: nat, error: ReadError)
    | Finished(count: nat, error: ReadError)

  datatype Registrar =
    | Polling | Admitting | Blocked(changed: nat)
    | Replying | Launching | Announcing
    | Idling | Interrupting | Joining | Restoring | HandingOver | Serving
    | Leaving | Left

  datatype Taker =
    | Looking | Taking | Waiting(changed: nat)
    | Vetting(lease: LeaseId) | Matching(lease: LeaseId)
    | AwaitingReady(lease: LeaseId) | Claiming(lease: LeaseId)
    | AwaitingHandoff(lease: LeaseId) | Confirming(lease: LeaseId)
    | Discarding(lease: LeaseId, retry: bool)
    | Returned(lease: LeaseId) | Failed

  /** One connection. The channel fields count closes: a second close would panic. The last four
      fields are history: admissions, takes, the admission ticket and the taker that got the lease. */
  datatype Lease = Lease(
    token: string,
    once: Once,
    done: nat, ready: nat, taken: nat, handoff: nat,
    registrar: Registrar,
    idle: Idle,
    admissions: nat, takes: nat, ticket: nat, holder: Option<TakerId>)

  datatype Claimant = Claimant(token: string, at: Taker)

  /** `log` is the history of taken leases, oldest first; `tickets` the number of admissions so far. */
  datatype State = State(
    pool: Contents,
    leases: map<LeaseId, Lease>,
    takers: map<TakerId, Claimant>,
    log: seq<LeaseId>,
    tickets: nat)

  const Initial := State(Contents([], 0), map[], map[], [], 0)

  /** Steps of one connection that touch neither the pool nor a taker: its Close, its registrar
      and its idle reader. Timers and cancellation may fire at any moment. */
  datatype LeaseMove =
    | EnterOnce | CloseDone
    | Poll(quit: bool) | Wake | GiveUp
    | Reply(ok: bool) | Launch | Announce
    | SeeTaken | Abandon | Interrupt(ok: bool) | Join | Restore(ok: bool) | HandOver | Release
    | Leave
    | IdleReturn(count: nat, error: ReadError) | IdleExit

  /** Steps of one taker that change nothing else. */
  datatype TakerMove =
    | Look(expired: bool) | Rouse | Expire
    | Vet | Match | SeeReady | SeeDone | SeeHandoff | Confirm(cancelled: bool) | Discarded

  datatype Step =
    | Register(lease: LeaseId, token: string)
    | Arrive(taker: TakerId, token: string)
    | Admit(lease: LeaseId)
    | CloseRemove(lease: LeaseId)
    | Take(taker: TakerId)
    | Claim(taker: TakerId)
    | OfLease(lease: LeaseId, move: LeaseMove)
    | OfTaker(taker: TakerId, action: TakerMove)

  function NewLease(token: string): Lease {
    Lease(token, Fresh, 0, 0, 0, 0, Polling, NotStarted, 0, 0, 0, None)
  }

  /** The idle reader's Read ended with a deadline error and no byte consumed. */
  predicate IdleClean(idle: Idle) {
    (idle.Reported? || idle.Finished?) && idle.count == 0 && idle.error == Timeout
  }

  /** What the registrar learns from the idle reader: any byte, or no error, is a failure. */
  predicate TimedOut(count: nat, error: ReadError) {
    !(count != 0 || error == NoError) && error == Timeout
  }

  predicate LeaseEnabled(x: Lease, generation: nat, move: LeaseMove) {
    match move
    case EnterOnce => x.once == Fresh
    case CloseDone => x.once == Entered
    case Poll(quit) => x.registrar == Polling && (!quit ==> x.done == 0)
    case Wake => x.registrar.Blocked? && x.registrar.changed < generation
    case GiveUp => x.registrar.Blocked?
    case Reply(_) => x.registrar == Replying
    case Launch => x.registrar == Launching
    case Announce => x.registrar == Announcing
    case SeeTaken => x.registrar == Idling && x.taken > 0
    case Abandon => x.registrar == Idling
    case Interrupt(_) => x.registrar == Interrupting
    case Join => x.registrar == Joining && (x.idle.Reported? || x.idle.Finished?)
    case Restore(_) => x.registrar == Restoring
    case HandOver => x.registrar == HandingOver
    case Release => x.registrar == Serving
    case Leave => x.registrar == Leaving && x.once == Closed && (x.idle == NotStarted || x.idle.Finished?)
    case IdleReturn(count, _) => x.idle == Reading && count <= 1
    case IdleExit => x.idle.Reported?
  }

  function LeaseAfter(x: Lease, generation: nat, move: LeaseMove): Lease
    requires LeaseEnabled(x, generation, move)
  {
    match move
    case EnterOnce => x.(once := Entered)
    case CloseDone => x.(once := Draining, done := x.done + 1)
    case Poll(quit) => x.(registrar := if quit then Leaving else Admitting)
    case Wake => x.(registrar := Polling)
    case GiveUp => x.(registrar := Leaving)
    case Reply(ok) => x.(registrar := if ok then Launching else Leaving)
    case Launch => x.(registrar := Announcing, idle := Reading)
    case Announce => x.(registrar := Idling, ready := x.ready + 1)
    case SeeTaken => x.(registrar := Interrupting)
    case Abandon => x.(registrar := Leaving)
    case Interrupt(ok) => x.(registrar := if ok then Joining else Leaving)
    case Join => x.(registrar := if TimedOut(x.idle.count, x.idle.error) then Restoring else Leaving)
    case Restore(ok) => x.(registrar := if ok then HandingOver else Leaving)
    case HandOver => x.(registrar := Serving, handoff := x.handoff + 1)
    case Release => x.(registrar := Leaving)
    case Leave => x.(registrar := Left)
    case IdleReturn(count, error) => x.(idle := Reported(count, error))
    case IdleExit => x.(idle := Finished(x.idle.count, x.idle.error))
  }

  predicate Holding(at: Taker) {
    !(at.Looking? || at.Taking? || at.Waiting? || at.Failed?)
  }

  predicate TakerEnabled(at: Taker, leases: map<LeaseId, Lease>, generation: nat, action: TakerMove) {
    && (Holding(at) ==> at.lease in leases)
    && match action
       case Look(_) => at == Looking
       case Rouse => at.Waiting? && at.changed < generation
       case Expire => at.Waiting? || at.AwaitingReady? || at.AwaitingHandoff?
       case Vet => at.Vetting?
       case Match => at.Matching?
       case SeeReady => at.AwaitingReady? && leases[at.lease].ready > 0
       case SeeDone => (at.AwaitingReady? || at.AwaitingHandoff?) && leases[at.lease].done > 0
       case SeeHandoff => at.AwaitingHandoff? && leases[at.lease].handoff > 0
       case Confirm(_) => at.Confirming?
       case Discarded => at.Discarding? && leases[at.lease].once == Closed
  }

  function TakerAfter(at: Taker, token: string, leases: map<LeaseId, Lease>, generation: nat, action: TakerMove): Taker
    requires TakerEnabled(at, leases, generation, action)
  {
    match action
    case Look(expired) => if expired then Failed else Taking
    case Rouse => Looking
    case Expire => if at.Waiting? then Failed else Discarding(at.lease, false)
    case Vet => if leases[at.lease].done > 0 then Looking else Matching(at.lease)
    case Match => if leases[at.lease].token == token then AwaitingReady(at.lease) else Discarding(at.lease, true)
    case SeeReady => Claiming(at.lease)
    case SeeDone => Looking
    case SeeHandoff => Confirming(at.lease)
    case Confirm(cancelled) => if cancelled then Discarding(at.lease, false) else Returned(at.lease)
    case Discarded => if at.retry then Looking else Failed
  }

  predicate Enabled(s: State, step: Step) {
    match step
    case Register(l, _) => l !in s.leases
    case Arrive(t, _) => t !in s.takers
    case Admit(l) => l in s.leases && s.leases[l].registrar == Admitting
    case CloseRemove(l) => l in s.leases && s.leases[l].once == Draining
    case Take(t) => t in s.takers && s.takers[t].at == Taking && (s.pool.entries != [] ==> s.pool.entries[0] in s.leases)
    case Claim(t) => t in s.takers && s.takers[t].at.Claiming? && s.takers[t].at.lease in s.leases
    case OfLease(l, move) => l in s.leases && LeaseEnabled(s.leases[l], s.pool.generation, move)
    case OfTaker(t, action) => t in s.takers && TakerEnabled(s.takers[t].at, s.leases, s.pool.generation, action)
  }

  function Apply(s: State, step: Step): State
    requires Enabled(s, step)
  {
    match step
    case Register(l, token) => s.(leases := s.leases[l := NewLease(token)])
    case Arrive(t, token) => s.(takers := s.takers[t := Claimant(token, Looking)])
    case Admit(l) =>
      var x := s.leases[l];
      if Admissible(s.pool, x.done > 0) then
        s.(pool := Admitted(s.pool, l, x.done > 0), tickets := s.tickets + 1,
           leases := s.leases[l := x.(registrar := Replying, admissions := x.admissions + 1, ticket := s.tickets)])
      else
        s.(leases := s.leases[l := x.(registrar := Blocked(s.pool.generation))])
    case CloseRemove(l) =>
      s.(pool := Removed(s.pool, l), leases := s.leases[l := s.leases[l].(once := Closed)])
    case Take(t) =>
      var c := s.takers[t];
      if s.pool.entries == [] then s.(takers := s.takers[t := c.(at := Waiting(s.pool.generation))])
      else
        var l := s.pool.entries[0];
        var x := s.leases[l];
        s.(pool := Taken(s.pool), log := s.log + [l],
           leases := s.leases[l := x.(takes := x.takes + 1, holder := Some(t))],
           takers := s.takers[t := c.(at := Vetting(l))])
    case Claim(t) =>
      var c := s.takers[t];
      var x := s.leases[c.at.lease];
      s.(leases := s.leases[c.at.lease := x.(taken := x.taken + 1)],
         takers := s.takers[t := c.(at := AwaitingHandoff(c.at.lease))])
    case OfLease(l, move) =>
      s.(leases := s.leases[l := LeaseAfter(s.leases[l], s.pool.generation, move)])
    case OfTaker(t, action) =>
      var c := s.takers[t];
      s.(takers := s.takers[t := c.(at := TakerAfter(c.at, c.token, s.leases, s.pool.generation, action))])
  }

  /** A run from the empty pool: any interleaving of enabled steps. */
  ghost predicate IsRun(states: seq<State>, steps: seq<Step>) {
    && |states| == |steps| + 1
    && states[0] == Initial
    && forall i | 0 <= i < |steps| :: Enabled(states[i], steps[i]) && states[i + 1] == Apply(states[i], steps[i])
  }

  // ---- The invariant ----

  function Rank(r: Registrar): nat {
    match r
    case Polling => 0 case Admitting => 0 case Blocked(_) => 0
    case Replying => 1 case Launching => 2 case Announcing => 3
    case Idling => 4 case Interrupting => 5 case Joining => 6 case Restoring => 7 case HandingOver => 8
    case Serving => 9 case Leaving => 10 case Left => 11
  }

  /** What the registrar's position says about the lease's channels, reader and history. */
  predicate PhaseInv(x: Lease) {
    var r := Rank(x.registrar);
    && (r == 0 ==> x.admissions == 0)
    && (1 <= r <= 9 ==> x.admissions == 1)
    && (r <= 3 ==> x.ready == 0)
    && (4 <= r <= 9 ==> x.ready == 1)
    && (r <= 8 ==> x.handoff == 0)
    && (r == 9 ==> x.handoff == 1)
    && (r <= 2 ==> x.idle == NotStarted)
    && (3 <= r <= 9 ==> x.idle != NotStarted)
    && (5 <= r <= 9 ==> x.taken == 1)
    && (7 <= r <= 9 ==> IdleClean(x.idle))
    && (x.registrar == Left ==> x.once == Closed && (x.idle == NotStarted || x.idle.Finished?))
  }

  /** Each channel is closed at most once, and closes happen in protocol order. */
  predicate ChannelInv(x: Lease) {
    && x.done == (if x.once == Draining || x.once == Closed then 1 else 0)
    && x.ready <= 1 && x.taken <= 1 && x.handoff <= 1
    && (x.ready == 1 ==> x.admissions == 1 && x.idle != NotStarted)
    && (x.taken == 1 ==> x.ready == 1 && x.holder.Some?)
    && (x.handoff == 1 ==> x.taken == 1 && IdleClean(x.idle))
  }

  predicate HistoryInv(x: Lease) {
    && x.takes <= x.admissions <= 1
    && (x.takes == 1 <==> x.holder.Some?)
  }

  predicate LeaseInv(x: Lease, queued: bool, pool: Contents) {
    && PhaseInv(x) && ChannelInv(x) && HistoryInv(x)
    && (queued ==> x.admissions == 1 && x.takes == 0 && x.once != Closed)
    && (x.registrar.Blocked? ==>
          && x.registrar.changed <= pool.generation
          && (x.registrar.changed == pool.generation && x.done == 0 ==> |pool.entries| == CAPACITY))
  }

  predicate TakerInv(c: Claimant, t: TakerId, leases: map<LeaseId, Lease>, pool: Contents) {
    && (c.at.Waiting? ==> c.at.changed <= pool.generation && (c.at.changed == pool.generation ==> pool.entries == []))
    && (Holding(c.at) ==> c.at.lease in leases && ClaimInv(c, t, leases[c.at.lease]))
  }

  predicate ClaimInv(c: Claimant, t: TakerId, x: Lease)
    requires Holding(c.at)
  {
    && x.holder == Some(t)
    && (c.at.Vetting? || c.at.Matching? || c.at.AwaitingReady? || c.at.Claiming? ==> x.taken == 0)
    && (c.at.Claiming? ==> x.ready == 1)
    && (c.at.AwaitingReady? || c.at.Claiming? || c.at.AwaitingHandoff? || c.at.Confirming? || c.at.Returned? ==>
          x.token == c.token)
    && (c.at.AwaitingHandoff? ==> x.taken == 1)
    && (c.at.Confirming? || c.at.Returned? ==> x.handoff == 1)
  }

  /** Taken leases followed by queued ones stand in admission order. */
  ghost predicate LineInv(line: seq<LeaseId>, leases: map<LeaseId, Lease>, tickets: nat) {
    && (forall i | 0 <= i < |line| :: line[i] in leases && leases[line[i]].ticket < tickets)
    && (forall i, j | 0 <= i < j < |line| :: leases[line[i]].ticket < leases[line[j]].ticket)
  }

  ghost predicate Inv(s: State) {
    && |s.pool.entries| <= CAPACITY
    && LineInv(s.log + s.pool.entries, s.leases, s.tickets)
    && (forall l | l in s.leases :: LeaseInv(s.leases[l], l in s.pool.entries, s.pool))
    && (forall l | l in s.leases :: s.leases[l].takes == 1 <==> l in s.log)
    && (forall t | t in s.takers :: TakerInv(s.takers[t], t, s.leases, s.pool))
  }

  // ---- Every step keeps the invariant ----

  /** What a move of one connection can never change, and the channels it can only close. */
  predicate Continues(x: Lease, y: Lease) {
    && y.takes == x.takes && y.ticket == x.ticket && y.holder == x.holder && y.token == x.token
    && y.taken == x.taken && y.ready >= x.ready && y.handoff >= x.handoff
  }

  lemma PhaseKept(x: Lease, generation: nat, move: LeaseMove)
    requires PhaseInv(x) && ChannelInv(x) && LeaseEnabled(x, generation, move)
    ensures PhaseInv(LeaseAfter(x, generation, move))
  {
    match move {
      case EnterOnce => case CloseDone => case Poll(_) => case Wake => case GiveUp => case Reply(_) => case Launch =>
      case Announce => case SeeTaken => case Abandon => case Interrupt(_) => case Join => case Restore(_) =>
      case HandOver => case Release => case Leave => case IdleReturn(_, _) => case IdleExit =>
    }
  }

  lemma ChannelsKept(x: Lease, generation: nat, move: LeaseMove)
    requires PhaseInv(x) && ChannelInv(x) && LeaseEnabled(x, generation, move)
    ensures ChannelInv(LeaseAfter(x, generation, move))
  {
    match move {
      case EnterOnce => case CloseDone => case Poll(_) => case Wake => case GiveUp => case Reply(_) => case Launch =>
      case Announce => case SeeTaken => case Abandon => case Interrupt(_) => case Join => case Restore(_) =>
      case HandOver => case Release => case Leave => case IdleReturn(_, _) => case IdleExit =>
    }
  }

  lemma LeaseMoveKeeps(x: Lease, queued: bool, pool: Contents, move: LeaseMove)
    requires LeaseInv(x, queued, pool) && LeaseEnabled(x, pool.generation, move)
    ensures LeaseInv(LeaseAfter(x, pool.generation, move), queued, pool)
    ensures Continues(x, LeaseAfter(x, pool.generation, move))
  {
    PhaseKept(x, pool.generation, move);
    ChannelsKept(x, pool.generation, move);
  }

  lemma TakerMoveKeeps(c: Claimant, t: TakerId, leases: map<LeaseId, Lease>, pool: Contents, action: TakerMove)
    requires TakerInv(c, t, leases, pool) && TakerEnabled(c.at, leases, pool.generation, action)
    requires forall l | l in leases :: ChannelInv(leases[l])
    ensures TakerInv(c.(at := TakerAfter(c.at, c.token, leases, pool.generation, action)), t, leases, pool)
  {
  }

  lemma StepKeeps(s: State, step: Step)
    requires Inv(s) && Enabled(s, step)
    ensures Inv(Apply(s, step))
  {
    match step
    case Register(l, token) => RegisterKeeps(s, l, token);
    case Arrive(t, token) =>
    case Admit(l) => AdmitKeeps(s, l);
    case CloseRemove(l) => RemoveKeeps(s, l);
    case Take(t) => TakeKeeps(s, t);
    case Claim(t) => ClaimKeeps(s, t);
    case OfLease(l, move) => OfLeaseKeeps(s, l, move);
    case OfTaker(t, action) => TakerMoveKeeps(s.takers[t], t, s.leases, s.pool, action);
  }

  lemma RegisterKeeps(s: State, l: LeaseId, token: string)
    requires Inv(s) && l !in s.leases
    ensures Inv(Apply(s, Register(l, token)))
  {
    NotInLine(s, l);
  }

  lemma NotInLine(s: State, l: LeaseId)
    requires Inv(s) && l !in s.leases
    ensures l !in s.log && l !in s.pool.entries
  {
    var line := s.log + s.pool.entries;
    assert forall i | 0 <= i < |s.log| :: line[i] == s.log[i];
    assert forall i | 0 <= i < |s.pool.entries| :: line[|s.log| + i] == s.pool.entries[i];
  }

  lemma OfLeaseKeeps(s: State, l: LeaseId, move: LeaseMove)
    requires Inv(s) && Enabled(s, OfLease(l, move))
    ensures Inv(Apply(s, OfLease(l, move)))
  {
    LeaseMoveKeeps(s.leases[l], l in s.pool.entries, s.pool, move);
    ReplacedLease(s, l, LeaseAfter(s.leases[l], s.pool.generation, move));
  }

  lemma ReplacedLease(s: State, l: LeaseId, y: Lease)
    requires Inv(s) && l in s.leases
    requires LeaseInv(y, l in s.pool.entries, s.pool) && Continues(s.leases[l], y)
    ensures Inv(s.(leases := s.leases[l := y]))
  {
    var after := s.leases[l := y];
    assert LineInv(s.log + s.pool.entries, after, s.tickets);
    forall t | t in s.takers ensures TakerInv(s.takers[t], t, after, s.pool) {
      assert TakerInv(s.takers[t], t, s.leases, s.pool);
      assert ChannelInv(y);
    }
  }

  lemma ClaimKeeps(s: State, t: TakerId)
    requires Inv(s) && Enabled(s, Claim(t))
    ensures Inv(Apply(s, Claim(t)))
  {
    ClaimKeepsTakers(s, t);
    ClaimKeepsLeases(s, t);
  }

  lemma ClaimKeepsTakers(s: State, t: TakerId)
    requires Inv(s) && Enabled(s, Claim(t))
    ensures var s' := Apply(s, Claim(t)); forall u | u in s'.takers :: TakerInv(s'.takers[u], u, s'.leases, s'.pool)
  {
    var s' := Apply(s, Claim(t));
    assert TakerInv(s.takers[t], t, s.leases, s.pool);
    forall u | u in s'.takers ensures TakerInv(s'.takers[u], u, s'.leases, s'.pool) {
      assert TakerInv(s.takers[u], u, s.leases, s.pool);
    }
  }

  lemma ClaimKeepsLeases(s: State, t: TakerId)
    requires Inv(s) && Enabled(s, Claim(t))
    ensures var s' := Apply(s, Claim(t));
            && (forall l | l in s'.leases :: LeaseInv(s'.leases[l], l in s'.pool.entries, s'.pool))
            && LineInv(s'.log + s'.pool.entries, s'.leases, s'.tickets)
  {
    assert TakerInv(s.takers[t], t, s.leases, s.pool);
  }

  /** Leases and takers not concerned by a pool change keep their invariants across it: whoever waits
      now waits on a closed channel. */
  lemma LeasesAcross(s: State, s': State, l: LeaseId)
    requires Inv(s) && s'.pool.generation > s.pool.generation && l in s.leases && l in s'.leases
    requires s'.leases == s.leases[l := s'.leases[l]]
    requires forall m | m != l :: m in s'.pool.entries <==> m in s.pool.entries
    requires LeaseInv(s'.leases[l], l in s'.pool.entries, s'.pool)
    ensures forall m | m in s'.leases :: LeaseInv(s'.leases[m], m in s'.pool.entries, s'.pool)
  {
    forall m | m in s'.leases ensures LeaseInv(s'.leases[m], m in s'.pool.entries, s'.pool) {
      assert m != l ==> LeaseInv(s.leases[m], m in s.pool.entries, s.pool);
    }
  }

  lemma TakersAcross(s: State, s': State, l: LeaseId, moved: set<TakerId>)
    requires Inv(s) && s'.pool.generation > s.pool.generation && l in s.leases && l in s'.leases
    requires s'.leases == s.leases[l := s'.leases[l]]
    requires Continues(s.leases[l], s'.leases[l]) || s.leases[l].holder == None
    requires s'.takers.Keys == s.takers.Keys && forall t | t in s.takers && t !in moved :: s'.takers[t] == s.takers[t]
    requires ChannelInv(s'.leases[l])
    ensures forall t | t in s'.takers && t !in moved :: TakerInv(s'.takers[t], t, s'.leases, s'.pool)
  {
    forall t | t in s'.takers && t !in moved ensures TakerInv(s'.takers[t], t, s'.leases, s'.pool) {
      assert TakerInv(s.takers[t], t, s.leases, s.pool);
    }
  }

  lemma AdmitKeeps(s: State, l: LeaseId)
    requires Inv(s) && Enabled(s, Admit(l))
    ensures Inv(Apply(s, Admit(l)))
  {
    var x := s.leases[l];
    assert LeaseInv(x, l in s.pool.entries, s.pool);
    if Admissible(s.pool, x.done > 0) {
      var s' := Apply(s, Admit(l));
      LeasesAcross(s, s', l);
      TakersAcross(s, s', l, {});
      LineGrows(s, l, s'.leases[l]);
    } else {
      ReplacedLease(s, l, x.(registrar := Blocked(s.pool.generation)));
    }
  }

  lemma LineGrows(s: State, l: LeaseId, y: Lease)
    requires Inv(s) && l in s.leases && s.leases[l].admissions == 0 && y.ticket == s.tickets
    ensures LineInv(s.log + (s.pool.entries + [l]), s.leases[l := y], s.tickets + 1)
  {
    var line := s.log + s.pool.entries;
    assert LeaseInv(s.leases[l], l in s.pool.entries, s.pool);
    assert s.leases[l].takes == 1 <==> l in s.log;
    assert l !in line;
    assert s.log + (s.pool.entries + [l]) == line + [l];
  }

  lemma RemoveKeepsLeases(s: State, l: LeaseId)
    requires Inv(s) && Enabled(s, CloseRemove(l)) && l in s.pool.entries
    ensures var s' := Apply(s, CloseRemove(l));
            && (forall m | m in s'.leases :: LeaseInv(s'.leases[m], m in s'.pool.entries, s'.pool))
            && (forall t | t in s'.takers :: TakerInv(s'.takers[t], t, s'.leases, s'.pool))
  {
    var s' := Apply(s, CloseRemove(l));
    assert LeaseInv(s.leases[l], true, s.pool);
    DroppedFromLine(s, l);
    LeasesAcross(s, s', l);
    TakersAcross(s, s', l, {});
  }

  lemma RemoveKeepsLine(s: State, l: LeaseId)
    requires Inv(s) && Enabled(s, CloseRemove(l)) && l in s.pool.entries
    ensures var s' := Apply(s, CloseRemove(l));
            LineInv(s'.log + s'.pool.entries, s'.leases, s'.tickets) && |s'.pool.entries| < |s.pool.entries|
  {
    DroppedFromLine(s, l);
  }

  lemma RemoveKeeps(s: State, l: LeaseId)
    requires Inv(s) && Enabled(s, CloseRemove(l))
    ensures Inv(Apply(s, CloseRemove(l)))
  {
    var x := s.leases[l];
    assert LeaseInv(x, l in s.pool.entries, s.pool);
    if l in s.pool.entries {
      RemoveKeepsLeases(s, l);
      RemoveKeepsLine(s, l);
    } else {
      ReplacedLease(s, l, x.(once := Closed));
    }
  }

  /** No lease stands twice in the line of taken and queued leases. */
  lemma LineDistinct(s: State)
    requires Inv(s)
    ensures var line := s.log + s.pool.entries; forall i, j | 0 <= i < j < |line| :: line[i] != line[j]
  {
  }

  lemma DroppedFromLine(s: State, l: LeaseId)
    requires Inv(s) && l in s.pool.entries
    ensures var rest := Dropped(s.pool.entries, l);
            && LineInv(s.log + rest, s.leases, s.tickets)
            && |rest| == |s.pool.entries| - 1
            && forall m :: m in rest <==> m in s.pool.entries && m != l
  {
    var index := DroppedFindsFirst(s.pool.entries, l);
    LineDistinct(s);
    var line := s.log + s.pool.entries;
    WithoutOne(s.log, s.pool.entries, index);
    var shorter := s.log + Dropped(s.pool.entries, l);
    assert forall i | 0 <= i < |shorter| :: shorter[i] == line[if i < |s.log| + index then i else i + 1];
  }

  lemma WithoutOne(log: seq<LeaseId>, entries: seq<LeaseId>, index: nat)
    requires index < |entries|
    requires var line := log + entries; forall i, j | 0 <= i < j < |line| :: line[i] != line[j]
    ensures var rest := entries[..index] + entries[index + 1..];
            && (forall i | 0 <= i < |log + rest| :: (log + rest)[i] == (log + entries)[if i < |log| + index then i else i + 1])
            && forall m :: m in rest <==> m in entries && m != entries[index]
  {
    var rest := entries[..index] + entries[index + 1..];
    forall m ensures m in rest <==> m in entries && m != entries[index] {
      if m in entries && m != entries[index] {
        var k :| 0 <= k < |entries| && entries[k] == m;
        assert rest[if k < index then k else k - 1] == m;
      }
      if m in rest {
        var k :| 0 <= k < |rest| && rest[k] == m;
        var at := if k < index then k else k + 1;
        assert (log + entries)[|log| + at] == m && (log + entries)[|log| + index] == entries[index];
      }
    }
  }

  lemma TakeKeeps(s: State, t: TakerId)
    requires Inv(s) && Enabled(s, Take(t))
    ensures Inv(Apply(s, Take(t)))
  {
    if s.pool.entries != [] {
      TakeKeepsLeases(s, t);
      TakeKeepsTakers(s, t);
      LogGrows(s, Apply(s, Take(t)).leases[s.pool.entries[0]]);
    }
  }

  lemma TakeKeepsLeases(s: State, t: TakerId)
    requires Inv(s) && Enabled(s, Take(t)) && s.pool.entries != []
    ensures var s' := Apply(s, Take(t));
            && (forall m | m in s'.leases :: LeaseInv(s'.leases[m], m in s'.pool.entries, s'.pool))
            && s'.leases[s.pool.entries[0]].takes == 1
  {
    var s', l := Apply(s, Take(t)), s.pool.entries[0];
    assert LeaseInv(s.leases[l], true, s.pool);
    HeadLeaves(s);
    HeadIsTaken(s, t, s.leases[l], s'.pool);
    LeasesAcross(s, s', l);
  }

  lemma TakeKeepsTakers(s: State, t: TakerId)
    requires Inv(s) && Enabled(s, Take(t)) && s.pool.entries != []
    ensures var s' := Apply(s, Take(t)); forall u | u in s'.takers :: TakerInv(s'.takers[u], u, s'.leases, s'.pool)
  {
    var s', l := Apply(s, Take(t)), s.pool.entries[0];
    assert LeaseInv(s.leases[l], true, s.pool);
    HeadIsTaken(s, t, s.leases[l], s'.pool);
    TakersAcross(s, s', l, {t});
  }

  lemma HeadIsTaken(s: State, t: TakerId, x: Lease, pool: Contents)
    requires LeaseInv(x, true, s.pool)
    ensures var y := x.(takes := x.takes + 1, holder := Some(t));
            LeaseInv(y, false, pool) && y.taken == 0
  {
    assert Rank(x.registrar) != 0;
  }

  lemma LogGrows(s: State, y: Lease)
    requires Inv(s) && s.pool.entries != [] && s.pool.entries[0] in s.leases
    requires y.takes == 1 && y.ticket == s.leases[s.pool.entries[0]].ticket
    ensures var l := s.pool.entries[0];
            && LineInv(s.log + [l] + s.pool.entries[1..], s.leases[l := y], s.tickets)
            && forall m | m in s.leases :: s.leases[l := y][m].takes == 1 <==> m in s.log + [l]
  {
    assert s.log + [s.pool.entries[0]] + s.pool.entries[1..] == s.log + s.pool.entries;
  }

  lemma HeadLeaves(s: State)
    requires Inv(s) && s.pool.entries != []
    ensures forall m :: m in s.pool.entries[1..] <==> m in s.pool.entries && m != s.pool.entries[0]
  {
    LineDistinct(s);
    WithoutOne(s.log, s.pool.entries, 0);
    assert s.pool.entries[..0] + s.pool.entries[1..] == s.pool.entries[1..];
  }

  // ---- Consequences over all runs ----

  lemma {:induction false} RunKeeps(states: seq<State>, steps: seq<Step>, i: nat)
    requires IsRun(states, steps) && i < |states|
    ensures Inv(states[i])
  {
    if i > 0 {
      RunKeeps(states, steps, i - 1);
      StepKeeps(states[i - 1], steps[i - 1]);
    }
  }

  /** Goroutines reading from a connection. */
  datatype Reader = IdleReader | Caller(taker: TakerId)

  ghost predicate Reads(s: State, l: LeaseId, reader: Reader) {
    && l in s.leases
    && match reader
       case IdleReader => s.leases[l].idle == Reading
       case Caller(t) => t in s.takers && s.takers[t].at == Returned(l)
  }

  /** The lease's holder, once set, stays for the rest of the run. */
  lemma {:induction false} HolderStays(states: seq<State>, steps: seq<Step>, i: nat, j: nat, l: LeaseId)
    requires IsRun(states, steps) && i <= j < |states|
    requires l in states[i].leases && states[i].leases[l].holder.Some?
    ensures l in states[j].leases && states[j].leases[l].holder == states[i].leases[l].holder
  {
    if i < j {
      HolderStays(states, steps, i, j - 1, l);
      RunKeeps(states, steps, j - 1);
      HolderKept(states[j - 1], steps[j - 1], l);
    }
  }

  lemma HolderKept(s: State, step: Step, l: LeaseId)
    requires Inv(s) && Enabled(s, step) && l in s.leases && s.leases[l].holder.Some?
    ensures l in Apply(s, step).leases && Apply(s, step).leases[l].holder == s.leases[l].holder
  {
    match step
    case Take(t) =>
      if s.pool.entries != [] { assert LeaseInv(s.leases[s.pool.entries[0]], true, s.pool); }
    case OfLease(m, move) => LeaseMoveKeeps(s.leases[m], m in s.pool.entries, s.pool, move);
    case _ =>
  }

  /** When a taker returns a lease, the token is its own, the idle reader has ended its only Read
      without a byte, the taker is the only reader, and no other taker holds that lease at any
      moment of the run. */
  lemma ExclusiveHandoff(states: seq<State>, steps: seq<Step>, i: nat, t: TakerId, l: LeaseId)
    requires IsRun(states, steps) && i < |states|
    requires t in states[i].takers && states[i].takers[t].at == Returned(l)
    ensures l in states[i].leases && states[i].leases[l].token == states[i].takers[t].token
    ensures IdleClean(states[i].leases[l].idle)
    ensures forall reader :: Reads(states[i], l, reader) <==> reader == Caller(t)
    ensures forall j, u | 0 <= j < |states| && u in states[j].takers && u != t ::
              Holding(states[j].takers[u].at) ==> states[j].takers[u].at.lease != l
  {
    RunKeeps(states, steps, i);
    assert TakerInv(states[i].takers[t], t, states[i].leases, states[i].pool);
    assert LeaseInv(states[i].leases[l], l in states[i].pool.entries, states[i].pool);
    forall u | u in states[i].takers && states[i].takers[u].at == Returned(l) ensures u == t {
      assert TakerInv(states[i].takers[u], u, states[i].leases, states[i].pool);
    }
    forall j, u | 0 <= j < |states| && u in states[j].takers && u != t && Holding(states[j].takers[u].at)
      ensures states[j].takers[u].at.lease != l
    {
      RunKeeps(states, steps, j);
      assert TakerInv(states[j].takers[u], u, states[j].leases, states[j].pool);
      if states[j].takers[u].at.lease == l {
        if j <= i { HolderStays(states, steps, j, i, l); } else { HolderStays(states, steps, i, j, l); }
      }
    }
  }

  /** The pool is bounded and duplicate free; every lease is admitted and taken at most once and every
      channel closed at most once; a closed lease is queued only until its own Close removes it; and a
      registrar that has returned leaves neither a queued lease nor a running reader. */
  lemma PoolSafety(states: seq<State>, steps: seq<Step>, i: nat)
    requires IsRun(states, steps) && i < |states|
    ensures var s := states[i];
            && |s.pool.entries| <= 16
            && (forall j, k | 0 <= j < k < |s.pool.entries| :: s.pool.entries[j] != s.pool.entries[k])
            && (forall l | l in s.leases ::
                  var x := s.leases[l];
                  && x.admissions <= 1 && x.takes <= 1
                  && x.done <= 1 && x.ready <= 1 && x.taken <= 1 && x.handoff <= 1
                  && (l in s.pool.entries && x.done == 1 ==> x.once == Draining)
                  && (l in s.pool.entries ==> x.admissions == 1 && x.takes == 0)
                  && (x.registrar == Left ==> l !in s.pool.entries && !Reads(s, l, IdleReader)))
  {
    RunKeeps(states, steps, i);
    var s := states[i];
    LineDistinct(s);
    var line := s.log + s.pool.entries;
    assert forall j | 0 <= j < |s.pool.entries| :: line[|s.log| + j] == s.pool.entries[j];
    forall l | l in s.leases ensures LeaseInv(s.leases[l], l in s.pool.entries, s.pool) {}
  }

  /** The taker can wake, look again and then takes the oldest queued lease. */
  ghost predicate WakesAndTakes(s: State, t: TakerId) {
    && s.pool.entries != []
    && Enabled(s, OfTaker(t, Rouse))
    && var looking := Apply(s, OfTaker(t, Rouse));
    && Enabled(looking, OfTaker(t, Look(false)))
    && var taking := Apply(looking, OfTaker(t, Look(false)));
    && Enabled(taking, Take(t))
    && Apply(taking, Take(t)).takers[t].at == Vetting(s.pool.entries[0])
  }

  /** The registrar can wake, poll again and is then admitted last in line. */
  ghost predicate WakesAndAdmits(s: State, l: LeaseId) {
    && Enabled(s, OfLease(l, Wake))
    && var polling := Apply(s, OfLease(l, Wake));
    && Enabled(polling, OfLease(l, Poll(false)))
    && var admitting := Apply(polling, OfLease(l, Poll(false)));
    && Enabled(admitting, Admit(l))
    && Apply(admitting, Admit(l)).pool.entries == s.pool.entries + [l]
  }

  /** No lost wake-up: as long as the pool is non-empty every waiting taker can wake, look again and
      take, and as long as it has room every blocked registrar whose lease is open can wake, poll again
      and be admitted. */
  lemma NoLostWakeup(states: seq<State>, steps: seq<Step>, i: nat)
    requires IsRun(states, steps) && i < |states|
    ensures var s := states[i];
            && (forall t | t in s.takers && s.takers[t].at.Waiting? && s.pool.entries != [] :: WakesAndTakes(s, t))
            && (forall l | l in s.leases && s.leases[l].registrar.Blocked? && s.leases[l].done == 0
                           && |s.pool.entries| < CAPACITY :: WakesAndAdmits(s, l))
  {
    RunKeeps(states, steps, i);
    var s := states[i];
    forall t | t in s.takers && s.takers[t].at.Waiting? && s.pool.entries != [] ensures WakesAndTakes(s, t) {
      TakerWakes(s, t);
    }
    forall l | l in s.leases && s.leases[l].registrar.Blocked? && s.leases[l].done == 0 && |s.pool.entries| < CAPACITY
      ensures WakesAndAdmits(s, l)
    {
      RegistrarWakes(s, l);
    }
  }

  lemma TakerWakes(s: State, t: TakerId)
    requires Inv(s) && t in s.takers && s.takers[t].at.Waiting? && s.pool.entries != []
    ensures WakesAndTakes(s, t)
  {
    assert TakerInv(s.takers[t], t, s.leases, s.pool);
    var line := s.log + s.pool.entries;
    assert line[|s.log|] == s.pool.entries[0];
  }

  lemma RegistrarWakes(s: State, l: LeaseId)
    requires Inv(s) && l in s.leases && s.leases[l].registrar.Blocked? && s.leases[l].done == 0
    requires |s.pool.entries| < CAPACITY
    ensures WakesAndAdmits(s, l)
  {
    assert LeaseInv(s.leases[l], l in s.pool.entries, s.pool);
  }

  /** First in, first out: of two leases ever taken, the one taken first was admitted first, and every
      taken lease was admitted before every queued one. */
  lemma FirstInFirstOut(states: seq<State>, steps: seq<Step>, i: nat)
    requires IsRun(states, steps) && i < |states|
    ensures var s := states[i];
            && (forall j | 0 <= j < |s.log| :: s.log[j] in s.leases)
            && (forall j | 0 <= j < |s.pool.entries| :: s.pool.entries[j] in s.leases)
            && (forall j, k | 0 <= j < k < |s.log| :: s.leases[s.log[j]].ticket < s.leases[s.log[k]].ticket)
            && (forall j, k | 0 <= j < |s.log| && 0 <= k < |s.pool.entries| ::
                  s.leases[s.log[j]].ticket < s.leases[s.pool.entries[k]].ticket)
  {
    RunKeeps(states, steps, i);
    var s := states[i];
    var line := s.log + s.pool.entries;
    assert forall j | 0 <= j < |s.log| :: line[j] == s.log[j];
    assert forall j | 0 <= j < |s.pool.entries| :: line[|s.log| + j] == s.pool.entries[j];
  }
}
