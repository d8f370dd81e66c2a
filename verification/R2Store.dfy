/** Conditional put and get over a shared object store: bounded optimistic retries against writers that
    may change the object between any two operations. */
module R2Store {
  import opened Options
  import opened Numbers
  import opened R2Condition

  /** A stored object as HEAD shows it. `facts` stands for size, checksums, storage class and SSE-C
      digest, which are written and compared as one. */
  datatype Object = Object(etag: string, uploaded: int, version: string, facts: nat)

  type Content = Option<Object>

  datatype PutMode = Replace | CreateOnly | IfMatchEtag(etag: string)

  /** One backend operation: what other writers do first, in order, and what goes wrong with it. The
      tag and time are those the provider gives to an object written here. */
  datatype Turn = Turn(others: seq<Content>, fault: Fault, etag: string, time: int)

  /** A refusal, a request that never arrives, a reply that is lost, any other error. */
  datatype Fault = NoFault | Refused | Dropped | Lost | Denied

  function NextTurn(turns: seq<Turn>): Turn {
    if turns == [] then Turn([], NoFault, "", 0) else turns[0]
  }

  function Rest(turns: seq<Turn>): seq<Turn> {
    if turns == [] then [] else turns[1..]
  }

  /** What the next operation meets, after the other writers. */
  function Met(stored: Content, turns: seq<Turn>): Content {
    var others := NextTurn(turns).others;
    if others == [] then stored else others[|others| - 1]
  }

  predicate FaultFree(turns: seq<Turn>) {
    forall turn | turn in turns :: turn.fault == NoFault
  }

  /** No faults and no other writers. */
  predicate Quiet(turns: seq<Turn>) {
    forall turn | turn in turns :: turn.fault == NoFault && turn.others == []
  }

  /** The object is this call's. */
  predicate Bears(content: Content, version: string, facts: nat) {
    content.Some? && content.value.version == version && content.value.facts == facts
  }

  datatype HeadReply = Absent | Found(found: Object) | HeadFailed

  datatype PutReply = PutDone | PutPrecondition | PutUnavailable | PutDenied

  datatype GetReply = GetBody(found: Object) | GetMissing | GetPrecondition | GetFailed

  predicate Permits(mode: PutMode, current: Content) {
    match mode
    case Replace => true
    case CreateOnly => current == None
    case IfMatchEtag(etag) => current.Some? && current.value.etag == etag
  }

  /** The shared object and the record of a call: every state the object passes through, and for each
      write of this caller the state it replaced. */
  class Backend {
    var stored: Content
    var turns: seq<Turn>
    ghost var history: seq<Content>
    ghost var commits: seq<Content>
    ghost var written: seq<Object>
    ghost var puts: nat

    constructor (stored: Content, turns: seq<Turn>)
      ensures this.stored == stored && this.turns == turns && history == [stored] && commits == [] && written == [] && puts == 0
    {
      this.stored, this.turns := stored, turns;
      history, commits, written, puts := [stored], [], [], 0;
    }

    ghost predicate Valid()
      reads this
    {
      history != [] && history[|history| - 1] == stored && |written| == |commits|
    }

    /** No other writer uses a version: a stored object that bears it is this caller's latest write. */
    ghost predicate Owns(version: string)
      reads this
    {
      && (forall turn, content | turn in turns && content in turn.others :: content.Some? ==> content.value.version != version)
      && (stored.Some? && stored.value.version == version ==> written != [] && stored.value == written[|written| - 1])
    }

    /** Other writers' turn. */
    method Interfere() returns (turn: Turn)
      requires Valid()
      modifies this
      ensures Valid() && old(history) <= history
      ensures commits == old(commits) && written == old(written) && puts == old(puts)
      ensures forall v :: old(Owns(v)) ==> Owns(v)
      ensures turn == NextTurn(old(turns)) && turns == Rest(old(turns)) && stored == Met(old(stored), old(turns))
    {
      turn := if turns == [] then Turn([], NoFault, "", 0) else turns[0];
      turns := if turns == [] then [] else turns[1..];
      for i := 0 to |turn.others|
        invariant Valid() && old(history) <= history
        invariant turns == Rest(old(turns)) && stored == if i == 0 then old(stored) else turn.others[i - 1]
        invariant commits == old(commits) && written == old(written) && puts == old(puts)
        invariant forall v :: old(Owns(v)) ==> Owns(v)
      {
        stored := turn.others[i];
        history := history + [stored];
      }
    }

    method Head() returns (reply: HeadReply)
      requires Valid()
      modifies this
      ensures Valid() && old(history) <= history
      ensures commits == old(commits) && written == old(written) && puts == old(puts)
      ensures forall v :: old(Owns(v)) ==> Owns(v)
      ensures turns == Rest(old(turns)) && stored == Met(old(stored), old(turns))
      ensures reply.HeadFailed? <==> NextTurn(old(turns)).fault != NoFault
      ensures reply.Absent? ==> stored == None
      ensures reply.Found? ==> stored == Some(reply.found)
    {
      var turn := Interfere();
      if turn.fault != NoFault { return HeadFailed; }
      reply := if stored == None then Absent else Found(stored.value);
    }

    /** An atomic conditional write: it takes effect exactly if it arrives, is not refused and the mode permits
        replacing what it meets. An unavailable reply may hide a write that happened. */
    method Put(mode: PutMode, version: string, facts: nat) returns (reply: PutReply)
      requires Valid()
      modifies this
      ensures Valid() && old(history) <= history && puts == old(puts) + 1
      ensures forall v :: old(Owns(v)) ==> Owns(v)
      ensures commits == old(commits) ||
              (&& |commits| == |old(commits)| + 1 && commits[..|old(commits)|] == old(commits)
               && Permits(mode, commits[|old(commits)|]) && commits[|old(commits)|] in history[|old(history)| - 1..])
      ensures reply.PutDone? ==> |commits| == |old(commits)| + 1 && stored.Some? && stored.value.version == version
                                 && stored.value.facts == facts
      ensures reply.PutPrecondition? || reply.PutDenied? ==> commits == old(commits)
      ensures turns == Rest(old(turns))
      ensures var fault, met := NextTurn(old(turns)).fault, Met(old(stored), old(turns));
              && (commits == old(commits) <==> !((fault == NoFault || fault == Lost) && Permits(mode, met)))
              && (commits == old(commits) ==> stored == met)
              && (commits != old(commits) ==> commits[|old(commits)|] == met && Bears(stored, version, facts))
              && (reply.PutDone? <==> fault == NoFault && Permits(mode, met))
              && (reply.PutUnavailable? <==> fault == Dropped || (fault == Lost && Permits(mode, met)))
              && (reply.PutDenied? <==> fault == Denied)
    {
      var turn := Interfere();
      puts := puts + 1;
      if turn.fault == Denied { return PutDenied; }
      if turn.fault == Dropped { return PutUnavailable; }
      if turn.fault == Refused || !Permits(mode, stored) { return PutPrecondition; }
      commits := commits + [stored];
      ghost var replaced, at := stored, |history| - 1;
      stored := Some(Object(turn.etag, turn.time, version, facts));
      written := written + [stored.value];
      history := history + [stored];
      assert history[|old(history)| - 1..][at - (|old(history)| - 1)] == replaced;
      reply := if turn.fault == Lost then PutUnavailable else PutDone;
    }

    /** A read fenced on an entity tag. */
    method Get(fence: Option<string>) returns (reply: GetReply)
      requires Valid()
      modifies this
      ensures Valid() && old(history) <= history
      ensures commits == old(commits) && written == old(written) && puts == old(puts)
      ensures forall v :: old(Owns(v)) ==> Owns(v)
      ensures turns == Rest(old(turns)) && stored == Met(old(stored), old(turns))
      ensures var fault := NextTurn(old(turns)).fault;
              && (reply.GetFailed? <==> fault != NoFault && fault != Refused)
              && (reply.GetPrecondition? <==>
                    fault == Refused || (fault == NoFault && stored.Some? && fence.Some? && stored.value.etag != fence.value))
      ensures reply.GetMissing? ==> stored == None
      ensures reply.GetBody? ==> stored == Some(reply.found) && (fence.Some? ==> reply.found.etag == fence.value)
    {
      var turn := Interfere();
      if turn.fault == Refused { return GetPrecondition; }
      if turn.fault != NoFault { return GetFailed; }
      if stored == None { return GetMissing; }
      if fence.Some? && stored.value.etag != fence.value { return GetPrecondition; }
      reply := GetBody(stored.value);
    }
  }

  // ---- What a call may do ----

  predicate Satisfies(condition: Option<Condition>, content: Content) {
    condition.Some? ==>
      match content
      case None => MatchesMissing(condition.value)
      case Some(o) => MatchesObject(condition.value, o.etag, o.uploaded)
  }

  /** A write over one state is justified by states seen during the call: there is no condition; or the
      key was absent and that satisfies the condition; or the object replaced bears the tag of an object
      seen to satisfy it. */
  ghost predicate Justified(condition: Option<Condition>, replaced: Content, seen: seq<Content>) {
    || condition == None
    || (replaced == None && MatchesMissing(condition.value))
    || (replaced.Some? && exists o: Object :: Some(o) in seen && o.etag == replaced.value.etag
                                              && MatchesObject(condition.value, o.etag, o.uploaded))
  }

  /** Where no date clause is in force, a justified write replaces a state that itself satisfies the condition. */
  lemma JustifiedSatisfies(condition: Option<Condition>, replaced: Content, seen: seq<Content>)
    requires Justified(condition, replaced, seen) && (condition.Some? ==> NoDateInForce(condition.value))
    ensures Satisfies(condition, replaced)
  {
    if condition.Some? && replaced.Some? {
      var o: Object :| Some(o) in seen && o.etag == replaced.value.etag && MatchesObject(condition.value, o.etag, o.uploaded);
      TagDecides(condition.value, o.etag, o.uploaded);
    }
  }

  /** With a date clause in force it need not: the object replaced has the tag of one observed a moment before
      that satisfied the clause, and a later time that does not. */
  lemma DateIsNotFenced()
    ensures var c := Condition([], [], Some(1000), None, false, true);
            var observed, replaced := Some(Object("tag", 500, "1", 0)), Some(Object("tag", 2000, "2", 0));
            && Permits(IfMatchEtag("tag"), replaced)
            && Justified(Some(c), replaced, [observed, replaced])
            && !Satisfies(Some(c), replaced)
  {
    var o := Object("tag", 500, "1", 0);
    assert Some(o) in [Some(o), Some(Object("tag", 2000, "2", 0))];
  }

  ghost predicate Fails(condition: Option<Condition>, seen: seq<Content>) {
    exists content: Content :: content in seen && !Satisfies(condition, content)
  }

  datatype PutResult = Written(found: Object) | Declined | ProviderUnavailable | IntegrityError | ResultUnknown

  const ATTEMPTS: nat := 3

  datatype Plan = Proceed(mode: PutMode) | Decline | PlanFailed

  /** Choose how the write is fenced, from one look at the object. */
  method PutModeFor(backend: Backend, condition: Option<Condition>) returns (plan: Plan)
    requires backend.Valid()
    modifies backend
    ensures backend.Valid() && old(backend.history) <= backend.history
    ensures backend.commits == old(backend.commits) && backend.written == old(backend.written)
    ensures backend.puts == old(backend.puts) && (forall v :: old(backend.Owns(v)) ==> backend.Owns(v))
    ensures plan.Decline? ==> !Satisfies(condition, backend.stored)
    ensures plan.Proceed? && condition == None ==> plan.mode == Replace
    ensures plan.Proceed? && condition.Some? ==>
              && Satisfies(condition, backend.stored)
              && plan.mode == (if backend.stored == None then CreateOnly else IfMatchEtag(backend.stored.value.etag))
    ensures condition == None ==> backend.turns == old(backend.turns) && backend.stored == old(backend.stored) && plan.Proceed?
    ensures condition.Some? ==>
              && backend.turns == Rest(old(backend.turns))
              && backend.stored == Met(old(backend.stored), old(backend.turns))
              && (plan.PlanFailed? <==> NextTurn(old(backend.turns)).fault != NoFault)
    ensures FaultFree(old(backend.turns)) ==> FaultFree(backend.turns) && !plan.PlanFailed?
    ensures Quiet(old(backend.turns)) ==> Quiet(backend.turns) && !plan.PlanFailed? && backend.stored == old(backend.stored)
  {
    if condition == None { return Proceed(Replace); }
    var reply := backend.Head();
    match reply
    case HeadFailed => plan := PlanFailed;
    case Absent => plan := if MatchesMissing(condition.value) then Proceed(CreateOnly) else Decline;
    case Found(o) => plan := if MatchesObject(condition.value, o.etag, o.uploaded) then Proceed(IfMatchEtag(o.etag))
                             else Decline;
  }

  /** The write is reported exactly if the look that follows succeeds and shows this call's version and facts. */
  method VerifyPut(backend: Backend, version: string, facts: nat) returns (result: PutResult)
    requires backend.Valid()
    modifies backend
    ensures backend.Valid() && old(backend.history) <= backend.history
    ensures backend.commits == old(backend.commits) && backend.written == old(backend.written)
    ensures backend.puts == old(backend.puts) && (forall v :: old(backend.Owns(v)) ==> backend.Owns(v))
    ensures backend.turns == Rest(old(backend.turns)) && backend.stored == Met(old(backend.stored), old(backend.turns))
    ensures result.Written? ==> backend.stored == Some(result.found)
    ensures result.Written? <==> NextTurn(old(backend.turns)).fault == NoFault && Bears(backend.stored, version, facts)
    ensures result.IntegrityError? <==> NextTurn(old(backend.turns)).fault == NoFault && !Bears(backend.stored, version, facts)
    ensures result.ProviderUnavailable? <==> NextTurn(old(backend.turns)).fault != NoFault
  {
    var reply := backend.Head();
    match reply
    case HeadFailed => result := ProviderUnavailable;
    case Absent => result := IntegrityError;
    case Found(o) => result := if o.version != version || o.facts != facts then IntegrityError else Written(o);
  }

  method FinalPrecondition(backend: Backend, condition: Option<Condition>) returns (result: PutResult)
    requires backend.Valid()
    modifies backend
    ensures backend.Valid() && old(backend.history) <= backend.history
    ensures backend.commits == old(backend.commits) && backend.written == old(backend.written)
    ensures backend.puts == old(backend.puts) && (forall v :: old(backend.Owns(v)) ==> backend.Owns(v))
    ensures result.Declined? <==>
              condition.Some? && NextTurn(old(backend.turns)).fault == NoFault && !Satisfies(condition, backend.stored)
    ensures !result.Declined? ==> result == ProviderUnavailable
    ensures condition == None ==> backend.turns == old(backend.turns) && backend.stored == old(backend.stored)
    ensures condition.Some? ==>
              backend.turns == Rest(old(backend.turns)) && backend.stored == Met(old(backend.stored), old(backend.turns))
  {
    if condition == None { return ProviderUnavailable; }
    var reply := backend.Head();
    match reply
    case HeadFailed => result := ProviderUnavailable;
    case Absent => result := if MatchesMissing(condition.value) then ProviderUnavailable else Declined;
    case Found(o) =>
      result := if MatchesObject(condition.value, o.etag, o.uploaded) then ProviderUnavailable else Declined;
  }

  /** What a write of the call may replace: a state of the call, justified by the condition, and one that itself
      satisfies the condition where no date clause is in force. */
  ghost predicate MayReplace(condition: Option<Condition>, replaced: Content, seen: seq<Content>) {
    && replaced in seen
    && Justified(condition, replaced, seen)
    && ((condition.Some? ==> NoDateInForce(condition.value)) ==> Satisfies(condition, replaced))
  }

  lemma StillMayReplace(condition: Option<Condition>, replaced: Content, before: seq<Content>, after: seq<Content>, start: nat)
    requires start < |before| && before <= after && MayReplace(condition, replaced, before[start..])
    ensures MayReplace(condition, replaced, after[start..])
  {
    StillSeen(before, after, start, replaced);
    assert before[start..] <= after[start..];
  }

  /** Without faults an attempt never ends in doubt, ends unavailable only at the last one, and finds an
      integrity error only if the object is no longer this call's. */
  predicate FaultFreeEnd(done: bool, result: PutResult, last: bool, stored: Content, version: string, facts: nat) {
    done ==>
      && !result.ResultUnknown?
      && (result.ProviderUnavailable? ==> last)
      && (result.IntegrityError? ==> !Bears(stored, version, facts))
  }

  /** Undisturbed, the write takes effect exactly if the object satisfies the condition. */
  predicate QuietEnd(result: PutResult, condition: Option<Condition>, before: Content, after: Content, version: string, facts: nat) {
    if Satisfies(condition, before) then result.Written? && after == Some(result.found) && Bears(after, version, facts)
    else result.Declined? && after == before
  }

  /** The fenced write: it replaces only what it may. */
  method Write(backend: Backend, condition: Option<Condition>, mode: PutMode, version: string, facts: nat, ghost start: nat)
    returns (reply: PutReply)
    requires backend.Valid() && start < |backend.history|
    requires condition == None ==> mode == Replace
    requires condition.Some? ==>
               && Satisfies(condition, backend.stored)
               && mode == (if backend.stored == None then CreateOnly else IfMatchEtag(backend.stored.value.etag))
    modifies backend
    ensures backend.Valid() && old(backend.history) <= backend.history && backend.puts == old(backend.puts) + 1
    ensures forall v :: old(backend.Owns(v)) ==> backend.Owns(v)
    ensures |backend.commits| <= |old(backend.commits)| + 1 && old(backend.commits) <= backend.commits
    ensures |backend.commits| == |old(backend.commits)| + 1 ==>
              MayReplace(condition, backend.commits[|old(backend.commits)|], backend.history[start..])
    ensures reply.PutDone? ==> |backend.commits| == |old(backend.commits)| + 1
    ensures reply.PutPrecondition? || reply.PutDenied? ==> backend.commits == old(backend.commits)
    ensures FaultFree(old(backend.turns)) ==> FaultFree(backend.turns) && (reply.PutDone? || reply.PutPrecondition?)
    ensures Quiet(old(backend.turns)) ==> Quiet(backend.turns) && reply.PutDone? && Bears(backend.stored, version, facts)
  {
    ghost var observed, seen := backend.stored, backend.history;
    Current(seen, start, observed);
    reply := backend.Put(mode, version, facts);
    if |backend.commits| > |old(backend.commits)| {
      ghost var replaced := backend.commits[|old(backend.commits)|];
      StillSeen(seen, backend.history, start, observed);
      Earlier(backend.history, start, |seen| - 1, replaced);
      Commits(condition, mode, observed, replaced, backend.history[start..]);
    }
  }

  /** What a reply to the write comes to: a look to verify it, another attempt, or the end. */
  method Settle(backend: Backend, condition: Option<Condition>, version: string, facts: nat, last: bool, reply: PutReply)
    returns (done: bool, result: PutResult)
    requires backend.Valid()
    modifies backend
    ensures backend.Valid() && old(backend.history) <= backend.history
    ensures backend.commits == old(backend.commits) && backend.written == old(backend.written)
    ensures backend.puts == old(backend.puts) && (forall v :: old(backend.Owns(v)) ==> backend.Owns(v))
    ensures FaultFree(old(backend.turns)) ==> FaultFree(backend.turns)
    ensures !done <==> reply.PutPrecondition? && !last
    ensures done && result.Written? ==> reply.PutDone? && backend.stored == Some(result.found)
                                        && Bears(backend.stored, version, facts)
    ensures done && result.Declined? ==> reply.PutPrecondition? && condition.Some? && !Satisfies(condition, backend.stored)
    ensures done && result.IntegrityError? ==> reply.PutDone? && !Bears(backend.stored, version, facts)
    ensures done ==> (result.ResultUnknown? <==> reply.PutUnavailable?)
    ensures done && result.ProviderUnavailable? && FaultFree(old(backend.turns)) ==> reply.PutDenied? || reply.PutPrecondition?
    ensures reply.PutDone? && Quiet(old(backend.turns)) && Bears(old(backend.stored), version, facts) ==> result.Written?
    ensures done && result.ProviderUnavailable? && FaultFree(old(backend.turns)) && !reply.PutDenied? ==> last
  {
    match reply
    case PutDone =>
      result := VerifyPut(backend, version, facts);
      return true, result;
    case PutPrecondition =>
      if !last { return false, ProviderUnavailable; }
      result := FinalPrecondition(backend, condition);
      return true, result;
    case PutUnavailable => return true, ResultUnknown;
    case PutDenied => return true, ProviderUnavailable;
  }

  method WriteAndSettle(backend: Backend, condition: Option<Condition>, mode: PutMode, version: string, facts: nat, last: bool,
                        ghost start: nat)
    returns (done: bool, result: PutResult)
    requires backend.Valid() && start < |backend.history|
    requires condition == None ==> mode == Replace
    requires condition.Some? ==>
               && Satisfies(condition, backend.stored)
               && mode == (if backend.stored == None then CreateOnly else IfMatchEtag(backend.stored.value.etag))
    modifies backend
    ensures backend.Valid() && old(backend.history) <= backend.history && backend.puts == old(backend.puts) + 1
    ensures (last ==> done) && (!done ==> backend.commits == old(backend.commits))
    ensures !done && old(backend.Owns(version)) ==> backend.Owns(version)
    ensures |backend.commits| <= |old(backend.commits)| + 1 && old(backend.commits) <= backend.commits
    ensures |backend.commits| == |old(backend.commits)| + 1 ==>
              MayReplace(condition, backend.commits[|old(backend.commits)|], backend.history[start..])
    ensures done && result.Written? ==>
              && |backend.commits| == |old(backend.commits)| + 1
              && backend.stored == Some(result.found) && Bears(backend.stored, version, facts)
              && (old(backend.Owns(version)) ==> result.found == backend.written[|old(backend.commits)|])
    ensures done && result.Declined? ==>
              backend.commits == old(backend.commits) && condition.Some? && !Satisfies(condition, backend.stored)
    ensures done && result.IntegrityError? ==> |backend.commits| == |old(backend.commits)| + 1
    ensures FaultFree(old(backend.turns)) ==>
              FaultFree(backend.turns) && FaultFreeEnd(done, result, last, backend.stored, version, facts)
    ensures FaultFree(old(backend.turns)) && done && result.ProviderUnavailable? ==> backend.commits == old(backend.commits)
    ensures Quiet(old(backend.turns)) ==> done && result.Written?
  {
    var reply := Write(backend, condition, mode, version, facts, start);
    ghost var soFar := backend.history;
    done, result := Settle(backend, condition, version, facts, last, reply);
    if |backend.commits| > |old(backend.commits)| {
      StillMayReplace(condition, backend.commits[|old(backend.commits)|], soFar, backend.history, start);
    }
  }

  /** One look and one write. Not done means that the write was refused and may be tried again. */
  method Attempt(backend: Backend, condition: Option<Condition>, version: string, facts: nat, last: bool, ghost start: nat)
    returns (done: bool, result: PutResult)
    requires backend.Valid() && start < |backend.history|
    modifies backend
    ensures backend.Valid() && old(backend.history) <= backend.history && backend.puts <= old(backend.puts) + 1
    ensures (last ==> done) && (!done ==> backend.commits == old(backend.commits))
    ensures !done && old(backend.Owns(version)) ==> backend.Owns(version)
    ensures |backend.commits| <= |old(backend.commits)| + 1 && old(backend.commits) <= backend.commits
    ensures |backend.commits| == |old(backend.commits)| + 1 ==>
              MayReplace(condition, backend.commits[|old(backend.commits)|], backend.history[start..])
    ensures done && result.Written? ==>
              && |backend.commits| == |old(backend.commits)| + 1
              && backend.stored == Some(result.found) && result.found.version == version && result.found.facts == facts
              && (old(backend.Owns(version)) ==> result.found == backend.written[|old(backend.commits)|])
    ensures done && result.Declined? ==>
              backend.commits == old(backend.commits) && condition.Some? && Fails(condition, backend.history[start..])
    ensures FaultFree(old(backend.turns)) ==> FaultFree(backend.turns)
    ensures FaultFree(old(backend.turns)) ==> FaultFreeEnd(done, result, last, backend.stored, version, facts)
    ensures !done || (result.ProviderUnavailable? && FaultFree(old(backend.turns))) ==>
              backend.puts == old(backend.puts) + 1 && backend.commits == old(backend.commits)
    ensures done && result.IntegrityError? ==> |backend.commits| == |old(backend.commits)| + 1
    ensures Quiet(old(backend.turns)) ==>
              done && QuietEnd(result, condition, old(backend.stored), backend.stored, version, facts)
  {
    var plan := PutModeFor(backend, condition);
    Current(backend.history, start, backend.stored);
    match plan
    case PlanFailed => return true, ProviderUnavailable;
    case Decline => return true, Declined;
    case Proceed(mode) =>
      done, result := WriteAndSettle(backend, condition, mode, version, facts, last, start);
      Current(backend.history, start, backend.stored);
  }

  /** A conditional write takes effect at most once and only when justified. Success means it did take
      effect and the object reported carries this call's version; declining means nothing was written and
      the object failed the condition at some moment of the call; at most three writes are tried. */
  method PutFile(backend: Backend, condition: Option<Condition>, version: string, facts: nat) returns (result: PutResult)
    requires backend.Valid()
    modifies backend
    ensures backend.Valid() && old(backend.history) <= backend.history
    ensures backend.puts <= old(backend.puts) + 3
    ensures |backend.commits| <= |old(backend.commits)| + 1 && old(backend.commits) <= backend.commits
    ensures |backend.commits| == |old(backend.commits)| + 1 ==>
              MayReplace(condition, backend.commits[|old(backend.commits)|], backend.history[|old(backend.history)| - 1..])
    ensures result.Written? ==>
              && |backend.commits| == |old(backend.commits)| + 1
              && backend.stored == Some(result.found) && result.found.version == version && result.found.facts == facts
              && (old(backend.Owns(version)) ==> result.found == backend.written[|old(backend.commits)|])
    ensures result.Declined? ==>
              && backend.commits == old(backend.commits) && condition.Some?
              && Fails(condition, backend.history[|old(backend.history)| - 1..])
    ensures result.IntegrityError? ==> |backend.commits| == |old(backend.commits)| + 1
    ensures FaultFree(old(backend.turns)) ==>
              && !result.ResultUnknown?
              && (result.IntegrityError? ==> !Bears(backend.stored, version, facts))
              && (result.ProviderUnavailable? ==>
                    backend.puts == old(backend.puts) + 3 && backend.commits == old(backend.commits))
    ensures Quiet(old(backend.turns)) ==> QuietEnd(result, condition, old(backend.stored), backend.stored, version, facts)
  {
    ghost var start := |backend.history| - 1;
    for attempt := 0 to ATTEMPTS
      invariant backend.Valid() && old(backend.history) <= backend.history
      invariant backend.commits == old(backend.commits)
      invariant backend.puts == old(backend.puts) + attempt
      invariant old(backend.Owns(version)) ==> backend.Owns(version)
      invariant FaultFree(old(backend.turns)) ==> FaultFree(backend.turns)
      invariant attempt > 0 ==> !Quiet(old(backend.turns))
      invariant attempt == 0 ==> backend.turns == old(backend.turns) && backend.stored == old(backend.stored)
      invariant attempt < ATTEMPTS
    {
      var done;
      done, result := Attempt(backend, condition, version, facts, attempt + 1 == ATTEMPTS, start);
      if done { return; }
    }
    assert false;
  }

  /** The fence chosen for an observed state that satisfies the condition justifies what it lets through. */
  lemma Commits(condition: Option<Condition>, mode: PutMode, observed: Content, replaced: Content, seen: seq<Content>)
    requires Permits(mode, replaced) && observed in seen
    requires condition.Some? ==> Satisfies(condition, observed)
    requires condition.Some? ==> mode == if observed == None then CreateOnly else IfMatchEtag(observed.value.etag)
    ensures Justified(condition, replaced, seen)
    ensures (condition.Some? ==> NoDateInForce(condition.value)) ==> Satisfies(condition, replaced)
  {
    if condition.Some? && observed.Some? {
      assert Some(observed.value) in seen;
    }
    if condition.Some? ==> NoDateInForce(condition.value) { JustifiedSatisfies(condition, replaced, seen); }
  }

  lemma Earlier(history: seq<Content>, start: nat, later: nat, content: Content)
    requires start <= later <= |history| && content in history[later..]
    ensures content in history[start..]
  {
    var i :| 0 <= i < |history[later..]| && history[later..][i] == content;
    assert history[start..][later - start + i] == content;
  }

  lemma Current(history: seq<Content>, start: nat, content: Content)
    requires start < |history| && history[|history| - 1] == content
    ensures content in history[start..]
  {
    assert history[start..][|history| - 1 - start] == content;
  }

  lemma StillSeen(before: seq<Content>, after: seq<Content>, start: nat, content: Content)
    requires start < |before| && before <= after && content in before[start..]
    ensures content in after[start..]
  {
    var i :| 0 <= i < |before[start..]| && before[start..][i] == content;
    assert after[start..][i] == before[start + i];
  }

  // ---- Conditional get ----

  datatype GetResult = Missing | Precondition(shown: Object) | Body(shown: Object) | GetUnavailable

  /** A conditional read: a body belongs to a state of the call whose tag was seen to satisfy the
      condition; a failed precondition shows a state that fails it; missing means absent at some moment. */
  method GetObject(backend: Backend, condition: Option<Condition>) returns (result: GetResult)
    requires backend.Valid()
    modifies backend
    ensures backend.Valid() && old(backend.history) <= backend.history
    ensures backend.commits == old(backend.commits) && backend.puts == old(backend.puts)
    ensures var seen := backend.history[|old(backend.history)| - 1..];
            && (result.Missing? ==> None in seen)
            && (result.Precondition? ==> Some(result.shown) in seen && !Satisfies(condition, Some(result.shown)))
            && (result.Body? ==>
                  && Some(result.shown) in seen && Justified(condition, Some(result.shown), seen)
                  && ((condition.Some? ==> NoDateInForce(condition.value)) ==> Satisfies(condition, Some(result.shown))))
    ensures FaultFree(old(backend.turns)) && result.GetUnavailable? ==> condition.Some? && !Quiet(old(backend.turns))
    ensures FaultFree(old(backend.turns)) && Quiet(Rest(Rest(old(backend.turns)))) ==> !result.GetUnavailable?
    ensures Quiet(old(backend.turns)) ==>
              && backend.stored == old(backend.stored)
              && result == (if backend.stored == None then Missing
                            else if Satisfies(condition, backend.stored) then Body(backend.stored.value)
                            else Precondition(backend.stored.value))
  {
    ghost var start := |backend.history| - 1;
    result := GetUnavailable;
    for attempt := 0 to 2
      invariant backend.Valid() && old(backend.history) <= backend.history
      invariant backend.commits == old(backend.commits) && backend.puts == old(backend.puts)
      invariant attempt < 2
      invariant FaultFree(old(backend.turns)) ==> FaultFree(backend.turns)
      invariant attempt > 0 ==> condition.Some? && !Quiet(old(backend.turns)) && backend.turns == Rest(Rest(old(backend.turns)))
      invariant attempt == 0 ==> backend.turns == old(backend.turns) && backend.stored == old(backend.stored)
    {
      var current := backend.Head();
      ghost var seen, observed := backend.history, backend.stored;
      Current(seen, start, observed);
      if current.HeadFailed? { return GetUnavailable; }
      if current.Absent? { return Missing; }
      if condition.Some? && !MatchesObject(condition.value, current.found.etag, current.found.uploaded) {
        return Precondition(current.found);
      }
      var reply := backend.Get(if condition.Some? then Some(current.found.etag) else None);
      Current(backend.history, start, backend.stored);
      StillSeen(seen, backend.history, start, observed);
      match reply
      case GetMissing => return Missing;
      case GetFailed => return GetUnavailable;
      case GetPrecondition => if !(condition.Some? && attempt == 0) { return GetUnavailable; }
      case GetBody(o) =>
        if condition.Some? {
          Commits(condition, IfMatchEtag(observed.value.etag), observed, Some(o), backend.history[start..]);
        }
        return Body(o);
    }
    assert false;
  }

  // ---- Byte ranges ----

  datatype Range = Range(offset: Option<nat>, length: Option<nat>, suffix: Option<nat>)
  datatype Resolved = Resolved(start: nat, end: nat) | InvalidOptions

  function SaturatingAdd(a: nat, b: nat): nat { Min(a + b, U64_MAX) }

  function ResolveRange(range: Range, size: nat): Resolved {
    if size == 0 then InvalidOptions
    else
      match (range.offset, range.length, range.suffix)
      case (Some(start), Some(length), None) =>
        if length > 0 && start < size then Resolved(start, Min(SaturatingAdd(start, length - 1), size - 1))
        else InvalidOptions
      case (Some(start), None, None) => if start < size then Resolved(start, size - 1) else InvalidOptions
      case (None, Some(length), None) => if length > 0 then Resolved(0, Min(length, size) - 1) else InvalidOptions
      case (None, None, Some(suffix)) =>
        if suffix > 0 then Resolved(if suffix > size then 0 else size - suffix, size - 1) else InvalidOptions
      case _ => InvalidOptions
  }

  predicate ValidShape(range: Range) {
    match (range.offset, range.length, range.suffix)
    case (Some(_), Some(length), None) => length > 0
    case (Some(_), None, None) => true
    case (None, Some(length), None) => length > 0
    case (None, None, Some(suffix)) => suffix > 0
    case _ => false
  }

  /** The bytes a well-formed range asks for. */
  predicate Asks(range: Range, size: nat, i: nat) {
    match (range.offset, range.length, range.suffix)
    case (Some(start), Some(length), None) => start <= i < start + length
    case (Some(start), None, None) => start <= i
    case (None, Some(length), None) => i < length
    case (None, None, Some(suffix)) => i + suffix >= size
    case _ => false
  }

  /** A range resolves exactly when it is well formed and asks for at least one byte of the object, and
      then to precisely the bytes of the object it asks for. */
  lemma ResolveRangeIsExact(range: Range, size: nat)
    requires size <= U64_MAX
    ensures ResolveRange(range, size).Resolved? <==> ValidShape(range) && exists i: nat :: i < size && Asks(range, size, i)
    ensures ResolveRange(range, size).Resolved? ==>
              var r := ResolveRange(range, size);
              && r.start <= r.end < size
              && forall i: nat :: r.start <= i <= r.end <==> i < size && Asks(range, size, i)
  {
    var r := ResolveRange(range, size);
    if r.Resolved? {
      assert Asks(range, size, r.start);
    } else if ValidShape(range) {
      forall i: nat | i < size ensures !Asks(range, size, i) {}
    }
  }
}
