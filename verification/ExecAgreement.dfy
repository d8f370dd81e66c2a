/** The supervisor and the relay composed over a byte stream: what the peer is told is always a
    beginning of what the supervisor said, and all of it when nothing fails. */
module ExecAgreement {
  import opened Options
  import opened ExecProtocol
  import opened ExecFraming
  import opened ExecRelay
  import opened ByteStrings
  import Supervisor = ExecSupervisor

  ghost function Bodies(codec: Codec, frames: seq<Response>): (bodies: seq<seq<Byte>>)
    ensures |bodies| == |frames| && forall i | 0 <= i < |frames| :: bodies[i] == codec.encode(frames[i])
  {
    seq(|frames|, i requires 0 <= i < |frames| => codec.encode(frames[i]))
  }

  /** One cut per attempted frame: how many of its bytes reached the connection. */
  ghost predicate Cuts(codec: Codec, frames: seq<Response>, cuts: seq<nat>) {
    |cuts| == |frames| && forall i | 0 <= i < |frames| :: cuts[i] <= 4 + |codec.encode(frames[i])|
  }

  ghost predicate Uncut(codec: Codec, frames: seq<Response>, cuts: seq<nat>) {
    |cuts| == |frames| && forall i | 0 <= i < |frames| :: cuts[i] == 4 + |codec.encode(frames[i])|
  }

  /** The bytes the relay's owner connection delivers. */
  ghost function Stream(codec: Codec, frames: seq<Response>, cuts: seq<nat>): seq<Byte>
    requires Lawful(codec) && AllEncodable(frames) && Cuts(codec, frames, cuts)
  {
    Delivered(Bodies(codec, frames), cuts)
  }

  /** The relay reads nothing, or the first frame that was not lost entirely, intact. */
  lemma FirstMessage(codec: Codec, frames: seq<Response>, cuts: seq<nat>) returns (at: nat)
    requires Lawful(codec) && AllEncodable(frames) && Cuts(codec, frames, cuts)
    ensures at <= |frames|
    ensures if at == |frames| then ReadMessage(codec, Stream(codec, frames, cuts)) == Nothing
            else && cuts[at] == 4 + |codec.encode(frames[at])|
                 && AllEncodable(frames[at + 1..]) && Cuts(codec, frames[at + 1..], cuts[at + 1..])
                 && ReadMessage(codec, Stream(codec, frames, cuts))
                    == Message(Received(frames[at]), Stream(codec, frames[at + 1..], cuts[at + 1..]))
    ensures frames != [] && cuts[0] == 4 + |codec.encode(frames[0])| ==> at == 0
  {
    at := FirstBody(Bodies(codec, frames), cuts, MAXIMUM);
    if at < |frames| {
      assert Bodies(codec, frames)[at + 1..] == Bodies(codec, frames[at + 1..]);
      assert codec.decode(codec.encode(frames[at])) == Some(Received(frames[at]));
    }
  }

  lemma ScriptEncodable(frames: seq<Response>)
    requires PartialScript(frames) || frames == [RunUnavailable]
    ensures AllEncodable(frames)
  {
    StateWordsPlain();
    CodeWordsPlain();
    forall i | 0 <= i < |frames| ensures Encodable(frames[i]) {}
  }

  /** However the attempted frames of a script were cut, the relay forwards a beginning of the script;
      and it forwards the drain receipt only if every frame arrived whole and end of file followed. */
  lemma CutScriptForwardsPrefix(codec: Codec, frames: seq<Response>, cuts: seq<nat>, eof: bool)
    requires Lawful(codec) && PartialScript(frames) && AllEncodable(frames) && Cuts(codec, frames, cuts)
    ensures Relayed(codec, Stream(codec, frames, cuts), eof) <= frames
    ensures |Relayed(codec, Stream(codec, frames, cuts), eof)| == 3 ==> eof && Uncut(codec, frames, cuts)
  {
    var at := FirstMessage(codec, frames, cuts);
    if at < |frames| {
      AcceptanceTable(frames, at);
      if at == 0 && frames != [SpawnFailedFrame] {
        assert frames == [frames[0]] + frames[1..];
        CutEndForwardsPrefix(codec, frames, cuts, eof);
      }
    }
  }

  /** In a script a frame is acceptable as first message only if it is the first frame. */
  lemma AcceptanceTable(frames: seq<Response>, at: nat)
    requires PartialScript(frames) && AllEncodable(frames) && at < |frames|
    ensures AcceptsStarted(Received(frames[at])) <==> at == 0 && frames != [SpawnFailedFrame]
    ensures AcceptsSpawnFailed(Received(frames[at])) <==> frames == [SpawnFailedFrame]
  {
    AcceptsExactlyTheScript(frames[at], StartedFrame(1, 1));
  }

  lemma CutEndForwardsPrefix(codec: Codec, frames: seq<Response>, cuts: seq<nat>, eof: bool)
    requires Lawful(codec) && PartialScript(frames) && AllEncodable(frames) && Cuts(codec, frames, cuts)
    requires 1 <= |frames| && frames != [SpawnFailedFrame] && cuts[0] == 4 + |codec.encode(frames[0])|
    ensures AllEncodable(frames[1..]) && Cuts(codec, frames[1..], cuts[1..])
    ensures var end := RelayedEnd(codec, Stream(codec, frames[1..], cuts[1..]), eof, frames[0]);
            end <= frames[1..] && (|end| == 2 ==> eof && Uncut(codec, frames, cuts))
  {
    CutsDrop(codec, frames, cuts, 1);
    var at := FirstMessage(codec, frames[1..], cuts[1..]);
    if at == 0 && 1 < |frames| {
      TerminalForwarded(codec, frames, cuts, eof);
    } else {
      if at < |frames| - 1 { AcceptsExactlyTheScript(frames[2], frames[0]); }
      NoEnd(codec, Stream(codec, frames[1..], cuts[1..]), eof, frames[0]);
    }
  }

  lemma NoEnd(codec: Codec, data: seq<Byte>, eof: bool, started: Response)
    requires var next := ReadMessage(codec, data); next.Nothing? || !AcceptsTerminal(next.frame, started)
    ensures RelayedEnd(codec, data, eof, started) == []
  {
  }

  /** The end of the child, arrived whole, is forwarded, followed by a beginning of the rest. */
  lemma TerminalForwarded(codec: Codec, frames: seq<Response>, cuts: seq<nat>, eof: bool)
    requires Lawful(codec) && PartialScript(frames) && AllEncodable(frames) && Cuts(codec, frames, cuts)
    requires 2 <= |frames| && cuts[0] == 4 + |codec.encode(frames[0])| && cuts[1] == 4 + |codec.encode(frames[1])|
    requires AllEncodable(frames[1..]) && Cuts(codec, frames[1..], cuts[1..])
    ensures var end := RelayedEnd(codec, Stream(codec, frames[1..], cuts[1..]), eof, frames[0]);
            end <= frames[1..] && (|end| == 2 ==> eof && Uncut(codec, frames, cuts))
  {
    var at := FirstMessage(codec, frames[1..], cuts[1..]);
    assert frames[1..][1..] == frames[2..] && cuts[1..][1..] == cuts[2..];
    CutDrainForwardsPrefix(codec, frames, cuts, eof);
    AcceptsExactlyTheScript(frames[1], frames[0]);
    EndThenDrain(codec, Stream(codec, frames[1..], cuts[1..]), eof, frames[0], frames[1], Stream(codec, frames[2..], cuts[2..]));
    assert frames[1..] == [frames[1]] + frames[2..];
  }

  lemma EndThenDrain(codec: Codec, data: seq<Byte>, eof: bool, started: Response, terminal: Response, rest: seq<Byte>)
    requires ReadMessage(codec, data) == Message(Received(terminal), rest) && AcceptsTerminal(Received(terminal), started)
    ensures RelayedEnd(codec, data, eof, started) == [terminal] + RelayedDrain(codec, rest, eof)
  {
  }

  lemma CutDrainForwardsPrefix(codec: Codec, frames: seq<Response>, cuts: seq<nat>, eof: bool)
    requires Lawful(codec) && PartialScript(frames) && AllEncodable(frames) && Cuts(codec, frames, cuts)
    requires 2 <= |frames| && cuts[0] == 4 + |codec.encode(frames[0])| && cuts[1] == 4 + |codec.encode(frames[1])|
    ensures AllEncodable(frames[2..]) && Cuts(codec, frames[2..], cuts[2..])
    ensures var end := RelayedDrain(codec, Stream(codec, frames[2..], cuts[2..]), eof);
            end <= frames[2..] && (|end| == 1 ==> eof && Uncut(codec, frames, cuts))
  {
    var rest, more := frames[2..], cuts[2..];
    CutsDrop(codec, frames, cuts, 2);
    var at := FirstMessage(codec, rest, more);
    if at < |rest| {
      assert at == 0 && rest == [rest[0]];
    }
  }

  lemma CutsDrop(codec: Codec, frames: seq<Response>, cuts: seq<nat>, n: nat)
    requires AllEncodable(frames) && Cuts(codec, frames, cuts) && n <= |frames|
    ensures AllEncodable(frames[n..]) && n <= |cuts| && Cuts(codec, frames[n..], cuts[n..])
  {
  }

  /** With every frame whole and end of file after the last, the relay forwards the complete script. */
  lemma WholeScriptForwarded(codec: Codec, frames: seq<Response>, cuts: seq<nat>)
    requires Lawful(codec) && CompleteScript(frames) && AllEncodable(frames) && Uncut(codec, frames, cuts)
    ensures Relayed(codec, Stream(codec, frames, cuts), true) == frames
  {
    var first := FirstMessage(codec, frames, cuts);
    AcceptanceTable(frames, 0);
    if |frames| == 3 {
      WholeEndForwarded(codec, frames, cuts);
    }
  }

  lemma WholeEndForwarded(codec: Codec, frames: seq<Response>, cuts: seq<nat>)
    requires Lawful(codec) && PartialScript(frames) && |frames| == 3 && AllEncodable(frames) && Uncut(codec, frames, cuts)
    ensures AllEncodable(frames[1..]) && Cuts(codec, frames[1..], cuts[1..])
    ensures RelayedEnd(codec, Stream(codec, frames[1..], cuts[1..]), true, frames[0]) == [frames[1], frames[2]]
  {
    var second := FirstMessage(codec, frames[1..], cuts[1..]);
    AcceptsExactlyTheScript(frames[1], frames[0]);
    assert frames[1..][1..] == frames[2..] && cuts[1..][1..] == cuts[2..];
    var third := FirstMessage(codec, frames[2..], cuts[2..]);
    AcceptsExactlyTheScript(frames[2], frames[0]);
    assert frames[2..][1..] == [] && cuts[2..][1..] == [];
  }

  /** A refused run is never forwarded. */
  lemma RefusalForwardsNothing(codec: Codec, cuts: seq<nat>, eof: bool)
    requires Lawful(codec) && AllEncodable([RunUnavailable]) && Cuts(codec, [RunUnavailable], cuts)
    ensures Relayed(codec, Stream(codec, [RunUnavailable], cuts), eof) == []
  {
    var at := FirstMessage(codec, [RunUnavailable], cuts);
    if at == 0 { AcceptsExactlyTheScript(RunUnavailable, StartedFrame(1, 1)); }
  }

  /** Everything the supervisor ever sends on a run connection can be encoded. */
  lemma SentEncodable(states: seq<Supervisor.State>, steps: seq<Supervisor.Step>, i: nat, r: Supervisor.RunId)
    requires Supervisor.IsRun(states, steps) && i < |states| && r in states[i].runs
    ensures AllEncodable(states[i].runs[r].sent)
  {
    Supervisor.FramesFollowScript(states, steps, i, r);
    ScriptEncodable(states[i].runs[r].sent);
  }

  /** What the relay makes of the frames of a run: a beginning of what was sent, or nothing if the run was
      refused; and the complete script if the run has ended, nothing was cut and end of file follows. */
  lemma RelayedAgrees(states: seq<Supervisor.State>, steps: seq<Supervisor.Step>, i: nat, r: Supervisor.RunId,
                      codec: Codec, cuts: seq<nat>, eof: bool)
    requires Supervisor.IsRun(states, steps) && i < |states| && r in states[i].runs && Lawful(codec)
    requires AllEncodable(states[i].runs[r].sent) && Cuts(codec, states[i].runs[r].sent, cuts)
    ensures var run := states[i].runs[r];
            var told := Relayed(codec, Stream(codec, run.sent, cuts), eof);
            && PartialScript(told)
            && (told <= run.sent)
            && (|told| == 3 ==> eof && Uncut(codec, run.sent, cuts))
            && (run.at == Supervisor.Ended && eof && Uncut(codec, run.sent, cuts) ==>
                  told == (if run.sent == [RunUnavailable] then [] else run.sent)
                  && (run.sent == [RunUnavailable] || CompleteScript(told)))
  {
    Supervisor.FramesFollowScript(states, steps, i, r);
    var run := states[i].runs[r];
    if run.sent == [RunUnavailable] {
      RefusalForwardsNothing(codec, cuts, eof);
    } else {
      CutScriptForwardsPrefix(codec, run.sent, cuts, eof);
      PrefixOfScript(run.sent, Relayed(codec, Stream(codec, run.sent, cuts), eof));
      if run.at == Supervisor.Ended && eof && Uncut(codec, run.sent, cuts) {
        WholeScriptForwarded(codec, run.sent, cuts);
      }
    }
  }

  lemma PrefixOfScript(frames: seq<Response>, told: seq<Response>)
    requires PartialScript(frames) && told <= frames
    ensures PartialScript(told)
  {
  }

  /** What a reader of the peer's bytes may hear of one run. */
  ghost predicate Agrees(run: Supervisor.Run, codec: Codec, cuts: seq<nat>, eof: bool, heard: seq<Response>) {
    && PartialScript(heard)
    && heard <= run.sent
    && (|heard| == 3 ==> eof && Uncut(codec, run.sent, cuts))
  }

  /** Supervisor and relay agree on the wire: in every reachable state of the supervisor, for every run
      connection and every way its frames may have been cut, and for any bytes the relay may have left on
      its peer's connection, a reader of those bytes hears a beginning of what was sent on that run, all
      the relay forwarded, and the drain receipt only if nothing was cut and the owner closed; and when
      the run has ended, nothing was cut, the owner closed and no write failed, the complete script. */
  lemma RelayAgrees(states: seq<Supervisor.State>, steps: seq<Supervisor.Step>, i: nat, r: Supervisor.RunId,
                    codec: Codec, cuts: seq<nat>, eof: bool, bytes: seq<Byte>, forwarded: seq<Response>)
    requires Supervisor.IsRun(states, steps) && i < |states| && r in states[i].runs && Lawful(codec)
    requires AllEncodable(states[i].runs[r].sent) && Cuts(codec, states[i].runs[r].sent, cuts)
    requires var relayed := Relayed(codec, Stream(codec, states[i].runs[r].sent, cuts), eof);
             AllEncodable(relayed) && Conveys(codec, bytes, forwarded, relayed)
    ensures var run, heard := states[i].runs[r], Heard(codec, bytes);
            && Agrees(run, codec, cuts, eof, heard)
            && forwarded <= heard
            && (run.at == Supervisor.Ended && eof && Uncut(codec, run.sent, cuts)
                && forwarded == Relayed(codec, Stream(codec, run.sent, cuts), eof) ==>
                  && heard == (if run.sent == [RunUnavailable] then [] else run.sent)
                  && (run.sent == [RunUnavailable] || CompleteScript(heard)))
  {
    var run := states[i].runs[r];
    var relayed := Relayed(codec, Stream(codec, run.sent, cuts), eof);
    RelayedAgrees(states, steps, i, r, codec, cuts, eof);
    HeardIsRelayed(codec, bytes, forwarded, relayed);
    PrefixOfScript(relayed, Heard(codec, bytes));
  }

  /** The relay run on the connection of a supervised run, and what is then on the wire to its peer. */
  method RelayRun(codec: Codec, owner: Incoming, peer: Outgoing, ghost states: seq<Supervisor.State>, ghost steps: seq<Supervisor.Step>,
                  ghost i: nat, ghost r: Supervisor.RunId, ghost cuts: seq<nat>)
    requires Lawful(codec) && MachineIntegers(codec) && peer.written == []
    requires Supervisor.IsRun(states, steps) && i < |states| && r in states[i].runs
    requires AllEncodable(states[i].runs[r].sent) && Cuts(codec, states[i].runs[r].sent, cuts)
    requires owner.data == Stream(codec, states[i].runs[r].sent, cuts)
    modifies owner, peer
    ensures Agrees(states[i].runs[r], codec, cuts, owner.eof, Heard(codec, peer.written))
    ensures var run := states[i].runs[r];
            run.at == Supervisor.Ended && owner.eof && Uncut(codec, run.sent, cuts) && old(peer.outcomes) == [] ==>
              Heard(codec, peer.written) == (if run.sent == [RunUnavailable] then [] else run.sent)
              && (run.sent == [RunUnavailable] || CompleteScript(Heard(codec, peer.written)))
  {
    var forwarded, bytes := RunFrames(codec, owner, peer);
    assert peer.written == bytes;
    RelayAgrees(states, steps, i, r, codec, cuts, owner.eof, bytes, forwarded);
  }
}
