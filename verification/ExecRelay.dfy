/** The HTTP relay between a run's owner connection and its peer: it forwards only frames whose keys and
    values are exactly those of the script, and the drain receipt only after end of file. */
module ExecRelay {
  import opened Options
  import opened ExecProtocol
  import opened ExecFraming
  import opened ByteStrings
  import opened Sequences

  const MAXIMUM: nat := 4096

  /** A decoded frame: the keys present and the value they decode to. */
  datatype Decoded = Decoded(keys: set<string>, value: Response)

  /** How responses are written and read. */
  datatype Codec = Codec(encode: Response -> seq<Byte>, decode: seq<Byte> -> Option<Decoded>)

  /** What is asked of a codec: texts are short and free of NUL, decoding inverts encoding, and a text
      with a NUL byte does not decode. */
  ghost predicate Lawful(codec: Codec) {
    && (forall r: Response | Encodable(r) :: ShortText(codec.encode(r)) && codec.decode(codec.encode(r)) == Some(Received(r)))
    && (forall body: seq<Byte> | !NoNul(body) :: codec.decode(body) == None)
  }

  function Received(r: Response): Decoded { Decoded(Keys(r), r) }

  /** The JSON encoder meets its part of these laws, whatever the decoder. */
  lemma JsonTextsAreShort(codec: Codec)
    requires forall r: Response | Encodable(r) :: codec.encode(r) == EncodeJson(r)
    ensures forall r: Response | Encodable(r) :: ShortText(codec.encode(r))
  {
    forall r: Response | Encodable(r) ensures ShortText(codec.encode(r)) { EncodingShape(r); }
  }

  /** Exactly the named keys, counted and then looked up one by one. */
  method ExactKeys(fields: set<string>, names: seq<string>) returns (exact: bool)
    requires forall i, j | 0 <= i < j < |names| :: names[i] != names[j]
    ensures exact <==> fields == set n | n in names
  {
    var wanted := set n | n in names;
    DistinctCount(names);
    if |fields| != |names| { return false; }
    for i := 0 to |names|
      invariant forall j | 0 <= j < i :: names[j] in fields
    {
      if names[i] !in fields { return false; }
    }
    SameSize(wanted, fields);
    return true;
  }

  lemma {:induction false} DistinctCount(names: seq<string>)
    requires forall i, j | 0 <= i < j < |names| :: names[i] != names[j]
    ensures |set n | n in names| == |names|
  {
    if names != [] {
      var rest := names[1..];
      DistinctCount(rest);
      assert (set n | n in names) == (set n | n in rest) + {names[0]};
    }
  }

  lemma SameSize(a: set<string>, b: set<string>)
    requires a <= b && |a| == |b|
    ensures a == b
  {
    assert |b| == |b - a| + |a|;
    assert b - a == {};
  }

  predicate AcceptsSpawnFailed(d: Decoded) {
    d.keys == {"ok", "code", "state"} && !d.value.ok && d.value.code == "SPAWN_FAILED" && d.value.state == "spawn-failed"
    && d.value.pid == 0 && d.value.startTicks == 0 && d.value.exitCode == None
  }

  predicate AcceptsStarted(d: Decoded) {
    d.keys == {"ok", "state", "pid", "startTicks"} && d.value.ok && d.value.code == "" && d.value.state == "running"
    && d.value.pid > 0 && d.value.startTicks != 0 && d.value.exitCode == None
  }

  predicate AcceptsTerminal(d: Decoded, started: Response) {
    && (|| (d.keys == {"ok", "state", "pid", "startTicks", "exitCode"} && d.value.ok && d.value.code == ""
            && d.value.state == "exited" && d.value.exitCode.Some? && 0 <= d.value.exitCode.value <= 255)
        || (d.keys == {"ok", "code", "state", "pid", "startTicks"} && !d.value.ok
            && d.value.code == "CHILD_STATUS_UNKNOWN" && d.value.state == "unknown" && d.value.exitCode == None))
    && d.value.pid == started.pid && d.value.startTicks == started.startTicks
  }

  predicate AcceptsDrained(d: Decoded) {
    && d.value.state == "drained" && d.value.pid == 0 && d.value.startTicks == 0 && d.value.exitCode == None
    && (|| (d.value.ok && d.value.code == "" && d.keys == {"ok", "state"})
        || (!d.value.ok && d.value.code == "OUTPUT_DRAIN_FAILED" && d.keys == {"ok", "code", "state"}))
  }

  /** What is accepted is exactly a frame of the script, with exactly the keys it is written with. */
  lemma AcceptsExactly(d: Decoded, started: Response)
    ensures AcceptsSpawnFailed(d) <==> d == Received(SpawnFailedFrame)
    ensures AcceptsStarted(d) <==>
              d.value.pid > 0 && d.value.startTicks > 0 && d == Received(StartedFrame(d.value.pid, d.value.startTicks))
    ensures started.pid > 0 && started.startTicks > 0 ==>
              (AcceptsTerminal(d, started) <==>
                 || d == Received(UnknownFrame(started.pid, started.startTicks))
                 || (&& d.value.exitCode.Some? && 0 <= d.value.exitCode.value <= 255
                     && d == Received(ExitedFrame(started.pid, started.startTicks, d.value.exitCode.value))))
    ensures AcceptsDrained(d) <==> d == Received(DrainedFrame(false)) || d == Received(DrainedFrame(true))
  {
  }

  datatype Next = Nothing | Message(frame: Decoded, rest: seq<Byte>)

  function ReadMessage(codec: Codec, data: seq<Byte>): (next: Next)
    ensures next.Message? ==> |next.rest| < |data|
  {
    match ParseFrame(data, MAXIMUM)
    case NoFrame => Nothing
    case Frame(body, rest) =>
      match codec.decode(body)
      case None => Nothing
      case Some(d) => Message(d, rest)
  }

  /** What the relay hands on, for a peer that accepts everything: a function of the bytes the owner
      connection delivers and of how it ends. */
  function Relayed(codec: Codec, data: seq<Byte>, eof: bool): seq<Response> {
    match ReadMessage(codec, data)
    case Nothing => []
    case Message(first, rest) =>
      if AcceptsSpawnFailed(first) then [first.value]
      else if !AcceptsStarted(first) then []
      else [first.value] + RelayedEnd(codec, rest, eof, first.value)
  }

  function RelayedEnd(codec: Codec, data: seq<Byte>, eof: bool, started: Response): seq<Response> {
    match ReadMessage(codec, data)
    case Nothing => []
    case Message(second, rest) =>
      if !AcceptsTerminal(second, started) then [] else [second.value] + RelayedDrain(codec, rest, eof)
  }

  function RelayedDrain(codec: Codec, data: seq<Byte>, eof: bool): seq<Response> {
    match ReadMessage(codec, data)
    case Nothing => []
    case Message(third, rest) => if AcceptsDrained(third) && rest == [] && eof then [third.value] else []
  }

  /** A frame that announces no bytes or more than 4096 ends the relay before anything of it is handed on. */
  lemma FramesAreBounded(codec: Codec, data: seq<Byte>, eof: bool)
    requires |data| >= 4 && (FromBigEndian(data[..4]) == 0 || FromBigEndian(data[..4]) > 4096)
    ensures Relayed(codec, data, eof) == [] && RelayedDrain(codec, data, eof) == []
    ensures forall started :: RelayedEnd(codec, data, eof, started) == []
  {
    assert ReadMessage(codec, data) == Nothing;
  }

  // ---- The relay as it runs ----

  method ReadFrame(codec: Codec, owner: Incoming) returns (frame: Option<Decoded>)
    modifies owner
    ensures frame.Some? <==> ReadMessage(codec, old(owner.data)).Message?
    ensures frame.Some? ==> ReadMessage(codec, old(owner.data)) == Message(frame.value, owner.data)
  {
    var body, ok := ReadBody(owner, MAXIMUM);
    if !ok { return None; }
    frame := codec.decode(body);
  }

  /** Decoded numbers are bounded by Go's integer types. */
  ghost predicate MachineIntegers(codec: Codec) {
    forall body: seq<Byte> | codec.decode(body).Some? ::
      codec.decode(body).value.value.pid < 0x8000_0000_0000_0000 && codec.decode(body).value.value.startTicks < 0x1_0000_0000_0000_0000
  }

  lemma StateWordsPlain()
    ensures Plain("") && Plain("spawn-failed") && Plain("running") && Plain("exited") && Plain("unknown") && Plain("drained")
  {
  }

  lemma CodeWordsPlain()
    ensures Plain("SPAWN_FAILED") && Plain("CHILD_STATUS_UNKNOWN") && Plain("OUTPUT_DRAIN_FAILED") && Plain("RUN_UNAVAILABLE")
  {
  }

  lemma AcceptedEncodable(d: Decoded, started: Response)
    requires d.value.pid < 0x8000_0000_0000_0000 && d.value.startTicks < 0x1_0000_0000_0000_0000 && started.pid >= 0
    requires AcceptsSpawnFailed(d) || AcceptsStarted(d) || AcceptsTerminal(d, started) || AcceptsDrained(d)
    ensures Encodable(d.value)
  {
    StateWordsPlain();
    CodeWordsPlain();
  }

  // ---- What is on the wire to the peer ----

  ghost predicate AllEncodable(frames: seq<Response>) {
    forall i | 0 <= i < |frames| :: Encodable(frames[i])
  }

  /** A frame as it is written. */
  ghost function OnWire(codec: Codec, frame: Response): seq<Byte>
    requires Lawful(codec) && Encodable(frame)
  {
    assert ShortText(codec.encode(frame));
    Framed(codec.encode(frame))
  }

  ghost function Pieces(codec: Codec, frames: seq<Response>): (pieces: seq<seq<Byte>>)
    requires Lawful(codec) && AllEncodable(frames)
    ensures |pieces| == |frames|
  {
    seq(|frames|, i requires 0 <= i < |frames| => OnWire(codec, frames[i]))
  }

  /** The bytes are the forwarded frames whole, followed by a beginning of the next frame if there is one. */
  ghost predicate Conveys(codec: Codec, bytes: seq<Byte>, forwarded: seq<Response>, relayed: seq<Response>)
    requires Lawful(codec) && AllEncodable(relayed)
  {
    forwarded <= relayed && exists cut: nat :: Leaves(bytes, Pieces(codec, relayed), |forwarded|, cut)
  }

  lemma ConveysNothing(codec: Codec, relayed: seq<Response>)
    requires Lawful(codec) && AllEncodable(relayed)
    ensures Conveys(codec, [], [], relayed)
  {
    assert Leaves([], Pieces(codec, relayed), 0, 0);
  }

  /** A single frame written whole. */
  lemma ConveysAll(codec: Codec, relayed: seq<Response>)
    requires Lawful(codec) && AllEncodable(relayed) && |relayed| == 1
    ensures Conveys(codec, OnWire(codec, relayed[0]), relayed, relayed)
  {
    assert Leaves(OnWire(codec, relayed[0]), Pieces(codec, relayed), 1, 0) by {
      OnePiece(OnWire(codec, relayed[0]));
      assert Pieces(codec, relayed) == [OnWire(codec, relayed[0])];
    }
  }

  /** A write that failed left a beginning of its frame. */
  lemma ConveysPart(codec: Codec, bytes: seq<Byte>, cut: nat, relayed: seq<Response>)
    requires Lawful(codec) && AllEncodable(relayed) && relayed != []
    requires cut <= |OnWire(codec, relayed[0])| && bytes == OnWire(codec, relayed[0])[..cut]
    ensures Conveys(codec, bytes, [], relayed)
  {
    assert Leaves(bytes, Pieces(codec, relayed), 0, cut);
  }

  lemma PiecesMore(codec: Codec, frame: Response, frames: seq<Response>)
    requires Lawful(codec) && Encodable(frame) && AllEncodable(frames)
    ensures AllEncodable([frame] + frames) && Pieces(codec, [frame] + frames) == [OnWire(codec, frame)] + Pieces(codec, frames)
  {
  }

  /** One more frame in front. */
  lemma ConveysMore(codec: Codec, frame: Response, bytes: seq<Byte>, forwarded: seq<Response>, relayed: seq<Response>)
    requires Lawful(codec) && AllEncodable(relayed) && Encodable(frame) && Conveys(codec, bytes, forwarded, relayed)
    ensures AllEncodable([frame] + relayed)
    ensures Conveys(codec, OnWire(codec, frame) + bytes, [frame] + forwarded, [frame] + relayed)
  {
    var cut: nat :| Leaves(bytes, Pieces(codec, relayed), |forwarded|, cut);
    PiecesMore(codec, frame, relayed);
    LeavesMore(OnWire(codec, frame), bytes, Pieces(codec, relayed), |forwarded|, cut);
  }

  /** Everything the relay may hand on can be encoded. */
  lemma DrainEncodable(codec: Codec, data: seq<Byte>, eof: bool)
    requires MachineIntegers(codec)
    ensures AllEncodable(RelayedDrain(codec, data, eof))
  {
    var next := ReadMessage(codec, data);
    if next.Message? && AcceptsDrained(next.frame) { AcceptedEncodable(next.frame, next.frame.value); }
  }

  lemma EndEncodable(codec: Codec, data: seq<Byte>, eof: bool, started: Response)
    requires MachineIntegers(codec) && started.pid >= 0
    ensures AllEncodable(RelayedEnd(codec, data, eof, started))
  {
    var next := ReadMessage(codec, data);
    if next.Message? && AcceptsTerminal(next.frame, started) {
      AcceptedEncodable(next.frame, started);
      DrainEncodable(codec, next.rest, eof);
    }
  }

  lemma RelayedEncodable(codec: Codec, data: seq<Byte>, eof: bool)
    requires MachineIntegers(codec)
    ensures AllEncodable(Relayed(codec, data, eof))
  {
    var next := ReadMessage(codec, data);
    if next.Message? && (AcceptsSpawnFailed(next.frame) || AcceptsStarted(next.frame)) {
      AcceptedEncodable(next.frame, next.frame.value);
      if AcceptsStarted(next.frame) { EndEncodable(codec, next.rest, eof, next.frame.value); }
    }
  }

  /** Write the next frame to be relayed: it is on the wire whole, or a beginning of it is. */
  method Forward(codec: Codec, peer: Outgoing, frame: Response, ghost relayed: seq<Response>) returns (ok: bool, ghost bytes: seq<Byte>)
    requires Lawful(codec) && AllEncodable(relayed) && relayed != [] && relayed[0] == frame
    modifies peer
    ensures peer.written == old(peer.written) + bytes
    ensures if ok then bytes == OnWire(codec, frame) else Conveys(codec, bytes, [], relayed)
    ensures old(peer.outcomes) == [] ==> ok && peer.outcomes == []
  {
    assert ShortText(codec.encode(frame));
    var framed := Framed(codec.encode(frame));
    ok := WriteAll(peer, framed);
    bytes := framed;
    if !ok {
      ghost var cut :| 0 <= cut <= |framed| && peer.written == old(peer.written) + framed[..cut];
      bytes := framed[..cut];
      ConveysPart(codec, bytes, cut, relayed);
    }
  }

  /** Whatever the chunking on either side, the relay forwards a beginning of what `Relayed` says, all
      of it when the peer never fails; and on the wire to the peer are exactly the frames forwarded,
      followed by at most a beginning of the next one. */
  method RunFrames(codec: Codec, owner: Incoming, peer: Outgoing) returns (forwarded: seq<Response>, ghost bytes: seq<Byte>)
    requires Lawful(codec) && MachineIntegers(codec)
    modifies owner, peer
    ensures AllEncodable(Relayed(codec, old(owner.data), owner.eof))
    ensures peer.written == old(peer.written) + bytes
    ensures Conveys(codec, bytes, forwarded, Relayed(codec, old(owner.data), owner.eof))
    ensures old(peer.outcomes) == [] ==> forwarded == Relayed(codec, old(owner.data), owner.eof)
  {
    ghost var relayed := Relayed(codec, owner.data, owner.eof);
    RelayedEncodable(codec, owner.data, owner.eof);
    ConveysNothing(codec, relayed);
    forwarded, bytes := [], [];
    var first := ReadFrame(codec, owner);
    if first.None? { return; }
    var spawnFailed := AcceptsSpawnFailed(first.value);
    if !spawnFailed && !AcceptsStarted(first.value) { return; }
    var started, ok := first.value.value, false;
    ok, bytes := Forward(codec, peer, started, relayed);
    if !ok { return; }
    forwarded := [started];
    if spawnFailed {
      ConveysAll(codec, relayed);
      return;
    }
    ghost var rest := RelayedEnd(codec, owner.data, owner.eof, started);
    var end, more := RunEnd(codec, owner, peer, started);
    ConveysMore(codec, started, more, end, rest);
    Regroup(old(peer.written), bytes, more);
    forwarded, bytes := [started] + end, bytes + more;
  }

  method RunEnd(codec: Codec, owner: Incoming, peer: Outgoing, started: Response)
    returns (forwarded: seq<Response>, ghost bytes: seq<Byte>)
    requires Lawful(codec) && MachineIntegers(codec) && started.pid >= 0
    modifies owner, peer
    ensures AllEncodable(RelayedEnd(codec, old(owner.data), owner.eof, started))
    ensures peer.written == old(peer.written) + bytes
    ensures Conveys(codec, bytes, forwarded, RelayedEnd(codec, old(owner.data), owner.eof, started))
    ensures old(peer.outcomes) == [] ==> forwarded == RelayedEnd(codec, old(owner.data), owner.eof, started)
  {
    ghost var relayed := RelayedEnd(codec, owner.data, owner.eof, started);
    EndEncodable(codec, owner.data, owner.eof, started);
    ConveysNothing(codec, relayed);
    forwarded, bytes := [], [];
    var second := ReadFrame(codec, owner);
    if second.None? || !AcceptsTerminal(second.value, started) { return; }
    var terminal, ok := second.value.value, false;
    ok, bytes := Forward(codec, peer, terminal, relayed);
    if !ok { return; }
    ghost var rest := RelayedDrain(codec, owner.data, owner.eof);
    var end, more := RunDrain(codec, owner, peer);
    ConveysMore(codec, terminal, more, end, rest);
    Regroup(old(peer.written), bytes, more);
    forwarded, bytes := [terminal] + end, bytes + more;
  }

  method RunDrain(codec: Codec, owner: Incoming, peer: Outgoing) returns (forwarded: seq<Response>, ghost bytes: seq<Byte>)
    requires Lawful(codec) && MachineIntegers(codec)
    modifies owner, peer
    ensures AllEncodable(RelayedDrain(codec, old(owner.data), owner.eof))
    ensures peer.written == old(peer.written) + bytes
    ensures Conveys(codec, bytes, forwarded, RelayedDrain(codec, old(owner.data), owner.eof))
    ensures old(peer.outcomes) == [] ==> forwarded == RelayedDrain(codec, old(owner.data), owner.eof)
  {
    ghost var relayed := RelayedDrain(codec, owner.data, owner.eof);
    DrainEncodable(codec, owner.data, owner.eof);
    ConveysNothing(codec, relayed);
    forwarded, bytes := [], [];
    var third := ReadFrame(codec, owner);
    if third.None? || !AcceptsDrained(third.value) { return; }
    var drained, ok := third.value.value, false;
    var extra, status := owner.Read(1);
    if extra != [] || status != Eof { return; }
    assert relayed == [drained];
    ok, bytes := Forward(codec, peer, drained, relayed);
    if !ok { return; }
    ConveysAll(codec, relayed);
    forwarded := [drained];
  }

  // ---- What the peer hears ----

  /** The frames a reader of the peer's bytes gets, one after the other, until one cannot be read. */
  ghost function Heard(codec: Codec, bytes: seq<Byte>): seq<Response>
    decreases |bytes|
  {
    match ReadMessage(codec, bytes)
    case Nothing => []
    case Message(d, rest) => [d.value] + Heard(codec, rest)
  }

  /** A whole frame in front is read, and the rest is left. */
  lemma FrameIsHeard(codec: Codec, frame: Response, rest: seq<Byte>)
    requires Lawful(codec) && Encodable(frame)
    ensures ReadMessage(codec, OnWire(codec, frame) + rest) == Message(Received(frame), rest)
    ensures Heard(codec, OnWire(codec, frame) + rest) == [frame] + Heard(codec, rest)
  {
    assert ShortText(codec.encode(frame));
    ParseFramed(codec.encode(frame), rest, MAXIMUM);
  }

  /** A frame cut short at the end of the stream is not read at all. */
  lemma PartIsSilent(codec: Codec, frame: Response, cut: nat)
    requires Lawful(codec) && Encodable(frame) && cut < |OnWire(codec, frame)|
    ensures Heard(codec, OnWire(codec, frame)[..cut]) == []
  {
    var body := codec.encode(frame);
    assert ShortText(body);
    var part := OnWire(codec, frame)[..cut];
    if cut > 0 {
      CutFrameLost(body, cut, [], [], MAXIMUM);
      assert part + Delivered([], []) == part;
    }
  }

  /** Of a frame whose write was reported as failed, it is heard or nothing is. */
  lemma PartIsHeard(codec: Codec, cut: nat, frame: Response)
    requires Lawful(codec) && Encodable(frame)
    ensures var heard := Heard(codec, Beginning(OnWire(codec, frame), cut)); heard == [] || heard == [frame]
  {
    if cut < |OnWire(codec, frame)| {
      PartIsSilent(codec, frame, cut);
    } else {
      FrameIsHeard(codec, frame, []);
      assert OnWire(codec, frame) + [] == OnWire(codec, frame);
      assert [frame] + Heard(codec, []) == [frame];
    }
  }

  /** Whole frames are heard before whatever follows them. */
  lemma {:induction false} WholeFramesHeard(codec: Codec, frames: seq<Response>, rest: seq<Byte>)
    requires Lawful(codec) && AllEncodable(frames)
    ensures Heard(codec, Joined(Pieces(codec, frames)) + rest) == frames + Heard(codec, rest)
    decreases |frames|
  {
    if frames == [] {
      assert Joined(Pieces(codec, frames)) + rest == rest;
    } else {
      assert frames == [frames[0]] + frames[1..];
      WholeFramesHeard(codec, frames[1..], rest);
      OneMoreHeard(codec, frames[0], frames[1..], rest);
    }
  }

  lemma OneMoreHeard(codec: Codec, frame: Response, frames: seq<Response>, rest: seq<Byte>)
    requires Lawful(codec) && Encodable(frame) && AllEncodable(frames)
    requires Heard(codec, Joined(Pieces(codec, frames)) + rest) == frames + Heard(codec, rest)
    ensures AllEncodable([frame] + frames)
    ensures Heard(codec, Joined(Pieces(codec, [frame] + frames)) + rest) == [frame] + frames + Heard(codec, rest)
  {
    PiecesMore(codec, frame, frames);
    JoinedMore(OnWire(codec, frame), Pieces(codec, frames));
    Regroup(OnWire(codec, frame), Joined(Pieces(codec, frames)), rest);
    FrameIsHeard(codec, frame, Joined(Pieces(codec, frames)) + rest);
    Regroup([frame], frames, Heard(codec, rest));
  }

  /** Nothing but a beginning of what may be relayed is ever heard; everything forwarded is; and at most
      the one frame whose write was reported as failed besides. */
  lemma HeardIsRelayed(codec: Codec, bytes: seq<Byte>, forwarded: seq<Response>, relayed: seq<Response>)
    requires Lawful(codec) && AllEncodable(relayed) && Conveys(codec, bytes, forwarded, relayed)
    ensures forwarded <= Heard(codec, bytes) <= relayed && |Heard(codec, bytes)| <= |forwarded| + 1
  {
    var n := |forwarded|;
    var cut: nat :| Leaves(bytes, Pieces(codec, relayed), n, cut);
    PiecesPrefix(codec, relayed, n);
    assert relayed[..n] == forwarded;
    if n == |relayed| {
      WholeFramesHeard(codec, forwarded, []);
      assert forwarded + Heard(codec, []) == forwarded;
    } else {
      var part := Beginning(OnWire(codec, relayed[n]), cut);
      WholeFramesHeard(codec, forwarded, part);
      PartIsHeard(codec, cut, relayed[n]);
      NextOrNone(forwarded, relayed, Heard(codec, part));
    }
  }

  lemma PiecesPrefix(codec: Codec, frames: seq<Response>, n: nat)
    requires Lawful(codec) && AllEncodable(frames) && n <= |frames|
    ensures AllEncodable(frames[..n]) && Pieces(codec, frames)[..n] == Pieces(codec, frames[..n])
  {
  }

  lemma NextOrNone(forwarded: seq<Response>, relayed: seq<Response>, more: seq<Response>)
    requires forwarded < relayed && (more == [] || more == [relayed[|forwarded|]])
    ensures forwarded <= forwarded + more <= relayed && |forwarded + more| <= |forwarded| + 1
  {
  }

  // ---- Agreement with the supervisor ----

  /** Re-validation by exact keys accepts precisely the frames of the script, each in its own place. */
  lemma AcceptsExactlyTheScript(r: Response, started: Response)
    requires Encodable(r) && IsStarted(started)
    ensures AcceptsSpawnFailed(Received(r)) <==> r == SpawnFailedFrame
    ensures AcceptsStarted(Received(r)) <==> IsStarted(r)
    ensures AcceptsTerminal(Received(r), started) <==> IsTerminalOf(r, started)
    ensures AcceptsDrained(Received(r)) <==> IsDrained(r)
  {
    KeyMembership(r);
  }

  lemma KeyMembership(r: Response)
    ensures Keys(r) == {"ok", "code", "state"} <==>
              r.code != "" && r.state != "" && r.pid == 0 && r.startTicks == 0 && r.exitCode == None
    ensures Keys(r) == {"ok", "state"} <==>
              r.code == "" && r.state != "" && r.pid == 0 && r.startTicks == 0 && r.exitCode == None
    ensures Keys(r) == {"ok", "state", "pid", "startTicks"} <==>
              r.code == "" && r.state != "" && r.pid != 0 && r.startTicks != 0 && r.exitCode == None
    ensures Keys(r) == {"ok", "state", "pid", "startTicks", "exitCode"} <==>
              r.code == "" && r.state != "" && r.pid != 0 && r.startTicks != 0 && r.exitCode.Some?
    ensures Keys(r) == {"ok", "code", "state", "pid", "startTicks"} <==>
              r.code != "" && r.state != "" && r.pid != 0 && r.startTicks != 0 && r.exitCode == None
  {
    var keys := Keys(r);
    assert "code" in keys <==> r.code != "";
    assert "state" in keys <==> r.state != "";
    assert "pid" in keys <==> r.pid != 0;
    assert "startTicks" in keys <==> r.startTicks != 0;
    assert "exitCode" in keys <==> r.exitCode.Some?;
  }
}
