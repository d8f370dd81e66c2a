/** The control responses exchanged between the exec supervisor and its HTTP relay. */
module ExecProtocol {
  import opened Options

  /** execControlResponse. All fields but `ok` are omitted from the wire when empty. */
  datatype Response = Response(ok: bool, code: string, state: string, pid: int, startTicks: nat, exitCode: Option<int>)

  /** The JSON object keys a response is written with. */
  function Keys(r: Response): set<string> {
    {"ok"}
    + (if r.code != "" then {"code"} else {})
    + (if r.state != "" then {"state"} else {})
    + (if r.pid != 0 then {"pid"} else {})
    + (if r.startTicks != 0 then {"startTicks"} else {})
    + (if r.exitCode.Some? then {"exitCode"} else {})
  }

  function CodeOnly(code: string): Response { Response(false, code, "", 0, 0, None) }

  const RunUnavailable := CodeOnly("RUN_UNAVAILABLE")
  const SpawnFailedFrame := Response(false, "SPAWN_FAILED", "spawn-failed", 0, 0, None)

  function StartedFrame(pid: int, ticks: nat): Response {
    Response(true, "", "running", pid, ticks, None)
  }

  function ExitedFrame(pid: int, ticks: nat, code: int): Response {
    Response(true, "", "exited", pid, ticks, Some(code))
  }

  function UnknownFrame(pid: int, ticks: nat): Response {
    Response(false, "CHILD_STATUS_UNKNOWN", "unknown", pid, ticks, None)
  }

  function DrainedFrame(failed: bool): Response {
    Response(!failed, if failed then "OUTPUT_DRAIN_FAILED" else "", "drained", 0, 0, None)
  }

  /** A child's process number and start time, within Go's int and uint64. */
  predicate ProcessIdentity(pid: int, ticks: nat) {
    0 < pid < 0x8000_0000_0000_0000 && 0 < ticks < 0x1_0000_0000_0000_0000
  }

  /** The birth, the end and the drained output of one child. */
  predicate IsStarted(r: Response) {
    r == StartedFrame(r.pid, r.startTicks) && ProcessIdentity(r.pid, r.startTicks)
  }

  predicate IsTerminalOf(r: Response, started: Response) {
    && r.pid == started.pid && r.startTicks == started.startTicks
    && (|| (r.exitCode.Some? && 0 <= r.exitCode.value <= 255 && r == ExitedFrame(r.pid, r.startTicks, r.exitCode.value))
        || r == UnknownFrame(r.pid, r.startTicks))
  }

  predicate IsDrained(r: Response) {
    r == DrainedFrame(false) || r == DrainedFrame(true)
  }

  /** What the owner of a run may be told: a failed spawn, or birth, end and drain of one child, in
      that order; or only the beginning of it. */
  predicate PartialScript(frames: seq<Response>) {
    || frames == [] || frames == [SpawnFailedFrame]
    || (&& 1 <= |frames| <= 3 && IsStarted(frames[0])
        && (|frames| >= 2 ==> IsTerminalOf(frames[1], frames[0]))
        && (|frames| >= 3 ==> IsDrained(frames[2])))
  }

  predicate CompleteScript(frames: seq<Response>) {
    PartialScript(frames) && (frames == [SpawnFailedFrame] || |frames| == 3)
  }
}
