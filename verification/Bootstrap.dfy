/** The exec and exit handlers of `bootstrap`: a bounded map of start times and a ring of samples. */
module Bootstrap {
  import opened Kernel

  const TASK_COMM_LEN := 16
  const MAX_FILENAME_LEN := 127
  const MAX_ENTRIES: nat := 8192

  type Comm = s: seq<byte> | |s| == TASK_COMM_LEN witness Zeros(TASK_COMM_LEN)
  type FileName = s: seq<byte> | |s| == MAX_FILENAME_LEN witness Zeros(MAX_FILENAME_LEN)

  /** The contents of one `struct event` in the ring. */
  datatype Slot = Slot(
    pid: int, ppid: int, exitCode: int, durationNs: int, comm: Comm, filename: FileName, exitEvent: bool)

  /** `limit` bounds the start-time map; `None` is a map that never fills. */
  datatype Config = Config(minDurationNs: u64, limit: Option<nat>)

  datatype Task = Task(ppid: int, comm: seq<byte>)

  /** One tracepoint firing. `ts` is the clock the handler reads. `slot` is what the ring hands out:
      `None` when the reservation fails, otherwise the slot with whatever it held before. */
  datatype Step =
    | Exec(id: PidTgid, ts: u64, task: Task, filename: seq<byte>, slot: Option<Slot>)
    | Exit(id: PidTgid, ts: u64, task: Task, rawExitCode: int, slot: Option<Slot>)

  /** The values a handler writes into a reserved slot. */
  datatype Sample =
    | ExecSample(pid: int, ppid: int, comm: seq<byte>, filename: seq<byte>)
    | ExitSample(pid: int, ppid: int, exitCode: int, durationNs: int, comm: seq<byte>)

  datatype Submission = Submission(slot: Slot, sample: Sample)

  datatype State = State(execStart: map<int, u64>, submitted: seq<Submission>)

  const EMPTY := State(map[], [])

  // ---------- the effect of one handler ----------

  function Pid(s: Step): int { Tgid(s.id) }

  /** Thread exits other than the leader's are ignored. */
  predicate Leader(s: Step) { Tgid(s.id) == AsPid(ThreadId(s.id)) }

  /** Unsigned 64-bit subtraction. */
  function Minus(a: u64, b: u64): u64 { (a - b) % TWO_64 }

  function ExitStatus(raw: int): int { raw / 0x100 % 0x100 }

  function Emission(cfg: Config, start: Option<u64>, s: Step): Option<Submission> {
    if s.slot.None? then None
    else
      match s
      case Exec(_, _, task, filename, slot) =>
        if cfg.minDurationNs != 0 then None
        else Some(Submission(slot.value, ExecSample(Pid(s), task.ppid, task.comm, filename)))
      case Exit(_, ts, task, raw, slot) =>
        var duration := if start.Some? then Minus(ts, start.value) else 0;
        if !Leader(s) then None
        else if cfg.minDurationNs != 0 && (start.None? || duration < cfg.minDurationNs) then None
        else Some(Submission(slot.value, ExitSample(Pid(s), task.ppid, ExitStatus(raw), duration, task.comm)))
  }

  function NextStart(cfg: Config, execStart: map<int, u64>, s: Step): map<int, u64> {
    match s
    case Exec(_, ts, _, _, _) => Updated(execStart, cfg.limit, Pid(s), ts)
    case Exit(_, _, _, _, _) => if Leader(s) then execStart - {Pid(s)} else execStart
  }

  function Appended(log: seq<Submission>, e: Option<Submission>): seq<Submission> {
    if e.Some? then log + [e.value] else log
  }

  function Next(cfg: Config, st: State, s: Step): State {
    State(NextStart(cfg, st.execStart, s),
          Appended(st.submitted, Emission(cfg, Get(st.execStart, Pid(s)), s)))
  }

  /** The state after the first `n` steps of a run. */
  function StateAt(cfg: Config, tr: seq<Step>, n: nat): State
    requires n <= |tr|
  {
    if n == 0 then EMPTY else Next(cfg, StateAt(cfg, tr, n - 1), tr[n - 1])
  }

  // ---------- slots ----------

  /** A slot after a handler filled it: the fields of the other kind of event keep what they held. */
  function Filled(e: Submission): Slot {
    match e.sample
    case ExecSample(pid, ppid, comm, filename) =>
      e.slot.(exitEvent := false, pid := pid, ppid := ppid,
              comm := StoreString(e.slot.comm, comm), filename := StoreString(e.slot.filename, filename))
    case ExitSample(pid, ppid, exitCode, durationNs, comm) =>
      e.slot.(exitEvent := true, durationNs := durationNs, pid := pid, ppid := ppid, exitCode := exitCode,
              comm := StoreString(e.slot.comm, comm))
  }

  function AllFilled(log: seq<Submission>): seq<Slot> {
    seq(|log|, i requires 0 <= i < |log| => Filled(log[i]))
  }

  // ---------- the handlers as they are written ----------

  /** A reserved record in the ring, written field by field. */
  class RingSlot {
    var pid: int
    var ppid: int
    var exitCode: int
    var durationNs: int
    var comm: Comm
    var filename: FileName
    var exitEvent: bool

    constructor (held: Slot)
      ensures Contents() == held
    {
      pid, ppid, exitCode, durationNs := held.pid, held.ppid, held.exitCode, held.durationNs;
      comm, filename, exitEvent := held.comm, held.filename, held.exitEvent;
    }

    function Contents(): Slot
      reads this
    {
      Slot(pid, ppid, exitCode, durationNs, comm, filename, exitEvent)
    }
  }

  class Tracker {
    const minDurationNs: u64
    var execStart: map<int, u64>
    var submitted: seq<Slot>
    ghost var log: seq<Submission>

    ghost predicate Valid()
      reads this
    {
      submitted == AllFilled(log)
    }

    ghost function Cfg(): Config { Config(minDurationNs, Some(MAX_ENTRIES)) }

    ghost function Snapshot(): State
      reads this
    {
      State(execStart, log)
    }

    constructor (minDurationNs: u64)
      ensures this.minDurationNs == minDurationNs
      ensures Valid() && Snapshot() == EMPTY
    {
      this.minDurationNs := minDurationNs;
      execStart, submitted, log := map[], [], [];
    }

    method HandleExec(id: PidTgid, ts: u64, task: Task, filename: seq<byte>, e: RingSlot?)
      requires Valid()
      modifies this, e
      ensures Valid()
      ensures var slot := if e == null then None else Some(old(e.Contents()));
              Snapshot() == Next(Cfg(), old(Snapshot()), Exec(id, ts, task, filename, slot))
    {
      var pid := Tgid(id);
      execStart := Updated(execStart, Some(MAX_ENTRIES), pid, ts);
      if minDurationNs != 0 {
        return;
      }
      if e == null {
        return;
      }
      ghost var sample := ExecSample(pid, task.ppid, task.comm, filename);
      ghost var submission := Submission(e.Contents(), sample);
      e.exitEvent := false;
      e.pid := pid;
      e.ppid := task.ppid;
      e.comm := StoreString(e.comm, task.comm);
      e.filename := StoreString(e.filename, filename);
      Submit(e, submission);
    }

    method HandleExit(id: PidTgid, ts: u64, task: Task, rawExitCode: int, e: RingSlot?)
      requires Valid()
      modifies this, e
      ensures Valid()
      ensures var slot := if e == null then None else Some(old(e.Contents()));
              Snapshot() == Next(Cfg(), old(Snapshot()), Exit(id, ts, task, rawExitCode, slot))
    {
      var pid, tid := Tgid(id), AsPid(ThreadId(id));
      var durationNs := 0;
      if pid != tid {
        return;
      }
      if pid in execStart {
        durationNs := Minus(ts, execStart[pid]);
      } else if minDurationNs != 0 {
        assert execStart - {pid} == execStart;
        return;
      }
      execStart := execStart - {pid};
      if minDurationNs != 0 && durationNs < minDurationNs {
        return;
      }
      if e == null {
        return;
      }
      ghost var sample := ExitSample(pid, task.ppid, ExitStatus(rawExitCode), durationNs, task.comm);
      ghost var submission := Submission(e.Contents(), sample);
      e.exitEvent := true;
      e.durationNs := durationNs;
      e.pid := pid;
      e.ppid := task.ppid;
      e.exitCode := ExitStatus(rawExitCode);
      e.comm := StoreString(e.comm, task.comm);
      Submit(e, submission);
    }

    /** Makes the filled slot visible to the consumer. */
    method Submit(e: RingSlot, ghost submission: Submission)
      requires Valid() && e.Contents() == Filled(submission)
      modifies this`submitted, this`log
      ensures Valid() && log == old(log) + [submission]
    {
      submitted := submitted + [e.Contents()];
      log := log + [submission];
    }
  }

  /** The handlers over a whole run, each with the slot that the ring hands out. */
  method Track(minDurationNs: u64, tr: seq<Step>) returns (t: Tracker)
    ensures fresh(t) && t.Valid() && t.minDurationNs == minDurationNs
    ensures t.Snapshot() == StateAt(t.Cfg(), tr, |tr|)
  {
    t := new Tracker(minDurationNs);
    for i := 0 to |tr|
      invariant fresh(t) && t.Valid() && t.minDurationNs == minDurationNs
      invariant t.Snapshot() == StateAt(t.Cfg(), tr, i)
    {
      var e: RingSlot? := null;
      if tr[i].slot.Some? {
        e := new RingSlot(tr[i].slot.value);
      }
      match tr[i]
      case Exec(id, ts, task, filename, _) => t.HandleExec(id, ts, task, filename, e);
      case Exit(id, ts, task, rawExitCode, _) => t.HandleExit(id, ts, task, rawExitCode, e);
    }
  }
}
