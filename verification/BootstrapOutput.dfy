/** The user-space half of `bootstrap`: the duration option, the scaling to nanoseconds and the lines
    printed for ring records. */
module BootstrapOutput {
  import opened Kernel
  import opened Bootstrap
  import opened BootstrapHistory

  const NS_PER_MS := 1000000

  /** A C `long`. */
  type Long = x: int | -0x8000_0000_0000_0000 <= x < 0x8000_0000_0000_0000

  class Env {
    var minDurationMs: Long

    constructor ()
      ensures minDurationMs == 0
    {
      minDurationMs := 0;
    }

    /** The `-d` option: `value` and `rangeError` are what the number parser returned. */
    method ParseDuration(value: Long, rangeError: bool) returns (accepted: bool)
      modifies this
      ensures minDurationMs == value
      ensures accepted <==> !rangeError && 0 < value
    {
      minDurationMs := value;
      if rangeError || minDurationMs <= 0 {
        return false;
      }
      return true;
    }

    /** The parameter written into the BPF object, in unsigned 64-bit arithmetic. */
    method MinDurationNs() returns (ns: u64)
      ensures ns == ScaledToNs(minDurationMs)
      ensures (minDurationMs * 1000000 - ns) % 0x1_0000_0000_0000_0000 == 0
      ensures 0 < minDurationMs ==> (ns == minDurationMs * NS_PER_MS <==> minDurationMs <= LARGEST_EXACT_MS)
    {
      if 0 < minDurationMs {
        ScalingIsExactUpToLimit(minDurationMs);
      }
      ScalingIsModular(minDurationMs);
      ns := minDurationMs * NS_PER_MS % TWO_64;
    }
  }

  lemma ScalingIsModular(d: Long)
    ensures (d * 1000000 - ScaledToNs(d)) % 0x1_0000_0000_0000_0000 == 0
  {
    var q := d * NS_PER_MS / TWO_64;
    assert d * NS_PER_MS - ScaledToNs(d) == q * TWO_64;
  }

  function ScaledToNs(ms: Long): u64 { ms * NS_PER_MS % TWO_64 }

  // ---------- lines ----------

  datatype Line =
    | ExecLine(comm: seq<byte>, pid: int, ppid: int, filename: seq<byte>)
    | ExitLine(comm: seq<byte>, pid: int, ppid: int, exitCode: int, lifetimeMs: Option<int>)

  /** What is printed for the bytes of a ring record. */
  function HandleEvent(e: Slot): Line {
    if e.exitEvent then
      ExitLine(CString(e.comm), e.pid, e.ppid, e.exitCode,
               if e.durationNs != 0 then Some(e.durationNs / NS_PER_MS) else None)
    else
      ExecLine(CString(e.comm), e.pid, e.ppid, CString(e.filename))
  }

  /** What should be printed for a sample, with no slot in sight. */
  function LineFor(s: Sample): Line {
    match s
    case ExecSample(pid, ppid, comm, filename) =>
      ExecLine(Fitted(CString(comm), TASK_COMM_LEN), pid, ppid, Fitted(CString(filename), MAX_FILENAME_LEN))
    case ExitSample(pid, ppid, exitCode, durationNs, comm) =>
      ExitLine(Fitted(CString(comm), TASK_COMM_LEN), pid, ppid, exitCode,
               if durationNs != 0 then Some(durationNs / NS_PER_MS) else None)
  }

  /** A reused slot prints the same line whatever it held before. */
  lemma StaleSlotsDoNotShow(e: Submission)
    ensures HandleEvent(Filled(e)) == LineFor(e.sample)
  {
    StoredStringReadsCut(e.slot.comm, e.sample.comm);
    if e.sample.ExecSample? {
      StoredStringReadsCut(e.slot.filename, e.sample.filename);
    }
  }

  function Lines(slots: seq<Slot>): seq<Line> {
    seq(|slots|, i requires 0 <= i < |slots| => HandleEvent(slots[i]))
  }

  function LinesFor(log: seq<Submission>): seq<Line> {
    seq(|log|, i requires 0 <= i < |log| => LineFor(log[i].sample))
  }

  lemma PrintedLinesAreSampleLines(log: seq<Submission>)
    ensures Lines(AllFilled(log)) == LinesFor(log)
  {
    forall i | 0 <= i < |log| ensures Lines(AllFilled(log))[i] == LinesFor(log)[i] {
      StaleSlotsDoNotShow(log[i]);
    }
  }

  // ---------- one record, from what the handler met to the line ----------

  /** The status byte of a wait code is the second one. */
  lemma StatusByte(high: int, status: int, low: int)
    requires 0 <= status < 0x100 && 0 <= low < 0x100
    ensures ((high * 0x100 + status) * 0x100 + low) / 0x100 == high * 0x100 + status
    ensures (high * 0x100 + status) % 0x100 == status
  {
  }

  /** What the exit of a thread makes of its process's start time, its wait code `((high, status), low)` and
      its command name `comm`, `d` nanoseconds after the start on a 64-bit clock. A thread that is not the
      leader leaves no record. The leader's is withheld only by a filter that its lifetime does not reach,
      and prints the status, the lifetime in whole milliseconds, and as much of the name as fits. */
  lemma ExitPrints(cfg: Config, start: Option<u64>, s: Step, d: int, high: int, status: int, low: int, comm: seq<byte>)
    requires s.Exit? && s.slot.Some? && HoldsString(s.task.comm, comm)
    requires 0 <= status < 0x100 && 0 <= low < 0x100 && s.rawExitCode == (high * 0x100 + status) * 0x100 + low
    requires if start.Some? then 0 <= d < TWO_64 && (start.value + d) % TWO_64 == s.ts else d == 0
    ensures var e := Emission(cfg, start, s);
            && (e.Some? <==> && s.id.upper == s.id.lower
                             && (cfg.minDurationNs == 0 || (start.Some? && cfg.minDurationNs <= d)))
            && (e.Some? ==> HandleEvent(Filled(e.value))
                            == ExitLine(if |comm| < 16 then comm else comm[..15], AsPid(s.id.upper), s.task.ppid,
                                        status, if d != 0 then Some(d / 1000000) else None))
  {
    LeaderIsMainThread(s);
    StatusByte(high, status, low);
    if start.Some? {
      MinusLeadsBack(s.ts, start.value, d);
    }
    var e := Emission(cfg, start, s);
    if e.Some? {
      StaleSlotsDoNotShow(e.value);
      StringIsUnique(s.task.comm, comm);
    }
  }

  /** Without a filter, an exec prints its process, its parent, and as much of both names as fits. */
  lemma ExecPrints(cfg: Config, start: Option<u64>, s: Step, comm: seq<byte>, filename: seq<byte>)
    requires s.Exec? && s.slot.Some? && HoldsString(s.task.comm, comm) && HoldsString(s.filename, filename)
    ensures var e := Emission(cfg, start, s);
            && (e.Some? <==> cfg.minDurationNs == 0)
            && (e.Some? ==> HandleEvent(Filled(e.value))
                            == ExecLine(if |comm| < 16 then comm else comm[..15], AsPid(s.id.upper), s.task.ppid,
                                        if |filename| < 127 then filename else filename[..126]))
  {
    LeaderIsMainThread(s);
    var e := Emission(cfg, start, s);
    if e.Some? {
      StaleSlotsDoNotShow(e.value);
      StringIsUnique(s.task.comm, comm);
      StringIsUnique(s.filename, filename);
    }
  }

  // ---------- duration mode, end to end ----------

  /** The largest number of milliseconds whose nanoseconds fit 64 bits. */
  const LARGEST_EXACT_MS: Long := 18446744073709

  lemma ScalingIsExactUpToLimit(d: Long)
    requires 0 < d
    ensures ScaledToNs(d) == d * NS_PER_MS <==> d <= LARGEST_EXACT_MS
  {
    if d <= LARGEST_EXACT_MS {
      assert 0 <= d * NS_PER_MS < TWO_64;
    } else {
      assert TWO_64 <= d * NS_PER_MS;
    }
  }

  /** The line for step `i` when it ends a life of at least `d` whole milliseconds. */
  function LongLife(d: int, tr: seq<Step>, i: nat): seq<Line>
    requires i < |tr|
  {
    var s := tr[i];
    if s.Exit? && s.id.upper == s.id.lower && s.slot.Some?
       && Lifetime(tr, i).Some? && d <= Lifetime(tr, i).value / NS_PER_MS then
      [ExitLine(Fitted(CString(s.task.comm), TASK_COMM_LEN), AsPid(s.id.upper), s.task.ppid,
                s.rawExitCode / 0x100 % 0x100, Some(Lifetime(tr, i).value / NS_PER_MS))]
    else []
  }

  /** The lines a user who asked for lifetimes of at least `d` ms should see for the first `n` steps. */
  function LongLives(d: int, tr: seq<Step>, n: nat): seq<Line>
    requires n <= |tr|
  {
    if n == 0 then [] else LongLives(d, tr, n - 1) + LongLife(d, tr, n - 1)
  }

  function RecordedLongLife(d: int, cfg: Config, tr: seq<Step>, i: nat): seq<Line>
    requires i < |tr|
  {
    if AsPid(tr[i].id.upper) in StateAt(cfg, tr, i).execStart then LongLife(d, tr, i) else []
  }

  /** Those of them whose start the map has kept. */
  function RecordedLongLives(d: int, cfg: Config, tr: seq<Step>, n: nat): seq<Line>
    requires n <= |tr|
  {
    if n == 0 then [] else RecordedLongLives(d, cfg, tr, n - 1) + RecordedLongLife(d, cfg, tr, n - 1)
  }

  lemma WholeMilliseconds(d: int, ns: int)
    requires 0 <= ns
    ensures d * NS_PER_MS <= ns <==> d <= ns / NS_PER_MS
  {
  }

  function LineOf(e: Option<Submission>): seq<Line> {
    if e.Some? then [LineFor(e.value.sample)] else []
  }

  lemma OneMoreLine(log: seq<Submission>, e: Option<Submission>)
    ensures LinesFor(Appended(log, e)) == LinesFor(log) + LineOf(e)
  {
  }

  /** What one exit or exec prints in duration mode. */
  lemma EmissionIsLongLife(d: int, cfg: Config, tr: seq<Step>, i: nat)
    requires i < |tr| && ClockNeverFalls(tr, i + 1)
    requires 0 < d && cfg.minDurationNs == d * NS_PER_MS
    ensures LineOf(Emission(cfg, Get(StateAt(cfg, tr, i).execStart, Pid(tr[i])), tr[i]))
         == RecordedLongLife(d, cfg, tr, i)
  {
    if Pid(tr[i]) in StateAt(cfg, tr, i).execStart {
      RecordsAreLiving(cfg, tr, i, Pid(tr[i]));
      LifetimesDoNotWrap(tr, i);
      WholeMilliseconds(d, Lifetime(tr, i).value);
    }
  }

  lemma LinesAfter(d: int, cfg: Config, tr: seq<Step>, n: nat)
    requires n < |tr| && ClockNeverFalls(tr, n + 1)
    requires 0 < d && cfg.minDurationNs == d * NS_PER_MS
    ensures LinesFor(StateAt(cfg, tr, n + 1).submitted)
         == LinesFor(StateAt(cfg, tr, n).submitted) + RecordedLongLife(d, cfg, tr, n)
  {
    EmissionIsLongLife(d, cfg, tr, n);
    OneMoreLine(StateAt(cfg, tr, n).submitted, Emission(cfg, Get(StateAt(cfg, tr, n).execStart, Pid(tr[n])), tr[n]));
  }

  lemma {:induction false} SamplesAreLongLives(d: int, cfg: Config, tr: seq<Step>, n: nat)
    requires n <= |tr| && ClockNeverFalls(tr, n)
    requires 0 < d && cfg.minDurationNs == d * NS_PER_MS
    ensures LinesFor(StateAt(cfg, tr, n).submitted) == RecordedLongLives(d, cfg, tr, n)
  {
    if n > 0 {
      SamplesAreLongLives(d, cfg, tr, n - 1);
      LinesAfter(d, cfg, tr, n - 1);
      assert RecordedLongLives(d, cfg, tr, n)
          == RecordedLongLives(d, cfg, tr, n - 1) + RecordedLongLife(d, cfg, tr, n - 1);
    }
  }

  /** For every `-d` value that scales exactly, and whatever the map refused, a run prints exactly the leader
      exits that have a recorded start and lived at least that many whole milliseconds, each with the true
      figure, and no exec. */
  lemma DurationModePrintsLongLives(d: Long, cfg: Config, tr: seq<Step>, n: nat)
    requires n <= |tr| && ClockNeverFalls(tr, n)
    requires 0 < d <= LARGEST_EXACT_MS && cfg.minDurationNs == ScaledToNs(d)
    ensures Lines(AllFilled(StateAt(cfg, tr, n).submitted)) == RecordedLongLives(d, cfg, tr, n)
  {
    PrintedLinesAreSampleLines(StateAt(cfg, tr, n).submitted);
    ScalingIsExactUpToLimit(d);
    SamplesAreLongLives(d, cfg, tr, n);
  }

  lemma RoomForLongLife(d: int, cfg: Config, tr: seq<Step>, i: nat)
    requires i < |tr| && forall m :: 0 <= m <= i ==> Within(Living(tr, m), cfg.limit)
    ensures RecordedLongLife(d, cfg, tr, i) == LongLife(d, tr, i)
  {
    Capacity(cfg, tr, i);
    StartsMatchHistory(cfg, tr, i, AsPid(tr[i].id.upper));
  }

  /** While no more processes live than the map can hold, these are all the long lives. */
  lemma {:induction false} RoomForAllLongLives(d: int, cfg: Config, tr: seq<Step>, n: nat)
    requires n <= |tr| && forall m :: 0 <= m <= n ==> Within(Living(tr, m), cfg.limit)
    ensures RecordedLongLives(d, cfg, tr, n) == LongLives(d, tr, n)
  {
    if n > 0 {
      RoomForAllLongLives(d, cfg, tr, n - 1);
      RoomForLongLife(d, cfg, tr, n - 1);
    }
  }

  lemma DurationModePrintsAllLongLives(d: Long, cfg: Config, tr: seq<Step>, n: nat)
    requires n <= |tr| && NothingRefused(cfg, tr, n) && ClockNeverFalls(tr, n)
    requires 0 < d <= LARGEST_EXACT_MS && cfg.minDurationNs == ScaledToNs(d)
    ensures Lines(AllFilled(StateAt(cfg, tr, n).submitted)) == LongLives(d, tr, n)
  {
    DurationModePrintsLongLives(d, cfg, tr, n);
    Capacity(cfg, tr, n);
    RoomForAllLongLives(d, cfg, tr, n);
  }

  /** No run in duration mode prints an exec, whatever the clock and the map do. */
  lemma {:induction false} DurationModePrintsNoExec(cfg: Config, tr: seq<Step>, n: nat, i: nat)
    requires n <= |tr| && cfg.minDurationNs != 0 && i < |StateAt(cfg, tr, n).submitted|
    ensures Lines(AllFilled(StateAt(cfg, tr, n).submitted))[i].ExitLine?
  {
    var before := StateAt(cfg, tr, n - 1);
    if i < |before.submitted| {
      DurationModePrintsNoExec(cfg, tr, n - 1, i);
    }
  }

  // ---------- from the option to the lines ----------

  /** What the number parser made of the argument of `-d`. */
  datatype DurationOption = Absent | Given(value: Long, rangeError: bool)

  method Print(slots: seq<Slot>) returns (lines: seq<Line>)
    ensures lines == Lines(slots)
  {
    lines := [];
    for i := 0 to |slots|
      invariant lines == Lines(slots[..i])
    {
      lines := lines + [HandleEvent(slots[i])];
    }
    assert slots[..|slots|] == slots;
  }

  function Loaded(ns: u64): Config { Config(ns, Some(MAX_ENTRIES)) }

  /** `bootstrap` from its command line to its output: the option is parsed and scaled, the handlers see the
      run `tr`, and every record of the ring is printed. `None` is the usage message.

      An accepted duration of `d` ms that scales exactly prints the recorded long lives of the run, which are
      all its long lives while at most 8192 processes live at once; and it prints no exec at all, unless it
      is one of the huge values that scale to 0. */
  method Session(opt: DurationOption, tr: seq<Step>) returns (printed: Option<seq<Line>>)
    ensures printed.None? <==> opt.Given? && (opt.rangeError || opt.value <= 0)
    ensures printed.Some? && opt.Absent? ==> printed.value == LinesFor(StateAt(Loaded(0), tr, |tr|).submitted)
    ensures printed.Some? && opt.Given? && opt.value <= LARGEST_EXACT_MS && ClockNeverFalls(tr, |tr|) ==>
              printed.value == RecordedLongLives(opt.value, Loaded(ScaledToNs(opt.value)), tr, |tr|)
    ensures printed.Some? && opt.Given? && opt.value <= LARGEST_EXACT_MS && ClockNeverFalls(tr, |tr|)
            && (forall m :: 0 <= m <= |tr| ==> |Living(tr, m)| <= MAX_ENTRIES) ==>
              printed.value == LongLives(opt.value, tr, |tr|)
    ensures printed.Some? && opt.Given? && opt.value % TWO_58 != 0 ==>
              forall i :: 0 <= i < |printed.value| ==> printed.value[i].ExitLine?
  {
    var env := new Env();
    if opt.Given? {
      var accepted := env.ParseDuration(opt.value, opt.rangeError);
      if !accepted {
        return None;
      }
    }
    var ns := env.MinDurationNs();
    var tracker := Track(ns, tr);
    var lines := Print(tracker.submitted);
    printed := Some(lines);
    SessionPrints(opt, ns, tr);
  }

  /** What the lines of such a session are, from the theorems about runs. */
  lemma SessionPrints(opt: DurationOption, ns: u64, tr: seq<Step>)
    requires opt.Given? ==> 0 < opt.value && ns == ScaledToNs(opt.value)
    ensures var lines, cfg := Lines(AllFilled(StateAt(Loaded(ns), tr, |tr|).submitted)), Loaded(ns);
            && lines == LinesFor(StateAt(cfg, tr, |tr|).submitted)
            && (opt.Given? && opt.value <= LARGEST_EXACT_MS && ClockNeverFalls(tr, |tr|) ==>
                  lines == RecordedLongLives(opt.value, cfg, tr, |tr|))
            && (opt.Given? && (forall m :: 0 <= m <= |tr| ==> |Living(tr, m)| <= MAX_ENTRIES) ==>
                  RecordedLongLives(opt.value, cfg, tr, |tr|) == LongLives(opt.value, tr, |tr|))
            && (opt.Given? && opt.value % TWO_58 != 0 ==> forall i :: 0 <= i < |lines| ==> lines[i].ExitLine?)
  {
    var cfg := Loaded(ns);
    PrintedLinesAreSampleLines(StateAt(cfg, tr, |tr|).submitted);
    if opt.Given? {
      if opt.value <= LARGEST_EXACT_MS && ClockNeverFalls(tr, |tr|) {
        DurationModePrintsLongLives(opt.value, cfg, tr, |tr|);
      }
      if forall m :: 0 <= m <= |tr| ==> |Living(tr, m)| <= MAX_ENTRIES {
        RoomForAllLongLives(opt.value, cfg, tr, |tr|);
      }
      if opt.value % TWO_58 != 0 {
        ScalingVanishes(opt.value);
        forall i | 0 <= i < |StateAt(cfg, tr, |tr|).submitted|
          ensures Lines(AllFilled(StateAt(cfg, tr, |tr|).submitted))[i].ExitLine?
        {
          DurationModePrintsNoExec(cfg, tr, |tr|, i);
        }
      }
    }
  }
  // ---------- beyond the exact range ----------

  /** A leader exit with a recorded start and a slot is reported when it lived `d` whole milliseconds. */
  ghost predicate FilterIsRight(d: Long, limit: Option<nat>) {
    forall t0: u64, s: Step :: s.Exit? && Leader(s) && s.slot.Some? ==>
      (Emission(Config(ScaledToNs(d), limit), Some(t0), s).Some? <==> d <= Minus(s.ts, t0) / NS_PER_MS)
  }

  const LONGEST_LIFE :=
    Exit(PidTgid(1, 1), TWO_64 - 1, Task(0, []), 0,
         Some(Slot(0, 0, 0, 0, Zeros(TASK_COMM_LEN), Zeros(MAX_FILENAME_LEN), false)))

  /** The filter is right on every exit exactly for the `-d` values that scale exactly. */
  lemma FilterIsRightUpToLimit(d: Long, limit: Option<nat>)
    requires 0 < d
    ensures FilterIsRight(d, limit) <==> d <= LARGEST_EXACT_MS
  {
    ScalingIsExactUpToLimit(d);
    if d <= LARGEST_EXACT_MS {
      forall t0: u64, s: Step | s.Exit? && Leader(s) && s.slot.Some?
        ensures Emission(Config(ScaledToNs(d), limit), Some(t0), s).Some? <==> d <= Minus(s.ts, t0) / NS_PER_MS
      {
        WholeMilliseconds(d, Minus(s.ts, t0));
      }
    } else {
      MinusIsExact(LONGEST_LIFE.ts, 0);
      assert Emission(Config(ScaledToNs(d), limit), Some(0), LONGEST_LIFE).Some?;
      assert Minus(LONGEST_LIFE.ts, 0) / NS_PER_MS < d;
    }
  }

  const TWO_58: int := 0x400_0000_0000_0000

  /** Scaling hits 0, which switches the filter off, exactly at the multiples of 2 to the 58th. */
  lemma ScalingVanishes(d: Long)
    ensures ScaledToNs(d) == 0 <==> d % TWO_58 == 0
  {
    if ScaledToNs(d) == 0 {
      var q := d * NS_PER_MS / TWO_64;
      assert d * NS_PER_MS == q * TWO_64;
      assert d * 15625 == q * TWO_58;
      assert d == TWO_58 * (q * 76480200929599801 - d * 4146);
    }
    if d % TWO_58 == 0 {
      var k := d / TWO_58;
      assert d * NS_PER_MS == k * 15625 * TWO_64;
    }
  }

  /** Exec samples are withheld for every `-d` value except those. */
  lemma ExecsAreSilent(d: Long, limit: Option<nat>)
    ensures (forall start: Option<u64>, s: Step :: s.Exec? ==> Emission(Config(ScaledToNs(d), limit), start, s) == None)
       <==> d % TWO_58 != 0
  {
    ScalingVanishes(d);
    if d % TWO_58 == 0 {
      var slot := Slot(0, 0, 0, 0, Zeros(TASK_COMM_LEN), Zeros(MAX_FILENAME_LEN), false);
      var s := Exec(PidTgid(1, 1), 0, Task(0, []), [], Some(slot));
      assert Emission(Config(ScaledToNs(d), limit), None, s).Some?;
    }
  }
}
