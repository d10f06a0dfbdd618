/** `bootstrap` with the lookup, update, delete, reserve and submit of each handler as separate steps,
    interleaved across any number of CPUs. */
module BootstrapInterleaved {
  import opened Kernel
  import opened Bootstrap
  import opened BootstrapHistory

  /** The next operation of a handler in flight, with its live variables. */
  datatype Local =
    | ExecUpdate
    | ExecReserve
    | ExitLookup
    | ExitDelete(durationNs: int)
    | ExitReserve(durationNs: int)
    | Submit(e: Submission)

  /** Handlers are numbered in the order they begin; `begun` holds their inputs and `inflight` where
      each unfinished one stands. Submissions carry the number of the handler that made them. */
  datatype System = System(
    execStart: map<int, u64>, begun: seq<Step>, inflight: map<nat, Local>, submitted: seq<(nat, Submission)>)

  const START := System(map[], [], map[], [])

  datatype Move = Begin(s: Step) | Continue(k: nat)

  function Sampled(s: Step, durationNs: int): Option<Submission>
    requires s.Exit?
  {
    if s.slot.None? then None
    else Some(Submission(s.slot.value,
                         ExitSample(Pid(s), s.task.ppid, ExitStatus(s.rawExitCode), durationNs, s.task.comm)))
  }

  /** A handler that begins is in flight, unless it ignores its thread exit. */
  function FirstLocal(s: Step): Option<Local> {
    if s.Exec? then Some(ExecUpdate) else if Leader(s) then Some(ExitLookup) else None
  }

  predicate Fits(s: Step, l: Local) {
    match l
    case ExecUpdate => s.Exec?
    case ExecReserve => s.Exec?
    case Submit(_) => true
    case _ => s.Exit? && Leader(s)
  }

  /** The map after the next operation of a handler. */
  function MapAfter(cfg: Config, execStart: map<int, u64>, s: Step, l: Local): map<int, u64> {
    match l
    case ExecUpdate => Updated(execStart, cfg.limit, Pid(s), s.ts)
    case ExitDelete(_) => execStart - {Pid(s)}
    case _ => execStart
  }

  /** Where the handler stands after it; `None` once it has returned. */
  function LocalAfter(cfg: Config, start: Option<u64>, s: Step, l: Local): Option<Local>
    requires Fits(s, l)
  {
    match l
    case ExecUpdate => if cfg.minDurationNs != 0 then None else Some(ExecReserve)
    case ExecReserve =>
      if s.slot.None? then None
      else Some(Submit(Submission(s.slot.value, ExecSample(Pid(s), s.task.ppid, s.task.comm, s.filename))))
    case ExitLookup =>
      if start.None? && cfg.minDurationNs != 0 then None
      else Some(ExitDelete(if start.Some? then Minus(s.ts, start.value) else 0))
    case ExitDelete(d) => if cfg.minDurationNs != 0 && d < cfg.minDurationNs then None else Some(ExitReserve(d))
    case ExitReserve(d) => if Sampled(s, d).None? then None else Some(Submit(Sampled(s, d).value))
    case Submit(_) => None
  }

  predicate WellFormed(sys: System) {
    forall k {:trigger k in sys.inflight} :: k in sys.inflight ==>
      k < |sys.begun| && Fits(sys.begun[k], sys.inflight[k])
  }

  function Placed(inflight: map<nat, Local>, k: nat, l: Option<Local>): map<nat, Local> {
    if l.Some? then inflight[k := l.value] else inflight - {k}
  }

  function Advance(cfg: Config, sys: System, m: Move): (after: System)
    requires WellFormed(sys)
    ensures WellFormed(after)
  {
    match m
    case Begin(s) =>
      sys.(begun := sys.begun + [s], inflight := Placed(sys.inflight, |sys.begun|, FirstLocal(s)))
    case Continue(k) =>
      if k !in sys.inflight then sys
      else
        var s, l := sys.begun[k], sys.inflight[k];
        System(MapAfter(cfg, sys.execStart, s, l), sys.begun,
               Placed(sys.inflight, k, LocalAfter(cfg, Get(sys.execStart, Pid(s)), s, l)),
               if l.Submit? then sys.submitted + [(k, l.e)] else sys.submitted)
  }

  function SystemAt(cfg: Config, ms: seq<Move>, n: nat): (sys: System)
    requires n <= |ms|
    ensures WellFormed(sys)
  {
    if n == 0 then START else Advance(cfg, SystemAt(cfg, ms, n - 1), ms[n - 1])
  }

  // ---------- the atomic run it is compared with ----------

  /** The start times before handler `k`, had the handlers run one after the other as they began. */
  function AtomicStarts(cfg: Config, begun: seq<Step>, k: nat): map<int, u64>
    requires k <= |begun|
  {
    StateAt(Unbounded(cfg), begun, k).execStart
  }

  function AtomicEmission(cfg: Config, begun: seq<Step>, k: nat): Option<Submission>
    requires k < |begun|
  {
    Emission(cfg, Get(AtomicStarts(cfg, begun, k), Pid(begun[k])), begun[k])
  }

  // ---------- what the schedule is assumed to respect ----------

  predicate InMapPhase(l: Local) { l.ExecUpdate? || l.ExitLookup? || l.ExitDelete? }

  /** No handler in flight has still to finish with the map entry of `p`. */
  ghost predicate Free(sys: System, p: int)
    requires WellFormed(sys)
  {
    forall k {:trigger k in sys.inflight} :: k in sys.inflight && InMapPhase(sys.inflight[k]) ==> Pid(sys.begun[k]) != p
  }

  ghost predicate Allowed(cfg: Config, sys: System, m: Move)
    requires WellFormed(sys)
  {
    match m
    case Begin(s) => FirstLocal(s).Some? ==> Free(sys, Pid(s))
    case Continue(k) =>
      k in sys.inflight && sys.inflight[k].ExecUpdate? ==> !Refused(sys.execStart, cfg.limit, Pid(sys.begun[k]))
  }

  /** Handlers that share a process do not overlap, and no start time is refused. */
  ghost predicate AllAllowed(cfg: Config, ms: seq<Move>, n: nat)
    requires n <= |ms|
  {
    0 < n ==> AllAllowed(cfg, ms, n - 1) && Allowed(cfg, SystemAt(cfg, ms, n - 1), ms[n - 1])
  }

  // ---------- the invariant ----------

  /** What a handler in flight will submit, given the current start time of its process. */
  function Promise(cfg: Config, start: Option<u64>, s: Step, l: Local): Option<Submission>
    requires Fits(s, l)
  {
    match l
    case ExecUpdate => Emission(cfg, None, s)
    case ExecReserve => Emission(cfg.(minDurationNs := 0), None, s)
    case ExitLookup => Emission(cfg, start, s)
    case ExitDelete(d) => if cfg.minDurationNs != 0 && d < cfg.minDurationNs then None else Sampled(s, d)
    case ExitReserve(d) => Sampled(s, d)
    case Submit(e) => Some(e)
  }

  /** The start time that a handler in its map phase leaves behind. */
  function Leaves(s: Step): Option<u64> { if s.Exec? then Some(s.ts) else None }

  /** Entries no handler is busy with are those of the atomic run. */
  ghost predicate FreeEntriesAgree(cfg: Config, sys: System)
    requires WellFormed(sys)
  {
    forall p :: Free(sys, p) ==> Get(sys.execStart, p) == Get(AtomicStarts(cfg, sys.begun, |sys.begun|), p)
  }

  /** Handlers in their map phase belong to different processes and leave what the atomic run left. */
  ghost predicate BusyEntriesAgree(cfg: Config, sys: System)
    requires WellFormed(sys)
  {
    && (forall k {:trigger k in sys.inflight} :: k in sys.inflight && InMapPhase(sys.inflight[k]) ==>
          Get(AtomicStarts(cfg, sys.begun, |sys.begun|), Pid(sys.begun[k])) == Leaves(sys.begun[k]))
    && (forall k, j {:trigger k in sys.inflight, j in sys.inflight} ::
          k in sys.inflight && j in sys.inflight && k != j ==>
          InMapPhase(sys.inflight[k]) && InMapPhase(sys.inflight[j]) ==> Pid(sys.begun[k]) != Pid(sys.begun[j]))
  }

  ghost predicate PromisesAgree(cfg: Config, sys: System)
    requires WellFormed(sys)
  {
    forall k {:trigger k in sys.inflight} :: k in sys.inflight ==>
      Promise(cfg, Get(sys.execStart, Pid(sys.begun[k])), sys.begun[k], sys.inflight[k])
      == AtomicEmission(cfg, sys.begun, k)
  }

  /** Each submission is the atomic one of its handler, which has returned. */
  ghost predicate SubmissionsAgree(cfg: Config, sys: System)
    requires WellFormed(sys)
  {
    forall i :: 0 <= i < |sys.submitted| ==>
      && sys.submitted[i].0 < |sys.begun| && sys.submitted[i].0 !in sys.inflight
      && AtomicEmission(cfg, sys.begun, sys.submitted[i].0) == Some(sys.submitted[i].1)
  }

  ghost predicate SubmittedOnce(sys: System) {
    forall i, j :: 0 <= i < j < |sys.submitted| ==> sys.submitted[i].0 != sys.submitted[j].0
  }

  ghost predicate Submitted(sys: System, k: nat) {
    exists i :: 0 <= i < |sys.submitted| && sys.submitted[i].0 == k
  }

  ghost predicate NoneMissing(cfg: Config, sys: System)
    requires WellFormed(sys)
  {
    forall k {:trigger Submitted(sys, k)} :: 0 <= k < |sys.begun| && k !in sys.inflight ==>
      AtomicEmission(cfg, sys.begun, k).Some? ==> Submitted(sys, k)
  }

  ghost predicate Agrees(cfg: Config, sys: System)
    requires WellFormed(sys)
  {
    && FreeEntriesAgree(cfg, sys) && BusyEntriesAgree(cfg, sys)
    && PromisesAgree(cfg, sys) && SubmissionsAgree(cfg, sys)
    && SubmittedOnce(sys) && NoneMissing(cfg, sys)
  }

  // ---------- preservation ----------

  lemma {:induction false} StateIgnoresFuture(cfg: Config, a: seq<Step>, s: Step, n: nat)
    requires n <= |a|
    ensures StateAt(cfg, a + [s], n) == StateAt(cfg, a, n)
  {
    if n > 0 {
      StateIgnoresFuture(cfg, a, s, n - 1);
    }
  }

  lemma EmissionIgnoresFuture(cfg: Config, begun: seq<Step>, s: Step)
    ensures forall k {:trigger AtomicEmission(cfg, begun + [s], k)} :: 0 <= k < |begun| ==>
              AtomicEmission(cfg, begun + [s], k) == AtomicEmission(cfg, begun, k)
  {
    forall k | 0 <= k < |begun| ensures AtomicEmission(cfg, begun + [s], k) == AtomicEmission(cfg, begun, k) {
      StateIgnoresFuture(Unbounded(cfg), begun, s, k);
    }
  }

  lemma AtomicStartsAfter(cfg: Config, begun: seq<Step>, s: Step, p: int)
    ensures Get(AtomicStarts(cfg, begun + [s], |begun| + 1), p)
         == if FirstLocal(s).Some? && Pid(s) == p then Leaves(s) else Get(AtomicStarts(cfg, begun, |begun|), p)
  {
    StateIgnoresFuture(Unbounded(cfg), begun, s, |begun|);
  }

  lemma BeginKeepsFree(cfg: Config, sys: System, s: Step)
    requires WellFormed(sys) && FreeEntriesAgree(cfg, sys)
    ensures FreeEntriesAgree(cfg, Advance(cfg, sys, Begin(s)))
  {
    var after, now := Advance(cfg, sys, Begin(s)), |sys.begun|;
    forall p | Free(after, p)
      ensures Get(after.execStart, p) == Get(AtomicStarts(cfg, after.begun, |after.begun|), p)
    {
      AtomicStartsAfter(cfg, sys.begun, s, p);
      if FirstLocal(s).Some? {
        assert now in after.inflight && InMapPhase(after.inflight[now]);
      }
      assert Free(sys, p) by {
        forall k | k in sys.inflight && InMapPhase(sys.inflight[k]) ensures Pid(sys.begun[k]) != p {
          assert k in after.inflight && after.inflight[k] == sys.inflight[k];
        }
      }
    }
  }

  lemma BeginKeepsBusy(cfg: Config, sys: System, s: Step)
    requires WellFormed(sys) && BusyEntriesAgree(cfg, sys) && Allowed(cfg, sys, Begin(s))
    ensures BusyEntriesAgree(cfg, Advance(cfg, sys, Begin(s)))
  {
    var after := Advance(cfg, sys, Begin(s));
    forall k | k in after.inflight && InMapPhase(after.inflight[k])
      ensures Get(AtomicStarts(cfg, after.begun, |after.begun|), Pid(after.begun[k])) == Leaves(after.begun[k])
    {
      AtomicStartsAfter(cfg, sys.begun, s, Pid(after.begun[k]));
    }
  }

  lemma BeginKeepsPromises(cfg: Config, sys: System, s: Step)
    requires WellFormed(sys) && FreeEntriesAgree(cfg, sys) && PromisesAgree(cfg, sys)
    requires Allowed(cfg, sys, Begin(s))
    ensures PromisesAgree(cfg, Advance(cfg, sys, Begin(s)))
  {
    var after, now := Advance(cfg, sys, Begin(s)), |sys.begun|;
    EmissionIgnoresFuture(cfg, sys.begun, s);
    StateIgnoresFuture(Unbounded(cfg), sys.begun, s, now);
    forall k | k in after.inflight
      ensures Promise(cfg, Get(after.execStart, Pid(after.begun[k])), after.begun[k], after.inflight[k])
           == AtomicEmission(cfg, after.begun, k)
    {
      if k == now {
        assert Free(sys, Pid(s));
      } else {
        assert k in sys.inflight && after.begun[k] == sys.begun[k];
      }
    }
  }

  lemma BeginKeepsSubmissions(cfg: Config, sys: System, s: Step)
    requires WellFormed(sys) && SubmissionsAgree(cfg, sys)
    ensures SubmissionsAgree(cfg, Advance(cfg, sys, Begin(s)))
  {
    EmissionIgnoresFuture(cfg, sys.begun, s);
  }

  lemma BeginMissesNone(cfg: Config, sys: System, s: Step)
    requires WellFormed(sys) && NoneMissing(cfg, sys)
    ensures NoneMissing(cfg, Advance(cfg, sys, Begin(s)))
  {
    var after := Advance(cfg, sys, Begin(s));
    EmissionIgnoresFuture(cfg, sys.begun, s);
    forall k | 0 <= k < |after.begun| && k !in after.inflight && AtomicEmission(cfg, after.begun, k).Some?
      ensures Submitted(after, k)
    {
      assert k < |sys.begun| && k !in sys.inflight;
      assert Submitted(sys, k);
    }
  }

  lemma OnlyTheMoverMoves(cfg: Config, sys: System, k: nat, j: nat)
    requires WellFormed(sys) && k in sys.inflight && j != k
    ensures j in Advance(cfg, sys, Continue(k)).inflight <==> j in sys.inflight
    ensures j in sys.inflight ==> Advance(cfg, sys, Continue(k)).inflight[j] == sys.inflight[j]
  {
  }

  lemma ContinueKeepsFree(cfg: Config, sys: System, k: nat)
    requires WellFormed(sys) && FreeEntriesAgree(cfg, sys) && BusyEntriesAgree(cfg, sys)
    requires Allowed(cfg, sys, Continue(k)) && k in sys.inflight
    ensures FreeEntriesAgree(cfg, Advance(cfg, sys, Continue(k)))
  {
    var after, s, l := Advance(cfg, sys, Continue(k)), sys.begun[k], sys.inflight[k];
    forall p | Free(after, p)
      ensures Get(after.execStart, p) == Get(AtomicStarts(cfg, after.begun, |after.begun|), p)
    {
      if p == Pid(s) && InMapPhase(l) {
        assert k in after.inflight ==> !InMapPhase(after.inflight[k]);
        LastMapOperation(cfg, sys.execStart, s, l);
      } else {
        assert Free(sys, p) by {
          forall j | j in sys.inflight && InMapPhase(sys.inflight[j]) ensures Pid(sys.begun[j]) != p {
            if j != k {
              OnlyTheMoverMoves(cfg, sys, k, j);
            }
          }
        }
      }
    }
  }

  /** A handler that leaves its map phase leaves the entry it should. */
  lemma LastMapOperation(cfg: Config, execStart: map<int, u64>, s: Step, l: Local)
    requires Fits(s, l) && InMapPhase(l) && (l.ExecUpdate? ==> !Refused(execStart, cfg.limit, Pid(s)))
    requires var l' := LocalAfter(cfg, Get(execStart, Pid(s)), s, l); l'.None? || !InMapPhase(l'.value)
    ensures Get(MapAfter(cfg, execStart, s, l), Pid(s)) == Leaves(s)
  {
  }

  lemma ContinueKeepsBusy(cfg: Config, sys: System, k: nat)
    requires WellFormed(sys) && BusyEntriesAgree(cfg, sys) && k in sys.inflight
    ensures BusyEntriesAgree(cfg, Advance(cfg, sys, Continue(k)))
  {
    var after, s, l := Advance(cfg, sys, Continue(k)), sys.begun[k], sys.inflight[k];
    forall j | j in after.inflight && InMapPhase(after.inflight[j])
      ensures j in sys.inflight && InMapPhase(sys.inflight[j])
    {
      if j != k {
        OnlyTheMoverMoves(cfg, sys, k, j);
      }
    }
  }

  /** A map operation touches the entry of its own process only. */
  lemma MapAfterIsLocal(cfg: Config, execStart: map<int, u64>, s: Step, l: Local, p: int)
    requires p != Pid(s) || !InMapPhase(l)
    ensures Get(MapAfter(cfg, execStart, s, l), p) == Get(execStart, p)
  {
  }

  lemma ContinueKeepsPromises(cfg: Config, sys: System, k: nat)
    requires WellFormed(sys) && BusyEntriesAgree(cfg, sys) && PromisesAgree(cfg, sys) && k in sys.inflight
    ensures PromisesAgree(cfg, Advance(cfg, sys, Continue(k)))
  {
    var after, s, l := Advance(cfg, sys, Continue(k)), sys.begun[k], sys.inflight[k];
    forall j | j in after.inflight
      ensures Promise(cfg, Get(after.execStart, Pid(after.begun[j])), after.begun[j], after.inflight[j])
           == AtomicEmission(cfg, after.begun, j)
    {
      if j == k {
        PromiseIsKept(cfg, Get(sys.execStart, Pid(s)), Get(after.execStart, Pid(s)), s, l);
      } else {
        OnlyTheMoverMoves(cfg, sys, k, j);
        if after.inflight[j].ExitLookup? {
          MapAfterIsLocal(cfg, sys.execStart, s, l, Pid(sys.begun[j]));
        }
      }
    }
  }

  /** An operation neither changes nor forgets what its handler will submit. */
  lemma PromiseIsKept(cfg: Config, start: Option<u64>, start': Option<u64>, s: Step, l: Local)
    requires Fits(s, l)
    ensures var l' := LocalAfter(cfg, start, s, l);
            && (l'.Some? ==> Fits(s, l'.value) && Promise(cfg, start', s, l'.value) == Promise(cfg, start, s, l))
            && (l'.None? && !l.Submit? ==> Promise(cfg, start, s, l) == None)
  {
  }

  lemma ContinueKeepsSubmissions(cfg: Config, sys: System, k: nat)
    requires WellFormed(sys) && PromisesAgree(cfg, sys) && SubmissionsAgree(cfg, sys) && k in sys.inflight
    ensures SubmissionsAgree(cfg, Advance(cfg, sys, Continue(k)))
  {
    var after := Advance(cfg, sys, Continue(k));
    forall i | 0 <= i < |after.submitted|
      ensures && after.submitted[i].0 < |after.begun| && after.submitted[i].0 !in after.inflight
              && AtomicEmission(cfg, after.begun, after.submitted[i].0) == Some(after.submitted[i].1)
    {
      if i < |sys.submitted| {
        assert after.submitted[i] == sys.submitted[i];
        OnlyTheMoverMoves(cfg, sys, k, after.submitted[i].0);
      }
    }
  }

  lemma ContinueSubmitsOnce(cfg: Config, sys: System, k: nat)
    requires WellFormed(sys) && SubmissionsAgree(cfg, sys) && SubmittedOnce(sys) && k in sys.inflight
    ensures SubmittedOnce(Advance(cfg, sys, Continue(k)))
  {
  }

  lemma ContinueMissesNone(cfg: Config, sys: System, k: nat)
    requires WellFormed(sys) && PromisesAgree(cfg, sys) && NoneMissing(cfg, sys) && k in sys.inflight
    ensures NoneMissing(cfg, Advance(cfg, sys, Continue(k)))
  {
    var after, s, l := Advance(cfg, sys, Continue(k)), sys.begun[k], sys.inflight[k];
    PromiseIsKept(cfg, Get(sys.execStart, Pid(s)), None, s, l);
    forall j | 0 <= j < |after.begun| && j !in after.inflight && AtomicEmission(cfg, after.begun, j).Some?
      ensures Submitted(after, j)
    {
      if j == k {
        assert after.submitted[|sys.submitted|].0 == k;
      } else {
        OnlyTheMoverMoves(cfg, sys, k, j);
        assert Submitted(sys, j);
        var i :| 0 <= i < |sys.submitted| && sys.submitted[i].0 == j;
        assert after.submitted[i].0 == j;
      }
    }
  }

  /** In every interleaving whose overlapping handlers belong to different processes, and whose map never
      fills, each submission is the one its handler makes when handlers run one after the other. */
  lemma {:induction false} InterleavingIsAtomic(cfg: Config, ms: seq<Move>, n: nat)
    requires n <= |ms| && AllAllowed(cfg, ms, n)
    ensures Agrees(cfg, SystemAt(cfg, ms, n))
  {
    if n == 0 {
      StartAgrees(cfg);
    } else {
      InterleavingIsAtomic(cfg, ms, n - 1);
      MoveKeepsAgreement(cfg, SystemAt(cfg, ms, n - 1), ms[n - 1], SystemAt(cfg, ms, n));
    }
  }

  lemma StartAgrees(cfg: Config)
    ensures WellFormed(START) && Agrees(cfg, START)
  {
  }

  lemma MoveKeepsAgreement(cfg: Config, sys: System, m: Move, after: System)
    requires WellFormed(sys) && Agrees(cfg, sys) && Allowed(cfg, sys, m) && after == Advance(cfg, sys, m)
    ensures Agrees(cfg, after)
  {
    match m
    case Begin(s) =>
      BeginKeepsFree(cfg, sys, s);
      BeginKeepsBusy(cfg, sys, s);
      BeginKeepsPromises(cfg, sys, s);
      BeginKeepsSubmissions(cfg, sys, s);
      BeginMissesNone(cfg, sys, s);
    case Continue(k) =>
      if k in sys.inflight {
        ContinueKeepsFree(cfg, sys, k);
        ContinueKeepsBusy(cfg, sys, k);
        ContinueKeepsPromises(cfg, sys, k);
        ContinueKeepsSubmissions(cfg, sys, k);
        ContinueSubmitsOnce(cfg, sys, k);
        ContinueMissesNone(cfg, sys, k);
      }
  }

  /** Spelled out for a run that has come to rest: handler by handler, the submissions are those of the
      atomic run, and with a clock that never falls those are the ones the history prescribes. */
  lemma QuietInterleavingMatchesHistory(cfg: Config, ms: seq<Move>, k: nat, e: Submission)
    requires AllAllowed(cfg, ms, |ms|)
    requires SystemAt(cfg, ms, |ms|).inflight == map[]
    requires k < |SystemAt(cfg, ms, |ms|).begun|
    requires ClockNeverFalls(SystemAt(cfg, ms, |ms|).begun, k + 1)
    ensures (k, e) in SystemAt(cfg, ms, |ms|).submitted
       <==> HistorySample(cfg, SystemAt(cfg, ms, |ms|).begun, k) == Some(e)
  {
    var sys := SystemAt(cfg, ms, |ms|);
    InterleavingIsAtomic(cfg, ms, |ms|);
    StartsMatchHistory(Unbounded(cfg), sys.begun, k, Pid(sys.begun[k]));
    EmissionMatchesHistory(cfg, sys.begun, k);
    assert AtomicEmission(cfg, sys.begun, k) == HistorySample(cfg, sys.begun, k);
    if AtomicEmission(cfg, sys.begun, k) == Some(e) {
      assert Submitted(sys, k);
    }
  }
}
