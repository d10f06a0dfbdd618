/** What a run of `bootstrap` should report, read off its history, and how the bounded tracker relates
    to it and to a tracker without a bound. */
module BootstrapHistory {
  import opened Kernel
  import opened Bootstrap

  // ---------- the history specification: no map, no wrap-around ----------

  /** The exiting thread is the leader of its process: both identifiers are the same. */
  predicate EndsLife(s: Step, p: int) { s.Exit? && s.id.upper == s.id.lower && AsPid(s.id.upper) == p }

  predicate StartsLife(s: Step, p: int) { s.Exec? && AsPid(s.id.upper) == p }

  /** The time of the last exec of `p` among the first `n` steps, unless its leader has exited since. */
  function Started(tr: seq<Step>, n: nat, p: int): Option<u64>
    requires n <= |tr|
  {
    if n == 0 then None
    else if StartsLife(tr[n - 1], p) then Some(tr[n - 1].ts)
    else if EndsLife(tr[n - 1], p) then None
    else Started(tr, n - 1, p)
  }

  /** The lifetime that ends at step `i`, as a difference of times. */
  function Lifetime(tr: seq<Step>, i: nat): Option<int>
    requires i < |tr|
  {
    match Started(tr, i, AsPid(tr[i].id.upper))
    case None => None
    case Some(t0) => Some(tr[i].ts - t0)
  }

  function HistorySample(cfg: Config, tr: seq<Step>, i: nat): Option<Submission>
    requires i < |tr|
  {
    var s, pid := tr[i], AsPid(tr[i].id.upper);
    var exitCode := if s.Exit? then s.rawExitCode / 0x100 % 0x100 else 0;
    if s.slot.None? then None
    else if s.Exec? then
      if cfg.minDurationNs == 0
      then Some(Submission(s.slot.value, ExecSample(pid, s.task.ppid, s.task.comm, s.filename)))
      else None
    else if s.id.upper != s.id.lower then None
    else
      match Lifetime(tr, i)
      case Some(d) =>
        if cfg.minDurationNs <= d
        then Some(Submission(s.slot.value, ExitSample(pid, s.task.ppid, exitCode, d, s.task.comm)))
        else None
      case None =>
        if cfg.minDurationNs == 0
        then Some(Submission(s.slot.value, ExitSample(pid, s.task.ppid, exitCode, 0, s.task.comm)))
        else None
  }

  function HistorySamples(cfg: Config, tr: seq<Step>, n: nat): seq<Submission>
    requires n <= |tr|
  {
    if n == 0 then [] else Appended(HistorySamples(cfg, tr, n - 1), HistorySample(cfg, tr, n - 1))
  }

  ghost predicate StartedAt(tr: seq<Step>, n: nat, p: int, i: nat)
    requires n <= |tr|
  {
    && i < n && StartsLife(tr[i], p)
    && forall j :: i < j < n ==> !StartsLife(tr[j], p) && !EndsLife(tr[j], p)
  }

  lemma {:induction false} StartedIsLastExec(tr: seq<Step>, n: nat, p: int, t0: u64)
    requires n <= |tr|
    ensures Started(tr, n, p) == Some(t0) <==> exists i: nat :: StartedAt(tr, n, p, i) && tr[i].ts == t0
  {
    if n > 0 {
      if StartsLife(tr[n - 1], p) {
        assert StartedAt(tr, n, p, n - 1);
      } else if !EndsLife(tr[n - 1], p) {
        StartedIsLastExec(tr, n - 1, p, t0);
        forall i: nat ensures StartedAt(tr, n, p, i) <==> StartedAt(tr, n - 1, p, i) {}
      }
    }
  }

  // ---------- refinement: the map is an index of the history ----------

  /** The handlers key by process and let only the leader's exit through. */
  lemma LeaderIsMainThread(s: Step)
    ensures Leader(s) <==> s.id.upper == s.id.lower
    ensures Pid(s) == AsPid(s.id.upper)
  {
  }

  predicate StartRefused(cfg: Config, st: State, s: Step) {
    s.Exec? && Refused(st.execStart, cfg.limit, Pid(s))
  }

  ghost predicate NothingRefused(cfg: Config, tr: seq<Step>, n: nat)
    requires n <= |tr|
  {
    forall i {:trigger StateAt(cfg, tr, i)} :: 0 <= i < n ==> !StartRefused(cfg, StateAt(cfg, tr, i), tr[i])
  }

  /** The handlers of one process read a clock that never falls from one to the next. */
  ghost predicate ClockNeverFalls(tr: seq<Step>, n: nat)
    requires n <= |tr|
  {
    forall i, j :: 0 <= i < j < n && tr[i].id.upper == tr[j].id.upper ==> tr[i].ts <= tr[j].ts
  }

  lemma {:induction false} StartsMatchHistory(cfg: Config, tr: seq<Step>, n: nat, p: int)
    requires n <= |tr| && NothingRefused(cfg, tr, n)
    ensures Get(StateAt(cfg, tr, n).execStart, p) == Started(tr, n, p)
  {
    if n > 0 {
      StartsMatchHistory(cfg, tr, n - 1, p);
      assert !StartRefused(cfg, StateAt(cfg, tr, n - 1), tr[n - 1]);
    }
  }

  /** The unsigned difference is the one 64-bit number that leads from `b` to `a`, modulo 2 to the 64th. */
  lemma MinusLeadsBack(a: u64, b: u64, d: int)
    ensures Minus(a, b) == d <==> 0 <= d < TWO_64 && (b + d) % TWO_64 == a
  {
    if b <= a {
      assert (a - b) % TWO_64 == a - b;
    } else {
      assert (a - b + TWO_64) % TWO_64 == a - b + TWO_64;
    }
  }

  lemma MinusIsExact(a: u64, b: u64)
    requires b <= a
    ensures Minus(a, b) == a - b
  {
  }

  /** With a clock that never falls the unsigned subtraction is the true difference. */
  lemma LifetimesDoNotWrap(tr: seq<Step>, i: nat)
    requires i < |tr| && ClockNeverFalls(tr, i + 1) && Started(tr, i, Pid(tr[i])).Some?
    ensures 0 <= Lifetime(tr, i).value < TWO_64
    ensures Minus(tr[i].ts, Started(tr, i, Pid(tr[i])).value) == Lifetime(tr, i).value
  {
    var t0 := Started(tr, i, Pid(tr[i])).value;
    StartedIsLastExec(tr, i, Pid(tr[i]), t0);
    var k: nat :| StartedAt(tr, i, Pid(tr[i]), k) && tr[k].ts == t0;
    MinusIsExact(tr[i].ts, t0);
  }

  lemma EmissionMatchesHistory(cfg: Config, tr: seq<Step>, i: nat)
    requires i < |tr| && ClockNeverFalls(tr, i + 1)
    ensures Emission(cfg, Started(tr, i, Pid(tr[i])), tr[i]) == HistorySample(cfg, tr, i)
  {
    if Started(tr, i, Pid(tr[i])).Some? {
      LifetimesDoNotWrap(tr, i);
    }
  }

  lemma SampleMatchesHistory(cfg: Config, tr: seq<Step>, i: nat)
    requires i < |tr| && NothingRefused(cfg, tr, i) && ClockNeverFalls(tr, i + 1)
    ensures Emission(cfg, Get(StateAt(cfg, tr, i).execStart, Pid(tr[i])), tr[i]) == HistorySample(cfg, tr, i)
  {
    StartsMatchHistory(cfg, tr, i, Pid(tr[i]));
    EmissionMatchesHistory(cfg, tr, i);
  }

  /** Every run in which no start time is refused submits exactly what its history prescribes. */
  lemma {:induction false} SamplesMatchHistory(cfg: Config, tr: seq<Step>, n: nat)
    requires n <= |tr| && NothingRefused(cfg, tr, n) && ClockNeverFalls(tr, n)
    ensures StateAt(cfg, tr, n).submitted == HistorySamples(cfg, tr, n)
  {
    if n > 0 {
      SamplesMatchHistory(cfg, tr, n - 1);
      SampleMatchesHistory(cfg, tr, n - 1);
    }
  }

  // ---------- capacity: when exactly no start time is refused ----------

  /** Processes that have started and whose leader has not exited, after `n` steps. */
  function Living(tr: seq<Step>, n: nat): set<int>
    requires n <= |tr|
  {
    if n == 0 then {}
    else if tr[n - 1].Exec? then Living(tr, n - 1) + {AsPid(tr[n - 1].id.upper)}
    else if tr[n - 1].id.upper == tr[n - 1].id.lower then Living(tr, n - 1) - {AsPid(tr[n - 1].id.upper)}
    else Living(tr, n - 1)
  }

  lemma {:induction false} LivingIsScan(tr: seq<Step>, n: nat, p: int)
    requires n <= |tr|
    ensures p in Living(tr, n) <==> Started(tr, n, p).Some?
  {
    if n > 0 {
      LivingIsScan(tr, n - 1, p);
    }
  }

  /** Whatever was refused, a recorded process is alive since the recorded time. */
  lemma {:induction false} RecordsAreLiving(cfg: Config, tr: seq<Step>, n: nat, p: int)
    requires n <= |tr| && p in StateAt(cfg, tr, n).execStart
    ensures Started(tr, n, p) == Some(StateAt(cfg, tr, n).execStart[p])
  {
    var before := StateAt(cfg, tr, n - 1).execStart;
    assert StateAt(cfg, tr, n).execStart == NextStart(cfg, before, tr[n - 1]);
    if !StartsLife(tr[n - 1], p) {
      RecordsAreLiving(cfg, tr, n - 1, p);
    }
  }

  lemma StartKeysAreLiving(cfg: Config, tr: seq<Step>, n: nat)
    requires n <= |tr| && NothingRefused(cfg, tr, n)
    ensures StateAt(cfg, tr, n).execStart.Keys == Living(tr, n)
  {
    forall p ensures p in StateAt(cfg, tr, n).execStart <==> p in Living(tr, n) {
      StartsMatchHistory(cfg, tr, n, p);
      LivingIsScan(tr, n, p);
    }
  }

  lemma {:induction false} LivingFits(cfg: Config, tr: seq<Step>, n: nat)
    requires n <= |tr| && NothingRefused(cfg, tr, n)
    ensures Within(Living(tr, n), cfg.limit)
  {
    if n > 0 {
      LivingFits(cfg, tr, n - 1);
      var p, living := Pid(tr[n - 1]), Living(tr, n - 1);
      if tr[n - 1].Exec? {
        NewLifeFits(cfg, tr, n - 1);
      } else {
        SubsetSize(living - {p}, living);
      }
    }
  }

  lemma NewLifeFits(cfg: Config, tr: seq<Step>, i: nat)
    requires i < |tr| && NothingRefused(cfg, tr, i + 1) && tr[i].Exec? && Within(Living(tr, i), cfg.limit)
    ensures Within(Living(tr, i) + {Pid(tr[i])}, cfg.limit)
  {
    StartKeysAreLiving(cfg, tr, i);
    assert !StartRefused(cfg, StateAt(cfg, tr, i), tr[i]);
    AcceptedStaysWithin(StateAt(cfg, tr, i).execStart, cfg.limit, Pid(tr[i]));
  }

  /** A start time is refused exactly when more processes are alive than the map can hold. */
  lemma Capacity(cfg: Config, tr: seq<Step>, n: nat)
    requires n <= |tr|
    ensures NothingRefused(cfg, tr, n) <==> forall m :: 0 <= m <= n ==> Within(Living(tr, m), cfg.limit)
  {
    if NothingRefused(cfg, tr, n) {
      forall m | 0 <= m <= n ensures Within(Living(tr, m), cfg.limit) {
        LivingFits(cfg, tr, m);
      }
    } else {
      var i :| 0 <= i < n && StartRefused(cfg, StateAt(cfg, tr, i), tr[i]);
      var starts := StateAt(cfg, tr, i).execStart;
      forall p | p in starts ensures p in Living(tr, i) {
        RecordsAreLiving(cfg, tr, i, p);
        LivingIsScan(tr, i, p);
      }
      RefusalOverflows(starts, cfg.limit, Pid(tr[i]), Living(tr, i + 1));
      assert !Within(Living(tr, i + 1), cfg.limit);
    }
  }

  // ---------- the bounded tracker against one without a bound ----------

  function Unbounded(cfg: Config): Config { cfg.(limit := None) }

  lemma {:induction false} BoundedStartsAreSubmap(cfg: Config, tr: seq<Step>, n: nat, p: int)
    requires n <= |tr| && p in StateAt(cfg, tr, n).execStart
    ensures Get(StateAt(Unbounded(cfg), tr, n).execStart, p) == Some(StateAt(cfg, tr, n).execStart[p])
  {
    if !StartsLife(tr[n - 1], p) {
      BoundedStartsAreSubmap(cfg, tr, n - 1, p);
    }
  }

  /** `a` is `b` with some elements left out. */
  ghost predicate Subsequence<T(!new)>(a: seq<T>, b: seq<T>)
    decreases |b|
  {
    if a == [] then true
    else if b == [] then false
    else
      var a', b' := a[..|a| - 1], b[..|b| - 1];
      (a[|a| - 1] == b[|b| - 1] && Subsequence(a', b')) || Subsequence(a, b')
  }

  lemma SubsequenceGrows<T(!new)>(a: seq<T>, b: seq<T>, x: T)
    requires Subsequence(a, b)
    ensures Subsequence(a, b + [x]) && Subsequence(a + [x], b + [x])
  {
    assert (b + [x])[..|b|] == b && (a + [x])[..|a|] == a;
  }

  lemma AppendedStaySubsequence(b: seq<Submission>, u: seq<Submission>, x: Option<Submission>, y: Option<Submission>)
    requires Subsequence(b, u) && (x == None || x == y)
    ensures Subsequence(Appended(b, x), Appended(u, y))
  {
    if y.Some? {
      SubsequenceGrows(b, u, y.value);
    }
  }

  lemma DurationModeStep(cfg: Config, tr: seq<Step>, i: nat)
    requires i < |tr| && cfg.minDurationNs != 0
    ensures var b := Emission(cfg, Get(StateAt(cfg, tr, i).execStart, Pid(tr[i])), tr[i]);
            var u := Emission(Unbounded(cfg), Get(StateAt(Unbounded(cfg), tr, i).execStart, Pid(tr[i])), tr[i]);
            b == None || b == u
  {
    var p := Pid(tr[i]);
    if p in StateAt(cfg, tr, i).execStart {
      BoundedStartsAreSubmap(cfg, tr, i, p);
    }
  }

  /** In duration mode a full map can only lose reports, never change or reorder one. */
  lemma {:induction false} BoundedReportsAreSubsequence(cfg: Config, tr: seq<Step>, n: nat)
    requires n <= |tr| && cfg.minDurationNs != 0
    ensures Subsequence(StateAt(cfg, tr, n).submitted, StateAt(Unbounded(cfg), tr, n).submitted)
  {
    if n > 0 {
      BoundedReportsAreSubsequence(cfg, tr, n - 1);
      DurationModeStep(cfg, tr, n - 1);
      var b, u := StateAt(cfg, tr, n - 1), StateAt(Unbounded(cfg), tr, n - 1);
      var e := Emission(Unbounded(cfg), Get(u.execStart, Pid(tr[n - 1])), tr[n - 1]);
      AppendedStaySubsequence(b.submitted, u.submitted, Emission(cfg, Get(b.execStart, Pid(tr[n - 1])), tr[n - 1]), e);
    }
  }

  /** `b` is `u`, except that it may be an exit whose lifetime was not recorded. */
  predicate SameButLifetime(b: Submission, u: Submission) {
    b == u || (u.sample.ExitSample? && b == u.(sample := u.sample.(durationNs := 0)))
  }

  ghost predicate AllSameButLifetime(b: seq<Submission>, u: seq<Submission>) {
    |b| == |u| && forall i :: 0 <= i < |b| ==> SameButLifetime(b[i], u[i])
  }

  lemma AppendedStaySame(b: seq<Submission>, u: seq<Submission>, x: Option<Submission>, y: Option<Submission>)
    requires AllSameButLifetime(b, u)
    requires x.Some? == y.Some? && (x.Some? ==> SameButLifetime(x.value, y.value))
    ensures AllSameButLifetime(Appended(b, x), Appended(u, y))
  {
  }

  lemma DefaultModeStep(cfg: Config, tr: seq<Step>, i: nat)
    requires i < |tr| && cfg.minDurationNs == 0
    ensures var b := Emission(cfg, Get(StateAt(cfg, tr, i).execStart, Pid(tr[i])), tr[i]);
            var u := Emission(Unbounded(cfg), Get(StateAt(Unbounded(cfg), tr, i).execStart, Pid(tr[i])), tr[i]);
            b.Some? == u.Some? && (b.Some? ==> SameButLifetime(b.value, u.value))
  {
    var p := Pid(tr[i]);
    if p in StateAt(cfg, tr, i).execStart {
      BoundedStartsAreSubmap(cfg, tr, i, p);
    }
  }

  /** In default mode a full map can only turn the lifetime of an exit into 0. */
  lemma {:induction false} BoundedReportsLoseOnlyLifetimes(cfg: Config, tr: seq<Step>, n: nat)
    requires n <= |tr| && cfg.minDurationNs == 0
    ensures AllSameButLifetime(StateAt(cfg, tr, n).submitted, StateAt(Unbounded(cfg), tr, n).submitted)
  {
    if n > 0 {
      BoundedReportsLoseOnlyLifetimes(cfg, tr, n - 1);
      DefaultModeStep(cfg, tr, n - 1);
      var b, u := StateAt(cfg, tr, n - 1), StateAt(Unbounded(cfg), tr, n - 1);
      AppendedStaySame(b.submitted, u.submitted,
                       Emission(cfg, Get(b.execStart, Pid(tr[n - 1])), tr[n - 1]),
                       Emission(Unbounded(cfg), Get(u.execStart, Pid(tr[n - 1])), tr[n - 1]));
    }
  }
}
