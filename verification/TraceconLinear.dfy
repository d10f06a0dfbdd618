/** Interleaved `tracecon` handlers that leave each other's names alone behave like handlers that run one
    after the other: each takes effect at its store, at its search, or where it begins if it has neither. */
module TraceconLinear {
  import opened Kernel
  import opened Tracecon
  import opened TraceconInterleaved
  import opened TraceconProvenance
  import opened TraceconUseOnce
  import H = TraceconHistory

  // ---------- the one-after-the-other run ----------

  function Unbounded(cfg: Config): Config { cfg.(limit := None) }

  /** The last probe of `t` to fire. */
  function Handler(cfg: Config, ms: seq<Move>, n: nat, t: u32): (k: Option<nat>)
    requires n <= |ms|
    ensures k.Some? ==> k.value < n && Fires(cfg, ms, k.value, t)
  {
    if n == 0 then None
    else if Fires(cfg, ms, n - 1, t) then Some(n - 1)
    else Handler(cfg, ms, n - 1, t)
  }

  /** The handler of step `s` is over with its first map operation. */
  predicate EndsAtOnce(st: State, t: u32, s: Step) {
    match s
    case LookupExit(_, ret, _) => ret != 0 || t !in st.lookups
    case ConnectExit(_, ret, _) => ret != 0 || t !in st.sockets
    case _ => true
  }

  /** The handler, by its probe, that takes effect with move `i`. */
  function TakesEffect(cfg: Config, ms: seq<Move>, i: nat): (k: Option<nat>)
    requires i < |ms|
    ensures k.Some? ==> k.value <= i && Fires(cfg, ms, k.value, Mover(cfg, ms[i]))
  {
    var t := Mover(cfg, ms[i]);
    if ms[i].Begin? then
      if Fires(cfg, ms, i, t) && EndsAtOnce(SystemAt(cfg, ms, i).shared, t, ms[i].s) then Some(i) else None
    else if GoesOn(ms, i) && (Place(cfg, ms, i).StoreName? || Place(cfg, ms, i).FindName?) then
      Handler(cfg, ms, i, t)
    else None
  }

  /** The steps of the handlers that have taken effect, in that order. */
  function Linear(cfg: Config, ms: seq<Move>, n: nat): seq<Step>
    requires n <= |ms|
  {
    if n == 0 then []
    else
      var k := TakesEffect(cfg, ms, n - 1);
      if k.Some? then Linear(cfg, ms, n - 1) + [ms[k.value].s] else Linear(cfg, ms, n - 1)
  }

  /** The state that these steps lead to, one after the other. */
  function LinearState(cfg: Config, ms: seq<Move>, n: nat): State
    requires n <= |ms|
  {
    if n == 0 then EMPTY
    else
      var before, k := LinearState(cfg, ms, n - 1), TakesEffect(cfg, ms, n - 1);
      if k.Some? then Next(Unbounded(cfg), before, ms[k.value].s) else before
  }

  lemma OneMoreStep(cfg: Config, tr: seq<Step>, s: Step)
    ensures StateAt(cfg, tr + [s], |tr| + 1) == Next(cfg, StateAt(cfg, tr, |tr|), s)
  {
    H.StateIgnoresFuture(cfg, tr, s, |tr|);
  }

  lemma {:induction false} LinearStateIsRun(cfg: Config, ms: seq<Move>, n: nat)
    requires n <= |ms|
    ensures LinearState(cfg, ms, n) == StateAt(Unbounded(cfg), Linear(cfg, ms, n), |Linear(cfg, ms, n)|)
  {
    if n > 0 {
      LinearStateIsRun(cfg, ms, n - 1);
      var k := TakesEffect(cfg, ms, n - 1);
      if k.Some? {
        var before := Linear(cfg, ms, n - 1);
        OneMoreStep(Unbounded(cfg), before, ms[k.value].s);
        assert Linear(cfg, ms, n) == before + [ms[k.value].s] && |Linear(cfg, ms, n)| == |before| + 1;
      }
    }
  }

  // ---------- what the schedule is assumed to respect ----------

  ghost predicate Claimed(sys: System, a: Addr) {
    exists t: u32 :: Claims(sys, t, a)
  }

  /** No record is refused, and no name is stored or searched for while a handler has found it and not yet
      deleted it. */
  ghost predicate Allowed(cfg: Config, sys: System, m: Move) {
    if m.Begin? then !OwnRecordRefused(cfg, sys, m)
    else
      match ThreadAt(sys, m.t).local
      case StoreName(a, _) => !Refused(sys.shared.hostnames, cfg.limit, a) && !Claimed(sys, a)
      case FindName(a) => !Claimed(sys, a)
      case _ => true
  }

  ghost predicate AllAllowed(cfg: Config, ms: seq<Move>, n: nat)
    requires n <= |ms|
  {
    0 < n ==> AllAllowed(cfg, ms, n - 1) && Allowed(cfg, SystemAt(cfg, ms, n - 1), ms[n - 1])
  }

  // ---------- threads agree ----------

  predicate PastSearch(local: Local) { local.DropName? || local.Emit? || local.DropSocket? }

  /** The records of `t` are those of the linear run, up to the delete its handler still has to make. */
  predicate RecordsAgree(sys: System, st: State, t: u32) {
    var local := ThreadAt(sys, t).local;
    && Get(st.lookups, t) == (if local.DropLookup? then None else Get(sys.shared.lookups, t))
    && Get(st.sockets, t) == (if PastSearch(local) then None else Get(sys.shared.sockets, t))
  }

  /** What the handler of `t` carries is what its step computes from the records of `t`. */
  predicate CarriesOwn(cfg: Config, ms: seq<Move>, n: nat, t: u32, sys: System)
    requires n <= |ms|
  {
    var local, k := ThreadAt(sys, t).local, Handler(cfg, ms, n, t);
    match local
    case StoreName(a, l) =>
      && k.Some? && ms[k.value].s.LookupExit? && ms[k.value].s.ret == 0
      && Get(sys.shared.lookups, t) == Some(l) && ms[k.value].s.sinAddr(l.results) == a
    case FindName(ip) =>
      && k.Some? && ms[k.value].s.ConnectExit? && ms[k.value].s.ret == 0
      && t in sys.shared.sockets && ms[k.value].s.daddr(sys.shared.sockets[t]) == ip
    case _ => PastSearch(local) ==> k.Some?
  }

  /** What one step of the linear run does to the records of `t`. */
  lemma NextRecords(cfg: Config, st: State, s: Step, t: u32)
    requires t != 0
    ensures Get(Next(Unbounded(cfg), st, s).lookups, t)
         == if Tid(cfg, s) != t then Get(st.lookups, t)
            else if s.LookupEnter? then Some(Lookup(s.name, s.res))
            else if s.LookupExit? then None else Get(st.lookups, t)
    ensures Get(Next(Unbounded(cfg), st, s).sockets, t)
         == if Tid(cfg, s) != t then Get(st.sockets, t)
            else if s.ConnectEnter? then Some(s.sk)
            else if s.ConnectExit? then None else Get(st.sockets, t)
  {
  }

  lemma BeginKeepsRecords(cfg: Config, sys: System, s: Step, t: u32, st: State)
    requires t != 0 && Tid(cfg, s) == t && !OwnRecordRefused(cfg, sys, Begin(s)) && RecordsAgree(sys, st, t)
    ensures RecordsAgree(Advance(cfg, sys, Begin(s)),
                         if ThreadAt(sys, t).local == Idle && EndsAtOnce(sys.shared, t, s)
                         then Next(Unbounded(cfg), st, s) else st, t)
  {
    NextRecords(cfg, st, s, t);
  }

  lemma ContinueKeepsRecords(cfg: Config, sys: System, t: u32, st: State)
    requires t != 0 && RecordsAgree(sys, st, t)
    requires !ThreadAt(sys, t).local.StoreName? && !ThreadAt(sys, t).local.FindName?
    ensures RecordsAgree(Advance(cfg, sys, Continue(t)), st, t)
  {
  }

  lemma EffectKeepsRecords(cfg: Config, sys: System, t: u32, st: State, s: Step)
    requires t != 0 && RecordsAgree(sys, st, t) && Tid(cfg, s) == t
    requires || (ThreadAt(sys, t).local.StoreName? && s.LookupExit?)
             || (ThreadAt(sys, t).local.FindName? && s.ConnectExit?)
    ensures RecordsAgree(Advance(cfg, sys, Continue(t)), Next(Unbounded(cfg), st, s), t)
  {
    NextRecords(cfg, st, s, t);
  }

  lemma OwnMoveKeepsRecords(cfg: Config, ms: seq<Move>, n: nat, t: u32, sys: System, st: State)
    requires n < |ms| && t != 0 && Mover(cfg, ms[n]) == t && Allowed(cfg, sys, ms[n])
    requires sys == SystemAt(cfg, ms, n) && st == LinearState(cfg, ms, n)
    requires CarriesOwn(cfg, ms, n, t, sys) && RecordsAgree(sys, st, t)
    ensures RecordsAgree(Advance(cfg, sys, ms[n]), LinearState(cfg, ms, n + 1), t)
  {
    if ms[n].Begin? {
      BeginKeepsRecords(cfg, sys, ms[n].s, t, st);
    } else if ThreadAt(sys, t).local.StoreName? || ThreadAt(sys, t).local.FindName? {
      EffectKeepsRecords(cfg, sys, t, st, ms[Handler(cfg, ms, n, t).value].s);
    } else {
      ContinueKeepsRecords(cfg, sys, t, st);
    }
  }

  lemma OwnMoveCarries(cfg: Config, ms: seq<Move>, n: nat, t: u32, sys: System, after: System)
    requires n < |ms| && t != 0 && Mover(cfg, ms[n]) == t
    requires sys == SystemAt(cfg, ms, n) && after == Advance(cfg, sys, ms[n])
    requires CarriesOwn(cfg, ms, n, t, sys)
    ensures CarriesOwn(cfg, ms, n + 1, t, after)
  {
  }

  lemma OtherMoveKeepsRecords(cfg: Config, ms: seq<Move>, n: nat, t: u32, sys: System, st: State)
    requires n < |ms| && t != 0 && Mover(cfg, ms[n]) != t
    requires sys == SystemAt(cfg, ms, n) && st == LinearState(cfg, ms, n)
    requires RecordsAgree(sys, st, t)
    ensures RecordsAgree(Advance(cfg, sys, ms[n]), LinearState(cfg, ms, n + 1), t)
  {
    OtherMoveKeepsOwn(cfg, sys, ms[n], t);
    var k := TakesEffect(cfg, ms, n);
    if k.Some? {
      NextRecords(cfg, st, ms[k.value].s, t);
    }
  }

  lemma OtherMoveCarries(cfg: Config, ms: seq<Move>, n: nat, t: u32, sys: System, after: System)
    requires n < |ms| && t != 0 && Mover(cfg, ms[n]) != t
    requires sys == SystemAt(cfg, ms, n) && after == Advance(cfg, sys, ms[n])
    requires CarriesOwn(cfg, ms, n, t, sys)
    ensures CarriesOwn(cfg, ms, n + 1, t, after)
  {
    OtherMoveKeepsOwn(cfg, sys, ms[n], t);
  }

  lemma MoveKeepsThread(cfg: Config, ms: seq<Move>, n: nat, t: u32, sys: System, st: State)
    requires n < |ms| && t != 0 && Allowed(cfg, sys, ms[n])
    requires sys == SystemAt(cfg, ms, n) && st == LinearState(cfg, ms, n)
    requires RecordsAgree(sys, st, t) && CarriesOwn(cfg, ms, n, t, sys)
    ensures RecordsAgree(SystemAt(cfg, ms, n + 1), LinearState(cfg, ms, n + 1), t)
    ensures CarriesOwn(cfg, ms, n + 1, t, SystemAt(cfg, ms, n + 1))
  {
    var after := Advance(cfg, sys, ms[n]);
    assert SystemAt(cfg, ms, n + 1) == after;
    if Mover(cfg, ms[n]) != t {
      OtherMoveKeepsRecords(cfg, ms, n, t, sys, st);
      OtherMoveCarries(cfg, ms, n, t, sys, after);
    } else {
      OwnMoveKeepsRecords(cfg, ms, n, t, sys, st);
      OwnMoveCarries(cfg, ms, n, t, sys, after);
    }
  }

  lemma {:induction false} ThreadsAgree(cfg: Config, ms: seq<Move>, n: nat, t: u32)
    requires n <= |ms| && AllAllowed(cfg, ms, n) && t != 0
    ensures RecordsAgree(SystemAt(cfg, ms, n), LinearState(cfg, ms, n), t)
    ensures CarriesOwn(cfg, ms, n, t, SystemAt(cfg, ms, n))
  {
    if n > 0 {
      ThreadsAgree(cfg, ms, n - 1, t);
      MoveKeepsThread(cfg, ms, n - 1, t, SystemAt(cfg, ms, n - 1), LinearState(cfg, ms, n - 1));
    }
  }

  // ---------- names agree ----------

  /** A name that is being reported is gone from the linear run; any other is the same in both. */
  ghost predicate NameAgrees(sys: System, st: State, a: Addr) {
    Get(st.hostnames, a) == if Claimed(sys, a) then None else Get(sys.shared.hostnames, a)
  }

  lemma ClaimedAfter(cfg: Config, sys: System, m: Move, a: Addr)
    ensures var t, after := Mover(cfg, m), Advance(cfg, sys, m);
            && (Claims(after, t, a) ==> Claimed(after, a))
            && (Claims(after, t, a) == Claims(sys, t, a) ==> (Claimed(after, a) <==> Claimed(sys, a)))
  {
    var t, after := Mover(cfg, m), Advance(cfg, sys, m);
    if Claims(after, t, a) == Claims(sys, t, a) {
      forall u: u32 ensures Claims(after, u, a) <==> Claims(sys, u, a) {
        if u != t {
          OtherMoveKeepsOwn(cfg, sys, m, u);
        }
      }
    }
  }

  /** The step that a store or a search stands for learns or reaches what its handler carries. */
  lemma StepOfHandler(cfg: Config, ms: seq<Move>, n: nat)
    requires n < |ms| && AllAllowed(cfg, ms, n) && GoesOn(ms, n)
    ensures var k, st, local := TakesEffect(cfg, ms, n), LinearState(cfg, ms, n), Place(cfg, ms, n);
            && (local.StoreName? ==>
                  && k.Some? && Learns(Unbounded(cfg), st.lookups, ms[k.value].s) == Some((local.addr, local.l))
                  && Reaches(Unbounded(cfg), st.sockets, ms[k.value].s) == None)
            && (local.FindName? ==>
                  && k.Some? && Reaches(Unbounded(cfg), st.sockets, ms[k.value].s) == Some(local.ip)
                  && Learns(Unbounded(cfg), st.lookups, ms[k.value].s) == None)
            && (!local.StoreName? && !local.FindName? ==> k.None?)
  {
    ThreadsAgree(cfg, ms, n, ms[n].t);
  }

  /** A step that takes effect where it begins neither learns nor reaches anything. */
  lemma StepAtOnce(cfg: Config, ms: seq<Move>, n: nat)
    requires n < |ms| && AllAllowed(cfg, ms, n) && ms[n].Begin? && TakesEffect(cfg, ms, n).Some?
    ensures Learns(Unbounded(cfg), LinearState(cfg, ms, n).lookups, ms[n].s) == None
    ensures Reaches(Unbounded(cfg), LinearState(cfg, ms, n).sockets, ms[n].s) == None
  {
    ThreadsAgree(cfg, ms, n, Tid(cfg, ms[n].s));
  }

  lemma BeginLeavesNames(cfg: Config, sys: System, m: Move, a: Addr)
    requires m.Begin? || m.t == 0
    ensures Advance(cfg, sys, m).shared.hostnames == sys.shared.hostnames
    ensures Claims(Advance(cfg, sys, m), Mover(cfg, m), a) == Claims(sys, Mover(cfg, m), a)
  {
  }

  lemma BeginKeepsName(cfg: Config, ms: seq<Move>, n: nat, a: Addr, sys: System, after: System)
    requires n < |ms| && AllAllowed(cfg, ms, n) && !GoesOn(ms, n)
    requires sys == SystemAt(cfg, ms, n) && after == Advance(cfg, sys, ms[n])
    requires NameAgrees(sys, LinearState(cfg, ms, n), a)
    ensures NameAgrees(after, LinearState(cfg, ms, n + 1), a)
  {
    ClaimedAfter(cfg, sys, ms[n], a);
    BeginLeavesNames(cfg, sys, ms[n], a);
    if TakesEffect(cfg, ms, n).Some? {
      StepAtOnce(cfg, ms, n);
    }
    assert LinearState(cfg, ms, n + 1).hostnames == LinearState(cfg, ms, n).hostnames;
  }

  lemma ContinueKeepsName(cfg: Config, ms: seq<Move>, n: nat, a: Addr, sys: System, after: System)
    requires n < |ms| && AllAllowed(cfg, ms, n) && Allowed(cfg, sys, ms[n]) && GoesOn(ms, n)
    requires sys == SystemAt(cfg, ms, n) && after == Advance(cfg, sys, ms[n])
    requires NameAgrees(sys, LinearState(cfg, ms, n), a)
    ensures NameAgrees(after, LinearState(cfg, ms, n + 1), a)
  {
    ClaimedAfter(cfg, sys, ms[n], a);
    StepOfHandler(cfg, ms, n);
    assert Claims(sys, ms[n].t, a) ==> Claimed(sys, a);
  }

  lemma {:induction false} NamesAgree(cfg: Config, ms: seq<Move>, n: nat, a: Addr)
    requires n <= |ms| && AllAllowed(cfg, ms, n)
    ensures NameAgrees(SystemAt(cfg, ms, n), LinearState(cfg, ms, n), a)
  {
    if n > 0 {
      NamesAgree(cfg, ms, n - 1, a);
      var sys, after := SystemAt(cfg, ms, n - 1), SystemAt(cfg, ms, n);
      if GoesOn(ms, n - 1) {
        ContinueKeepsName(cfg, ms, n - 1, a, sys, after);
      } else {
        BeginKeepsName(cfg, ms, n - 1, a, sys, after);
      }
    }
  }

  // ---------- each handler outputs the event of the linear run ----------

  /** The event that the handler of probe `k` has output. */
  function Output(cfg: Config, ms: seq<Move>, n: nat, k: nat): Option<Event>
    requires n <= |ms|
  {
    if n == 0 then None
    else
      var local := Place(cfg, ms, n - 1);
      if GoesOn(ms, n - 1) && local.Emit? && Handler(cfg, ms, n - 1, ms[n - 1].t) == Some(k)
      then Some(Report(local.ip, local.found))
      else Output(cfg, ms, n - 1, k)
  }

  /** The event that move `i` adds to the linear run. */
  function Reaction(cfg: Config, ms: seq<Move>, i: nat): Option<Event>
    requires i < |ms|
  {
    var k, st := TakesEffect(cfg, ms, i), LinearState(cfg, ms, i);
    var reached := if k.Some? then Reaches(Unbounded(cfg), st.sockets, ms[k.value].s) else None;
    if reached.Some? then Some(Report(reached.value, Get(st.hostnames, reached.value))) else None
  }

  /** The event that the step of probe `k` outputs in the linear run. */
  function LinearOutput(cfg: Config, ms: seq<Move>, n: nat, k: nat): Option<Event>
    requires n <= |ms|
  {
    if n == 0 then None
    else if TakesEffect(cfg, ms, n - 1) == Some(k) && Reaction(cfg, ms, n - 1).Some? then Reaction(cfg, ms, n - 1)
    else LinearOutput(cfg, ms, n - 1, k)
  }

  /** Both have output the same event, or the handler has searched and will output that of the linear run. */
  predicate OutputsAgree(cfg: Config, ms: seq<Move>, n: nat, k: nat)
    requires n <= |ms| && k < |ms|
  {
    var t := Mover(cfg, ms[k]);
    var local := ThreadAt(SystemAt(cfg, ms, n), t).local;
    var out, linear := Output(cfg, ms, n, k), LinearOutput(cfg, ms, n, k);
    if Handler(cfg, ms, n, t) == Some(k) && (local.DropName? || local.Emit?) then
      out == None && linear == Some(Report(local.ip, local.found))
    else
      out == linear && (n <= k || (Handler(cfg, ms, n, t) == Some(k) && local.FindName?) ==> out == None)
  }

  /** A search gives what the linear run has for the address. */
  lemma SearchReacts(cfg: Config, ms: seq<Move>, n: nat)
    requires n < |ms| && AllAllowed(cfg, ms, n + 1) && GoesOn(ms, n) && Place(cfg, ms, n).FindName?
    ensures var ip := Place(cfg, ms, n).ip;
            Reaction(cfg, ms, n) == Some(Report(ip, Get(SystemAt(cfg, ms, n).shared.hostnames, ip)))
  {
    StepOfHandler(cfg, ms, n);
    NamesAgree(cfg, ms, n, Place(cfg, ms, n).ip);
  }

  lemma OnlySearchesReact(cfg: Config, ms: seq<Move>, n: nat)
    requires n < |ms| && AllAllowed(cfg, ms, n) && !(GoesOn(ms, n) && Place(cfg, ms, n).FindName?)
    ensures Reaction(cfg, ms, n) == None
  {
    if GoesOn(ms, n) {
      StepOfHandler(cfg, ms, n);
    } else if TakesEffect(cfg, ms, n).Some? {
      StepAtOnce(cfg, ms, n);
    }
  }

  lemma OtherKeepsOutputs(cfg: Config, ms: seq<Move>, n: nat, k: nat)
    requires n < |ms| && k < |ms| && OutputsAgree(cfg, ms, n, k)
    requires Mover(cfg, ms[n]) != Mover(cfg, ms[k])
    ensures OutputsAgree(cfg, ms, n + 1, k)
  {
    OtherMoveKeepsOwn(cfg, SystemAt(cfg, ms, n), ms[n], Mover(cfg, ms[k]));
  }

  lemma BeginKeepsOutputs(cfg: Config, ms: seq<Move>, n: nat, k: nat)
    requires n < |ms| && k < |ms| && AllAllowed(cfg, ms, n) && OutputsAgree(cfg, ms, n, k)
    requires Mover(cfg, ms[n]) == Mover(cfg, ms[k]) && !GoesOn(ms, n)
    ensures OutputsAgree(cfg, ms, n + 1, k)
  {
    OnlySearchesReact(cfg, ms, n);
  }

  lemma ContinueKeepsOutputs(cfg: Config, ms: seq<Move>, n: nat, k: nat)
    requires n < |ms| && k < |ms| && AllAllowed(cfg, ms, n + 1) && OutputsAgree(cfg, ms, n, k)
    requires Mover(cfg, ms[n]) == Mover(cfg, ms[k]) && GoesOn(ms, n)
    ensures OutputsAgree(cfg, ms, n + 1, k)
  {
    ThreadsAgree(cfg, ms, n, ms[n].t);
    if Place(cfg, ms, n).FindName? {
      SearchReacts(cfg, ms, n);
    } else {
      OnlySearchesReact(cfg, ms, n);
    }
  }

  /** In every interleaving that refuses nothing and keeps the sections of one address apart, the handler of
      each probe outputs the event that its step outputs in the linear run, and neither outputs another. */
  lemma {:induction false} InterleavingIsLinear(cfg: Config, ms: seq<Move>, n: nat, k: nat)
    requires n <= |ms| && k < |ms| && AllAllowed(cfg, ms, n)
    ensures OutputsAgree(cfg, ms, n, k)
  {
    if n > 0 {
      InterleavingIsLinear(cfg, ms, n - 1, k);
      if Mover(cfg, ms[n - 1]) != Mover(cfg, ms[k]) {
        OtherKeepsOutputs(cfg, ms, n - 1, k);
      } else if GoesOn(ms, n - 1) {
        ContinueKeepsOutputs(cfg, ms, n - 1, k);
      } else {
        BeginKeepsOutputs(cfg, ms, n - 1, k);
      }
    }
  }

  // ---------- the two event streams ----------

  /** The event stream, each event with the probe of the handler that output it. */
  function Tagged(cfg: Config, ms: seq<Move>, n: nat): (r: seq<(Option<nat>, Event)>)
    requires n <= |ms|
    ensures |r| == |SystemAt(cfg, ms, n).shared.events|
    ensures forall p :: 0 <= p < |r| ==> r[p].1 == SystemAt(cfg, ms, n).shared.events[p]
  {
    if n == 0 then []
    else
      OnlyEmitReports(cfg, SystemAt(cfg, ms, n - 1), ms[n - 1]);
      var local := Place(cfg, ms, n - 1);
      if GoesOn(ms, n - 1) && local.Emit? then
        Tagged(cfg, ms, n - 1) + [(Handler(cfg, ms, n - 1, ms[n - 1].t), Report(local.ip, local.found))]
      else Tagged(cfg, ms, n - 1)
  }

  /** The event stream of the linear run, each event with the probe of its step. */
  function LinearTagged(cfg: Config, ms: seq<Move>, n: nat): (r: seq<(Option<nat>, Event)>)
    requires n <= |ms|
    ensures |r| == |LinearState(cfg, ms, n).events|
    ensures forall p :: 0 <= p < |r| ==> r[p].1 == LinearState(cfg, ms, n).events[p]
  {
    if n == 0 then []
    else if Reaction(cfg, ms, n - 1).Some? then
      LinearTagged(cfg, ms, n - 1) + [(TakesEffect(cfg, ms, n - 1), Reaction(cfg, ms, n - 1).value)]
    else LinearTagged(cfg, ms, n - 1)
  }

  lemma {:induction false} TaggedIsOutput(cfg: Config, ms: seq<Move>, n: nat, k: nat, e: Event)
    requires n <= |ms| && k < |ms| && AllAllowed(cfg, ms, n)
    ensures (Some(k), e) in Tagged(cfg, ms, n) <==> Output(cfg, ms, n, k) == Some(e)
  {
    if n > 0 {
      TaggedIsOutput(cfg, ms, n - 1, k, e);
      InterleavingIsLinear(cfg, ms, n - 1, k);
    }
  }

  lemma {:induction false} LinearTaggedIsOutput(cfg: Config, ms: seq<Move>, n: nat, k: nat, e: Event)
    requires n <= |ms| && k < |ms| && AllAllowed(cfg, ms, n)
    ensures (Some(k), e) in LinearTagged(cfg, ms, n) <==> LinearOutput(cfg, ms, n, k) == Some(e)
  {
    if n > 0 {
      LinearTaggedIsOutput(cfg, ms, n - 1, k, e);
      InterleavingIsLinear(cfg, ms, n - 1, k);
      if !(GoesOn(ms, n - 1) && Place(cfg, ms, n - 1).FindName?) {
        OnlySearchesReact(cfg, ms, n - 1);
      }
    }
  }

  /** No handler outputs twice. */
  predicate Distinct(r: seq<(Option<nat>, Event)>) {
    forall p, q :: 0 <= p < q < |r| ==> r[p].0 != r[q].0
  }

  lemma FreshTagIsDistinct(r: seq<(Option<nat>, Event)>, k: nat, e: Event)
    requires Distinct(r) && forall e' :: (Some(k), e') !in r
    ensures Distinct(r + [(Some(k), e)])
  {
    forall p | 0 <= p < |r| ensures r[p].0 != Some(k) {
      assert r[p] in r && r[p] == (r[p].0, r[p].1);
    }
  }

  lemma {:induction false} TagsAreDistinct(cfg: Config, ms: seq<Move>, n: nat)
    requires n <= |ms| && AllAllowed(cfg, ms, n)
    ensures Distinct(Tagged(cfg, ms, n))
  {
    if n > 0 {
      TagsAreDistinct(cfg, ms, n - 1);
      var local, t := Place(cfg, ms, n - 1), Mover(cfg, ms[n - 1]);
      if GoesOn(ms, n - 1) && local.Emit? {
        ThreadsAgree(cfg, ms, n - 1, t);
        var k := Handler(cfg, ms, n - 1, t).value;
        InterleavingIsLinear(cfg, ms, n - 1, k);
        forall e' ensures (Some(k), e') !in Tagged(cfg, ms, n - 1) {
          TaggedIsOutput(cfg, ms, n - 1, k, e');
        }
        FreshTagIsDistinct(Tagged(cfg, ms, n - 1), k, Report(local.ip, local.found));
      }
    }
  }

  lemma {:induction false} LinearTagsAreDistinct(cfg: Config, ms: seq<Move>, n: nat)
    requires n <= |ms| && AllAllowed(cfg, ms, n)
    ensures Distinct(LinearTagged(cfg, ms, n))
  {
    if n > 0 {
      LinearTagsAreDistinct(cfg, ms, n - 1);
      if Reaction(cfg, ms, n - 1).Some? {
        if !(GoesOn(ms, n - 1) && Place(cfg, ms, n - 1).FindName?) {
          OnlySearchesReact(cfg, ms, n - 1);
        }
        var k := TakesEffect(cfg, ms, n - 1).value;
        InterleavingIsLinear(cfg, ms, n - 1, k);
        forall e' ensures (Some(k), e') !in LinearTagged(cfg, ms, n - 1) {
          LinearTaggedIsOutput(cfg, ms, n - 1, k, e');
        }
        FreshTagIsDistinct(LinearTagged(cfg, ms, n - 1), k, Reaction(cfg, ms, n - 1).value);
      }
    }
  }

  // ---------- at rest ----------

  ghost predicate AtRest(sys: System) {
    forall t: u32 :: ThreadAt(sys, t).local == Idle
  }

  lemma {:induction false} ThreadZeroHasNoRecord(cfg: Config, ms: seq<Move>, n: nat)
    requires n <= |ms|
    ensures 0 !in SystemAt(cfg, ms, n).shared.lookups && 0 !in SystemAt(cfg, ms, n).shared.sockets
  {
    if n > 0 {
      ThreadZeroHasNoRecord(cfg, ms, n - 1);
      if Mover(cfg, ms[n - 1]) != 0 {
        OtherMoveKeepsOwn(cfg, SystemAt(cfg, ms, n - 1), ms[n - 1], 0);
      }
    }
  }

  lemma {:induction false} ThreadZeroHasNoLinearRecord(cfg: Config, ms: seq<Move>, n: nat)
    requires n <= |ms|
    ensures 0 !in LinearState(cfg, ms, n).lookups && 0 !in LinearState(cfg, ms, n).sockets
  {
    if n > 0 {
      ThreadZeroHasNoLinearRecord(cfg, ms, n - 1);
    }
  }

  lemma SameEntries<K, V>(m: map<K, V>, m': map<K, V>)
    requires forall k :: Get(m, k) == Get(m', k)
    ensures m == m'
  {
    forall k ensures k in m <==> k in m' {
      assert Get(m, k) == Get(m', k);
    }
    forall k | k in m ensures m[k] == m'[k] {
      assert Get(m, k) == Get(m', k);
    }
  }

  /** Once it has come to rest, such an interleaving has left the three maps of the linear run. */
  lemma QuietMapsAreLinear(cfg: Config, ms: seq<Move>, n: nat)
    requires n <= |ms| && AllAllowed(cfg, ms, n) && AtRest(SystemAt(cfg, ms, n))
    ensures SystemAt(cfg, ms, n).shared.lookups == LinearState(cfg, ms, n).lookups
    ensures SystemAt(cfg, ms, n).shared.sockets == LinearState(cfg, ms, n).sockets
    ensures SystemAt(cfg, ms, n).shared.hostnames == LinearState(cfg, ms, n).hostnames
  {
    var sys, st := SystemAt(cfg, ms, n), LinearState(cfg, ms, n);
    ThreadZeroHasNoRecord(cfg, ms, n);
    ThreadZeroHasNoLinearRecord(cfg, ms, n);
    forall t: u32 ensures Get(sys.shared.lookups, t) == Get(st.lookups, t)
                       && Get(sys.shared.sockets, t) == Get(st.sockets, t) {
      assert ThreadAt(sys, t).local == Idle;
      if t != 0 {
        ThreadsAgree(cfg, ms, n, t);
      }
    }
    forall a: Addr ensures Get(sys.shared.hostnames, a) == Get(st.hostnames, a) {
      NamesAgree(cfg, ms, n, a);
    }
    SameEntries(sys.shared.lookups, st.lookups);
    SameEntries(sys.shared.sockets, st.sockets);
    SameEntries(sys.shared.hostnames, st.hostnames);
  }

  /** And its event stream is, handler by handler, the one that the history of its handlers prescribes. */
  lemma QuietInterleavingMatchesHistory(cfg: Config, ms: seq<Move>, n: nat, k: nat, e: Event)
    requires n <= |ms| && k < |ms| && AllAllowed(cfg, ms, n) && AtRest(SystemAt(cfg, ms, n))
    ensures (Some(k), e) in Tagged(cfg, ms, n) <==> (Some(k), e) in LinearTagged(cfg, ms, n)
    ensures Distinct(Tagged(cfg, ms, n)) && Distinct(LinearTagged(cfg, ms, n))
    ensures LinearState(cfg, ms, n).events
         == H.HistoryEvents(Unbounded(cfg), Linear(cfg, ms, n), |Linear(cfg, ms, n)|)
  {
    var tr := Linear(cfg, ms, n);
    assert ThreadAt(SystemAt(cfg, ms, n), Mover(cfg, ms[k])).local == Idle;
    InterleavingIsLinear(cfg, ms, n, k);
    TaggedIsOutput(cfg, ms, n, k, e);
    LinearTaggedIsOutput(cfg, ms, n, k, e);
    TagsAreDistinct(cfg, ms, n);
    LinearTagsAreDistinct(cfg, ms, n);
    LinearStateIsRun(cfg, ms, n);
    H.EventsMatchHistory(Unbounded(cfg), tr, |tr|);
  }
}
