/** `tracecon` with every map operation a step of its own, so that handlers of different threads
    interleave between any two of them. */
module TraceconInterleaved {
  import opened Kernel
  import opened Tracecon

  /** Where a thread stands inside a handler, with the handler's live variables. */
  datatype Local =
    | Idle
    | StoreName(addr: Addr, l: Lookup)
    | DropLookup
    | FindName(ip: Addr)
    | DropName(ip: Addr, found: Option<Lookup>)
    | Emit(ip: Addr, found: Option<Lookup>)
    | DropSocket

  /** What exit handlers read under their own thread's key. */
  datatype Read = FromLookups(l: Option<Lookup>) | FromSockets(sk: Option<Sock>)

  datatype Thread = Thread(local: Local, seen: seq<Read>)

  datatype System = System(shared: State, threads: map<u32, Thread>)

  const START := System(EMPTY, map[])

  /** A probe fires and performs its first map operation, or a thread performs its next one. */
  datatype Move = Begin(s: Step) | Continue(t: u32)

  function Mover(cfg: Config, m: Move): u32 {
    match m
    case Begin(s) => Tid(cfg, s)
    case Continue(t) => t
  }

  function ThreadAt(sys: System, t: u32): Thread {
    if t in sys.threads then sys.threads[t] else Thread(Idle, [])
  }

  /** The first map operation of a handler. */
  function BeginMove(cfg: Config, st: State, th: Thread, t: u32, s: Step): (State, Thread) {
    match s
    case LookupEnter(_, name, res) =>
      (st.(lookups := Updated(st.lookups, cfg.limit, t, Lookup(name, res))), th)
    case LookupExit(_, ret, sinAddr) =>
      if ret != 0 then (st.(lookups := st.lookups - {t}), th)
      else
        var l := Get(st.lookups, t);
        (st, Thread(if l.None? then Idle else StoreName(sinAddr(l.value.results), l.value),
                    th.seen + [FromLookups(l)]))
    case ConnectEnter(_, sk) =>
      (st.(sockets := Updated(st.sockets, cfg.limit, t, sk)), th)
    case ConnectExit(_, ret, daddr) =>
      if ret != 0 then (st.(sockets := st.sockets - {t}), th)
      else
        var sk := Get(st.sockets, t);
        (st, Thread(if sk.None? then Idle else FindName(daddr(sk.value)), th.seen + [FromSockets(sk)]))
  }

  /** The next map operation, or the event output, of the handler a thread is inside of. */
  function ContinueMove(cfg: Config, st: State, th: Thread, t: u32): (State, Thread) {
    match th.local
    case Idle => (st, th)
    case StoreName(a, l) =>
      (st.(hostnames := Updated(st.hostnames, cfg.limit, a, l)), th.(local := DropLookup))
    case DropLookup => (st.(lookups := st.lookups - {t}), th.(local := Idle))
    case FindName(ip) => (st, th.(local := DropName(ip, Get(st.hostnames, ip))))
    case DropName(ip, found) =>
      (if found.Some? then st.(hostnames := st.hostnames - {ip}) else st, th.(local := Emit(ip, found)))
    case Emit(ip, found) => (st.(events := st.events + [Report(ip, found)]), th.(local := DropSocket))
    case DropSocket => (st.(sockets := st.sockets - {t}), th.(local := Idle))
  }

  /** A thread runs one handler at a time, so a probe does not fire inside another one's handler. */
  function Advance(cfg: Config, sys: System, m: Move): System {
    var t := Mover(cfg, m);
    var th := ThreadAt(sys, t);
    if t == 0 || (m.Begin? && th.local != Idle) then sys
    else
      var (st, th') := if m.Begin? then BeginMove(cfg, sys.shared, th, t, m.s)
                       else ContinueMove(cfg, sys.shared, th, t);
      System(st, sys.threads[t := th'])
  }

  function SystemAt(cfg: Config, ms: seq<Move>, n: nat): System
    requires n <= |ms|
  {
    if n == 0 then START else Advance(cfg, SystemAt(cfg, ms, n - 1), ms[n - 1])
  }

  // ---------- handlers that run uninterrupted are the atomic ones ----------

  function Finish(cfg: Config, sys: System, t: u32, moves: nat): System
    decreases moves
  {
    if moves == 0 then sys else Finish(cfg, Advance(cfg, sys, Continue(t)), t, moves - 1)
  }

  lemma UninterruptedLookupExit(cfg: Config, sys: System, s: Step)
    requires s.LookupExit? && Tid(cfg, s) != 0 && ThreadAt(sys, Tid(cfg, s)).local == Idle
    ensures var done := Finish(cfg, Advance(cfg, sys, Begin(s)), Tid(cfg, s), 2);
            done.shared == Next(cfg, sys.shared, s) && ThreadAt(done, Tid(cfg, s)).local == Idle
  {
    var t := Tid(cfg, s);
    var start := Advance(cfg, sys, Begin(s));
    var step1 := Advance(cfg, start, Continue(t));
    assert Finish(cfg, start, t, 2) == Advance(cfg, step1, Continue(t));
    if t !in sys.shared.lookups {
      assert sys.shared.lookups - {t} == sys.shared.lookups;
    }
  }

  lemma UninterruptedConnectExit(cfg: Config, sys: System, s: Step)
    requires s.ConnectExit? && Tid(cfg, s) != 0 && ThreadAt(sys, Tid(cfg, s)).local == Idle
    ensures var done := Finish(cfg, Advance(cfg, sys, Begin(s)), Tid(cfg, s), 4);
            done.shared == Next(cfg, sys.shared, s) && ThreadAt(done, Tid(cfg, s)).local == Idle
  {
    var t := Tid(cfg, s);
    var start := Advance(cfg, sys, Begin(s));
    var step1 := Advance(cfg, start, Continue(t));
    var step2 := Advance(cfg, step1, Continue(t));
    var step3 := Advance(cfg, step2, Continue(t));
    assert Finish(cfg, step2, t, 2) == Advance(cfg, step3, Continue(t));
    assert Finish(cfg, start, t, 4) == Finish(cfg, step2, t, 2);
    if t !in sys.shared.sockets {
      assert sys.shared.sockets - {t} == sys.shared.sockets;
    } else if s.ret == 0 {
      var ip := s.daddr(sys.shared.sockets[t]);
      assert step2.shared.hostnames == sys.shared.hostnames - {ip};
    }
  }

  lemma {:induction false} FinishIdle(cfg: Config, sys: System, t: u32, moves: nat)
    requires ThreadAt(sys, t).local == Idle
    ensures Finish(cfg, sys, t, moves).shared == sys.shared
    ensures ThreadAt(Finish(cfg, sys, t, moves), t).local == Idle
    decreases moves
  {
    if moves > 0 {
      FinishIdle(cfg, Advance(cfg, sys, Continue(t)), t, moves - 1);
    }
  }

  lemma {:induction false} FinishMore(cfg: Config, sys: System, t: u32, some: nat, more: nat)
    ensures Finish(cfg, sys, t, some + more) == Finish(cfg, Finish(cfg, sys, t, some), t, more)
    decreases some
  {
    if some > 0 {
      FinishMore(cfg, Advance(cfg, sys, Continue(t)), t, some - 1, more);
    }
  }

  /** A handler whose operations run without interruption, four at most after the first, leaves the
      maps and events that the atomic handler leaves. */
  lemma UninterruptedIsAtomic(cfg: Config, sys: System, s: Step, moves: nat)
    requires ThreadAt(sys, Tid(cfg, s)).local == Idle && 4 <= moves
    ensures var done := Finish(cfg, Advance(cfg, sys, Begin(s)), Tid(cfg, s), moves);
            done.shared == Next(cfg, sys.shared, s) && ThreadAt(done, Tid(cfg, s)).local == Idle
  {
    var t, begun := Tid(cfg, s), Advance(cfg, sys, Begin(s));
    var first := if t != 0 && s.LookupExit? then 2 else if t != 0 && s.ConnectExit? then 4 else 0;
    if t != 0 && s.LookupExit? {
      UninterruptedLookupExit(cfg, sys, s);
    } else if t != 0 && s.ConnectExit? {
      UninterruptedConnectExit(cfg, sys, s);
    }
    FinishMore(cfg, begun, t, first, moves - first);
    FinishIdle(cfg, Finish(cfg, begun, t, first), t, moves - first);
  }

  // ---------- isolation: a thread's own records do not depend on the schedule ----------

  /** Everything about thread `t` except what came out of the shared name map. */
  datatype View = View(lookup: Option<Lookup>, socket: Option<Sock>, local: Local, seen: seq<Read>)

  function WithoutName(l: Local): Local {
    match l
    case DropName(ip, _) => DropName(ip, None)
    case Emit(ip, _) => Emit(ip, None)
    case _ => l
  }

  function ViewOf(sys: System, t: u32): View {
    View(Get(sys.shared.lookups, t), Get(sys.shared.sockets, t),
         WithoutName(ThreadAt(sys, t).local), ThreadAt(sys, t).seen)
  }

  predicate OwnRecordRefused(cfg: Config, sys: System, m: Move) {
    && m.Begin? && Mover(cfg, m) != 0 && ThreadAt(sys, Mover(cfg, m)).local == Idle
    && (|| (m.s.LookupEnter? && Refused(sys.shared.lookups, cfg.limit, Mover(cfg, m)))
        || (m.s.ConnectEnter? && Refused(sys.shared.sockets, cfg.limit, Mover(cfg, m))))
  }

  ghost predicate NoRecordRefused(cfg: Config, ms: seq<Move>, n: nat)
    requires n <= |ms|
  {
    forall i {:trigger SystemAt(cfg, ms, i)} :: 0 <= i < n ==> !OwnRecordRefused(cfg, SystemAt(cfg, ms, i), ms[i])
  }

  /** The moves of thread `t` among the first `n`. */
  function Only(cfg: Config, ms: seq<Move>, n: nat, t: u32): seq<Move>
    requires n <= |ms|
  {
    if n == 0 then []
    else if Mover(cfg, ms[n - 1]) == t then Only(cfg, ms, n - 1, t) + [ms[n - 1]]
    else Only(cfg, ms, n - 1, t)
  }

  lemma OtherMoveKeepsOwn(cfg: Config, sys: System, m: Move, t: u32)
    requires Mover(cfg, m) != t
    ensures ThreadAt(Advance(cfg, sys, m), t) == ThreadAt(sys, t)
    ensures Get(Advance(cfg, sys, m).shared.lookups, t) == Get(sys.shared.lookups, t)
    ensures Get(Advance(cfg, sys, m).shared.sockets, t) == Get(sys.shared.sockets, t)
  {
  }

  lemma OthersLeaveViewAlone(cfg: Config, sys: System, m: Move, t: u32)
    requires Mover(cfg, m) != t
    ensures ViewOf(Advance(cfg, sys, m), t) == ViewOf(sys, t)
  {
    OtherMoveKeepsOwn(cfg, sys, m, t);
  }

  /** The thread's own move, as a function of its view alone. */
  function OwnMove(cfg: Config, v: View, m: Move): View {
    if Mover(cfg, m) == 0 then v
    else
      match m
      case Begin(s) => if v.local != Idle then v else OwnBegin(v, s)
      case Continue(_) => OwnContinue(v)
  }

  function OwnBegin(v: View, s: Step): View {
    match s
    case LookupEnter(_, name, res) => v.(lookup := Some(Lookup(name, res)))
    case ConnectEnter(_, sk) => v.(socket := Some(sk))
    case LookupExit(_, ret, sinAddr) =>
      if ret != 0 then v.(lookup := None)
      else v.(seen := v.seen + [FromLookups(v.lookup)],
              local := if v.lookup.None? then Idle
                       else StoreName(sinAddr(v.lookup.value.results), v.lookup.value))
    case ConnectExit(_, ret, daddr) =>
      if ret != 0 then v.(socket := None)
      else v.(seen := v.seen + [FromSockets(v.socket)],
              local := if v.socket.None? then Idle else FindName(daddr(v.socket.value)))
  }

  function OwnContinue(v: View): View {
    match v.local
    case Idle => v
    case StoreName(_, _) => v.(local := DropLookup)
    case DropLookup => v.(lookup := None, local := Idle)
    case FindName(ip) => v.(local := DropName(ip, None))
    case DropName(ip, _) => v.(local := Emit(ip, None))
    case Emit(_, _) => v.(local := DropSocket)
    case DropSocket => v.(socket := None, local := Idle)
  }

  lemma OwnMoveActsOnView(cfg: Config, sys: System, m: Move)
    requires !OwnRecordRefused(cfg, sys, m)
    ensures ViewOf(Advance(cfg, sys, m), Mover(cfg, m)) == OwnMove(cfg, ViewOf(sys, Mover(cfg, m)), m)
  {
    if m.Continue? {
      OwnContinueActsOnView(cfg, sys, m.t);
    }
  }

  lemma OwnContinueActsOnView(cfg: Config, sys: System, t: u32)
    ensures ViewOf(Advance(cfg, sys, Continue(t)), t) == OwnMove(cfg, ViewOf(sys, t), Continue(t))
  {
  }

  lemma {:induction false} SystemIgnoresFuture(cfg: Config, ms: seq<Move>, m: Move, n: nat)
    requires n <= |ms|
    ensures SystemAt(cfg, ms + [m], n) == SystemAt(cfg, ms, n)
  {
    if n > 0 {
      SystemIgnoresFuture(cfg, ms, m, n - 1);
    }
  }

  lemma OwnMoveKeepsOwnKeys(cfg: Config, sys: System, m: Move)
    ensures Advance(cfg, sys, m).shared.lookups.Keys <= sys.shared.lookups.Keys + {Mover(cfg, m)}
    ensures Advance(cfg, sys, m).shared.sockets.Keys <= sys.shared.sockets.Keys + {Mover(cfg, m)}
  {
  }

  /** Running alone, a thread keeps no key but its own. */
  lemma {:induction false} AloneKeepsOwnKeys(cfg: Config, ms: seq<Move>, n: nat, t: u32)
    requires n <= |ms| && forall i :: 0 <= i < n ==> Mover(cfg, ms[i]) == t
    ensures SystemAt(cfg, ms, n).shared.lookups.Keys <= {t}
    ensures SystemAt(cfg, ms, n).shared.sockets.Keys <= {t}
  {
    if n > 0 {
      AloneKeepsOwnKeys(cfg, ms, n - 1, t);
      OwnMoveKeepsOwnKeys(cfg, SystemAt(cfg, ms, n - 1), ms[n - 1]);
    }
  }

  lemma {:induction false} OnlyIsOwn(cfg: Config, ms: seq<Move>, n: nat, t: u32)
    requires n <= |ms|
    ensures forall i :: 0 <= i < |Only(cfg, ms, n, t)| ==> Mover(cfg, Only(cfg, ms, n, t)[i]) == t
  {
    if n > 0 {
      OnlyIsOwn(cfg, ms, n - 1, t);
    }
  }

  lemma RefusedAloneRefusedTogether(cfg: Config, alone: System, together: System, m: Move)
    requires alone.shared.lookups.Keys <= {Mover(cfg, m)} && alone.shared.sockets.Keys <= {Mover(cfg, m)}
    requires ViewOf(alone, Mover(cfg, m)) == ViewOf(together, Mover(cfg, m))
    requires OwnRecordRefused(cfg, alone, m)
    ensures OwnRecordRefused(cfg, together, m)
  {
    var t := Mover(cfg, m);
    if m.s.LookupEnter? {
      assert t !in alone.shared.lookups && alone.shared.lookups.Keys == {};
      assert Get(together.shared.lookups, t) == None;
    } else {
      assert t !in alone.shared.sockets && alone.shared.sockets.Keys == {};
      assert Get(together.shared.sockets, t) == None;
    }
  }

  /** In every interleaving that refuses no lookup or socket record, each thread's records, its place in
      its handlers and all its exit handlers read there are what they are when it runs alone. */
  lemma {:induction false} ThreadsAreIsolated(cfg: Config, ms: seq<Move>, n: nat, t: u32)
    requires n <= |ms| && NoRecordRefused(cfg, ms, n)
    ensures var own := Only(cfg, ms, n, t);
            ViewOf(SystemAt(cfg, ms, n), t) == ViewOf(SystemAt(cfg, own, |own|), t)
  {
    if n > 0 {
      ThreadsAreIsolated(cfg, ms, n - 1, t);
      var together, m, own := SystemAt(cfg, ms, n - 1), ms[n - 1], Only(cfg, ms, n - 1, t);
      var alone := SystemAt(cfg, own, |own|);
      if Mover(cfg, m) == t {
        SystemIgnoresFuture(cfg, own, m, |own|);
        OnlyIsOwn(cfg, ms, n - 1, t);
        AloneKeepsOwnKeys(cfg, own, |own|, t);
        if OwnRecordRefused(cfg, alone, m) {
          RefusedAloneRefusedTogether(cfg, alone, together, m);
        }
        OwnMoveActsOnView(cfg, together, m);
        OwnMoveActsOnView(cfg, alone, m);
      } else {
        OthersLeaveViewAlone(cfg, together, m, t);
      }
    }
  }
}
