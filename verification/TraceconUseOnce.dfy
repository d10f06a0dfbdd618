/** How often a stored name is reported when the `tracecon` handlers interleave: an account that balances in
    every run, and the schedules in which one stored name is reported twice. */
module TraceconUseOnce {
  import opened Kernel
  import opened Tracecon
  import opened TraceconInterleaved
  import opened TraceconProvenance
  import H = TraceconHistory

  // ---------- which finds take the same stored name ----------

  /** Move `i` finds a name of `a`, which its handler goes on to report. */
  predicate Found(cfg: Config, ms: seq<Move>, i: nat, a: Addr)
    requires i < |ms|
  {
    GoesOn(ms, i) && Place(cfg, ms, i) == FindName(a) && a in SystemAt(cfg, ms, i).shared.hostnames
  }

  /** Thread `t` has found a name of `a` and not yet deleted it. */
  predicate Claims(sys: System, t: u32, a: Addr) {
    var local := ThreadAt(sys, t).local;
    local.DropName? && local.ip == a && local.found.Some?
  }

  /** Moves `i` and `j` both see the name that one and the same move stored. */
  ghost predicate SameName(cfg: Config, ms: seq<Move>, i: nat, j: nat, a: Addr)
    requires i < |ms| && j < |ms|
  {
    exists w: nat :: HeldSince(cfg, ms, i, a, w) && HeldSince(cfg, ms, j, a, w)
  }

  ghost predicate NoStoreBetween(cfg: Config, ms: seq<Move>, i: nat, j: nat, a: Addr)
    requires j < |ms|
  {
    forall v: nat {:trigger Stored(cfg, ms, v, a)} :: i < v < j ==> !Stored(cfg, ms, v, a)
  }

  lemma {:induction false} ClaimLasts(cfg: Config, ms: seq<Move>, i: nat, j: nat, a: Addr)
    requires i < j <= |ms| && Found(cfg, ms, i, a)
    requires forall v: nat {:trigger Deleted(cfg, ms, v, a)} :: i < v < j ==> !Deleted(cfg, ms, v, a)
    ensures Claims(SystemAt(cfg, ms, j), ms[i].t, a)
  {
    if i + 1 < j {
      ClaimLasts(cfg, ms, i, j - 1, a);
      assert !Deleted(cfg, ms, j - 1, a);
      if Mover(cfg, ms[j - 1]) != ms[i].t {
        OtherMoveKeepsOwn(cfg, SystemAt(cfg, ms, j - 1), ms[j - 1], ms[i].t);
      }
    }
  }

  /** Two finds of an address take the same stored name exactly when no store of one lies between them, and
      that is only so while the first finder has not deleted what it found. */
  lemma SameNameMeansOverlap(cfg: Config, ms: seq<Move>, i: nat, j: nat, a: Addr)
    requires i < j < |ms| && Found(cfg, ms, i, a) && Found(cfg, ms, j, a)
    ensures SameName(cfg, ms, i, j, a) <==> NoStoreBetween(cfg, ms, i, j, a)
    ensures SameName(cfg, ms, i, j, a)
       <==> Claims(SystemAt(cfg, ms, j), ms[i].t, a) && NoStoreBetween(cfg, ms, i, j, a)
  {
    var x := NameIsHeld(cfg, ms, i, a, SystemAt(cfg, ms, i).shared.hostnames[a]);
    var y := NameIsHeld(cfg, ms, j, a, SystemAt(cfg, ms, j).shared.hostnames[a]);
    if NoStoreBetween(cfg, ms, i, j, a) {
      assert !Stored(cfg, ms, i, a);
      assert x == y by {
        assert Stored(cfg, ms, x, a) && Stored(cfg, ms, y, a);
      }
      assert SameName(cfg, ms, i, j, a);
    }
    if SameName(cfg, ms, i, j, a) {
      var w: nat :| HeldSince(cfg, ms, i, a, w) && HeldSince(cfg, ms, j, a, w);
      ClaimLasts(cfg, ms, i, j, a);
    }
  }

  // ---------- the account of stored names ----------

  /** The map holds a name of `a` that no handler has found. */
  predicate Unfound(cfg: Config, ms: seq<Move>, n: nat, a: Addr)
    requires n <= |ms|
  {
    && 0 < n
    && (|| Stored(cfg, ms, n - 1, a)
        || (!Found(cfg, ms, n - 1, a) && !Deleted(cfg, ms, n - 1, a) && Unfound(cfg, ms, n - 1, a)))
  }

  function Stores(cfg: Config, ms: seq<Move>, n: nat, a: Addr): nat
    requires n <= |ms|
  {
    if n == 0 then 0 else Stores(cfg, ms, n - 1, a) + Ones(Stored(cfg, ms, n - 1, a))
  }

  function Finds(cfg: Config, ms: seq<Move>, n: nat, a: Addr): nat
    requires n <= |ms|
  {
    if n == 0 then 0 else Finds(cfg, ms, n - 1, a) + Ones(Found(cfg, ms, n - 1, a))
  }

  /** Finds of a name that has been found before. */
  function Repeats(cfg: Config, ms: seq<Move>, n: nat, a: Addr): nat
    requires n <= |ms|
  {
    if n == 0 then 0
    else Repeats(cfg, ms, n - 1, a) + Ones(Found(cfg, ms, n - 1, a) && !Unfound(cfg, ms, n - 1, a))
  }

  /** Names that are replaced by another one, or deleted by a handler that found an earlier one, before any
      handler finds them. */
  function Losses(cfg: Config, ms: seq<Move>, n: nat, a: Addr): nat
    requires n <= |ms|
  {
    if n == 0 then 0
    else
      Losses(cfg, ms, n - 1, a)
      + Ones((Stored(cfg, ms, n - 1, a) || Deleted(cfg, ms, n - 1, a)) && Unfound(cfg, ms, n - 1, a))
  }

  lemma {:induction false} FindsBalance(cfg: Config, ms: seq<Move>, n: nat, a: Addr)
    requires n <= |ms|
    ensures Stores(cfg, ms, n, a) + Repeats(cfg, ms, n, a)
         == Finds(cfg, ms, n, a) + Losses(cfg, ms, n, a) + Ones(Unfound(cfg, ms, n, a))
  {
    if n > 0 {
      FindsBalance(cfg, ms, n - 1, a);
    }
  }

  /** A name is unfound when its store is held and no find has happened since. */
  lemma {:induction false} UnfoundIsHeld(cfg: Config, ms: seq<Move>, n: nat, a: Addr, w: nat)
    requires n <= |ms| && HeldSince(cfg, ms, n, a, w)
    ensures Unfound(cfg, ms, n, a)
       <==> forall v: nat {:trigger Found(cfg, ms, v, a)} :: w < v < n ==> !Found(cfg, ms, v, a)
  {
    if w < n - 1 {
      assert HeldSince(cfg, ms, n - 1, a, w);
      assert !Stored(cfg, ms, n - 1, a) && !Deleted(cfg, ms, n - 1, a);
      UnfoundIsHeld(cfg, ms, n - 1, a, w);
    }
  }

  /** A find repeats exactly when an earlier find took the same stored name. */
  lemma RepeatMeansSameName(cfg: Config, ms: seq<Move>, j: nat, a: Addr)
    requires j < |ms| && Found(cfg, ms, j, a)
    ensures !Unfound(cfg, ms, j, a)
       <==> exists i: nat :: i < j && Found(cfg, ms, i, a) && SameName(cfg, ms, i, j, a)
  {
    var w := NameIsHeld(cfg, ms, j, a, SystemAt(cfg, ms, j).shared.hostnames[a]);
    UnfoundIsHeld(cfg, ms, j, a, w);
    if !Unfound(cfg, ms, j, a) {
      var v: nat :| w < v < j && Found(cfg, ms, v, a);
      assert HeldSince(cfg, ms, v, a, w);
      assert SameName(cfg, ms, v, j, a);
    }
    if i: nat :| i < j && Found(cfg, ms, i, a) && SameName(cfg, ms, i, j, a) {
      var u: nat :| HeldSince(cfg, ms, i, a, u) && HeldSince(cfg, ms, j, a, u);
      HeldIsUnique(cfg, ms, j, a, u, w);
      assert w < i < j && Found(cfg, ms, i, a);
    }
  }

  lemma HeldIsUnique(cfg: Config, ms: seq<Move>, n: nat, a: Addr, u: nat, w: nat)
    requires n <= |ms| && HeldSince(cfg, ms, n, a, u) && HeldSince(cfg, ms, n, a, w)
    ensures u == w
  {
    assert Stored(cfg, ms, u, a) && Stored(cfg, ms, w, a);
  }

  /** No find happens while an earlier finder of the same stored name has still to delete it. */
  ghost predicate NoSharing(cfg: Config, ms: seq<Move>, n: nat, a: Addr)
    requires n <= |ms|
  {
    forall i: nat, j: nat {:trigger Found(cfg, ms, i, a), Found(cfg, ms, j, a)} ::
      i < j < n && Found(cfg, ms, i, a) && Found(cfg, ms, j, a) ==>
        !(Claims(SystemAt(cfg, ms, j), ms[i].t, a) && NoStoreBetween(cfg, ms, i, j, a))
  }

  /** That is exactly when no find repeats. */
  lemma {:induction false} NoSharingMeansNoRepeats(cfg: Config, ms: seq<Move>, n: nat, a: Addr)
    requires n <= |ms|
    ensures NoSharing(cfg, ms, n, a) <==> Repeats(cfg, ms, n, a) == 0
  {
    if n > 0 {
      NoSharingMeansNoRepeats(cfg, ms, n - 1, a);
      var j := n - 1;
      if Found(cfg, ms, j, a) {
        RepeatMeansSameName(cfg, ms, j, a);
        forall i: nat | i < j && Found(cfg, ms, i, a)
          ensures SameName(cfg, ms, i, j, a)
             <==> Claims(SystemAt(cfg, ms, j), ms[i].t, a) && NoStoreBetween(cfg, ms, i, j, a)
        {
          SameNameMeansOverlap(cfg, ms, i, j, a);
        }
      }
    }
  }

  // ---------- finds and events ----------

  /** The handler has found a name of `a` and not yet reported it. */
  predicate Owes(local: Local, a: Addr) {
    (local.DropName? || local.Emit?) && local.ip == a && local.found.Some?
  }

  function Owing(sys: System, a: Addr): set<u32> {
    set t | t in sys.threads && Owes(sys.threads[t].local, a)
  }

  /** Move `i` reports a connection to `a` by name. */
  predicate Reported(cfg: Config, ms: seq<Move>, i: nat, a: Addr)
    requires i < |ms|
  {
    GoesOn(ms, i) && Place(cfg, ms, i).Emit? && Owes(Place(cfg, ms, i), a)
  }

  function Reports(cfg: Config, ms: seq<Move>, n: nat, a: Addr): nat
    requires n <= |ms|
  {
    if n == 0 then 0 else Reports(cfg, ms, n - 1, a) + Ones(Reported(cfg, ms, n - 1, a))
  }

  lemma NameEventsAfter(cfg: Config, ms: seq<Move>, n: nat, a: Addr)
    requires n < |ms|
    ensures H.NameEvents(SystemAt(cfg, ms, n + 1).shared.events, Peers(cfg, ms, n + 1), a)
         == H.NameEvents(SystemAt(cfg, ms, n).shared.events, Peers(cfg, ms, n), a) + Ones(Reported(cfg, ms, n, a))
  {
    var before, place := SystemAt(cfg, ms, n), Place(cfg, ms, n);
    var events, peers := before.shared.events, Peers(cfg, ms, n);
    OnlyEmitReports(cfg, before, ms[n]);
    if GoesOn(ms, n) && place.Emit? {
      var e := Report(place.ip, place.found);
      H.OneMoreEvent(events, peers, a, e, place.ip);
      assert SystemAt(cfg, ms, n + 1).shared.events == events + [e] && Peers(cfg, ms, n + 1) == peers + [place.ip];
    } else {
      assert SystemAt(cfg, ms, n + 1).shared.events == events && Peers(cfg, ms, n + 1) == peers;
    }
  }

  function NameEventsAt(cfg: Config, ms: seq<Move>, n: nat, a: Addr): nat
    requires n <= |ms|
  {
    H.NameEvents(SystemAt(cfg, ms, n).shared.events, Peers(cfg, ms, n), a)
  }

  lemma ReportsAfter(cfg: Config, ms: seq<Move>, n: nat, a: Addr)
    requires n < |ms| && Reports(cfg, ms, n, a) == NameEventsAt(cfg, ms, n, a)
    ensures Reports(cfg, ms, n + 1, a) == NameEventsAt(cfg, ms, n + 1, a)
  {
    NameEventsAfter(cfg, ms, n, a);
  }

  /** These reports are the HOSTNAME events whose own handler reached `a`. */
  lemma {:induction false} ReportsAreNameEvents(cfg: Config, ms: seq<Move>, n: nat, a: Addr)
    requires n <= |ms|
    ensures Reports(cfg, ms, n, a) == NameEventsAt(cfg, ms, n, a)
  {
    if n > 0 {
      ReportsAreNameEvents(cfg, ms, n - 1, a);
      ReportsAfter(cfg, ms, n - 1, a);
    }
  }

  lemma WithAndWithout<T>(s: set<T>, x: T)
    ensures |s| == |s - {x}| + Ones(x in s)
  {
    if x in s {
      assert s == (s - {x}) + {x};
    } else {
      assert s == s - {x};
    }
  }

  lemma OthersOweTheSame(cfg: Config, sys: System, m: Move, a: Addr)
    ensures Owing(Advance(cfg, sys, m), a) - {Mover(cfg, m)} == Owing(sys, a) - {Mover(cfg, m)}
  {
  }

  /** What one move does to the debts: its own thread's debt is all that changes. */
  lemma OwingAfter(cfg: Config, sys: System, m: Move, a: Addr)
    ensures var t, after := Mover(cfg, m), Advance(cfg, sys, m);
            |Owing(after, a)| + Ones(Owes(ThreadAt(sys, t).local, a))
            == |Owing(sys, a)| + Ones(Owes(ThreadAt(after, t).local, a))
  {
    var t, after := Mover(cfg, m), Advance(cfg, sys, m);
    OthersOweTheSame(cfg, sys, m, a);
    WithAndWithout(Owing(sys, a), t);
    WithAndWithout(Owing(after, a), t);
  }

  /** A find makes its thread owe a report, and a report pays it. */
  lemma DebtAfter(cfg: Config, sys: System, m: Move, a: Addr)
    ensures var t := Mover(cfg, m);
            var before, after := ThreadAt(sys, t).local, ThreadAt(Advance(cfg, sys, m), t).local;
            var goesOn := m.Continue? && m.t != 0;
            Ones(Owes(after, a)) + Ones(goesOn && before.Emit? && Owes(before, a))
            == Ones(Owes(before, a)) + Ones(goesOn && before == FindName(a) && a in sys.shared.hostnames)
  {
  }

  lemma DebtsAfter(cfg: Config, ms: seq<Move>, n: nat, a: Addr)
    requires n < |ms|
    ensures |Owing(SystemAt(cfg, ms, n), a)| + Ones(Found(cfg, ms, n, a))
         == |Owing(SystemAt(cfg, ms, n + 1), a)| + Ones(Reported(cfg, ms, n, a))
  {
    var sys := SystemAt(cfg, ms, n);
    OwingAfter(cfg, sys, ms[n], a);
    DebtAfter(cfg, sys, ms[n], a);
  }

  /** Every find is reported once, or its handler has still to report it. */
  lemma {:induction false} FindsAreReported(cfg: Config, ms: seq<Move>, n: nat, a: Addr)
    requires n <= |ms|
    ensures Finds(cfg, ms, n, a) == Reports(cfg, ms, n, a) + |Owing(SystemAt(cfg, ms, n), a)|
  {
    if n > 0 {
      FindsAreReported(cfg, ms, n - 1, a);
      DebtsAfter(cfg, ms, n - 1, a);
    }
  }

  /** In every interleaving and under any refusals, a stored name of an address is reported, about to be
      reported, lost before any handler found it, or waiting in the map; what is reported beyond that are the
      finds that repeat. */
  lemma NamesAreBalanced(cfg: Config, ms: seq<Move>, n: nat, a: Addr)
    requires n <= |ms|
    ensures Stores(cfg, ms, n, a) + Repeats(cfg, ms, n, a)
         == Reports(cfg, ms, n, a) + |Owing(SystemAt(cfg, ms, n), a)|
            + Losses(cfg, ms, n, a) + Ones(Unfound(cfg, ms, n, a))
  {
    FindsBalance(cfg, ms, n, a);
    FindsAreReported(cfg, ms, n, a);
  }

  /** So the names of an address are reported once each exactly in the runs without sharing. */
  lemma UseOnceMeansNoSharing(cfg: Config, ms: seq<Move>, n: nat, a: Addr)
    requires n <= |ms|
    ensures NoSharing(cfg, ms, n, a)
       <==> Stores(cfg, ms, n, a) == Reports(cfg, ms, n, a) + |Owing(SystemAt(cfg, ms, n), a)|
                                     + Losses(cfg, ms, n, a) + Ones(Unfound(cfg, ms, n, a))
  {
    NamesAreBalanced(cfg, ms, n, a);
    NoSharingMeansNoRepeats(cfg, ms, n, a);
  }

  // ---------- a run with sharing ----------

  // Two threads of one process.
  const FIRST := PidTgid(7, 1)
  const SECOND := PidTgid(7, 2)

  const LOADED := Config(0, Some(MAX_ENTRIES))

  /** One thread resolves a name; then it and another connect to the address, and their handlers search,
      delete and report in turns. */
  function SharedNameRun(name: Name, a: Addr): seq<Move> {
    [Begin(LookupEnter(FIRST, name, 0)), Begin(LookupExit(FIRST, 0, (p: Ptr) => a)), Continue(1), Continue(1),
     Begin(ConnectEnter(FIRST, 0)), Begin(ConnectEnter(SECOND, 1)),
     Begin(ConnectExit(FIRST, 0, (sk: Sock) => a)), Begin(ConnectExit(SECOND, 0, (sk: Sock) => a)),
     Continue(1), Continue(2), Continue(1), Continue(2), Continue(1), Continue(2)]
  }

  lemma SystemStep(cfg: Config, ms: seq<Move>, n: nat)
    requires n < |ms|
    ensures SystemAt(cfg, ms, 0) == START
    ensures SystemAt(cfg, ms, n + 1) == Advance(cfg, SystemAt(cfg, ms, n), ms[n])
  {
  }

  /** The run up to and including the search of both handlers, state by state. */
  function Stage(name: Name, a: Addr, n: nat): System {
    var l := Lookup(name, 0);
    var read := [FromLookups(Some(l))];
    var stored := EMPTY.(hostnames := map[a := l]);
    if n == 0 then START
    else if n == 1 then System(EMPTY.(lookups := map[1 := l]), map[1 := Thread(Idle, [])])
    else if n == 2 then System(EMPTY.(lookups := map[1 := l]), map[1 := Thread(StoreName(a, l), read)])
    else if n == 3 then System(stored.(lookups := map[1 := l]), map[1 := Thread(DropLookup, read)])
    else if n == 4 then System(stored, map[1 := Thread(Idle, read)])
    else if n == 5 then System(stored.(sockets := map[1 := 0]), map[1 := Thread(Idle, read)])
    else
      var open := stored.(sockets := map[1 := 0, 2 := 1]);
      var first := Thread(FindName(a), read + [FromSockets(Some(0))]);
      if n == 6 then System(open, map[1 := Thread(Idle, read), 2 := Thread(Idle, [])])
      else if n == 7 then System(open, map[1 := first, 2 := Thread(Idle, [])])
      else System(open, map[1 := first, 2 := Thread(FindName(a), [FromSockets(Some(1))])])
  }

  lemma LookupStage(name: Name, a: Addr, n: nat)
    requires n < 4
    ensures Advance(LOADED, Stage(name, a, n), SharedNameRun(name, a)[n]) == Stage(name, a, n + 1)
  {
    var after, next := Advance(LOADED, Stage(name, a, n), SharedNameRun(name, a)[n]), Stage(name, a, n + 1);
    assert after.shared.lookups == next.shared.lookups;
    assert after.shared.hostnames == next.shared.hostnames;
    assert [] + [FromLookups(Some(Lookup(name, 0)))] == [FromLookups(Some(Lookup(name, 0)))];
    assert after.threads == next.threads;
  }

  lemma ConnectStage(name: Name, a: Addr, n: nat)
    requires 4 <= n < 8
    ensures Advance(LOADED, Stage(name, a, n), SharedNameRun(name, a)[n]) == Stage(name, a, n + 1)
  {
    var after, next := Advance(LOADED, Stage(name, a, n), SharedNameRun(name, a)[n]), Stage(name, a, n + 1);
    assert after.shared.sockets == next.shared.sockets;
    assert [] + [FromSockets(Some(1))] == [FromSockets(Some(1))];
    assert after.threads == next.threads;
  }

  lemma {:induction false} RunIsStages(name: Name, a: Addr, n: nat)
    requires n <= 8
    ensures SystemAt(LOADED, SharedNameRun(name, a), n) == Stage(name, a, n)
    ensures Stores(LOADED, SharedNameRun(name, a), n, a) == Ones(3 <= n)
  {
    if n > 0 {
      RunIsStages(name, a, n - 1);
      if n <= 4 {
        LookupStage(name, a, n - 1);
      } else {
        ConnectStage(name, a, n - 1);
      }
    }
  }

  ghost predicate NoneStoring(sys: System) {
    forall t: u32 :: !ThreadAt(sys, t).local.StoreName?
  }

  lemma ContinueKeepsNoneStoring(cfg: Config, sys: System, u: u32)
    requires NoneStoring(sys)
    ensures NoneStoring(Advance(cfg, sys, Continue(u)))
  {
    var after := Advance(cfg, sys, Continue(u));
    forall t: u32 ensures !ThreadAt(after, t).local.StoreName? {
      assert !ThreadAt(sys, t).local.StoreName?;
    }
  }

  /** A thread comes to store a name only by a probe that fires. */
  lemma {:induction false} OnlyProbesLeadToStores(cfg: Config, ms: seq<Move>, m: nat, n: nat, a: Addr)
    requires m <= n <= |ms| && NoneStoring(SystemAt(cfg, ms, m))
    requires forall i :: m <= i < n ==> ms[i].Continue?
    ensures NoneStoring(SystemAt(cfg, ms, n)) && Stores(cfg, ms, n, a) == Stores(cfg, ms, m, a)
  {
    if m < n {
      OnlyProbesLeadToStores(cfg, ms, m, n - 1, a);
      ContinueKeepsNoneStoring(cfg, SystemAt(cfg, ms, n - 1), ms[n - 1].t);
    }
  }

  /** Two handlers that found the same name before either deleted it both report it. */
  lemma BothFindersReport(cfg: Config, sys: System, t: u32, u: u32, ip: Addr)
    requires t != 0 && u != 0 && t != u && ip in sys.shared.hostnames
    requires ThreadAt(sys, t).local == FindName(ip) && ThreadAt(sys, u).local == FindName(ip)
    ensures var found := Advance(cfg, Advance(cfg, sys, Continue(t)), Continue(u));
            var dropped := Advance(cfg, Advance(cfg, found, Continue(t)), Continue(u));
            var reported := Advance(cfg, Advance(cfg, dropped, Continue(t)), Continue(u));
            var host := Report(ip, Some(sys.shared.hostnames[ip]));
            reported.shared.events == sys.shared.events + [host, host]
  {
    var l := sys.shared.hostnames[ip];
    var found := Advance(cfg, Advance(cfg, sys, Continue(t)), Continue(u));
    assert ThreadAt(found, t).local == DropName(ip, Some(l)) && ThreadAt(found, u).local == DropName(ip, Some(l));
    assert found.shared == sys.shared;
    var dropped := Advance(cfg, Advance(cfg, found, Continue(t)), Continue(u));
    assert ThreadAt(dropped, t).local == Emit(ip, Some(l)) && ThreadAt(dropped, u).local == Emit(ip, Some(l));
    assert dropped.shared.events == sys.shared.events;
  }

  /** As loaded, with room for 10240 names: a name looked up and stored once is reported twice. */
  lemma OneStoreTwoReports(name: Name, a: Addr)
    ensures var ms := SharedNameRun(name, a);
            && SystemAt(LOADED, ms, |ms|).shared.events
               == [Event(TAG_HOSTNAME, NO_IP, name), Event(TAG_HOSTNAME, NO_IP, name)]
            && Stores(LOADED, ms, |ms|, a) == 1
  {
    var ms := SharedNameRun(name, a);
    RunIsStages(name, a, 8);
    OnlyProbesLeadToStores(LOADED, ms, 8, 14, a);
    BothFindersReport(LOADED, Stage(name, a, 8), 1, 2, a);
    SystemStep(LOADED, ms, 8);
    SystemStep(LOADED, ms, 9);
    SystemStep(LOADED, ms, 10);
    SystemStep(LOADED, ms, 11);
    SystemStep(LOADED, ms, 12);
    SystemStep(LOADED, ms, 13);
  }
}
