/** What a run of `tracecon` should report, read off its history alone, and how the map-driven
    handlers relate to it: equality when no update is refused, provenance and conservation always. */
module TraceconHistory {
  import opened Kernel
  import opened Tracecon

  // ---------- the history specification: no maps, only earlier steps ----------

  /** Thread `t` takes step `s`, and the process filter lets it through. */
  predicate ByThread(cfg: Config, s: Step, t: u32) {
    t != 0 && s.id.lower == t && (cfg.targetPid == 0 || AsPid(s.id.upper) == cfg.targetPid)
  }

  predicate LookupProbe(cfg: Config, s: Step, t: u32) {
    (s.LookupEnter? || s.LookupExit?) && ByThread(cfg, s, t)
  }

  predicate ConnectProbe(cfg: Config, s: Step, t: u32) {
    (s.ConnectEnter? || s.ConnectExit?) && ByThread(cfg, s, t)
  }

  /** The name lookup thread `t` is inside of after `n` steps: its last lookup probe, if an entry. */
  function PendingLookup(cfg: Config, tr: seq<Step>, n: nat, t: u32): Option<Lookup>
    requires n <= |tr|
  {
    if n == 0 then None
    else if LookupProbe(cfg, tr[n - 1], t) then
      if tr[n - 1].LookupEnter? then Some(Lookup(tr[n - 1].name, tr[n - 1].res)) else None
    else PendingLookup(cfg, tr, n - 1, t)
  }

  function PendingSocket(cfg: Config, tr: seq<Step>, n: nat, t: u32): Option<Sock>
    requires n <= |tr|
  {
    if n == 0 then None
    else if ConnectProbe(cfg, tr[n - 1], t) then
      if tr[n - 1].ConnectEnter? then Some(tr[n - 1].sk) else None
    else PendingSocket(cfg, tr, n - 1, t)
  }

  /** The address and record learned at step `i`, when it ends a successful name lookup. */
  function Resolved(cfg: Config, tr: seq<Step>, i: nat): Option<(Addr, Lookup)>
    requires i < |tr|
  {
    var s := tr[i];
    if s.LookupExit? && ByThread(cfg, s, s.id.lower) && s.ret == 0 then
      match PendingLookup(cfg, tr, i, s.id.lower)
      case None => None
      case Some(l) => Some((s.sinAddr(l.results), l))
    else None
  }

  /** The destination of the connection that step `i` completes, if it completes one. */
  function Connected(cfg: Config, tr: seq<Step>, i: nat): Option<Addr>
    requires i < |tr|
  {
    var s := tr[i];
    if s.ConnectExit? && ByThread(cfg, s, s.id.lower) && s.ret == 0 then
      match PendingSocket(cfg, tr, i, s.id.lower)
      case None => None
      case Some(sk) => Some(s.daddr(sk))
    else None
  }

  predicate Resolves(cfg: Config, tr: seq<Step>, i: nat, a: Addr)
    requires i < |tr|
  {
    Resolved(cfg, tr, i).Some? && Resolved(cfg, tr, i).value.0 == a
  }

  /** The latest successful lookup of `a` among the first `n` steps, unless a later connection used it. */
  function UnusedName(cfg: Config, tr: seq<Step>, n: nat, a: Addr): Option<Lookup>
    requires n <= |tr|
  {
    if n == 0 then None
    else if Resolves(cfg, tr, n - 1, a) then Some(Resolved(cfg, tr, n - 1).value.1)
    else if Connected(cfg, tr, n - 1) == Some(a) then None
    else UnusedName(cfg, tr, n - 1, a)
  }

  function HistoryEvents(cfg: Config, tr: seq<Step>, n: nat): seq<Event>
    requires n <= |tr|
  {
    if n == 0 then []
    else
      match Connected(cfg, tr, n - 1)
      case None => HistoryEvents(cfg, tr, n - 1)
      case Some(a) => HistoryEvents(cfg, tr, n - 1) + [Report(a, UnusedName(cfg, tr, n - 1, a))]
  }

  // ---------- the scans say what they should: latest, and not superseded ----------

  ghost predicate OpenedAt(cfg: Config, tr: seq<Step>, n: nat, t: u32, i: nat)
    requires n <= |tr|
  {
    && i < n && tr[i].LookupEnter? && LookupProbe(cfg, tr[i], t)
    && forall j :: i < j < n ==> !LookupProbe(cfg, tr[j], t)
  }

  ghost predicate SocketAt(cfg: Config, tr: seq<Step>, n: nat, t: u32, i: nat)
    requires n <= |tr|
  {
    && i < n && tr[i].ConnectEnter? && ConnectProbe(cfg, tr[i], t)
    && forall j :: i < j < n ==> !ConnectProbe(cfg, tr[j], t)
  }

  ghost predicate UnusedSince(cfg: Config, tr: seq<Step>, n: nat, a: Addr, i: nat)
    requires n <= |tr|
  {
    && i < n && Resolves(cfg, tr, i, a)
    && forall j :: i < j < n ==> !Resolves(cfg, tr, j, a) && Connected(cfg, tr, j) != Some(a)
  }

  lemma {:induction false} PendingLookupIsLastEntry(cfg: Config, tr: seq<Step>, n: nat, t: u32, l: Lookup)
    requires n <= |tr|
    ensures PendingLookup(cfg, tr, n, t) == Some(l)
       <==> exists i: nat :: OpenedAt(cfg, tr, n, t, i) && l == Lookup(tr[i].name, tr[i].res)
  {
    if n > 0 {
      if LookupProbe(cfg, tr[n - 1], t) {
        if tr[n - 1].LookupEnter? {
          assert OpenedAt(cfg, tr, n, t, n - 1);
        }
      } else {
        PendingLookupIsLastEntry(cfg, tr, n - 1, t, l);
        forall i: nat ensures OpenedAt(cfg, tr, n, t, i) <==> OpenedAt(cfg, tr, n - 1, t, i) {}
      }
    }
  }

  lemma {:induction false} PendingSocketIsLastEntry(cfg: Config, tr: seq<Step>, n: nat, t: u32, sk: Sock)
    requires n <= |tr|
    ensures PendingSocket(cfg, tr, n, t) == Some(sk)
       <==> exists i: nat :: SocketAt(cfg, tr, n, t, i) && sk == tr[i].sk
  {
    if n > 0 {
      if ConnectProbe(cfg, tr[n - 1], t) {
        if tr[n - 1].ConnectEnter? {
          assert SocketAt(cfg, tr, n, t, n - 1);
        }
      } else {
        PendingSocketIsLastEntry(cfg, tr, n - 1, t, sk);
        forall i: nat ensures SocketAt(cfg, tr, n, t, i) <==> SocketAt(cfg, tr, n - 1, t, i) {}
      }
    }
  }

  lemma {:induction false} UnusedNameIsLatest(cfg: Config, tr: seq<Step>, n: nat, a: Addr, l: Lookup)
    requires n <= |tr|
    ensures UnusedName(cfg, tr, n, a) == Some(l)
       <==> exists i: nat :: UnusedSince(cfg, tr, n, a, i) && Resolved(cfg, tr, i) == Some((a, l))
  {
    if n > 0 {
      if Resolves(cfg, tr, n - 1, a) {
        assert UnusedSince(cfg, tr, n, a, n - 1);
      } else if Connected(cfg, tr, n - 1) != Some(a) {
        UnusedNameIsLatest(cfg, tr, n - 1, a, l);
        forall i: nat ensures UnusedSince(cfg, tr, n, a, i) <==> UnusedSince(cfg, tr, n - 1, a, i) {}
      }
    }
  }

  // ---------- one step, seen from one key ----------

  /** The handlers act for thread `t` exactly on the steps that `t` takes and the filter lets through. */
  lemma TidIsThread(cfg: Config, s: Step, t: u32)
    ensures t != 0 && Tid(cfg, s) == t <==> ByThread(cfg, s, t)
  {
  }

  /** Threads with different identifiers never touch each other's records, in one process or in two. */
  lemma OtherThreadsKeepRecords(cfg: Config, st: State, s: Step, t: u32)
    requires s.id.lower != t
    ensures Get(Next(cfg, st, s).lookups, t) == Get(st.lookups, t)
    ensures Get(Next(cfg, st, s).sockets, t) == Get(st.sockets, t)
  {
  }

  lemma StepOnName(cfg: Config, st: State, s: Step, a: Addr)
    ensures var after := Get(Next(cfg, st, s).hostnames, a);
            if Learns(cfg, st.lookups, s).Some? && Learns(cfg, st.lookups, s).value.0 == a && !NameRefused(cfg, st, s)
            then after == Some(Learns(cfg, st.lookups, s).value.1)
            else if Reaches(cfg, st.sockets, s) == Some(a) then after == None
            else after == Get(st.hostnames, a)
  {
  }

  lemma StepOnEvents(cfg: Config, st: State, s: Step)
    ensures Next(cfg, st, s).events ==
            match Reaches(cfg, st.sockets, s)
            case None => st.events
            case Some(ip) => st.events + [Report(ip, Get(st.hostnames, ip))]
  {
  }

  // ---------- refused updates ----------

  predicate LookupRefused(cfg: Config, st: State, s: Step) {
    s.LookupEnter? && Tid(cfg, s) != 0 && Refused(st.lookups, cfg.limit, Tid(cfg, s))
  }

  predicate SocketRefused(cfg: Config, st: State, s: Step) {
    s.ConnectEnter? && Tid(cfg, s) != 0 && Refused(st.sockets, cfg.limit, Tid(cfg, s))
  }

  predicate NameRefused(cfg: Config, st: State, s: Step) {
    Learns(cfg, st.lookups, s).Some? && Refused(st.hostnames, cfg.limit, Learns(cfg, st.lookups, s).value.0)
  }

  ghost predicate NoLookupRefused(cfg: Config, tr: seq<Step>, n: nat)
    requires n <= |tr|
  {
    forall i {:trigger StateAt(cfg, tr, i)} :: 0 <= i < n ==> !LookupRefused(cfg, StateAt(cfg, tr, i), tr[i])
  }

  ghost predicate NoSocketRefused(cfg: Config, tr: seq<Step>, n: nat)
    requires n <= |tr|
  {
    forall i {:trigger StateAt(cfg, tr, i)} :: 0 <= i < n ==> !SocketRefused(cfg, StateAt(cfg, tr, i), tr[i])
  }

  ghost predicate NoNameRefused(cfg: Config, tr: seq<Step>, n: nat)
    requires n <= |tr|
  {
    forall i {:trigger StateAt(cfg, tr, i)} :: 0 <= i < n ==> !NameRefused(cfg, StateAt(cfg, tr, i), tr[i])
  }

  ghost predicate NothingRefused(cfg: Config, tr: seq<Step>, n: nat)
    requires n <= |tr|
  {
    NoLookupRefused(cfg, tr, n) && NoSocketRefused(cfg, tr, n) && NoNameRefused(cfg, tr, n)
  }

  // ---------- refinement: with no refusal the maps are the scans ----------

  lemma {:induction false} LookupsMatchHistory(cfg: Config, tr: seq<Step>, n: nat, t: u32)
    requires n <= |tr| && NoLookupRefused(cfg, tr, n)
    ensures Get(StateAt(cfg, tr, n).lookups, t) == PendingLookup(cfg, tr, n, t)
  {
    if n > 0 {
      LookupsMatchHistory(cfg, tr, n - 1, t);
      assert !LookupRefused(cfg, StateAt(cfg, tr, n - 1), tr[n - 1]);
    }
  }

  lemma {:induction false} SocketsMatchHistory(cfg: Config, tr: seq<Step>, n: nat, t: u32)
    requires n <= |tr| && NoSocketRefused(cfg, tr, n)
    ensures Get(StateAt(cfg, tr, n).sockets, t) == PendingSocket(cfg, tr, n, t)
  {
    if n > 0 {
      SocketsMatchHistory(cfg, tr, n - 1, t);
      assert !SocketRefused(cfg, StateAt(cfg, tr, n - 1), tr[n - 1]);
    }
  }

  lemma JoinsMatchHistory(cfg: Config, tr: seq<Step>, i: nat)
    requires i < |tr| && NoLookupRefused(cfg, tr, i) && NoSocketRefused(cfg, tr, i)
    ensures Learns(cfg, StateAt(cfg, tr, i).lookups, tr[i]) == Resolved(cfg, tr, i)
    ensures Reaches(cfg, StateAt(cfg, tr, i).sockets, tr[i]) == Connected(cfg, tr, i)
  {
    LookupsMatchHistory(cfg, tr, i, Tid(cfg, tr[i]));
    SocketsMatchHistory(cfg, tr, i, Tid(cfg, tr[i]));
  }

  lemma NameStepMatches(cfg: Config, tr: seq<Step>, n: nat, a: Addr)
    requires n < |tr| && NoLookupRefused(cfg, tr, n) && NoSocketRefused(cfg, tr, n)
    requires !NameRefused(cfg, StateAt(cfg, tr, n), tr[n])
    requires Get(StateAt(cfg, tr, n).hostnames, a) == UnusedName(cfg, tr, n, a)
    ensures Get(Next(cfg, StateAt(cfg, tr, n), tr[n]).hostnames, a) == UnusedName(cfg, tr, n + 1, a)
  {
    JoinsMatchHistory(cfg, tr, n);
    StepOnName(cfg, StateAt(cfg, tr, n), tr[n], a);
  }

  lemma {:induction false} HostnamesMatchHistory(cfg: Config, tr: seq<Step>, n: nat, a: Addr)
    requires n <= |tr| && NothingRefused(cfg, tr, n)
    ensures Get(StateAt(cfg, tr, n).hostnames, a) == UnusedName(cfg, tr, n, a)
  {
    if n > 0 {
      HostnamesMatchHistory(cfg, tr, n - 1, a);
      assert !NameRefused(cfg, StateAt(cfg, tr, n - 1), tr[n - 1]);
      NameStepMatches(cfg, tr, n - 1, a);
    }
  }

  /** The event stream of every run without refusals is the one the history prescribes. */
  lemma {:induction false} EventsMatchHistory(cfg: Config, tr: seq<Step>, n: nat)
    requires n <= |tr| && NothingRefused(cfg, tr, n)
    ensures StateAt(cfg, tr, n).events == HistoryEvents(cfg, tr, n)
  {
    if n > 0 {
      EventsMatchHistory(cfg, tr, n - 1);
      JoinsMatchHistory(cfg, tr, n - 1);
      StepOnEvents(cfg, StateAt(cfg, tr, n - 1), tr[n - 1]);
      match Connected(cfg, tr, n - 1)
      case None =>
      case Some(a) => HostnamesMatchHistory(cfg, tr, n - 1, a);
    }
  }

  // ---------- capacity: when exactly nothing is refused ----------

  /** Threads inside a name lookup after `n` steps. */
  function OpenLookups(cfg: Config, tr: seq<Step>, n: nat): set<u32>
    requires n <= |tr|
  {
    if n == 0 then {}
    else
      var t := tr[n - 1].id.lower;
      if !LookupProbe(cfg, tr[n - 1], t) then OpenLookups(cfg, tr, n - 1)
      else if tr[n - 1].LookupEnter? then OpenLookups(cfg, tr, n - 1) + {t}
      else OpenLookups(cfg, tr, n - 1) - {t}
  }

  function OpenSockets(cfg: Config, tr: seq<Step>, n: nat): set<u32>
    requires n <= |tr|
  {
    if n == 0 then {}
    else
      var t := tr[n - 1].id.lower;
      if !ConnectProbe(cfg, tr[n - 1], t) then OpenSockets(cfg, tr, n - 1)
      else if tr[n - 1].ConnectEnter? then OpenSockets(cfg, tr, n - 1) + {t}
      else OpenSockets(cfg, tr, n - 1) - {t}
  }

  /** Addresses that hold a name no connection has used yet. */
  function UnusedAddrs(cfg: Config, tr: seq<Step>, n: nat): set<Addr>
    requires n <= |tr|
  {
    if n == 0 then {}
    else if Resolved(cfg, tr, n - 1).Some? then
      UnusedAddrs(cfg, tr, n - 1) + {Resolved(cfg, tr, n - 1).value.0}
    else if Connected(cfg, tr, n - 1).Some? then
      UnusedAddrs(cfg, tr, n - 1) - {Connected(cfg, tr, n - 1).value}
    else UnusedAddrs(cfg, tr, n - 1)
  }

  lemma {:induction false} OpenSetsAreScans(cfg: Config, tr: seq<Step>, n: nat)
    requires n <= |tr|
    ensures forall t :: t in OpenLookups(cfg, tr, n) <==> PendingLookup(cfg, tr, n, t).Some?
    ensures forall t :: t in OpenSockets(cfg, tr, n) <==> PendingSocket(cfg, tr, n, t).Some?
    ensures forall a :: a in UnusedAddrs(cfg, tr, n) <==> UnusedName(cfg, tr, n, a).Some?
  {
    if n > 0 {
      OpenSetsAreScans(cfg, tr, n - 1);
    }
  }

  /** Whatever was refused, a recorded thread is inside the call its record describes. */
  lemma {:induction false} LookupRecordsAreOpen(cfg: Config, tr: seq<Step>, n: nat, t: u32)
    requires n <= |tr| && t in StateAt(cfg, tr, n).lookups
    ensures PendingLookup(cfg, tr, n, t) == Some(StateAt(cfg, tr, n).lookups[t])
  {
    var before := StateAt(cfg, tr, n - 1).lookups;
    assert StateAt(cfg, tr, n).lookups == NextLookups(cfg, before, tr[n - 1]);
    if !LookupProbe(cfg, tr[n - 1], t) {
      LookupRecordsAreOpen(cfg, tr, n - 1, t);
    }
  }

  lemma {:induction false} SocketRecordsAreOpen(cfg: Config, tr: seq<Step>, n: nat, t: u32)
    requires n <= |tr| && t in StateAt(cfg, tr, n).sockets
    ensures PendingSocket(cfg, tr, n, t) == Some(StateAt(cfg, tr, n).sockets[t])
  {
    var before := StateAt(cfg, tr, n - 1).sockets;
    assert StateAt(cfg, tr, n).sockets == NextSockets(cfg, before, tr[n - 1]);
    if !ConnectProbe(cfg, tr[n - 1], t) {
      SocketRecordsAreOpen(cfg, tr, n - 1, t);
    }
  }

  lemma LookupKeysAreOpen(cfg: Config, tr: seq<Step>, n: nat)
    requires n <= |tr| && NoLookupRefused(cfg, tr, n)
    ensures StateAt(cfg, tr, n).lookups.Keys == OpenLookups(cfg, tr, n)
  {
    OpenSetsAreScans(cfg, tr, n);
    forall t: u32 ensures t in StateAt(cfg, tr, n).lookups <==> t in OpenLookups(cfg, tr, n) {
      LookupsMatchHistory(cfg, tr, n, t);
    }
  }

  lemma SocketKeysAreOpen(cfg: Config, tr: seq<Step>, n: nat)
    requires n <= |tr| && NoSocketRefused(cfg, tr, n)
    ensures StateAt(cfg, tr, n).sockets.Keys == OpenSockets(cfg, tr, n)
  {
    OpenSetsAreScans(cfg, tr, n);
    forall t: u32 ensures t in StateAt(cfg, tr, n).sockets <==> t in OpenSockets(cfg, tr, n) {
      SocketsMatchHistory(cfg, tr, n, t);
    }
  }

  lemma HostnameKeysAreUnused(cfg: Config, tr: seq<Step>, n: nat)
    requires n <= |tr| && NothingRefused(cfg, tr, n)
    ensures StateAt(cfg, tr, n).hostnames.Keys == UnusedAddrs(cfg, tr, n)
  {
    OpenSetsAreScans(cfg, tr, n);
    forall a: Addr ensures a in StateAt(cfg, tr, n).hostnames <==> a in UnusedAddrs(cfg, tr, n) {
      HostnamesMatchHistory(cfg, tr, n, a);
    }
  }

  lemma {:induction false} OpenLookupsFit(cfg: Config, tr: seq<Step>, n: nat)
    requires n <= |tr| && NoLookupRefused(cfg, tr, n)
    ensures Within(OpenLookups(cfg, tr, n), cfg.limit)
  {
    if n > 0 {
      OpenLookupsFit(cfg, tr, n - 1);
      var t, open := Tid(cfg, tr[n - 1]), OpenLookups(cfg, tr, n - 1);
      if tr[n - 1].LookupEnter? && t != 0 {
        LookupKeysAreOpen(cfg, tr, n - 1);
        assert !LookupRefused(cfg, StateAt(cfg, tr, n - 1), tr[n - 1]);
        AcceptedStaysWithin(StateAt(cfg, tr, n - 1).lookups, cfg.limit, t);
      } else {
        SubsetSize(open - {t}, open);
      }
    }
  }

  lemma {:induction false} OpenSocketsFit(cfg: Config, tr: seq<Step>, n: nat)
    requires n <= |tr| && NoSocketRefused(cfg, tr, n)
    ensures Within(OpenSockets(cfg, tr, n), cfg.limit)
  {
    if n > 0 {
      OpenSocketsFit(cfg, tr, n - 1);
      var t, open := Tid(cfg, tr[n - 1]), OpenSockets(cfg, tr, n - 1);
      if tr[n - 1].ConnectEnter? && t != 0 {
        SocketKeysAreOpen(cfg, tr, n - 1);
        assert !SocketRefused(cfg, StateAt(cfg, tr, n - 1), tr[n - 1]);
        AcceptedStaysWithin(StateAt(cfg, tr, n - 1).sockets, cfg.limit, t);
      } else {
        SubsetSize(open - {t}, open);
      }
    }
  }

  lemma {:induction false} UnusedAddrsFit(cfg: Config, tr: seq<Step>, n: nat)
    requires n <= |tr| && NothingRefused(cfg, tr, n)
    ensures Within(UnusedAddrs(cfg, tr, n), cfg.limit)
  {
    if n > 0 {
      UnusedAddrsFit(cfg, tr, n - 1);
      var unused := UnusedAddrs(cfg, tr, n - 1);
      if Resolved(cfg, tr, n - 1).Some? {
        ResolvedAddrFits(cfg, tr, n - 1);
      } else if Connected(cfg, tr, n - 1).Some? {
        SubsetSize(unused - {Connected(cfg, tr, n - 1).value}, unused);
      }
    }
  }

  lemma ResolvedAddrFits(cfg: Config, tr: seq<Step>, i: nat)
    requires i < |tr| && NothingRefused(cfg, tr, i + 1) && Resolved(cfg, tr, i).Some?
    requires Within(UnusedAddrs(cfg, tr, i), cfg.limit)
    ensures Within(UnusedAddrs(cfg, tr, i) + {Resolved(cfg, tr, i).value.0}, cfg.limit)
  {
    JoinsMatchHistory(cfg, tr, i);
    HostnameKeysAreUnused(cfg, tr, i);
    assert !NameRefused(cfg, StateAt(cfg, tr, i), tr[i]);
    AcceptedStaysWithin(StateAt(cfg, tr, i).hostnames, cfg.limit, Resolved(cfg, tr, i).value.0);
  }

  /** Lookup records are refused exactly when more threads are inside a lookup than the map can hold. */
  lemma LookupCapacity(cfg: Config, tr: seq<Step>, n: nat)
    requires n <= |tr|
    ensures NoLookupRefused(cfg, tr, n)
       <==> forall m :: 0 <= m <= n ==> Within(OpenLookups(cfg, tr, m), cfg.limit)
  {
    if NoLookupRefused(cfg, tr, n) {
      forall m | 0 <= m <= n ensures Within(OpenLookups(cfg, tr, m), cfg.limit) {
        OpenLookupsFit(cfg, tr, m);
      }
    } else {
      var i :| 0 <= i < n && LookupRefused(cfg, StateAt(cfg, tr, i), tr[i]);
      var st, t := StateAt(cfg, tr, i), Tid(cfg, tr[i]);
      OpenSetsAreScans(cfg, tr, i);
      forall u | u in st.lookups { LookupRecordsAreOpen(cfg, tr, i, u); }
      assert LookupProbe(cfg, tr[i], t);
      RefusalOverflows(st.lookups, cfg.limit, t, OpenLookups(cfg, tr, i + 1));
      assert !Within(OpenLookups(cfg, tr, i + 1), cfg.limit);
    }
  }

  lemma SocketCapacity(cfg: Config, tr: seq<Step>, n: nat)
    requires n <= |tr|
    ensures NoSocketRefused(cfg, tr, n)
       <==> forall m :: 0 <= m <= n ==> Within(OpenSockets(cfg, tr, m), cfg.limit)
  {
    if NoSocketRefused(cfg, tr, n) {
      forall m | 0 <= m <= n ensures Within(OpenSockets(cfg, tr, m), cfg.limit) {
        OpenSocketsFit(cfg, tr, m);
      }
    } else {
      var i :| 0 <= i < n && SocketRefused(cfg, StateAt(cfg, tr, i), tr[i]);
      var st, t := StateAt(cfg, tr, i), Tid(cfg, tr[i]);
      OpenSetsAreScans(cfg, tr, i);
      forall u | u in st.sockets { SocketRecordsAreOpen(cfg, tr, i, u); }
      assert ConnectProbe(cfg, tr[i], t);
      RefusalOverflows(st.sockets, cfg.limit, t, OpenSockets(cfg, tr, i + 1));
      assert !Within(OpenSockets(cfg, tr, i + 1), cfg.limit);
    }
  }

  /** A run refuses nothing if and only if its history never needs more than the limit of any map. */
  lemma {:induction false} Capacity(cfg: Config, tr: seq<Step>, n: nat)
    requires n <= |tr|
    ensures NothingRefused(cfg, tr, n)
       <==> forall m :: 0 <= m <= n ==> && Within(OpenLookups(cfg, tr, m), cfg.limit)
                                        && Within(OpenSockets(cfg, tr, m), cfg.limit)
                                        && Within(UnusedAddrs(cfg, tr, m), cfg.limit)
  {
    LookupCapacity(cfg, tr, n);
    SocketCapacity(cfg, tr, n);
    if NothingRefused(cfg, tr, n) {
      forall m | 0 <= m <= n ensures Within(UnusedAddrs(cfg, tr, m), cfg.limit) {
        UnusedAddrsFit(cfg, tr, m);
      }
    } else if NoLookupRefused(cfg, tr, n) && NoSocketRefused(cfg, tr, n) {
      NameOverflow(cfg, tr, n);
    }
  }

  /** The first refused name overflows the set of unused addresses. */
  lemma {:induction false} NameOverflow(cfg: Config, tr: seq<Step>, n: nat)
    requires n <= |tr|
    requires NoLookupRefused(cfg, tr, n) && NoSocketRefused(cfg, tr, n) && !NoNameRefused(cfg, tr, n)
    ensures exists m :: 0 <= m <= n && !Within(UnusedAddrs(cfg, tr, m), cfg.limit)
  {
    if NoNameRefused(cfg, tr, n - 1) {
      FirstNameOverflow(cfg, tr, n - 1);
    } else {
      NameOverflow(cfg, tr, n - 1);
    }
  }

  lemma FirstNameOverflow(cfg: Config, tr: seq<Step>, i: nat)
    requires i < |tr| && NothingRefused(cfg, tr, i) && NameRefused(cfg, StateAt(cfg, tr, i), tr[i])
    ensures !Within(UnusedAddrs(cfg, tr, i + 1), cfg.limit)
  {
    var hostnames := StateAt(cfg, tr, i).hostnames;
    JoinsMatchHistory(cfg, tr, i);
    HostnameKeysAreUnused(cfg, tr, i);
    RefusalOverflows(hostnames, cfg.limit, Resolved(cfg, tr, i).value.0, UnusedAddrs(cfg, tr, i + 1));
  }

  /** As loaded, with 10240 entries to a map: as long as the history never has more threads inside a lookup
      or a connect, nor more addresses with an unused name, the events are exactly the prescribed ones. */
  lemma EventsMatchWithinCapacity(cfg: Config, tr: seq<Step>, n: nat)
    requires n <= |tr| && cfg.limit == Some(MAX_ENTRIES)
    requires forall m :: 0 <= m <= n ==> && |OpenLookups(cfg, tr, m)| <= MAX_ENTRIES
                                         && |OpenSockets(cfg, tr, m)| <= MAX_ENTRIES
                                         && |UnusedAddrs(cfg, tr, m)| <= MAX_ENTRIES
    ensures StateAt(cfg, tr, n).events == HistoryEvents(cfg, tr, n)
  {
    Capacity(cfg, tr, n);
    EventsMatchHistory(cfg, tr, n);
  }

  // ---------- provenance: what every event rests on, refusals or not ----------

  /** Steps `i` and `j` are a lookup of one thread that took `name` in and found `a`. */
  ghost predicate Learned(cfg: Config, tr: seq<Step>, i: nat, j: nat, a: Addr, name: Name)
    requires j < |tr|
  {
    && tr[j].LookupExit? && tr[j].ret == 0
    && ByThread(cfg, tr[j], tr[j].id.lower) && OpenedAt(cfg, tr, j, tr[j].id.lower, i)
    && tr[j].sinAddr(tr[i].res) == a
    && tr[i].name == name
  }

  /** Steps `h` and `k` are a successful connection of one thread to `a`. */
  ghost predicate Reached(cfg: Config, tr: seq<Step>, h: nat, k: nat, a: Addr)
    requires k < |tr|
  {
    && tr[k].ConnectExit? && tr[k].ret == 0
    && ByThread(cfg, tr[k], tr[k].id.lower) && SocketAt(cfg, tr, k, tr[k].id.lower, h)
    && tr[k].daddr(tr[h].sk) == a
  }

  /** The addresses reached by the connections of the first `n` steps that report, one for each event. */
  function Peers(cfg: Config, tr: seq<Step>, n: nat): (addrs: seq<Addr>)
    requires n <= |tr|
    ensures |addrs| == |StateAt(cfg, tr, n).events|
  {
    if n == 0 then []
    else
      var reached := Reaches(cfg, StateAt(cfg, tr, n - 1).sockets, tr[n - 1]);
      if reached.Some? then Peers(cfg, tr, n - 1) + [reached.value] else Peers(cfg, tr, n - 1)
  }

  /** Event number `p` of the stream is the one that step `k` put there. */
  ghost predicate ReportedAt(cfg: Config, tr: seq<Step>, k: nat, p: nat, e: Event)
    requires k < |tr|
  {
    StateAt(cfg, tr, k + 1).events == StateAt(cfg, tr, k).events + [e] && |StateAt(cfg, tr, k).events| == p
  }

  /** What step `k` may report about `a`: a name learned for `a` before, or the bare address when the map
      holds none. */
  ghost predicate Justified(cfg: Config, tr: seq<Step>, k: nat, a: Addr, e: Event)
    requires k < |tr|
  {
    if a in StateAt(cfg, tr, k).hostnames then
      && e == Event(TAG_HOSTNAME, NO_IP, e.hostname)
      && exists i: nat, j: nat :: j < k && Learned(cfg, tr, i, j, a, e.hostname)
    else
      e == Event(TAG_IP, a, NO_NAME)
  }

  lemma {:induction false} NamesAreLearned(cfg: Config, tr: seq<Step>, n: nat, a: Addr)
    requires n <= |tr|
    requires a in StateAt(cfg, tr, n).hostnames
    ensures exists i: nat, j: nat :: j < n && Learned(cfg, tr, i, j, a, StateAt(cfg, tr, n).hostnames[a].c)
  {
    var before, s := StateAt(cfg, tr, n - 1), tr[n - 1];
    var l := StateAt(cfg, tr, n).hostnames[a];
    StepOnName(cfg, before, s, a);
    if a in before.hostnames && before.hostnames[a] == l {
      NamesAreLearned(cfg, tr, n - 1, a);
      var i: nat, j: nat :| j < n - 1 && Learned(cfg, tr, i, j, a, l.c);
      assert j < n && Learned(cfg, tr, i, j, a, l.c);
    } else {
      var t := Tid(cfg, s);
      LookupRecordsAreOpen(cfg, tr, n - 1, t);
      PendingLookupIsLastEntry(cfg, tr, n - 1, t, l);
      var i: nat :| OpenedAt(cfg, tr, n - 1, t, i) && l == Lookup(tr[i].name, tr[i].res);
      assert n - 1 < n && Learned(cfg, tr, i, n - 1, a, l.c);
    }
  }

  /** Event number `p` has one step that reported it, and that step reached the address `Peers` gives. */
  lemma {:induction false} ReporterOf(cfg: Config, tr: seq<Step>, n: nat, p: nat) returns (k: nat)
    requires n <= |tr| && p < |StateAt(cfg, tr, n).events|
    ensures k < n && ReportedAt(cfg, tr, k, p, StateAt(cfg, tr, n).events[p])
    ensures Reaches(cfg, StateAt(cfg, tr, k).sockets, tr[k]) == Some(Peers(cfg, tr, n)[p])
  {
    StepOnEvents(cfg, StateAt(cfg, tr, n - 1), tr[n - 1]);
    if p < |StateAt(cfg, tr, n - 1).events| {
      k := ReporterOf(cfg, tr, n - 1, p);
    } else {
      k := n - 1;
    }
  }

  lemma ReporterReached(cfg: Config, tr: seq<Step>, k: nat, a: Addr) returns (h: nat)
    requires k < |tr| && Reaches(cfg, StateAt(cfg, tr, k).sockets, tr[k]) == Some(a)
    ensures Reached(cfg, tr, h, k, a)
  {
    var t := Tid(cfg, tr[k]);
    var sk := StateAt(cfg, tr, k).sockets[t];
    SocketRecordsAreOpen(cfg, tr, k, t);
    PendingSocketIsLastEntry(cfg, tr, k, t, sk);
    h :| SocketAt(cfg, tr, k, t, h) && sk == tr[h].sk;
  }

  /** Under any pattern of refused updates, every event of the stream was put there by the step that completes
      a connection to its address; a name it carries was captured at the entry of a lookup whose own
      successful return, earlier still, found that very address; a bare address is that address. */
  lemma EveryEventIsJustified(cfg: Config, tr: seq<Step>, n: nat, p: nat)
    requires n <= |tr| && p < |StateAt(cfg, tr, n).events|
    ensures exists k: nat, h: nat ::
              && k < n && ReportedAt(cfg, tr, k, p, StateAt(cfg, tr, n).events[p])
              && Reached(cfg, tr, h, k, Peers(cfg, tr, n)[p])
              && Justified(cfg, tr, k, Peers(cfg, tr, n)[p], StateAt(cfg, tr, n).events[p])
  {
    var k := ReporterOf(cfg, tr, n, p);
    var a, e := Peers(cfg, tr, n)[p], StateAt(cfg, tr, n).events[p];
    var h := ReporterReached(cfg, tr, k, a);
    ReportIsJustified(cfg, tr, k, p, a, e);
    assert ReportedAt(cfg, tr, k, p, e) && Reached(cfg, tr, h, k, a);
  }

  lemma ReportIsJustified(cfg: Config, tr: seq<Step>, k: nat, p: nat, a: Addr, e: Event)
    requires k < |tr| && Reaches(cfg, StateAt(cfg, tr, k).sockets, tr[k]) == Some(a)
    requires ReportedAt(cfg, tr, k, p, e)
    ensures Justified(cfg, tr, k, a, e)
  {
    StepOnEvents(cfg, StateAt(cfg, tr, k), tr[k]);
    assert e == StateAt(cfg, tr, k + 1).events[p] == Report(a, Get(StateAt(cfg, tr, k).hostnames, a));
    if a in StateAt(cfg, tr, k).hostnames {
      NamesAreLearned(cfg, tr, k, a);
    }
  }

  // ---------- conservation: a stored name is used at most once ----------

  /** Step `s` puts a name for `a` into the map. */
  predicate StoresName(cfg: Config, st: State, s: Step, a: Addr) {
    Learns(cfg, st.lookups, s).Some? && Learns(cfg, st.lookups, s).value.0 == a && !NameRefused(cfg, st, s)
  }

  /** Step `s` reports a connection to `a` by name. */
  predicate UsesName(cfg: Config, st: State, s: Step, a: Addr) {
    Reaches(cfg, st.sockets, s) == Some(a) && a in st.hostnames
  }

  function Stores(cfg: Config, tr: seq<Step>, n: nat, a: Addr): nat
    requires n <= |tr|
  {
    if n == 0 then 0
    else Stores(cfg, tr, n - 1, a) + Ones(StoresName(cfg, StateAt(cfg, tr, n - 1), tr[n - 1], a))
  }

  function Overwrites(cfg: Config, tr: seq<Step>, n: nat, a: Addr): nat
    requires n <= |tr|
  {
    if n == 0 then 0
    else
      var st := StateAt(cfg, tr, n - 1);
      Overwrites(cfg, tr, n - 1, a) + Ones(StoresName(cfg, st, tr[n - 1], a) && a in st.hostnames)
  }

  function Uses(cfg: Config, tr: seq<Step>, n: nat, a: Addr): nat
    requires n <= |tr|
  {
    if n == 0 then 0
    else Uses(cfg, tr, n - 1, a) + Ones(UsesName(cfg, StateAt(cfg, tr, n - 1), tr[n - 1], a))
  }

  /** How many of `events` are names, among those whose connection reached `a`. */
  function NameEvents(events: seq<Event>, peers: seq<Addr>, a: Addr): nat
    requires |events| == |peers|
  {
    if events == [] then 0
    else
      var last := |events| - 1;
      NameEvents(events[..last], peers[..last], a) + Ones(events[last].tag == TAG_HOSTNAME && peers[last] == a)
  }

  /** Each stored name of an address is reported once, overwritten, or still waiting. */
  lemma {:induction false} NamesAreConserved(cfg: Config, tr: seq<Step>, n: nat, a: Addr)
    requires n <= |tr|
    ensures Stores(cfg, tr, n, a)
         == Uses(cfg, tr, n, a) + Overwrites(cfg, tr, n, a) + Ones(a in StateAt(cfg, tr, n).hostnames)
  {
    if n > 0 {
      NamesAreConserved(cfg, tr, n - 1, a);
      StepOnName(cfg, StateAt(cfg, tr, n - 1), tr[n - 1], a);
    }
  }

  lemma OneMoreEvent(events: seq<Event>, peers: seq<Addr>, a: Addr, e: Event, b: Addr)
    requires |events| == |peers|
    ensures NameEvents(events + [e], peers + [b], a)
         == NameEvents(events, peers, a) + Ones(e.tag == TAG_HOSTNAME && b == a)
  {
    assert (events + [e])[..|events|] == events && (peers + [b])[..|peers|] == peers;
  }

  /** The uses that conservation counts for an address are the HOSTNAME events of the stream whose own
      reporting step reached that address. */
  lemma {:induction false} UsesAreNameEvents(cfg: Config, tr: seq<Step>, n: nat, a: Addr)
    requires n <= |tr|
    ensures Uses(cfg, tr, n, a) == NameEvents(StateAt(cfg, tr, n).events, Peers(cfg, tr, n), a)
  {
    if n > 0 {
      var before, s := StateAt(cfg, tr, n - 1), tr[n - 1];
      UsesAreNameEvents(cfg, tr, n - 1, a);
      StepOnEvents(cfg, before, s);
      var reached := Reaches(cfg, before.sockets, s);
      if reached.Some? {
        var b := reached.value;
        OneMoreEvent(before.events, Peers(cfg, tr, n - 1), a, Report(b, Get(before.hostnames, b)), b);
      }
    }
  }

  // ---------- the process filter ----------

  function Keep(tr: seq<Step>, n: nat, keep: Step -> bool): seq<Step>
    requires n <= |tr|
  {
    if n == 0 then []
    else if keep(tr[n - 1]) then Keep(tr, n - 1, keep) + [tr[n - 1]]
    else Keep(tr, n - 1, keep)
  }

  lemma {:induction false} StateIgnoresFuture(cfg: Config, a: seq<Step>, s: Step, n: nat)
    requires n <= |a|
    ensures StateAt(cfg, a + [s], n) == StateAt(cfg, a, n)
  {
    if n > 0 {
      StateIgnoresFuture(cfg, a, s, n - 1);
    }
  }

  lemma SameThreadSameEffect(cfg: Config, cfg': Config, st: State, s: Step)
    requires cfg.limit == cfg'.limit && Tid(cfg, s) == Tid(cfg', s)
    ensures Next(cfg', st, s) == Next(cfg, st, s)
  {
  }

  /** Dropping steps that a configuration ignores, and reading the rest under one that agrees with it
      on them, changes nothing. */
  lemma {:induction false} ErasureIsInvisible(cfg: Config, cfg': Config, tr: seq<Step>, n: nat, keep: Step -> bool)
    requires n <= |tr| && cfg.limit == cfg'.limit
    requires forall i :: 0 <= i < n && !keep(tr[i]) ==> Tid(cfg, tr[i]) == 0
    requires forall i :: 0 <= i < n && keep(tr[i]) ==> Tid(cfg', tr[i]) == Tid(cfg, tr[i])
    ensures var kept := Keep(tr, n, keep); StateAt(cfg', kept, |kept|) == StateAt(cfg, tr, n)
  {
    if n > 0 {
      ErasureIsInvisible(cfg, cfg', tr, n - 1, keep);
      var kept, s := Keep(tr, n - 1, keep), tr[n - 1];
      if keep(s) {
        StateIgnoresFuture(cfg', kept, s, |kept|);
        SameThreadSameEffect(cfg, cfg', StateAt(cfg, tr, n - 1), s);
      } else {
        assert Next(cfg, StateAt(cfg, tr, n - 1), s) == StateAt(cfg, tr, n - 1);
      }
    }
  }

  /** A run filtered to one process ends like the unfiltered run over that process's own steps. */
  lemma OtherProcessesAreInvisible(cfg: Config, tr: seq<Step>)
    requires cfg.targetPid != 0
    ensures var own := Keep(tr, |tr|, (s: Step) => AsPid(s.id.upper) == cfg.targetPid);
            && StateAt(cfg, tr, |tr|) == StateAt(cfg, own, |own|)
            && StateAt(cfg, tr, |tr|) == StateAt(cfg.(targetPid := 0), own, |own|)
  {
    var mine := (s: Step) => AsPid(s.id.upper) == cfg.targetPid;
    ErasureIsInvisible(cfg, cfg, tr, |tr|, mine);
    ErasureIsInvisible(cfg, cfg.(targetPid := 0), tr, |tr|, mine);
  }

  /** Steps of thread identifier 0 never matter, whatever the filter. */
  lemma ThreadZeroIsInvisible(cfg: Config, tr: seq<Step>)
    ensures var rest := Keep(tr, |tr|, (s: Step) => s.id.lower != 0);
            StateAt(cfg, tr, |tr|) == StateAt(cfg, rest, |rest|)
  {
    ErasureIsInvisible(cfg, cfg, tr, |tr|, (s: Step) => s.id.lower != 0);
  }
}
