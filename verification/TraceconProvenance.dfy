/** Where the names and addresses of the event stream come from, in every interleaving of the `tracecon`
    handlers and under any pattern of refused map updates. */
module TraceconProvenance {
  import opened Kernel
  import opened Tracecon
  import opened TraceconInterleaved
  import H = TraceconHistory

  // ---------- what happens at a move ----------

  /** Move `i` is a probe of thread `t` that fires: the thread is not inside another handler. */
  predicate Fires(cfg: Config, ms: seq<Move>, i: nat, t: u32)
    requires i < |ms|
  {
    ms[i].Begin? && H.ByThread(cfg, ms[i].s, t) && ThreadAt(SystemAt(cfg, ms, i), t).local == Idle
  }

  predicate LookupProbe(cfg: Config, ms: seq<Move>, i: nat, t: u32)
    requires i < |ms|
  {
    Fires(cfg, ms, i, t) && (ms[i].s.LookupEnter? || ms[i].s.LookupExit?)
  }

  predicate ConnectProbe(cfg: Config, ms: seq<Move>, i: nat, t: u32)
    requires i < |ms|
  {
    Fires(cfg, ms, i, t) && (ms[i].s.ConnectEnter? || ms[i].s.ConnectExit?)
  }

  /** Move `i` goes on inside a handler. */
  predicate GoesOn(ms: seq<Move>, i: nat)
    requires i < |ms|
  {
    ms[i].Continue? && ms[i].t != 0
  }

  /** Where the thread of move `i` stands before it. */
  function Place(cfg: Config, ms: seq<Move>, i: nat): Local
    requires i < |ms|
  {
    ThreadAt(SystemAt(cfg, ms, i), Mover(cfg, ms[i])).local
  }

  /** Move `i` puts a name of `a` into the map. */
  predicate Stored(cfg: Config, ms: seq<Move>, i: nat, a: Addr)
    requires i < |ms|
  {
    && GoesOn(ms, i) && Place(cfg, ms, i).StoreName? && Place(cfg, ms, i).addr == a
    && !Refused(SystemAt(cfg, ms, i).shared.hostnames, cfg.limit, a)
  }

  /** The name that it puts there is `l`. */
  predicate StoredAs(cfg: Config, ms: seq<Move>, i: nat, a: Addr, l: Lookup)
    requires i < |ms|
  {
    Stored(cfg, ms, i, a) && Place(cfg, ms, i).l == l
  }

  /** Move `i` deletes the name of `a`. */
  predicate Deleted(cfg: Config, ms: seq<Move>, i: nat, a: Addr)
    requires i < |ms|
  {
    && GoesOn(ms, i) && Place(cfg, ms, i).DropName?
    && Place(cfg, ms, i).ip == a && Place(cfg, ms, i).found.Some?
  }

  // ---------- which entry an exit belongs to ----------

  /** Move `i` is the entry of a lookup of `t` that is still open: its last lookup probe to fire. */
  ghost predicate OpenedAt(cfg: Config, ms: seq<Move>, n: nat, t: u32, i: nat)
    requires n <= |ms|
  {
    && i < n && LookupProbe(cfg, ms, i, t) && ms[i].s.LookupEnter?
    && forall k: nat {:trigger LookupProbe(cfg, ms, k, t)} :: i < k < n ==> !LookupProbe(cfg, ms, k, t)
  }

  /** Move `h` is the entry of a connect of `t` that is still open: its last connect probe to fire. */
  ghost predicate SocketAt(cfg: Config, ms: seq<Move>, n: nat, t: u32, h: nat)
    requires n <= |ms|
  {
    && h < n && ConnectProbe(cfg, ms, h, t) && ms[h].s.ConnectEnter?
    && forall k: nat {:trigger ConnectProbe(cfg, ms, k, t)} :: h < k < n ==> !ConnectProbe(cfg, ms, k, t)
  }

  /** Move `j` is the last probe of `t` to fire, so its handler is the one `t` is inside of. */
  ghost predicate HandlerAt(cfg: Config, ms: seq<Move>, n: nat, t: u32, j: nat)
    requires n <= |ms|
  {
    && j < n && Fires(cfg, ms, j, t)
    && forall k: nat {:trigger Fires(cfg, ms, k, t)} :: j < k < n ==> !Fires(cfg, ms, k, t)
  }

  /** Moves `i` and `j` enter and successfully leave one lookup of `t`, which found `a` for the record `l`. */
  ghost predicate Learned(cfg: Config, ms: seq<Move>, i: nat, j: nat, t: u32, a: Addr, l: Lookup)
    requires j < |ms|
  {
    && Fires(cfg, ms, j, t) && ms[j].s.LookupExit? && ms[j].s.ret == 0
    && OpenedAt(cfg, ms, j, t, i)
    && l == Lookup(ms[i].s.name, ms[i].s.res) && ms[j].s.sinAddr(l.results) == a
  }

  /** Moves `h` and `k` enter and successfully leave one connect of `t`, which reached `a`. */
  ghost predicate Reached(cfg: Config, ms: seq<Move>, h: nat, k: nat, t: u32, a: Addr)
    requires k < |ms|
  {
    && Fires(cfg, ms, k, t) && ms[k].s.ConnectExit? && ms[k].s.ret == 0
    && SocketAt(cfg, ms, k, t, h)
    && ms[k].s.daddr(ms[h].s.sk) == a
  }

  // ---------- what a thread stands on ----------

  ghost predicate LookupSound(cfg: Config, ms: seq<Move>, n: nat, t: u32, l: Lookup)
    requires n <= |ms|
  {
    exists i: nat :: OpenedAt(cfg, ms, n, t, i) && l == Lookup(ms[i].s.name, ms[i].s.res)
  }

  ghost predicate SocketSound(cfg: Config, ms: seq<Move>, n: nat, t: u32, sk: Sock)
    requires n <= |ms|
  {
    exists h: nat :: SocketAt(cfg, ms, n, t, h) && sk == ms[h].s.sk
  }

  /** The handler of `t` is the exit of a lookup that found `a` for `l`. */
  ghost predicate Learning(cfg: Config, ms: seq<Move>, n: nat, t: u32, a: Addr, l: Lookup)
    requires n <= |ms|
  {
    exists i: nat, j: nat :: HandlerAt(cfg, ms, n, t, j) && Learned(cfg, ms, i, j, t, a, l)
  }

  /** The handler of `t` is the exit of a connect that reached `a`. */
  ghost predicate Reaching(cfg: Config, ms: seq<Move>, n: nat, t: u32, a: Addr)
    requires n <= |ms|
  {
    exists h: nat, k: nat :: HandlerAt(cfg, ms, n, t, k) && Reached(cfg, ms, h, k, t, a)
  }

  /** Move `f` is the search for a name of `a` in the handler that begins with probe `k` of `t`. */
  ghost predicate SearchedAt(cfg: Config, ms: seq<Move>, f: nat, k: nat, t: u32, a: Addr)
    requires f < |ms|
  {
    k < f && HandlerAt(cfg, ms, f, t, k) && ms[f] == Continue(t) && Place(cfg, ms, f) == FindName(a)
  }

  /** The handler of `t` is the exit of a connect that reached `a`, and its search gave `found`. */
  ghost predicate Searched(cfg: Config, ms: seq<Move>, n: nat, t: u32, a: Addr, found: Option<Lookup>)
    requires n <= |ms|
  {
    exists h: nat, k: nat, f: nat :: f < n && HandlerAt(cfg, ms, n, t, k) && Reached(cfg, ms, h, k, t, a)
      && SearchedAt(cfg, ms, f, k, t, a) && found == Get(SystemAt(cfg, ms, f).shared.hostnames, a)
  }

  predicate InLookupExit(local: Local) { local.StoreName? || local.DropLookup? }

  predicate InConnectExit(local: Local) { local.FindName? || local.DropName? || local.Emit? || local.DropSocket? }

  ghost predicate LocalSound(cfg: Config, ms: seq<Move>, n: nat, t: u32, local: Local)
    requires n <= |ms|
  {
    match local
    case StoreName(a, l) => Learning(cfg, ms, n, t, a, l)
    case FindName(ip) => Reaching(cfg, ms, n, t, ip)
    case DropName(ip, found) => Searched(cfg, ms, n, t, ip, found)
    case Emit(ip, found) => Searched(cfg, ms, n, t, ip, found)
    case _ => true
  }

  /** What `t` has recorded belongs to its open lookup and connect, and what it carries to its handler. */
  ghost predicate ThreadSound(cfg: Config, ms: seq<Move>, n: nat, t: u32, sys: System)
    requires n <= |ms|
  {
    var local := ThreadAt(sys, t).local;
    && (t in sys.shared.lookups && !InLookupExit(local) ==> LookupSound(cfg, ms, n, t, sys.shared.lookups[t]))
    && (t in sys.shared.sockets && !InConnectExit(local) ==> SocketSound(cfg, ms, n, t, sys.shared.sockets[t]))
    && LocalSound(cfg, ms, n, t, local)
  }

  // ---------- every move keeps it ----------

  lemma LookupSoundLater(cfg: Config, ms: seq<Move>, n: nat, t: u32, l: Lookup)
    requires n < |ms| && LookupSound(cfg, ms, n, t, l) && !LookupProbe(cfg, ms, n, t)
    ensures LookupSound(cfg, ms, n + 1, t, l)
  {
    var i: nat :| OpenedAt(cfg, ms, n, t, i) && l == Lookup(ms[i].s.name, ms[i].s.res);
    assert OpenedAt(cfg, ms, n + 1, t, i);
  }

  lemma SocketSoundLater(cfg: Config, ms: seq<Move>, n: nat, t: u32, sk: Sock)
    requires n < |ms| && SocketSound(cfg, ms, n, t, sk) && !ConnectProbe(cfg, ms, n, t)
    ensures SocketSound(cfg, ms, n + 1, t, sk)
  {
    var h: nat :| SocketAt(cfg, ms, n, t, h) && sk == ms[h].s.sk;
    assert SocketAt(cfg, ms, n + 1, t, h);
  }

  lemma HandlerLater(cfg: Config, ms: seq<Move>, n: nat, t: u32, j: nat)
    requires n < |ms| && HandlerAt(cfg, ms, n, t, j) && !Fires(cfg, ms, n, t)
    ensures HandlerAt(cfg, ms, n + 1, t, j)
  {
  }

  lemma LocalSoundLater(cfg: Config, ms: seq<Move>, n: nat, t: u32, local: Local)
    requires n < |ms| && LocalSound(cfg, ms, n, t, local) && !Fires(cfg, ms, n, t)
    ensures LocalSound(cfg, ms, n + 1, t, local)
  {
    match local
    case StoreName(a, l) =>
      var i: nat, j: nat :| HandlerAt(cfg, ms, n, t, j) && Learned(cfg, ms, i, j, t, a, l);
      HandlerLater(cfg, ms, n, t, j);
    case FindName(ip) =>
      var h: nat, k: nat :| HandlerAt(cfg, ms, n, t, k) && Reached(cfg, ms, h, k, t, ip);
      HandlerLater(cfg, ms, n, t, k);
    case DropName(ip, found) => SearchedLater(cfg, ms, n, t, ip, found);
    case Emit(ip, found) => SearchedLater(cfg, ms, n, t, ip, found);
    case _ =>
  }

  lemma SearchedLater(cfg: Config, ms: seq<Move>, n: nat, t: u32, ip: Addr, found: Option<Lookup>)
    requires n < |ms| && Searched(cfg, ms, n, t, ip, found) && !Fires(cfg, ms, n, t)
    ensures Searched(cfg, ms, n + 1, t, ip, found)
  {
    var h: nat, k: nat, f: nat :| f < n && HandlerAt(cfg, ms, n, t, k) && Reached(cfg, ms, h, k, t, ip)
      && SearchedAt(cfg, ms, f, k, t, ip) && found == Get(SystemAt(cfg, ms, f).shared.hostnames, ip);
    HandlerLater(cfg, ms, n, t, k);
    assert f < n + 1 && SearchedAt(cfg, ms, f, k, t, ip);
  }

  lemma RecordsSoundLater(cfg: Config, ms: seq<Move>, n: nat, t: u32, sys: System)
    requires n < |ms| && ThreadSound(cfg, ms, n, t, sys) && !Fires(cfg, ms, n, t)
    ensures ThreadSound(cfg, ms, n + 1, t, sys)
  {
    var local := ThreadAt(sys, t).local;
    LocalSoundLater(cfg, ms, n, t, local);
    if t in sys.shared.lookups && !InLookupExit(local) {
      LookupSoundLater(cfg, ms, n, t, sys.shared.lookups[t]);
    }
    if t in sys.shared.sockets && !InConnectExit(local) {
      SocketSoundLater(cfg, ms, n, t, sys.shared.sockets[t]);
    }
  }

  lemma SameOwnSameSoundness(cfg: Config, ms: seq<Move>, n: nat, t: u32, sys: System, after: System)
    requires n <= |ms| && ThreadSound(cfg, ms, n, t, sys) && ThreadAt(after, t) == ThreadAt(sys, t)
    requires Get(after.shared.lookups, t) == Get(sys.shared.lookups, t)
    requires Get(after.shared.sockets, t) == Get(sys.shared.sockets, t)
    ensures ThreadSound(cfg, ms, n, t, after)
  {
  }

  lemma FiredLookupIsSound(cfg: Config, ms: seq<Move>, n: nat, t: u32, sys: System, after: System)
    requires n < |ms| && sys == SystemAt(cfg, ms, n) && after == Advance(cfg, sys, ms[n])
    requires ThreadSound(cfg, ms, n, t, sys) && LookupProbe(cfg, ms, n, t)
    ensures ThreadSound(cfg, ms, n + 1, t, after)
  {
    var s := ms[n].s;
    if t in sys.shared.sockets {
      SocketSoundLater(cfg, ms, n, t, sys.shared.sockets[t]);
    }
    if s.LookupEnter? {
      assert OpenedAt(cfg, ms, n + 1, t, n);
    } else if s.ret == 0 && t in sys.shared.lookups {
      var l := sys.shared.lookups[t];
      var i: nat :| OpenedAt(cfg, ms, n, t, i) && l == Lookup(ms[i].s.name, ms[i].s.res);
      assert HandlerAt(cfg, ms, n + 1, t, n) && Learned(cfg, ms, i, n, t, s.sinAddr(l.results), l);
    }
  }

  lemma FiredConnectIsSound(cfg: Config, ms: seq<Move>, n: nat, t: u32, sys: System, after: System)
    requires n < |ms| && sys == SystemAt(cfg, ms, n) && after == Advance(cfg, sys, ms[n])
    requires ThreadSound(cfg, ms, n, t, sys) && ConnectProbe(cfg, ms, n, t)
    ensures ThreadSound(cfg, ms, n + 1, t, after)
  {
    var s := ms[n].s;
    if t in sys.shared.lookups {
      LookupSoundLater(cfg, ms, n, t, sys.shared.lookups[t]);
    }
    if s.ConnectEnter? {
      assert SocketAt(cfg, ms, n + 1, t, n);
    } else if s.ret == 0 && t in sys.shared.sockets {
      var sk := sys.shared.sockets[t];
      var h: nat :| SocketAt(cfg, ms, n, t, h) && sk == ms[h].s.sk;
      assert HandlerAt(cfg, ms, n + 1, t, n) && Reached(cfg, ms, h, n, t, s.daddr(sk));
    }
  }

  lemma ContinueIsSound(cfg: Config, ms: seq<Move>, n: nat, t: u32, sys: System, after: System)
    requires n < |ms| && sys == SystemAt(cfg, ms, n) && after == Advance(cfg, sys, ms[n])
    requires ThreadSound(cfg, ms, n, t, sys) && ms[n] == Continue(t)
    ensures ThreadSound(cfg, ms, n + 1, t, after)
  {
    var local := ThreadAt(sys, t).local;
    RecordsSoundLater(cfg, ms, n, t, sys);
    if local.FindName? && t != 0 {
      SearchIsSound(cfg, ms, n, t, local.ip);
    }
  }

  lemma SearchIsSound(cfg: Config, ms: seq<Move>, n: nat, t: u32, ip: Addr)
    requires n < |ms| && ms[n] == Continue(t) && Place(cfg, ms, n) == FindName(ip)
    requires Reaching(cfg, ms, n, t, ip)
    ensures Searched(cfg, ms, n + 1, t, ip, Get(SystemAt(cfg, ms, n).shared.hostnames, ip))
  {
    var h: nat, k: nat :| HandlerAt(cfg, ms, n, t, k) && Reached(cfg, ms, h, k, t, ip);
    HandlerLater(cfg, ms, n, t, k);
    assert SearchedAt(cfg, ms, n, k, t, ip);
  }

  lemma MoveIsSound(cfg: Config, ms: seq<Move>, n: nat, t: u32, sys: System, after: System)
    requires n < |ms| && sys == SystemAt(cfg, ms, n) && after == Advance(cfg, sys, ms[n])
    requires ThreadSound(cfg, ms, n, t, sys)
    ensures ThreadSound(cfg, ms, n + 1, t, after)
  {
    if LookupProbe(cfg, ms, n, t) {
      FiredLookupIsSound(cfg, ms, n, t, sys, after);
    } else if ConnectProbe(cfg, ms, n, t) {
      FiredConnectIsSound(cfg, ms, n, t, sys, after);
    } else if ms[n] == Continue(t) {
      ContinueIsSound(cfg, ms, n, t, sys, after);
    } else {
      RecordsSoundLater(cfg, ms, n, t, sys);
      if Mover(cfg, ms[n]) != t {
        OtherMoveKeepsOwn(cfg, sys, ms[n], t);
      }
      SameOwnSameSoundness(cfg, ms, n + 1, t, sys, after);
    }
  }

  lemma {:induction false} ThreadsAreSound(cfg: Config, ms: seq<Move>, n: nat, t: u32)
    requires n <= |ms|
    ensures ThreadSound(cfg, ms, n, t, SystemAt(cfg, ms, n))
  {
    if n > 0 {
      ThreadsAreSound(cfg, ms, n - 1, t);
      MoveIsSound(cfg, ms, n - 1, t, SystemAt(cfg, ms, n - 1), SystemAt(cfg, ms, n));
    }
  }

  // ---------- which store a name in the map comes from ----------

  /** Move `w` is the last store of a name of `a`, and no handler has deleted the name of `a` since. */
  ghost predicate HeldSince(cfg: Config, ms: seq<Move>, n: nat, a: Addr, w: nat)
    requires n <= |ms|
  {
    && w < n && Stored(cfg, ms, w, a)
    && (forall v: nat {:trigger Stored(cfg, ms, v, a)} :: w < v < n ==> !Stored(cfg, ms, v, a))
    && (forall v: nat {:trigger Deleted(cfg, ms, v, a)} :: w < v < n ==> !Deleted(cfg, ms, v, a))
  }

  /** What one move does to the name of `a`. */
  lemma MoveOnName(cfg: Config, ms: seq<Move>, n: nat, a: Addr)
    requires n < |ms|
    ensures Deleted(cfg, ms, n, a) ==> a !in SystemAt(cfg, ms, n + 1).shared.hostnames
    ensures Stored(cfg, ms, n, a) ==>
              Get(SystemAt(cfg, ms, n + 1).shared.hostnames, a) == Some(Place(cfg, ms, n).l)
    ensures !Stored(cfg, ms, n, a) && !Deleted(cfg, ms, n, a) ==>
              Get(SystemAt(cfg, ms, n + 1).shared.hostnames, a) == Get(SystemAt(cfg, ms, n).shared.hostnames, a)
  {
  }

  lemma HeldLater(cfg: Config, ms: seq<Move>, n: nat, a: Addr, w: nat)
    requires n < |ms| && HeldSince(cfg, ms, n, a, w) && !Stored(cfg, ms, n, a) && !Deleted(cfg, ms, n, a)
    ensures HeldSince(cfg, ms, n + 1, a, w)
  {
  }

  /** A name in the map is the one whose store is still held, and a held store is in the map. */
  lemma {:induction false} NameIsHeld(cfg: Config, ms: seq<Move>, n: nat, a: Addr, l: Lookup) returns (w: nat)
    requires n <= |ms| && Get(SystemAt(cfg, ms, n).shared.hostnames, a) == Some(l)
    ensures HeldSince(cfg, ms, n, a, w) && StoredAs(cfg, ms, w, a, l)
  {
    MoveOnName(cfg, ms, n - 1, a);
    if Stored(cfg, ms, n - 1, a) {
      w := n - 1;
    } else {
      w := NameIsHeld(cfg, ms, n - 1, a, l);
      HeldLater(cfg, ms, n - 1, a, w);
    }
  }

  lemma {:induction false} HeldIsInMap(cfg: Config, ms: seq<Move>, n: nat, a: Addr, w: nat, l: Lookup)
    requires n <= |ms| && HeldSince(cfg, ms, n, a, w) && StoredAs(cfg, ms, w, a, l)
    ensures Get(SystemAt(cfg, ms, n).shared.hostnames, a) == Some(l)
  {
    MoveOnName(cfg, ms, n - 1, a);
    if w < n - 1 {
      assert HeldSince(cfg, ms, n - 1, a, w);
      HeldIsInMap(cfg, ms, n - 1, a, w, l);
    }
  }

  // ---------- every event of the stream ----------

  /** Move `q` puts event number `p` into the stream. */
  ghost predicate ReportedAt(cfg: Config, ms: seq<Move>, q: nat, p: nat, e: Event)
    requires q < |ms|
  {
    && SystemAt(cfg, ms, q + 1).shared.events == SystemAt(cfg, ms, q).shared.events + [e]
    && |SystemAt(cfg, ms, q).shared.events| == p
  }

  /** Move `w` stores the record `l` for `a`, in the exit handler `j` of the lookup that opened with `i`. */
  ghost predicate StoredBy(cfg: Config, ms: seq<Move>, i: nat, j: nat, w: nat, a: Addr, l: Lookup)
    requires w < |ms|
  {
    && StoredAs(cfg, ms, w, a, l) && j < w
    && HandlerAt(cfg, ms, w, ms[w].t, j) && Learned(cfg, ms, i, j, ms[w].t, a, l)
  }

  /** What a search at move `f` may make its handler report about `a`: the name whose store is still held
      then, out of the exit of the lookup that learned it; or the bare address, when no store is held. */
  ghost predicate Attributed(cfg: Config, ms: seq<Move>, f: nat, a: Addr, e: Event)
    requires f < |ms|
  {
    if a in SystemAt(cfg, ms, f).shared.hostnames then
      var l := SystemAt(cfg, ms, f).shared.hostnames[a];
      && e == Report(a, Some(l))
      && exists i: nat, j: nat, w: nat :: HeldSince(cfg, ms, f, a, w) && StoredBy(cfg, ms, i, j, w, a, l)
    else
      && e == Report(a, None)
      && forall w: nat :: !HeldSince(cfg, ms, f, a, w)
  }

  /** Event `e` is what move `q` of thread `t` reports: the exit `k` of a connect that opened with `h` and
      reached `a`, after its search at `f`. */
  ghost predicate Explained(cfg: Config, ms: seq<Move>, h: nat, k: nat, f: nat, q: nat, t: u32, a: Addr, e: Event)
    requires q < |ms|
  {
    && h < k < f < q && ms[q] == Continue(t)
    && HandlerAt(cfg, ms, q, t, k) && Reached(cfg, ms, h, k, t, a)
    && SearchedAt(cfg, ms, f, k, t, a) && Attributed(cfg, ms, f, a, e)
  }

  lemma SearchIsAttributed(cfg: Config, ms: seq<Move>, f: nat, a: Addr)
    requires f < |ms|
    ensures Attributed(cfg, ms, f, a, Report(a, Get(SystemAt(cfg, ms, f).shared.hostnames, a)))
  {
    if a in SystemAt(cfg, ms, f).shared.hostnames {
      var l := SystemAt(cfg, ms, f).shared.hostnames[a];
      var w := NameIsHeld(cfg, ms, f, a, l);
      ThreadsAreSound(cfg, ms, w, ms[w].t);
      assert Learning(cfg, ms, w, ms[w].t, a, l);
      var i: nat, j: nat :| HandlerAt(cfg, ms, w, ms[w].t, j) && Learned(cfg, ms, i, j, ms[w].t, a, l);
      assert StoredBy(cfg, ms, i, j, w, a, l);
    } else {
      forall w: nat ensures !HeldSince(cfg, ms, f, a, w) {
        if HeldSince(cfg, ms, f, a, w) {
          HeldIsInMap(cfg, ms, f, a, w, Place(cfg, ms, w).l);
        }
      }
    }
  }

  /** A move that reports is the output of a handler that has searched. */
  lemma OnlyEmitReports(cfg: Config, sys: System, m: Move)
    ensures Advance(cfg, sys, m).shared.events
         == if m.Continue? && m.t != 0 && ThreadAt(sys, m.t).local.Emit?
            then sys.shared.events + [Report(ThreadAt(sys, m.t).local.ip, ThreadAt(sys, m.t).local.found)]
            else sys.shared.events
  {
  }

  /** The addresses that the handlers of the reported events reached, one for each event. */
  function Peers(cfg: Config, ms: seq<Move>, n: nat): (addrs: seq<Addr>)
    requires n <= |ms|
    ensures |addrs| == |SystemAt(cfg, ms, n).shared.events|
  {
    if n == 0 then []
    else
      OnlyEmitReports(cfg, SystemAt(cfg, ms, n - 1), ms[n - 1]);
      if GoesOn(ms, n - 1) && Place(cfg, ms, n - 1).Emit? then Peers(cfg, ms, n - 1) + [Place(cfg, ms, n - 1).ip]
      else Peers(cfg, ms, n - 1)
  }

  lemma {:induction false} ReporterOf(cfg: Config, ms: seq<Move>, n: nat, p: nat) returns (q: nat)
    requires n <= |ms| && p < |SystemAt(cfg, ms, n).shared.events|
    ensures q < n && ReportedAt(cfg, ms, q, p, SystemAt(cfg, ms, n).shared.events[p])
    ensures GoesOn(ms, q) && Place(cfg, ms, q).Emit? && Place(cfg, ms, q).ip == Peers(cfg, ms, n)[p]
  {
    OnlyEmitReports(cfg, SystemAt(cfg, ms, n - 1), ms[n - 1]);
    if p < |SystemAt(cfg, ms, n - 1).shared.events| {
      q := ReporterOf(cfg, ms, n - 1, p);
    } else {
      q := n - 1;
    }
  }

  /** Whatever the interleaving and whatever is refused, every event of the stream is put there by one move,
      in the exit handler of a connect matched with its own entry; a name it carries was still held when that
      handler searched, and was stored by the exit handler of a lookup matched with its own entry, which
      found the very address that the connect reached. */
  lemma EveryInterleavingIsSound(cfg: Config, ms: seq<Move>, n: nat, p: nat)
    requires n <= |ms| && p < |SystemAt(cfg, ms, n).shared.events|
    ensures exists h: nat, k: nat, f: nat, q: nat, t: u32 ::
              && q < n && ReportedAt(cfg, ms, q, p, SystemAt(cfg, ms, n).shared.events[p])
              && Explained(cfg, ms, h, k, f, q, t, Peers(cfg, ms, n)[p], SystemAt(cfg, ms, n).shared.events[p])
  {
    var q := ReporterOf(cfg, ms, n, p);
    var e := SystemAt(cfg, ms, n).shared.events[p];
    var h, k, f := ReportIsExplained(cfg, ms, q, p, e);
    assert ReportedAt(cfg, ms, q, p, e) && Explained(cfg, ms, h, k, f, q, ms[q].t, Peers(cfg, ms, n)[p], e);
  }

  lemma ReportIsExplained(cfg: Config, ms: seq<Move>, q: nat, p: nat, e: Event) returns (h: nat, k: nat, f: nat)
    requires q < |ms| && GoesOn(ms, q) && Place(cfg, ms, q).Emit? && ReportedAt(cfg, ms, q, p, e)
    ensures Explained(cfg, ms, h, k, f, q, ms[q].t, Place(cfg, ms, q).ip, e)
  {
    OnlyEmitReports(cfg, SystemAt(cfg, ms, q), ms[q]);
    assert SystemAt(cfg, ms, q + 1).shared.events[p] == e;
    var t, a, found := ms[q].t, Place(cfg, ms, q).ip, Place(cfg, ms, q).found;
    ThreadsAreSound(cfg, ms, q, t);
    assert Searched(cfg, ms, q, t, a, found);
    h, k, f :| f < q && HandlerAt(cfg, ms, q, t, k) && Reached(cfg, ms, h, k, t, a)
      && SearchedAt(cfg, ms, f, k, t, a) && found == Get(SystemAt(cfg, ms, f).shared.hostnames, a);
    SearchIsAttributed(cfg, ms, f, a);
  }
}
