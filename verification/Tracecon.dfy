/** The four probe handlers of `tracecon` and the three hash maps they share. */
module Tracecon {
  import opened Kernel

  const HOSTNAME_LEN := 84
  const MAX_ENTRIES: nat := 10240

  type Ptr = nat
  type Sock = nat
  type Name = s: seq<byte> | |s| == HOSTNAME_LEN witness Zeros(HOSTNAME_LEN)
  type Addr = s: seq<byte> | |s| == 4 witness Zeros(4)

  const NO_NAME: Name := Zeros(HOSTNAME_LEN)
  const NO_IP: Addr := Zeros(4)

  datatype Lookup = Lookup(c: Name, results: Ptr)

  const TAG_IP: byte := 0
  const TAG_HOSTNAME: byte := 1

  datatype Event = Event(tag: byte, ip: Addr, hostname: Name)

  datatype Config = Config(targetPid: int, limit: Option<nat>)

  /** One probe firing. `id` identifies process and thread. Memory that a handler reaches is part of the
      step: `name` is the buffer the entry probe filled, `sinAddr` gives the four address bytes found from
      a recorded result location, `daddr` the destination address of a socket. */
  datatype Step =
    | LookupEnter(id: PidTgid, name: Name, res: Ptr)
    | LookupExit(id: PidTgid, ret: int, sinAddr: Ptr -> Addr)
    | ConnectEnter(id: PidTgid, sk: Sock)
    | ConnectExit(id: PidTgid, ret: int, daddr: Sock -> Addr)

  datatype State = State(
    lookups: map<u32, Lookup>,
    hostnames: map<Addr, Lookup>,
    sockets: map<u32, Sock>,
    events: seq<Event>)

  const EMPTY := State(map[], map[], map[], [])

  // ---------- the effect of one handler ----------

  function GetTid(targetPid: int, id: PidTgid): u32 {
    if targetPid != 0 && targetPid != Tgid(id) then 0 else ThreadId(id)
  }

  function Tid(cfg: Config, s: Step): u32 { GetTid(cfg.targetPid, s.id) }

  /** The zeroed name buffer after the string read at entry. */
  function Capture(hostname: seq<byte>): Name {
    StoreString(NO_NAME, hostname)
  }

  function Report(ip: Addr, found: Option<Lookup>): Event {
    match found
    case None => Event(TAG_IP, ip, NO_NAME)
    case Some(l) => Event(TAG_HOSTNAME, NO_IP, l.c)
  }

  /** The address and record learned by a successful return from a recorded lookup. */
  function Learns(cfg: Config, lookups: map<u32, Lookup>, s: Step): Option<(Addr, Lookup)> {
    var t := Tid(cfg, s);
    if s.LookupExit? && t != 0 && s.ret == 0 && t in lookups
    then Some((s.sinAddr(lookups[t].results), lookups[t])) else None
  }

  /** The destination of a successful return from a recorded connect. */
  function Reaches(cfg: Config, sockets: map<u32, Sock>, s: Step): Option<Addr> {
    var t := Tid(cfg, s);
    if s.ConnectExit? && t != 0 && s.ret == 0 && t in sockets
    then Some(s.daddr(sockets[t])) else None
  }

  function NextLookups(cfg: Config, lookups: map<u32, Lookup>, s: Step): map<u32, Lookup> {
    var t := Tid(cfg, s);
    if t == 0 then lookups
    else if s.LookupEnter? then Updated(lookups, cfg.limit, t, Lookup(s.name, s.res))
    else if s.LookupExit? then lookups - {t}
    else lookups
  }

  function NextSockets(cfg: Config, sockets: map<u32, Sock>, s: Step): map<u32, Sock> {
    var t := Tid(cfg, s);
    if t == 0 then sockets
    else if s.ConnectEnter? then Updated(sockets, cfg.limit, t, s.sk)
    else if s.ConnectExit? then sockets - {t}
    else sockets
  }

  function NextHostnames(cfg: Config, hostnames: map<Addr, Lookup>,
                         learned: Option<(Addr, Lookup)>, reached: Option<Addr>): map<Addr, Lookup>
  {
    if learned.Some? then Updated(hostnames, cfg.limit, learned.value.0, learned.value.1)
    else if reached.Some? then hostnames - {reached.value}
    else hostnames
  }

  function NextEvents(events: seq<Event>, hostnames: map<Addr, Lookup>, reached: Option<Addr>): seq<Event> {
    if reached.Some? then events + [Report(reached.value, Get(hostnames, reached.value))] else events
  }

  /** What one probe firing leaves in each map and in the event stream. */
  function Next(cfg: Config, st: State, s: Step): State {
    var learned, reached := Learns(cfg, st.lookups, s), Reaches(cfg, st.sockets, s);
    State(NextLookups(cfg, st.lookups, s),
          NextHostnames(cfg, st.hostnames, learned, reached),
          NextSockets(cfg, st.sockets, s),
          NextEvents(st.events, st.hostnames, reached))
  }

  /** The state after the first `n` steps of a run. */
  function StateAt(cfg: Config, tr: seq<Step>, n: nat): State
    requires n <= |tr|
  {
    if n == 0 then EMPTY else Next(cfg, StateAt(cfg, tr, n - 1), tr[n - 1])
  }

  // ---------- the handlers as they are written ----------

  /** A probe firing as a handler meets it: at a lookup entry, `hostname` is the string of the caller. */
  datatype Firing = Firing(hostname: seq<byte>, s: Step)

  function Observed(f: Firing): Step {
    if f.s.LookupEnter? then f.s.(name := Capture(f.hostname)) else f.s
  }

  /** The loaded BPF object: its maps, its event stream and its read-only parameter. */
  class Tracer {
    const targetPid: int
    var lookups: map<u32, Lookup>
    var hostnames: map<Addr, Lookup>
    var sockets: map<u32, Sock>
    var events: seq<Event>

    function Cfg(): Config { Config(targetPid, Some(MAX_ENTRIES)) }

    function Snapshot(): State
      reads this
    {
      State(lookups, hostnames, sockets, events)
    }

    constructor (targetPid: int)
      ensures this.targetPid == targetPid
      ensures Snapshot() == EMPTY
    {
      this.targetPid := targetPid;
      lookups, hostnames, sockets, events := map[], map[], map[], [];
    }

    method GetaddrinfoEnter(id: PidTgid, hostname: seq<byte>, res: Ptr)
      modifies this
      ensures Snapshot() == Next(Cfg(), old(Snapshot()), LookupEnter(id, Capture(hostname), res))
    {
      var tid := GetTid(targetPid, id);
      if tid == 0 {
        return;
      }
      var lookup := Lookup(NO_NAME, 0);
      lookup := lookup.(c := StoreString(lookup.c, hostname));
      lookup := lookup.(results := res);
      lookups := Updated(lookups, Some(MAX_ENTRIES), tid, lookup);
    }

    method GetaddrinfoExit(id: PidTgid, ret: int, sinAddr: Ptr -> Addr)
      modifies this
      ensures Snapshot() == Next(Cfg(), old(Snapshot()), LookupExit(id, ret, sinAddr))
    {
      var tid := GetTid(targetPid, id);
      if tid == 0 {
        return;
      }
      if ret == 0 {
        if tid !in lookups {
          assert lookups - {tid} == lookups;
          return;
        }
        var lookup := lookups[tid];
        var ipv4 := sinAddr(lookup.results);
        hostnames := Updated(hostnames, Some(MAX_ENTRIES), ipv4, lookup);
      }
      lookups := lookups - {tid};
    }

    method TcpV4ConnectEnter(id: PidTgid, sk: Sock)
      modifies this
      ensures Snapshot() == Next(Cfg(), old(Snapshot()), ConnectEnter(id, sk))
    {
      var tid := GetTid(targetPid, id);
      if tid == 0 {
        return;
      }
      sockets := Updated(sockets, Some(MAX_ENTRIES), tid, sk);
    }

    method TcpV4ConnectExit(id: PidTgid, ret: int, daddr: Sock -> Addr)
      modifies this
      ensures Snapshot() == Next(Cfg(), old(Snapshot()), ConnectExit(id, ret, daddr))
    {
      var tid := GetTid(targetPid, id);
      var event := Event(0, NO_IP, NO_NAME);
      if tid == 0 {
        return;
      }
      if ret == 0 {
        if tid !in sockets {
          assert sockets - {tid} == sockets;
          return;
        }
        var ip := daddr(sockets[tid]);
        if ip !in hostnames {
          event := event.(tag := TAG_IP, ip := ip);
          assert hostnames - {ip} == hostnames;
        } else {
          event := event.(tag := TAG_HOSTNAME, hostname := hostnames[ip].c);
          hostnames := hostnames - {ip};
        }
        events := events + [event];
      }
      sockets := sockets - {tid};
    }

    /** Runs the handler of the probe that fired. */
    method Handle(f: Firing)
      modifies this
      ensures Snapshot() == Next(Cfg(), old(Snapshot()), Observed(f))
    {
      match f.s
      case LookupEnter(id, _, res) => GetaddrinfoEnter(id, f.hostname, res);
      case LookupExit(id, ret, sinAddr) => GetaddrinfoExit(id, ret, sinAddr);
      case ConnectEnter(id, sk) => TcpV4ConnectEnter(id, sk);
      case ConnectExit(id, ret, daddr) => TcpV4ConnectExit(id, ret, daddr);
    }
  }

  function AllObserved(fs: seq<Firing>): seq<Step> {
    seq(|fs|, i requires 0 <= i < |fs| => Observed(fs[i]))
  }

  /** The handlers over a whole run. */
  method Trace(targetPid: int, fs: seq<Firing>) returns (t: Tracer)
    ensures fresh(t) && t.targetPid == targetPid
    ensures t.Snapshot() == StateAt(t.Cfg(), AllObserved(fs), |fs|)
  {
    t := new Tracer(targetPid);
    for i := 0 to |fs|
      invariant fresh(t) && t.targetPid == targetPid
      invariant t.Snapshot() == StateAt(t.Cfg(), AllObserved(fs), i)
    {
      t.Handle(fs[i]);
    }
  }
}
