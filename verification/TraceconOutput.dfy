/** The bytes of a `tracecon` event and what user space prints for them. */
module TraceconOutput {
  import opened Kernel
  import opened Tracecon
  import opened TraceconHistory

  const EVENT_SIZE := 1 + 4 + HOSTNAME_LEN

  /** The packed `struct event` that the connect exit handler outputs. */
  function Encode(e: Event): (data: seq<byte>)
    ensures |data| == EVENT_SIZE
  {
    [e.tag] + e.ip + e.hostname
  }

  datatype Line = IpEvent(octets: Addr) | HostEvent(name: Name)

  /** `Panic` is the failed expectation on a buffer that is too short. */
  datatype Outcome = Panic | Silent | Printed(line: Line)

  function Decode(data: seq<byte>): Event
    requires EVENT_SIZE <= |data|
  {
    Event(data[0], data[1..5], data[5..EVENT_SIZE])
  }

  function HandleEvent(data: seq<byte>): Outcome {
    if |data| < EVENT_SIZE then Panic
    else
      var event := Decode(data);
      if event.tag == 0 then Printed(IpEvent(event.ip))
      else if event.tag == 1 then Printed(HostEvent(event.hostname))
      else Silent
  }

  /** Decoding undoes encoding, whatever padding follows, and encoding undoes decoding. */
  lemma EventRoundTrip(e: Event, padding: seq<byte>, data: seq<byte>)
    ensures Decode(Encode(e) + padding) == e
    ensures EVENT_SIZE <= |data| ==> Encode(Decode(data)) == data[..EVENT_SIZE]
  {
    var sent := Encode(e) + padding;
    assert sent[1..5] == e.ip;
    assert sent[5..EVENT_SIZE] == e.hostname;
    if EVENT_SIZE <= |data| {
      assert data[..EVENT_SIZE] == [data[0]] + data[1..5] + data[5..EVENT_SIZE];
    }
  }

  /** The bytes of an event, one by one, and what user space makes of any bytes it is given. */
  lemma EventLayout(e: Event, data: seq<byte>)
    ensures |Encode(e)| == 89 && Encode(e)[0] == e.tag
    ensures forall i :: 0 <= i < 4 ==> Encode(e)[1 + i] == e.ip[i]
    ensures forall i :: 0 <= i < 84 ==> Encode(e)[5 + i] == e.hostname[i]
    ensures HandleEvent(data) == if |data| < 89 then Panic
                                 else if data[0] == 0 then Printed(IpEvent(data[1..5]))
                                 else if data[0] == 1 then Printed(HostEvent(data[5..89]))
                                 else Silent
  {
  }

  /** The name buffer holds the first 83 bytes of the string `s` of the caller, and is zero behind them. */
  lemma CaptureCutsAndPads(hostname: seq<byte>, s: seq<byte>)
    requires HoldsString(hostname, s)
    ensures forall i :: 0 <= i < 84 ==> Capture(hostname)[i] == if i < |s| && i < 83 then s[i] else 0
    ensures CString(Capture(hostname)) == if |s| < 84 then s else s[..83]
  {
    StoredStringReadsBack(NO_NAME, hostname, s);
    var kept, name := if |s| < 84 then s else s[..83], Capture(hostname);
    forall i | 0 <= i < 84 ensures name[i] == if i < |s| && i < 83 then s[i] else 0 {
      if i < |kept| {
        assert name[i] == name[..|kept|][i] == kept[i];
      } else if |kept| < i {
        assert name[i] == name[|kept| + 1..][i - |kept| - 1] == NO_NAME[|kept| + 1..][i - |kept| - 1];
      }
    }
  }

  // ---------- from probes to printed lines ----------

  /** The lines printed for a stream of events, each followed by its own padding. */
  function PrintedLines(events: seq<Event>, padding: seq<seq<byte>>, n: nat): seq<Line>
    requires n <= |events| == |padding|
  {
    if n == 0 then []
    else
      match HandleEvent(Encode(events[n - 1]) + padding[n - 1])
      case Printed(line) => PrintedLines(events, padding, n - 1) + [line]
      case _ => PrintedLines(events, padding, n - 1)
  }

  /** One line per completed connection: the unused name of its address, or the address itself. */
  function HistoryLines(cfg: Config, tr: seq<Step>, n: nat): seq<Line>
    requires n <= |tr|
  {
    if n == 0 then []
    else
      match Connected(cfg, tr, n - 1)
      case None => HistoryLines(cfg, tr, n - 1)
      case Some(a) =>
        match UnusedName(cfg, tr, n - 1, a)
        case None => HistoryLines(cfg, tr, n - 1) + [IpEvent(a)]
        case Some(l) => HistoryLines(cfg, tr, n - 1) + [HostEvent(l.c)]
  }

  lemma PrintedReport(a: Addr, found: Option<Lookup>, padding: seq<byte>)
    ensures HandleEvent(Encode(Report(a, found)) + padding)
         == Printed(if found.None? then IpEvent(a) else HostEvent(found.value.c))
  {
    EventRoundTrip(Report(a, found), padding, []);
  }

  lemma {:induction false} PrintedLinesPrefix(events: seq<Event>, more: seq<Event>, padding: seq<seq<byte>>, n: nat)
    requires n <= |events| <= |more| == |padding| && more[..|events|] == events
    ensures PrintedLines(more, padding, n) == PrintedLines(events, padding[..|events|], n)
  {
    if n > 0 {
      PrintedLinesPrefix(events, more, padding, n - 1);
      assert more[n - 1] == more[..|events|][n - 1];
    }
  }

  /** With no refused update, what user space prints is what the history prescribes. */
  lemma {:induction false} PrintedLinesMatchHistory(cfg: Config, tr: seq<Step>, n: nat, padding: seq<seq<byte>>)
    requires n <= |tr| && NothingRefused(cfg, tr, n)
    requires |padding| == |StateAt(cfg, tr, n).events|
    ensures PrintedLines(StateAt(cfg, tr, n).events, padding, |padding|) == HistoryLines(cfg, tr, n)
  {
    EventsMatchHistory(cfg, tr, n);
    PrintedHistory(cfg, tr, n, padding);
  }

  lemma {:induction false} PrintedHistory(cfg: Config, tr: seq<Step>, n: nat, padding: seq<seq<byte>>)
    requires n <= |tr| && |padding| == |HistoryEvents(cfg, tr, n)|
    ensures PrintedLines(HistoryEvents(cfg, tr, n), padding, |padding|) == HistoryLines(cfg, tr, n)
  {
    if n > 0 {
      var events, k := HistoryEvents(cfg, tr, n), |HistoryEvents(cfg, tr, n - 1)|;
      match Connected(cfg, tr, n - 1)
      case None => PrintedHistory(cfg, tr, n - 1, padding);
      case Some(a) =>
        PrintedHistory(cfg, tr, n - 1, padding[..k]);
        PrintedLinesPrefix(HistoryEvents(cfg, tr, n - 1), events, padding, k);
        PrintedReport(a, UnusedName(cfg, tr, n - 1, a), padding[k]);
    }
  }

  /** The history never has more threads inside a lookup or a connect, nor more addresses with an unused
      name, than a map holds. */
  ghost predicate FitsTheMaps(cfg: Config, tr: seq<Step>) {
    forall m :: 0 <= m <= |tr| ==>
      && |OpenLookups(cfg, tr, m)| <= MAX_ENTRIES
      && |OpenSockets(cfg, tr, m)| <= MAX_ENTRIES
      && |UnusedAddrs(cfg, tr, m)| <= MAX_ENTRIES
  }

  /** `tracecon` from its probes to its output: the handlers see the run `fs`, and every event reaches user
      space followed by the padding of its perf record. */
  method Session(targetPid: int, fs: seq<Firing>, padding: nat -> seq<byte>) returns (lines: seq<Line>)
    ensures var cfg, tr := Config(targetPid, Some(MAX_ENTRIES)), AllObserved(fs);
            FitsTheMaps(cfg, tr) ==> lines == HistoryLines(cfg, tr, |tr|)
  {
    var t := Trace(targetPid, fs);
    ghost var tails := seq(|t.events|, i requires 0 <= i => padding(i));
    lines := [];
    for i := 0 to |t.events|
      invariant lines == PrintedLines(t.events, tails, i)
    {
      var outcome := HandleEvent(Encode(t.events[i]) + padding(i));
      if outcome.Printed? {
        lines := lines + [outcome.line];
      }
    }
    ghost var cfg, tr := t.Cfg(), AllObserved(fs);
    if FitsTheMaps(cfg, tr) {
      Capacity(cfg, tr, |tr|);
      PrintedLinesMatchHistory(cfg, tr, |tr|, tails);
    }
  }
}
