/** `profile`: the C program's per-CPU set-up and shared cleanup, and the C and Rust stack renderers. */
module Profile {
  import opened Kernel

  // ---------- set-up and cleanup of the C program ----------

  /** What the calls made by `main` return. `maskError` is 0 or a negative error, `open` gives the file
      descriptor or a negative number for a CPU, `attach` whether a link was made for it. */
  datatype Env = Env(
    maskError: int, onlineMask: seq<bool>, possibleCpus: int,
    loads: bool, symbolizes: bool, polls: bool,
    open: nat -> int, attach: nat -> bool)

  predicate Online(env: Env, cpu: nat) { cpu < |env.onlineMask| && env.onlineMask[cpu] }

  predicate SetUp(env: Env, cpu: nat) { 0 <= env.open(cpu) && env.attach(cpu) }

  /** A CPU is tried when it is online and every online CPU before it was set up. */
  predicate Tried(env: Env, cpu: nat) {
    Online(env, cpu) && forall c :: 0 <= c < cpu && Online(env, c) ==> SetUp(env, c)
  }

  function CpusTried(env: Env, n: nat): seq<nat> {
    if n == 0 then [] else CpusTried(env, n - 1) + (if Tried(env, n - 1) then [n - 1] else [])
  }

  predicate HasFd(env: Env, cpu: nat) { Tried(env, cpu) && 0 <= env.open(cpu) }

  predicate HasLink(env: Env, cpu: nat) { Tried(env, cpu) && SetUp(env, cpu) }

  function FdsObtained(env: Env, n: nat): seq<int> {
    if n == 0 then [] else FdsObtained(env, n - 1) + (if HasFd(env, n - 1) then [env.open(n - 1)] else [])
  }

  function LinksMade(env: Env, n: nat): seq<nat> {
    if n == 0 then [] else LinksMade(env, n - 1) + (if HasLink(env, n - 1) then [n - 1] else [])
  }

  predicate Prepared(env: Env) {
    env.maskError == 0 && 0 < env.possibleCpus && env.loads && env.symbolizes && env.polls
  }

  /** The CPUs whose set-up matters: none when an earlier step failed. */
  function Cpus(env: Env): nat { if Prepared(env) then env.possibleCpus else 0 }

  predicate AllSetUp(env: Env, n: nat) {
    forall c :: 0 <= c < n && Online(env, c) ==> SetUp(env, c)
  }

  /** The loop over CPUs. A link is represented by the CPU it belongs to, a missing one by `None`. */
  method AttachAll(env: Env, pefds: array<int>, links: array<Option<nat>>) returns (err: int, requested: seq<nat>)
    requires pefds.Length == links.Length
    requires forall i :: 0 <= i < pefds.Length ==> pefds[i] == -1 && links[i] == None
    modifies pefds, links
    ensures requested == CpusTried(env, pefds.Length)
    ensures forall i :: 0 <= i < pefds.Length ==> pefds[i] == if HasFd(env, i) then env.open(i) else -1
    ensures forall i :: 0 <= i < links.Length ==> links[i] == if HasLink(env, i) then Some(i) else None
    ensures err == if AllSetUp(env, pefds.Length) then 0 else -1
  {
    err, requested := 0, [];
    var cpu := 0;
    while cpu < pefds.Length
      invariant 0 <= cpu <= pefds.Length && err == 0 && AllSetUp(env, cpu)
      invariant requested == CpusTried(env, cpu)
      invariant forall i :: 0 <= i < cpu ==> pefds[i] == if HasFd(env, i) then env.open(i) else -1
      invariant forall i :: 0 <= i < cpu ==> links[i] == if HasLink(env, i) then Some(i) else None
      invariant forall i :: cpu <= i < pefds.Length ==> pefds[i] == -1 && links[i] == None
    {
      if cpu >= |env.onlineMask| || !env.onlineMask[cpu] {
        cpu := cpu + 1;
        continue;
      }
      assert Tried(env, cpu);
      var pefd := env.open(cpu);
      requested := requested + [cpu];
      if pefd < 0 {
        err := -1;
        NothingTriedAfter(env, cpu, pefds.Length);
        return;
      }
      pefds[cpu] := pefd;
      links[cpu] := if env.attach(cpu) then Some(cpu) else None;
      if links[cpu].None? {
        err := -1;
        NothingTriedAfter(env, cpu, pefds.Length);
        return;
      }
      cpu := cpu + 1;
    }
  }

  /** Once an online CPU fails, no later one is tried. */
  lemma {:induction false} NothingTriedAfter(env: Env, cpu: nat, n: nat)
    requires cpu < n && Online(env, cpu) && !SetUp(env, cpu)
    ensures CpusTried(env, n) == CpusTried(env, cpu + 1)
    ensures forall i :: cpu < i < n ==> !Tried(env, i)
  {
    if cpu + 1 < n {
      NothingTriedAfter(env, cpu, n - 1);
    }
  }

  /** The descriptors among the first `n` entries, in order. */
  function Closable(pefds: seq<int>, n: nat): seq<int>
    requires n <= |pefds|
  {
    if n == 0 then [] else Closable(pefds, n - 1) + (if 0 <= pefds[n - 1] then [pefds[n - 1]] else [])
  }

  method CloseAll(pefds: array<int>, numCpus: nat) returns (closed: seq<int>)
    requires numCpus == pefds.Length
    ensures closed == Closable(pefds[..], numCpus)
  {
    closed := [];
    for i := 0 to numCpus
      invariant closed == Closable(pefds[..], i)
    {
      if pefds[i] >= 0 {
        closed := closed + [pefds[i]];
      }
    }
  }

  function Destroyable(links: seq<Option<nat>>, n: nat): seq<nat>
    requires n <= |links|
  {
    if n == 0 then [] else Destroyable(links, n - 1) + (if links[n - 1].Some? then [links[n - 1].value] else [])
  }

  /** Destroying a missing link does nothing, so only the others are recorded. */
  method DestroyAll(links: array<Option<nat>>, numCpus: nat) returns (destroyed: seq<nat>)
    requires numCpus == links.Length
    ensures destroyed == Destroyable(links[..], numCpus)
  {
    destroyed := [];
    for cpu := 0 to numCpus
      invariant destroyed == Destroyable(links[..], cpu)
    {
      if links[cpu].Some? {
        destroyed := destroyed + [links[cpu].value];
      }
    }
  }

  lemma {:induction false} CleanupIsExact(env: Env, pefds: seq<int>, links: seq<Option<nat>>, n: nat)
    requires n <= |pefds| && n <= |links|
    requires forall i :: 0 <= i < n ==> pefds[i] == if HasFd(env, i) then env.open(i) else -1
    requires forall i :: 0 <= i < n ==> links[i] == if HasLink(env, i) then Some(i) else None
    ensures Closable(pefds, n) == FdsObtained(env, n) && Destroyable(links, n) == LinksMade(env, n)
  {
    if n > 0 {
      CleanupIsExact(env, pefds, links, n - 1);
    }
  }

  /** `main` from reading the CPU mask to its return value. The number of CPUs is not set until the mask
      was read; the cleanup reads it only where it is. Returns the CPUs a perf event was requested for,
      the descriptors closed and the links destroyed, in order. */
  method Run(env: Env) returns (ret: int, requested: seq<nat>, closed: seq<int>, destroyed: seq<nat>)
    ensures requested == CpusTried(env, Cpus(env))
    ensures closed == FdsObtained(env, Cpus(env))
    ensures destroyed == LinksMade(env, Cpus(env))
    ensures ret == if env.maskError != 0 then -env.maskError
                   else if Prepared(env) && AllSetUp(env, Cpus(env)) then 0 else 1
  {
    var numCpus: Option<int> := None;
    var pefds: array?<int> := null;
    var links: array?<Option<nat>> := null;
    requested, closed, destroyed := [], [], [];
    var err := env.maskError;
    if err == 0 {
      numCpus := Some(env.possibleCpus);
      if numCpus.value <= 0 || !env.loads || !env.symbolizes || !env.polls {
        err := -1;
      } else {
        pefds := new int[numCpus.value];
        for i := 0 to numCpus.value
          invariant forall j :: 0 <= j < i ==> pefds[j] == -1
        {
          pefds[i] := -1;
        }
        links := new Option<nat>[numCpus.value](i => None);
        err, requested := AttachAll(env, pefds, links);
        CleanupIsExact(env, pefds[..], links[..], numCpus.value);
      }
    }
    if links != null {
      destroyed := DestroyAll(links, numCpus.value);
    }
    if pefds != null {
      closed := CloseAll(pefds, numCpus.value);
    }
    ret := -err;
  }

  /** If CPU `c` is online, a perf event and its link can be made for it. */
  predicate Works(env: Env, c: nat) {
    c < |env.onlineMask| && env.onlineMask[c] ==> 0 <= env.open(c) && env.attach(c)
  }

  lemma AllSetUpMeansWorks(env: Env, n: nat)
    ensures AllSetUp(env, n) <==> forall c: nat :: c < n ==> Works(env, c)
  {
    if AllSetUp(env, n) {
      forall c: nat | c < n ensures Works(env, c) {
        assert Online(env, c) ==> SetUp(env, c);
      }
    }
    if forall c: nat :: c < n ==> Works(env, c) {
      forall c | 0 <= c < n && Online(env, c) ensures SetUp(env, c) {
        assert Works(env, c);
      }
    }
  }

  lemma {:induction false} TriedInOrder(env: Env, n: nat)
    ensures forall c: nat :: c in CpusTried(env, n) <==> c < n && Tried(env, c)
    ensures forall i, j :: 0 <= i < j < |CpusTried(env, n)| ==> CpusTried(env, n)[i] < CpusTried(env, n)[j]
  {
    if n > 0 {
      TriedInOrder(env, n - 1);
      var before := CpusTried(env, n - 1);
      assert forall i :: 0 <= i < |before| ==> before[i] in before;
    }
  }

  /** Spelled out: perf events are requested for exactly the online CPUs up to the first failure, each
      once and in order. */
  lemma TriedAreOnlineUpToFailure(env: Env, n: nat, c: nat)
    ensures c in CpusTried(env, n) <==> && c < n && c < |env.onlineMask| && env.onlineMask[c]
                                        && forall b: nat :: b < c ==> Works(env, b)
    ensures forall i, j :: 0 <= i < j < |CpusTried(env, n)| ==> CpusTried(env, n)[i] < CpusTried(env, n)[j]
  {
    TriedInOrder(env, n);
    AllSetUpMeansWorks(env, c);
  }

  lemma {:induction false} LinksKeepUp(env: Env, n: nat)
    ensures |LinksMade(env, n)| <= |FdsObtained(env, n)| <= |CpusTried(env, n)| <= |LinksMade(env, n)| + 1
    ensures AllSetUp(env, n) <==> |CpusTried(env, n)| == |LinksMade(env, n)|
  {
    if n > 0 {
      LinksKeepUp(env, n - 1);
    }
  }

  /** Every descriptor but possibly the last tried one comes with a link, so nothing obtained is left open;
      and every one does exactly when the set-up of every online CPU works. */
  lemma OnlyTheLastLacksItsLink(env: Env, n: nat)
    ensures |LinksMade(env, n)| <= |FdsObtained(env, n)| <= |CpusTried(env, n)| <= |LinksMade(env, n)| + 1
    ensures (forall c: nat :: c < n ==> Works(env, c)) <==> |CpusTried(env, n)| == |LinksMade(env, n)|
    ensures (forall c: nat :: c < n ==> Works(env, c)) <==> AllSetUp(env, n)
  {
    LinksKeepUp(env, n);
    AllSetUpMeansWorks(env, n);
  }

  lemma {:induction false} BeforeFailure(env: Env, n: nat)
    requires AllSetUp(env, n)
    ensures LinksMade(env, n) == CpusTried(env, n) && |FdsObtained(env, n)| == |CpusTried(env, n)|
  {
    if n > 0 {
      BeforeFailure(env, n - 1);
    }
  }

  /** What is closed and destroyed belongs, one for one, to the CPUs requested, in their order. */
  lemma {:induction false} CleanupFollowsRequests(env: Env, n: nat)
    ensures |LinksMade(env, n)| <= |FdsObtained(env, n)| <= |CpusTried(env, n)|
    ensures forall i :: 0 <= i < |FdsObtained(env, n)| ==> FdsObtained(env, n)[i] == env.open(CpusTried(env, n)[i])
    ensures forall i :: 0 <= i < |LinksMade(env, n)| ==> LinksMade(env, n)[i] == CpusTried(env, n)[i]
  {
    if n > 0 {
      CleanupFollowsRequests(env, n - 1);
      LinksKeepUp(env, n - 1);
      if Tried(env, n - 1) {
        BeforeFailure(env, n - 1);
      }
    }
  }

  // ---------- the two stack renderers ----------

  /** Source position information, printed but not looked into here. */
  type CodeInfo = string

  datatype Inlined = Inlined(name: string, code: Option<CodeInfo>)

  /** One symbolizer answer; `Unknown` is the missing name of the C interface. */
  datatype Symbolized =
    | Unknown
    | Symbol(name: string, addr: u64, offset: u64, code: Option<CodeInfo>, inlined: seq<Inlined>)

  datatype Frame =
    | NoSymbol(inputAddr: u64)
    | NewFrame(inputAddr: u64, name: string, addr: u64, offset: u64, code: Option<CodeInfo>)
    | InlinedFrame(name: string, code: Option<CodeInfo>)

  /** The C printer takes input address 0 to mean an inlined call. */
  function PrintFrameC(name: string, inputAddr: u64, addr: u64, offset: u64, code: Option<CodeInfo>): Frame {
    if inputAddr != 0 then NewFrame(inputAddr, name, addr, offset, code) else InlinedFrame(name, code)
  }

  /** The Rust printer is told which kind it is by an optional address triple. */
  function PrintFrameRust(name: string, addrInfo: Option<(u64, u64, u64)>, code: Option<CodeInfo>): Frame {
    match addrInfo
    case Some((inputAddr, addr, offset)) => NewFrame(inputAddr, name, addr, offset, code)
    case None => InlinedFrame(name, code)
  }

  function InlinedFrames(inlined: seq<Inlined>, n: nat): seq<Frame>
    requires n <= |inlined|
  {
    seq(n, j requires 0 <= j < n => InlinedFrame(inlined[j].name, inlined[j].code))
  }

  /** What the C loop prints for stack entry `i`. */
  function EntryC(stack: seq<u64>, syms: seq<Symbolized>, i: nat): seq<Frame>
    requires i < |stack|
  {
    if |syms| <= i || syms[i].Unknown? then [NoSymbol(stack[i])]
    else
      var s := syms[i];
      [PrintFrameC(s.name, stack[i], s.addr, s.offset, s.code)] + InlinedFrames(s.inlined, |s.inlined|)
  }

  /** What the C loop prints for each of the first `n` entries. */
  function EntriesC(stack: seq<u64>, syms: seq<Symbolized>, n: nat): seq<seq<Frame>>
    requires n <= |stack|
  {
    seq(n, i requires 0 <= i < n => EntryC(stack, syms, i))
  }

  function EntryRust(inputAddr: u64, s: Symbolized): seq<Frame> {
    match s
    case Unknown => [NoSymbol(inputAddr)]
    case Symbol(name, addr, offset, code, inlined) =>
      [PrintFrameRust(name, Some((inputAddr, addr, offset)), code)] + InlinedFrames(inlined, |inlined|)
  }

  function EntriesRust(stack: seq<u64>, syms: seq<Symbolized>, n: nat): seq<seq<Frame>>
    requires n <= |stack| && n <= |syms|
  {
    seq(n, i requires 0 <= i < n => EntryRust(stack[i], syms[i]))
  }

  function Flatten(entries: seq<seq<Frame>>): seq<Frame> {
    if entries == [] then [] else Flatten(entries[..|entries| - 1]) + entries[|entries| - 1]
  }

  function FramesC(stack: seq<u64>, syms: seq<Symbolized>): seq<Frame> {
    Flatten(EntriesC(stack, syms, |stack|))
  }

  /** Zipping stops at the shorter of the two sequences. */
  function FramesRust(stack: seq<u64>, syms: seq<Symbolized>): seq<Frame> {
    Flatten(EntriesRust(stack, syms, Paired(stack, syms)))
  }

  function Paired(stack: seq<u64>, syms: seq<Symbolized>): nat {
    if |stack| <= |syms| then |stack| else |syms|
  }

  lemma FlattenAppend(entries: seq<seq<Frame>>, more: seq<seq<Frame>>, entry: seq<Frame>)
    requires more == entries + [entry]
    ensures Flatten(more) == Flatten(entries) + entry
  {
    assert more[..|entries|] == entries;
  }

  /** The inner loop of the C program: a symbol and the calls inlined at it. */
  method ShowSymbolC(inputAddr: u64, sym: Symbolized) returns (entry: seq<Frame>)
    requires sym.Symbol?
    ensures entry == [PrintFrameC(sym.name, inputAddr, sym.addr, sym.offset, sym.code)]
                     + InlinedFrames(sym.inlined, |sym.inlined|)
  {
    entry := [PrintFrameC(sym.name, inputAddr, sym.addr, sym.offset, sym.code)];
    for j := 0 to |sym.inlined|
      invariant entry == [PrintFrameC(sym.name, inputAddr, sym.addr, sym.offset, sym.code)]
                         + InlinedFrames(sym.inlined, j)
    {
      entry := entry + [PrintFrameC(sym.inlined[j].name, 0, 0, 0, sym.inlined[j].code)];
    }
  }

  method ShowStackTraceC(stack: seq<u64>, syms: Option<seq<Symbolized>>) returns (frames: seq<Frame>)
    ensures frames == if syms.None? then [] else FramesC(stack, syms.value)
  {
    frames := [];
    if syms.None? {
      return;
    }
    for i := 0 to |stack|
      invariant frames == Flatten(EntriesC(stack, syms.value, i))
    {
      FlattenAppend(EntriesC(stack, syms.value, i), EntriesC(stack, syms.value, i + 1), EntryC(stack, syms.value, i));
      if |syms.value| <= i || syms.value[i].Unknown? {
        frames := frames + [NoSymbol(stack[i])];
        continue;
      }
      var entry := ShowSymbolC(stack[i], syms.value[i]);
      frames := frames + entry;
    }
  }

  /** The inner loop of the Rust program. */
  method ShowSymbolRust(inputAddr: u64, sym: Symbolized) returns (entry: seq<Frame>)
    requires sym.Symbol?
    ensures entry == [PrintFrameRust(sym.name, Some((inputAddr, sym.addr, sym.offset)), sym.code)]
                     + InlinedFrames(sym.inlined, |sym.inlined|)
  {
    entry := [PrintFrameRust(sym.name, Some((inputAddr, sym.addr, sym.offset)), sym.code)];
    for j := 0 to |sym.inlined|
      invariant entry == [PrintFrameRust(sym.name, Some((inputAddr, sym.addr, sym.offset)), sym.code)]
                         + InlinedFrames(sym.inlined, j)
    {
      entry := entry + [PrintFrameRust(sym.inlined[j].name, None, sym.inlined[j].code)];
    }
  }

  method ShowStackTraceRust(stack: seq<u64>, syms: Option<seq<Symbolized>>) returns (frames: seq<Frame>)
    ensures frames == if syms.None? then [] else FramesRust(stack, syms.value)
  {
    frames := [];
    if syms.None? {
      return;
    }
    for i := 0 to Paired(stack, syms.value)
      invariant frames == Flatten(EntriesRust(stack, syms.value, i))
    {
      FlattenAppend(EntriesRust(stack, syms.value, i), EntriesRust(stack, syms.value, i + 1),
                    EntryRust(stack[i], syms.value[i]));
      match syms.value[i]
      case Unknown => frames := frames + [NoSymbol(stack[i])];
      case Symbol(_, _, _, _, _) =>
        var entry := ShowSymbolRust(stack[i], syms.value[i]);
        frames := frames + entry;
    }
  }

  // ---------- which frame stands where ----------

  predicate HasSymbol(syms: seq<Symbolized>, i: nat) { i < |syms| && syms[i].Symbol? }

  /** How many frames come before stack entry `n`: one for each entry, and one for each inlined call. */
  function Offset(syms: seq<Symbolized>, n: nat): nat {
    if n == 0 then 0
    else Offset(syms, n - 1) + 1 + (if HasSymbol(syms, n - 1) then |syms[n - 1].inlined| else 0)
  }

  /** The frames of entry `i` are in place: first `own`, then every inlined call in order. */
  predicate EntryInPlace(frames: seq<Frame>, syms: seq<Symbolized>, i: nat, own: Frame) {
    && Offset(syms, i + 1) <= |frames| && frames[Offset(syms, i)] == own
    && (HasSymbol(syms, i) ==>
          forall j :: 0 <= j < |syms[i].inlined| ==>
            frames[Offset(syms, i) + 1 + j] == InlinedFrame(syms[i].inlined[j].name, syms[i].inlined[j].code))
  }

  /** The frame of the entry itself. The C printer shows a symbolized address 0 as an inlined call. */
  function OwnC(stack: seq<u64>, syms: seq<Symbolized>, i: nat): Frame
    requires i < |stack|
  {
    if !HasSymbol(syms, i) then NoSymbol(stack[i])
    else if stack[i] == 0 then InlinedFrame(syms[i].name, syms[i].code)
    else NewFrame(stack[i], syms[i].name, syms[i].addr, syms[i].offset, syms[i].code)
  }

  function OwnRust(stack: seq<u64>, syms: seq<Symbolized>, i: nat): Frame
    requires i < |stack|
  {
    if !HasSymbol(syms, i) then NoSymbol(stack[i])
    else NewFrame(stack[i], syms[i].name, syms[i].addr, syms[i].offset, syms[i].code)
  }

  /** A prefix of the entries is in place whatever comes behind it. */
  lemma StillInPlace(frames: seq<Frame>, more: seq<Frame>, syms: seq<Symbolized>, i: nat, own: Frame)
    requires EntryInPlace(frames, syms, i, own)
    ensures EntryInPlace(frames + more, syms, i, own)
  {
  }

  /** An entry put behind the earlier ones is in place. */
  lemma LastInPlace(front: seq<Frame>, entry: seq<Frame>, syms: seq<Symbolized>, i: nat, own: Frame)
    requires |front| == Offset(syms, i)
    requires entry == [own] + InlinedAt(syms, i)
    ensures |front + entry| == Offset(syms, i + 1)
    ensures EntryInPlace(front + entry, syms, i, own)
  {
  }

  function InlinedAt(syms: seq<Symbolized>, i: nat): seq<Frame> {
    if HasSymbol(syms, i) then InlinedFrames(syms[i].inlined, |syms[i].inlined|) else []
  }

  lemma EntryShapes(stack: seq<u64>, syms: seq<Symbolized>, i: nat)
    requires i < |stack|
    ensures EntryC(stack, syms, i) == [OwnC(stack, syms, i)] + InlinedAt(syms, i)
    ensures i < |syms| ==> EntryRust(stack[i], syms[i]) == [OwnRust(stack, syms, i)] + InlinedAt(syms, i)
  {
  }

  lemma {:induction false} EntriesCInPlace(stack: seq<u64>, syms: seq<Symbolized>, n: nat, i: nat)
    requires n <= |stack|
    ensures |Flatten(EntriesC(stack, syms, n))| == Offset(syms, n)
    ensures i < n ==> EntryInPlace(Flatten(EntriesC(stack, syms, n)), syms, i, OwnC(stack, syms, i))
  {
    if n > 0 {
      var before, entry := EntriesC(stack, syms, n - 1), EntryC(stack, syms, n - 1);
      EntriesCInPlace(stack, syms, n - 1, i);
      FlattenAppend(before, EntriesC(stack, syms, n), entry);
      EntryShapes(stack, syms, n - 1);
      LastInPlace(Flatten(before), entry, syms, n - 1, OwnC(stack, syms, n - 1));
      if i < n - 1 {
        StillInPlace(Flatten(before), entry, syms, i, OwnC(stack, syms, i));
      }
    }
  }

  lemma {:induction false} EntriesRustInPlace(stack: seq<u64>, syms: seq<Symbolized>, n: nat, i: nat)
    requires n <= |stack| && n <= |syms|
    ensures |Flatten(EntriesRust(stack, syms, n))| == Offset(syms, n)
    ensures i < n ==> EntryInPlace(Flatten(EntriesRust(stack, syms, n)), syms, i, OwnRust(stack, syms, i))
  {
    if n > 0 {
      var before, entry := EntriesRust(stack, syms, n - 1), EntryRust(stack[n - 1], syms[n - 1]);
      EntriesRustInPlace(stack, syms, n - 1, i);
      FlattenAppend(before, EntriesRust(stack, syms, n), entry);
      EntryShapes(stack, syms, n - 1);
      LastInPlace(Flatten(before), entry, syms, n - 1, OwnRust(stack, syms, n - 1));
      if i < n - 1 {
        StillInPlace(Flatten(before), entry, syms, i, OwnRust(stack, syms, i));
      }
    }
  }

  /** The C program shows every stack entry with its symbol and every inlined call behind it, in order, and
      nothing else; an entry without an answer shows as one without a symbol. */
  lemma FramesCByPosition(stack: seq<u64>, syms: seq<Symbolized>)
    ensures |FramesC(stack, syms)| == Offset(syms, |stack|)
    ensures forall i :: 0 <= i < |stack| ==> EntryInPlace(FramesC(stack, syms), syms, i, OwnC(stack, syms, i))
  {
    forall i | 0 <= i < |stack| ensures EntryInPlace(FramesC(stack, syms), syms, i, OwnC(stack, syms, i)) {
      EntriesCInPlace(stack, syms, |stack|, i);
    }
    EntriesCInPlace(stack, syms, |stack|, 0);
  }

  /** So does the Rust program, as far as there are answers. */
  lemma FramesRustByPosition(stack: seq<u64>, syms: seq<Symbolized>)
    ensures var n := if |stack| <= |syms| then |stack| else |syms|;
            && |FramesRust(stack, syms)| == Offset(syms, n)
            && forall i :: 0 <= i < n ==> EntryInPlace(FramesRust(stack, syms), syms, i, OwnRust(stack, syms, i))
  {
    var n := Paired(stack, syms);
    forall i | 0 <= i < n ensures EntryInPlace(FramesRust(stack, syms), syms, i, OwnRust(stack, syms, i)) {
      EntriesRustInPlace(stack, syms, n, i);
    }
    EntriesRustInPlace(stack, syms, n, 0);
  }

  // ---------- when they show the same content ----------

  /** Every address has an answer, and no address that has a symbol is 0. */
  predicate Comparable(stack: seq<u64>, syms: seq<Symbolized>) {
    |stack| <= |syms| && forall i :: 0 <= i < |stack| && stack[i] == 0 ==> syms[i].Unknown?
  }

  predicate EntryComparable(inputAddr: u64, s: Symbolized) { inputAddr == 0 ==> s.Unknown? }

  lemma EntriesAgree(stack: seq<u64>, syms: seq<Symbolized>, i: nat)
    requires i < Paired(stack, syms)
    ensures |EntryC(stack, syms, i)| == |EntryRust(stack[i], syms[i])|
    ensures EntryC(stack, syms, i) == EntryRust(stack[i], syms[i]) <==> EntryComparable(stack[i], syms[i])
  {
    if !EntryComparable(stack[i], syms[i]) {
      assert EntryC(stack, syms, i)[0].InlinedFrame? && EntryRust(stack[i], syms[i])[0].NewFrame?;
    }
  }

  lemma ConcatEqual(a: seq<Frame>, x: seq<Frame>, b: seq<Frame>, y: seq<Frame>)
    requires |x| == |y|
    ensures a + x == b + y <==> a == b && x == y
  {
    if a + x == b + y {
      assert a == (a + x)[..|a|] && b == (b + y)[..|b|];
      assert x == (a + x)[|a|..] && y == (b + y)[|b|..];
    }
  }

  /** Entry by entry equally long, two renderings are equal only entry by entry. */
  lemma {:induction false} FlattenInjective(a: seq<seq<Frame>>, b: seq<seq<Frame>>)
    requires |a| == |b| && forall i :: 0 <= i < |a| ==> |a[i]| == |b[i]|
    ensures |Flatten(a)| == |Flatten(b)|
    ensures Flatten(a) == Flatten(b) <==> a == b
  {
    if a != [] {
      var n := |a| - 1;
      FlattenInjective(a[..n], b[..n]);
      ConcatEqual(Flatten(a[..n]), a[n], Flatten(b[..n]), b[n]);
      assert a == a[..n] + [a[n]] && b == b[..n] + [b[n]];
    }
  }

  lemma {:induction false} FlattenGrows(a: seq<seq<Frame>>, n: nat)
    requires n <= |a| && forall i :: 0 <= i < |a| ==> 1 <= |a[i]|
    ensures |Flatten(a[..n])| + (|a| - n) <= |Flatten(a)|
  {
    if n < |a| {
      var front := a[..|a| - 1];
      assert front[..n] == a[..n];
      FlattenGrows(front, n);
    } else {
      assert a[..n] == a;
    }
  }

  lemma PairedEntriesAgree(stack: seq<u64>, syms: seq<Symbolized>)
    ensures var n := Paired(stack, syms);
            && |Flatten(EntriesC(stack, syms, n))| == |FramesRust(stack, syms)|
            && (Flatten(EntriesC(stack, syms, n)) == FramesRust(stack, syms)
                <==> forall i :: 0 <= i < n ==> EntryComparable(stack[i], syms[i]))
  {
    var n := Paired(stack, syms);
    var a, b := EntriesC(stack, syms, n), EntriesRust(stack, syms, n);
    forall i | 0 <= i < n
      ensures |a[i]| == |b[i]| && (a[i] == b[i] <==> EntryComparable(stack[i], syms[i]))
    {
      EntriesAgree(stack, syms, i);
    }
    FlattenInjective(a, b);
  }

  /** The C and Rust programs show the same frames exactly for comparable stacks: with fewer answers than
      addresses C goes on printing, and a symbolized address 0 prints as inlined in C only. */
  lemma RenderersAgree(stack: seq<u64>, syms: seq<Symbolized>)
    ensures FramesC(stack, syms) == FramesRust(stack, syms) <==> Comparable(stack, syms)
  {
    PairedEntriesAgree(stack, syms);
    if |syms| < |stack| {
      var a := EntriesC(stack, syms, |stack|);
      assert a[..|syms|] == EntriesC(stack, syms, |syms|);
      FlattenGrows(a, |syms|);
    } else {
      assert Comparable(stack, syms) <==> forall i :: 0 <= i < |stack| ==> EntryComparable(stack[i], syms[i]);
    }
  }

  // ---------- whole events ----------

  /** A sample: byte sizes of the two stacks, not positive when there is none, and the stacks. */
  datatype Event = Event(pid: u32, kernelSize: int, userSize: int, kernel: seq<u64>, user: seq<u64>)

  const MAX_STACK_DEPTH := 128

  predicate ValidEvent(e: Event) {
    && |e.kernel| == |e.user| == MAX_STACK_DEPTH
    && e.kernelSize <= MAX_STACK_DEPTH * 8 && e.userSize <= MAX_STACK_DEPTH * 8
  }

  /** The part of a stack that a sample filled. */
  function Used(stack: seq<u64>, size: int): seq<u64>
    requires 0 < size <= |stack| * 8
  {
    stack[..size / 8]
  }

  /** The symbolizer, asked for a process or, with identifier 0, for the kernel. */
  type Symbolizer = (u32, seq<u64>) -> Option<seq<Symbolized>>

  datatype Section = NoStack | Stack(frames: seq<Frame>)

  method EventHandlerC(sym: Symbolizer, e: Event) returns (ret: int, kernel: Section, user: Section)
    requires ValidEvent(e)
    ensures ret == if e.kernelSize <= 0 && e.userSize <= 0 then 1 else 0
    ensures kernel == SectionC(sym, 0, e.kernel, e.kernelSize)
    ensures user == SectionC(sym, e.pid, e.user, e.userSize)
  {
    kernel, user := NoStack, NoStack;
    if e.kernelSize <= 0 && e.userSize <= 0 {
      return 1, kernel, user;
    }
    if e.kernelSize > 0 {
      var stack := e.kernel[..e.kernelSize / 8];
      var frames := ShowStackTraceC(stack, sym(0, stack));
      kernel := Stack(frames);
    }
    if e.userSize > 0 {
      var stack := e.user[..e.userSize / 8];
      var frames := ShowStackTraceC(stack, sym(e.pid, stack));
      user := Stack(frames);
    }
    ret := 0;
  }

  /** The size of a stack trace event: four words, the command name and two stacks. */
  const EVENT_SIZE := 4 * 4 + 16 + 2 * MAX_STACK_DEPTH * 8

  /** `length` is that of the ring record; `e` is what its bytes hold when it is a whole event. */
  method EventHandlerRust(sym: Symbolizer, length: nat, e: Event) returns (ret: int, kernel: Section, user: Section)
    requires ValidEvent(e)
    ensures ret == if length != EVENT_SIZE || (e.kernelSize <= 0 && e.userSize <= 0) then 1 else 0
    ensures kernel == if length == EVENT_SIZE then SectionRust(sym, 0, e.kernel, e.kernelSize) else NoStack
    ensures user == if length == EVENT_SIZE then SectionRust(sym, e.pid, e.user, e.userSize) else NoStack
  {
    kernel, user := NoStack, NoStack;
    if length != EVENT_SIZE {
      return 1, kernel, user;
    }
    if e.kernelSize <= 0 && e.userSize <= 0 {
      return 1, kernel, user;
    }
    if e.kernelSize > 0 {
      var stack := e.kernel[..e.kernelSize / 8];
      var frames := ShowStackTraceRust(stack, sym(0, stack));
      kernel := Stack(frames);
    }
    if e.userSize > 0 {
      var stack := e.user[..e.userSize / 8];
      var frames := ShowStackTraceRust(stack, sym(e.pid, stack));
      user := Stack(frames);
    }
    ret := 0;
  }

  function SectionC(sym: Symbolizer, pid: u32, stack: seq<u64>, size: int): Section
    requires size <= |stack| * 8
  {
    if size <= 0 then NoStack
    else
      var used := Used(stack, size);
      match sym(pid, used)
      case None => Stack([])
      case Some(syms) => Stack(FramesC(used, syms))
  }

  function SectionRust(sym: Symbolizer, pid: u32, stack: seq<u64>, size: int): Section
    requires size <= |stack| * 8
  {
    if size <= 0 then NoStack
    else
      var used := Used(stack, size);
      match sym(pid, used)
      case None => Stack([])
      case Some(syms) => Stack(FramesRust(used, syms))
  }

  /** A stack of `size` bytes shows the symbols of its `words` whole 64-bit words, and of no others. */
  lemma SectionShowsWords(sym: Symbolizer, pid: u32, stack: seq<u64>, size: int, words: nat, rest: nat)
    requires 0 < size <= |stack| * 8 && size == 8 * words + rest && rest < 8
    ensures words <= |stack|
    ensures SectionC(sym, pid, stack, size)
         == Stack(if sym(pid, stack[..words]).None? then []
                  else FramesC(stack[..words], sym(pid, stack[..words]).value))
    ensures SectionRust(sym, pid, stack, size)
         == Stack(if sym(pid, stack[..words]).None? then []
                  else FramesRust(stack[..words], sym(pid, stack[..words]).value))
  {
    assert size / 8 == words;
  }

  /** Whether the symbolizer's answer for the used part of a stack keeps the renderers together. */
  predicate SectionComparable(sym: Symbolizer, pid: u32, stack: seq<u64>, size: int)
    requires size <= |stack| * 8
  {
    0 < size && sym(pid, Used(stack, size)).Some? ==>
      Comparable(Used(stack, size), sym(pid, Used(stack, size)).value)
  }

  /** For every event the two programs show the same sections exactly when both stacks are comparable. */
  lemma EventsShowTheSame(sym: Symbolizer, e: Event)
    requires ValidEvent(e)
    ensures && SectionC(sym, 0, e.kernel, e.kernelSize) == SectionRust(sym, 0, e.kernel, e.kernelSize)
            && SectionC(sym, e.pid, e.user, e.userSize) == SectionRust(sym, e.pid, e.user, e.userSize)
       <==> && SectionComparable(sym, 0, e.kernel, e.kernelSize)
            && SectionComparable(sym, e.pid, e.user, e.userSize)
  {
    SectionsShowTheSame(sym, 0, e.kernel, e.kernelSize);
    SectionsShowTheSame(sym, e.pid, e.user, e.userSize);
  }

  lemma SectionsShowTheSame(sym: Symbolizer, pid: u32, stack: seq<u64>, size: int)
    requires size <= |stack| * 8
    ensures SectionC(sym, pid, stack, size) == SectionRust(sym, pid, stack, size)
       <==> SectionComparable(sym, pid, stack, size)
  {
    if 0 < size && sym(pid, Used(stack, size)).Some? {
      RenderersAgree(Used(stack, size), sym(pid, Used(stack, size)).value);
    }
  }
}
