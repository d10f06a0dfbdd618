# Models of the libbpf-bootstrap demos

Dafny models of four of the demo applications, with proofs about every run, every input or every
interleaving. `dafny verify dfyconfig.toml` checks all of it.

* **tracecon** joins name lookups with TCP connects. Four probe handlers on many threads share three
  bounded hash maps: `lookups` and `sockets`, keyed by thread, and `hostnames`, keyed by address and
  consumed by the connect that uses an entry. `Tracecon.dfy` has the handlers as methods of a class over
  the maps; `TraceconHistory.dfy` says what a run should report from its history alone and relates the two;
  `TraceconOutput.dfy` has the bytes of an event and what user space prints. `TraceconInterleaved.dfy` makes
  every map operation a step of its own; about all interleavings of these, `TraceconProvenance.dfy` says where
  each event comes from, `TraceconUseOnce.dfy` how often a stored name is reported, and `TraceconLinear.dfy`
  when handlers behave as if they ran one after the other.
* **bootstrap** tracks process lifetimes: a bounded map of start times, a minimum-duration filter, a ring of
  samples and a user-space half that scales milliseconds to nanoseconds and back. `Bootstrap.dfy` has the
  two handlers, `BootstrapHistory.dfy` the history, the capacity and the comparison with an unbounded
  tracker, `BootstrapInterleaved.dfy` handlers split into single operations across CPUs, and
  `BootstrapOutput.dfy` the option, the scaling and the printed lines.
* **sockfilter** copies packet header bytes into a reused ring record and prints them. `Sockfilter.dfy` has
  the socket program over the ring memory, `SockfilterOutput.dfy` byte order, dotted text and the printed line.
* **profile** sets up one perf event per online CPU with a shared cleanup, and renders stacks in a C and a
  Rust program that are documented to show the same content. Both are in `Profile.dfy`.

`Kernel.dfy` holds what the models take from the kernel: a map update is refused exactly when the key is new
and the map is full, and the handlers ignore that; a string read stops at the NUL, is cut to its buffer and
leaves the bytes behind the NUL as they were; a failed read of memory yields zeroes.

Runs are sequences of steps of any length. Whatever a handler obtains from outside is part of its step: the
identifiers, the clock, return codes, the memory it reads, and whether a ring record was reserved and what
that record held before.

Four results say when a promise does not hold. The duration filter is right for every lifetime exactly up to
`-d 18446744073709`, and exec lines reappear exactly at multiples of 2 to the 58th, because scaling wraps. On
a big-endian host `sockfilter` prints a packet only when its protocol number is 0, because one byte of a
32-bit field is written. The C and Rust stack renderers, documented as showing the same content, do so
exactly when every address has an answer and no symbolized address is 0. With separate map operations
`tracecon` can report one stored name twice, and does so exactly when a second handler finds it before the
first has deleted it and no other name of the address is stored in between.

## Model

| member | source | states |
|---|---|---|
| Tracecon.Tracer.GetaddrinfoEnter | examples/rust/tracecon/src/bpf/tracecon.bpf.c:77-90 | the handler leaves the maps and events given by the step function whose history meaning is proved below; the record is the captured name and the result location |
| Tracecon.Tracer.GetaddrinfoExit | examples/rust/tracecon/src/bpf/tracecon.bpf.c:92-115 | likewise, on all three exit paths: rejected thread, failed lookup, no record |
| Tracecon.Tracer.TcpV4ConnectEnter | examples/rust/tracecon/src/bpf/tracecon.bpf.c:118-127 | likewise for the pending socket |
| Tracecon.Tracer.TcpV4ConnectExit | examples/rust/tracecon/src/bpf/tracecon.bpf.c:129-160 | likewise: one event per recorded successful connect, the name consumed, the record dropped |
| Tracecon.Trace | examples/rust/tracecon/src/bpf/tracecon.bpf.c:77-160 | the handlers over a whole run leave the maps and the event stream that all theorems about runs speak of |
| TraceconHistory.TidIsThread | examples/rust/tracecon/src/bpf/tracecon.bpf.c:67-75 | the handlers act for a nonzero thread exactly on steps whose lower identifier half is that thread and whose upper half, read as a signed number, is the target process if there is one |
| TraceconHistory.OtherThreadsKeepRecords | examples/rust/tracecon/src/bpf/tracecon.bpf.c:81-158 | a step of a thread with another lower half leaves both records of a thread alone, in the same process or not |
| TraceconHistory.PendingLookupIsLastEntry | examples/rust/tracecon/src/bpf/tracecon.bpf.c:81-113 | a thread, told by the lower half, is inside a lookup if and only if its last lookup probe that the filter lets through was an entry, and the record is that entry's |
| TraceconHistory.PendingSocketIsLastEntry | examples/rust/tracecon/src/bpf/tracecon.bpf.c:121-158 | the same for connects |
| TraceconHistory.UnusedNameIsLatest | examples/rust/tracecon/src/bpf/tracecon.bpf.c:105-153 | the unused name of an address is that of its latest successful lookup, if and only if no later connect went there |
| TraceconHistory.LookupsMatchHistory | examples/rust/tracecon/src/bpf/tracecon.bpf.c:88-113 | in every run that refuses no lookup record, `lookups` is the scan of the history |
| TraceconHistory.SocketsMatchHistory | examples/rust/tracecon/src/bpf/tracecon.bpf.c:125-158 | the same for `sockets` |
| TraceconHistory.HostnamesMatchHistory | examples/rust/tracecon/src/bpf/tracecon.bpf.c:105-153 | in every run that refuses nothing, `hostnames` holds for every address exactly its unused name |
| TraceconHistory.EventsMatchHistory | examples/rust/tracecon/src/bpf/tracecon.bpf.c:77-160 | in every run that refuses nothing, the event stream is the one the history prescribes: per completed connect the unused name of its address, or the bare address |
| TraceconHistory.LookupRecordsAreOpen | examples/rust/tracecon/src/bpf/tracecon.bpf.c:81-113 | whatever is refused, a thread in `lookups` is inside the very lookup its record describes |
| TraceconHistory.SocketRecordsAreOpen | examples/rust/tracecon/src/bpf/tracecon.bpf.c:121-158 | the same for `sockets` |
| TraceconHistory.LookupCapacity | examples/rust/tracecon/src/bpf/tracecon.bpf.c:29-34 | a lookup record is refused if and only if more threads are at some moment inside a lookup than the map has entries |
| TraceconHistory.SocketCapacity | examples/rust/tracecon/src/bpf/tracecon.bpf.c:43-48 | the same for connects |
| TraceconHistory.Capacity | examples/rust/tracecon/src/bpf/tracecon.bpf.c:29-48 | nothing is refused if and only if the history never needs more entries of any of the three maps |
| TraceconHistory.EventsMatchWithinCapacity | examples/rust/tracecon/src/bpf/tracecon.bpf.c:29-48 | with 10240 entries each, a bound on open calls and unused addresses alone guarantees the prescribed events |
| TraceconHistory.EveryEventIsJustified | examples/rust/tracecon/src/bpf/tracecon.bpf.c:86-156 | under any refusals, each event of the stream, by its position, was put there by the successful exit of a connect matched with its own entry; a name it carries was captured at the entry of a lookup whose matching successful exit, earlier, found the address that this connect reached; an event without a name carries that address, and the map held no name of it |
| TraceconHistory.NamesAreConserved | examples/rust/tracecon/src/bpf/tracecon.bpf.c:111-153 | for every run and address: names stored equal names reported plus names overwritten plus the one still waiting, if any |
| TraceconHistory.UsesAreNameEvents | examples/rust/tracecon/src/bpf/tracecon.bpf.c:146-156 | the reports counted there for an address are the positions of the stream tagged HOSTNAME whose own connect reached that address |
| TraceconHistory.ErasureIsInvisible | examples/rust/tracecon/src/bpf/tracecon.bpf.c:67-75 | dropping steps whose thread is rejected leaves maps and events of any run unchanged |
| TraceconHistory.OtherProcessesAreInvisible | examples/rust/tracecon/src/bpf/tracecon.bpf.c:67-75 | a filtered run ends like the filtered, and like the unfiltered, run over the target process's own steps |
| TraceconHistory.ThreadZeroIsInvisible | examples/rust/tracecon/src/bpf/tracecon.bpf.c:84-85 | steps whose lower identifier half is 0 can always be erased |
| TraceconInterleaved.UninterruptedIsAtomic | examples/rust/tracecon/src/bpf/tracecon.bpf.c:77-160 | the single map operations of a handler, run without interruption, have the effect of the atomic handler |
| TraceconInterleaved.ThreadsAreIsolated | examples/rust/tracecon/src/bpf/tracecon.bpf.c:88-158 | in every interleaving that refuses no lookup or socket record, a thread's records, its place in its handlers and all values its exit handlers read there are as if it ran alone |
| TraceconProvenance.ThreadsAreSound | examples/rust/tracecon/src/bpf/tracecon.bpf.c:81-158 | in every interleaving and under any refusals, a thread's records are those of its open lookup and connect, and what its handler carries was computed from them by the probe it is inside of |
| TraceconProvenance.NameIsHeld | examples/rust/tracecon/src/bpf/tracecon.bpf.c:111-153 | a name in the map is that of its last store, and no handler has deleted the name of the address since |
| TraceconProvenance.EveryInterleavingIsSound | examples/rust/tracecon/src/bpf/tracecon.bpf.c:86-156 | in every interleaving and under any refusals, each event of the stream, by its position, is the output of the exit handler of a connect matched with its own entry, after that handler's search; a name it carries is the one whose store was still held at that search, stored by the exit handler of a lookup matched with its own entry that found the address the connect reached; without a name, no store was held |
| TraceconUseOnce.SameNameMeansOverlap | examples/rust/tracecon/src/bpf/tracecon.bpf.c:146-153 | two finds of an address take the same stored name if and only if no store lies between them, equivalently if the first finder has still to delete it and no store lies between |
| TraceconUseOnce.RepeatMeansSameName | examples/rust/tracecon/src/bpf/tracecon.bpf.c:146-153 | a find is counted as a repeat if and only if an earlier find took the same stored name |
| TraceconUseOnce.ReportsAreNameEvents | examples/rust/tracecon/src/bpf/tracecon.bpf.c:150-156 | the reports counted for an address are the positions of the stream tagged HOSTNAME whose own handler reached it |
| TraceconUseOnce.NamesAreBalanced | examples/rust/tracecon/src/bpf/tracecon.bpf.c:111-156 | in every interleaving and under any refusals, names stored for an address plus repeated finds equal names reported, about to be reported, lost unfound and waiting |
| TraceconUseOnce.UseOnceMeansNoSharing | examples/rust/tracecon/src/bpf/tracecon.bpf.c:111-156 | each stored name is accounted for once in a run if and only if no find happens while an earlier finder of the same stored name has still to delete it |
| TraceconUseOnce.BothFindersReport | examples/rust/tracecon/src/bpf/tracecon.bpf.c:146-156 | from any state in which two handlers are about to look up the same stored name, both can report it |
| TraceconUseOnce.OneStoreTwoReports | examples/rust/tracecon/src/bpf/tracecon.bpf.c:146-156 | with the loaded limit of 10240 entries, a run that stores one name once ends with two HOSTNAME events for it |
| TraceconLinear.LinearStateIsRun | examples/rust/tracecon/src/bpf/tracecon.bpf.c:77-160 | the run in which every handler takes effect at once, at its store, its search or its beginning, is a run of the atomic handlers |
| TraceconLinear.InterleavingIsLinear | examples/rust/tracecon/src/bpf/tracecon.bpf.c:77-160 | in every interleaving that refuses nothing and neither stores nor searches a name that a handler has found and not yet deleted, the handler of each probe outputs the event that its step outputs in that atomic run, or is about to, and no other |
| TraceconLinear.QuietMapsAreLinear | examples/rust/tracecon/src/bpf/tracecon.bpf.c:77-160 | at rest such an interleaving has left the three maps of the atomic run |
| TraceconLinear.QuietInterleavingMatchesHistory | examples/rust/tracecon/src/bpf/tracecon.bpf.c:77-160 | at rest its events are, handler by handler and each once, those of the atomic run, whose stream is the one its history prescribes |
| TraceconOutput.EventRoundTrip | examples/rust/tracecon/src/main.rs:70-79 | decoding recovers every encoded event whatever padding follows, and encoding recovers the bytes decoded |
| TraceconOutput.EventLayout | examples/rust/tracecon/src/main.rs:70-79 | tag, address and name are the bytes 0, 1 to 4 and 5 to 88 of an event; user space panics below 89 bytes, prints the address or the name for tags 0 and 1, and nothing otherwise |
| TraceconOutput.CaptureCutsAndPads | examples/rust/tracecon/src/bpf/tracecon.bpf.c:82-86 | byte by byte, the captured name is the first 83 bytes of the string in the caller's memory and zero behind them, and reads back as those |
| TraceconOutput.PrintedLinesMatchHistory | examples/rust/tracecon/src/main.rs:70-79 | the lines printed for a run that refuses nothing are those the history prescribes, for any padding |
| TraceconOutput.Session | examples/rust/tracecon/src/main.rs:118-132 | from probes to output: as long as the history needs no more than 10240 entries of any map, the printed lines are those it prescribes |
| Kernel.PidKeepsPattern | examples/c/bootstrap.bpf.c:73-74 | a 32-bit half becomes the one signed number that agrees with it modulo 2 to the 32nd |
| Kernel.StoredStringReadsBack | examples/c/bootstrap.bpf.c:54-57 | whatever the buffer held, a reader sees the whole string that the source memory holds, or all of it that fits with its NUL, and the bytes behind the NUL are untouched |
| Bootstrap.Tracker.HandleExec | examples/c/bootstrap.bpf.c:25-62 | the handler has the effect of the step function whose history meaning is proved below, and the ring holds exactly the filled slots of the log |
| Bootstrap.Tracker.HandleExit | examples/c/bootstrap.bpf.c:64-111 | likewise, on every early return |
| Bootstrap.Track | examples/c/bootstrap.bpf.c:25-111 | the handlers over a whole run, each with the slot it is handed, leave the map and the filled slots that all theorems about runs speak of |
| BootstrapHistory.LeaderIsMainThread | examples/c/bootstrap.bpf.c:72-79 | an exit counts exactly when both identifier halves are the same, and the key is the upper half |
| BootstrapHistory.StartedIsLastExec | examples/c/bootstrap.bpf.c:35-37 | the start time of a process, told by the upper half, is that of its last exec, if and only if no thread whose two halves agree has exited there since |
| BootstrapHistory.MinusLeadsBack | examples/c/bootstrap.bpf.c:82-84 | the lifetime is the one 64-bit number that leads from the start to the exit on a clock modulo 2 to the 64th |
| BootstrapHistory.StartsMatchHistory | examples/c/bootstrap.bpf.c:35-87 | in every run that refuses nothing, `exec_start` is the scan of the history for every process |
| BootstrapHistory.LifetimesDoNotWrap | examples/c/bootstrap.bpf.c:82-84 | when a process's handlers read a clock that never falls, the unsigned subtraction is the true difference |
| BootstrapHistory.SamplesMatchHistory | examples/c/bootstrap.bpf.c:25-111 | such runs submit exactly the samples the history prescribes, with true lifetimes, in both modes |
| BootstrapHistory.RecordsAreLiving | examples/c/bootstrap.bpf.c:35-87 | whatever is refused, a recorded process is alive since the recorded time |
| BootstrapHistory.Capacity | examples/c/bootstrap.bpf.c:11-16 | a start time is refused if and only if more processes are alive at some moment than the map has entries |
| BootstrapHistory.BoundedStartsAreSubmap | examples/c/bootstrap.bpf.c:11-16 | the bounded map is always a submap of an unbounded tracker's |
| BootstrapHistory.BoundedReportsAreSubsequence | examples/c/bootstrap.bpf.c:81-109 | in duration mode the bounded tracker's samples are a subsequence of the unbounded one's |
| BootstrapHistory.BoundedReportsLoseOnlyLifetimes | examples/c/bootstrap.bpf.c:81-109 | in default mode they are the same except that some exits show lifetime 0 |
| BootstrapInterleaved.InterleavingIsAtomic | examples/c/bootstrap.bpf.c:25-111 | for handlers split into single operations and freely interleaved, if those of one process do not overlap on the map and nothing is refused, each submission is the one of its handler in the atomic run, made once, and none of a finished handler is missing |
| BootstrapInterleaved.QuietInterleavingMatchesHistory | examples/c/bootstrap.bpf.c:25-111 | once no handler is in flight, the submissions are handler by handler those the history prescribes |
| BootstrapOutput.Env.MinDurationNs | examples/c/bootstrap.c:126 | the parameter agrees with a million times the option modulo 2 to the 64th, and equals it if and only if the option is at most 18446744073709 |
| BootstrapOutput.StaleSlotsDoNotShow | examples/c/bootstrap.bpf.c:51-109 | the line printed for a filled slot depends on the sample alone, for every previous content |
| BootstrapOutput.PrintedLinesAreSampleLines | examples/c/bootstrap.c:75-98 | the same for a whole ring of reused slots |
| BootstrapOutput.ExitPrints | examples/c/bootstrap.bpf.c:72-109 | for every exit with a slot: a record is made exactly for leaders that the filter lets through, and prints the second byte of the wait code, the modular lifetime in whole milliseconds if it is not 0, the process, its parent, and the first 15 bytes of the command name |
| BootstrapOutput.ExecPrints | examples/c/bootstrap.bpf.c:39-61 | for every exec with a slot: a record is made exactly without a filter, and prints the process, its parent, and the first 15 and 126 bytes of the two names |
| BootstrapOutput.DurationModePrintsLongLives | examples/c/bootstrap.c:75-126 | for every option from 1 to 18446744073709, whatever the map refused, a run on a clock that never falls prints exactly the leader exits with a recorded start, a slot and at least that many whole milliseconds, each with its true figure, and no exec |
| BootstrapOutput.DurationModePrintsAllLongLives | examples/c/bootstrap.c:75-126 | in runs that refuse nothing these are all the long lives of the history |
| BootstrapOutput.DurationModePrintsNoExec | examples/c/bootstrap.bpf.c:39-41 | no run with a nonzero parameter prints an exec line, whatever the clock reads and the map refuses |
| BootstrapOutput.Session | examples/c/bootstrap.c:32-163 | from the option to the lines: usage is shown exactly for values that do not parse in range or are not positive; an accepted value up to 18446744073709 prints the recorded long lives, which are all of them while at most 8192 processes live; no accepted value prints an exec unless it is a multiple of 2 to the 58th |
| BootstrapOutput.FilterIsRightUpToLimit | examples/c/bootstrap.bpf.c:89-91 | the filter agrees with whole milliseconds on every exit if and only if the option is at most 18446744073709 |
| BootstrapOutput.ScalingVanishes | examples/c/bootstrap.c:126 | the scaled parameter is 0 if and only if the option is a multiple of 2 to the 58th |
| BootstrapOutput.ExecsAreSilent | examples/c/bootstrap.bpf.c:39-41 | exec samples are withheld for exactly the other options |
| Sockfilter.SocketProgram.SocketHandler | examples/c/sockfilter.bpf.c:31-66 | the handler leaves the ring memory given by the fill function and keeps the whole packet exactly when it made a record |
| Sockfilter.RecordsDivideRing | examples/c/sockfilter.bpf.c:17-20 | the producer position modulo the ring always falls on the same record boundaries |
| SockfilterOutput.UpperProtoStaysZero | examples/c/sockfilter.bpf.c:47-63 | from a zeroed ring, in every run and every slot, the three bytes of `ip_proto` that are never written stay zero however slots are reused |
| SockfilterOutput.NetworkOrderIsPortable | examples/c/sockfilter.c:121-125 | under either host byte order the converted word is the bytes read in network order |
| SockfilterOutput.WantedIsPortable | examples/c/sockfilter.bpf.c:22-45 | under either byte order a frame is kept exactly when its bytes 12 and 13 are 8 and 0 and the low 14 bits of bytes 20 and 21, if it has them, are 0 |
| SockfilterOutput.RecordFields | examples/c/sockfilter.bpf.c:52-62 | in a filled non-GRE record the addresses are bytes 26 to 33, the protocol byte 23, and the ports the four bytes at 14 + 4*IHL, where IHL is the low half of byte 14; a field that reaches beyond the packet is zero; packet type and interface read back |
| SockfilterOutput.GreKeepsOldAddresses | examples/c/sockfilter.bpf.c:54-57 | on a little-endian host a GRE record keeps the addresses its slot held before |
| SockfilterOutput.Ltoa | examples/c/sockfilter.c:100-104 | the caller's buffer holds the text, cut to fit, with its NUL, and is unchanged behind it |
| SockfilterOutput.HandleRecord | examples/c/sockfilter.c:106-128 | the ring callback, formatting both addresses through its 16-byte buffers, gives the line whose relation to the packet is stated below |
| SockfilterOutput.DottedFits | examples/c/sockfilter.c:100-104 | no address text is cut by the 16-byte buffer |
| SockfilterOutput.DottedParsesBack | examples/c/sockfilter.c:100-104 | the text parses back to the same four bytes |
| SockfilterOutput.RecordStays | examples/c/sockfilter.c:188-199 | record number `c` keeps its bytes while at most `c` + 8192 records have been reserved in all |
| SockfilterOutput.PrintedLineIsHeader | examples/c/sockfilter.c:106-128 | in any run, whenever it is read before its slot comes round again, the record of a long enough, unfragmented, non-GRE IPv4 packet prints the packet's own bytes: addresses, protocol, and the two port numbers at 14 + 4*IHL for every header length; it is printed if and only if it is for the host, its interface resolves, and the host is little-endian or the protocol is 0 |
| Profile.AttachAll | examples/c/profile.c:230-256 | the loop leaves a descriptor and a link for exactly the CPUs that have one and stops at the first failure |
| Profile.Run | examples/c/profile.c:182-279 | for every number of CPUs, mask and failure point: the CPUs requested, the descriptors closed and the links destroyed, in order and each once, and the return value; the CPU count is only read where it is set |
| Profile.TriedAreOnlineUpToFailure | examples/c/profile.c:230-247 | a perf event is requested for exactly the CPUs set in the mask before which every CPU set in the mask was opened and attached, in increasing order |
| Profile.OnlyTheLastLacksItsLink | examples/c/profile.c:236-255 | at most one request lacks a link, and none does if and only if the whole set-up succeeded |
| Profile.CleanupFollowsRequests | examples/c/profile.c:263-274 | the descriptors closed and links destroyed are, position by position, those of the CPUs requested |
| Profile.ShowStackTraceC | examples/c/profile.c:62-107 | the nested loops print the concatenation of the entries of the stack |
| Profile.ShowStackTraceRust | examples/rust/profile/src/main.rs:131-182 | the zipped loop prints the concatenation of the paired entries |
| Profile.FramesCByPosition | examples/c/profile.c:62-107 | frame by frame: each stack entry shows its symbol, or none, at the position that counts one frame per earlier entry and one per earlier inlined call, followed by each of its inlined calls in order, and there are no other frames; a symbolized address 0 shows as an inlined call |
| Profile.FramesRustByPosition | examples/rust/profile/src/main.rs:162-181 | the same for the entries that have an answer, with address 0 shown as itself |
| Profile.RenderersAgree | README.md:293 | the C and Rust frame sequences are equal if and only if every address has an answer and no symbolized address is 0 |
| Profile.EventHandlerC | examples/c/profile.c:110-135 | each section is the rendering of the used part of its stack, or absent |
| Profile.EventHandlerRust | examples/rust/profile/src/main.rs:184-227 | likewise, and a record that is not exactly one event of 2080 bytes is refused with 1 |
| Profile.SectionShowsWords | examples/c/profile.c:119-131 | a stack of so many bytes is rendered as exactly its whole 64-bit words, in both programs |
| Profile.EventsShowTheSame | README.md:293 | for every event the two programs show the same sections if and only if both stacks are comparable in that sense |

## Left out

- TraceconLinear.InterleavingIsLinear: gives its condition on the schedule one way only, since what an overlap spoils can be repaired by a later lookup of the same address before anything reads it.
- TraceconLinear.QuietInterleavingMatchesHistory: says nothing about the order of events of different handlers, which the schedule decides.
- BootstrapInterleaved.InterleavingIsAtomic: says nothing about the order of submissions of different processes, which the schedule decides.
- tracecon with full maps is not compared with a tracker without limits, since a dropped socket record can leave a name that the other run would have consumed.
- The family of a resolved address: the code reads four bytes without checking it, so they are not claimed to be an IPv4 address.
- The lossy UTF-8 conversion of printed names and command names; names are byte sequences here.
- Ring positions and record headers beyond the fixed record size, ring wake-ups and the consumer position; the reuse of hash map elements while a handler still holds one; loss in the perf buffer.
- The line printed for a GRE packet, whose addresses are left over from an earlier packet, and names of protocols missing from the table.
- Memory allocation failure in the profile program, which it does not check, and what destroying a link does to its descriptor.
- The text of source positions in stack frames, which the two renderers format differently.
- The command-line frameworks, signal handling, polling loops, column layout and ELF symbol search.
- The minimal, kprobe, fentry, ksyscall, uprobe, usdt, lsm, tc, task_iter and xdp demos, whose handlers one reading settles.
- The Rust `init_perf_monitor`, which has no cleanup logic.
