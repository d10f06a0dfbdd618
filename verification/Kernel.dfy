/** The parts of the BPF runtime that the modelled programs rely on: bounded hash maps,
    the packed process and thread identifier, and fixed-size string buffers. */
module Kernel {

  datatype Option<+T> = None | Some(value: T)

  type byte = b: int | 0 <= b < 0x100
  type u32 = x: int | 0 <= x < 0x1_0000_0000
  type u64 = x: int | 0 <= x < 0x1_0000_0000_0000_0000

  const TWO_32: int := 0x1_0000_0000
  const TWO_64: int := 0x1_0000_0000_0000_0000

  // ---------- hash maps ----------

  function Get<K, V>(m: map<K, V>, k: K): Option<V> {
    if k in m then Some(m[k]) else None
  }

  /** An update is refused exactly when it needs a new entry and the map is full.
      `None` stands for a map without a limit. */
  predicate Refused<K, V>(m: map<K, V>, limit: Option<nat>, k: K) {
    limit.Some? && k !in m && limit.value <= |m|
  }

  /** The map after an update whose return code the caller ignores. */
  function Updated<K, V>(m: map<K, V>, limit: Option<nat>, k: K, v: V): map<K, V> {
    if Refused(m, limit, k) then m else m[k := v]
  }

  // ---------- when maps fill ----------

  predicate Within<T>(s: set<T>, limit: Option<nat>) {
    limit.Some? ==> |s| <= limit.value
  }

  lemma {:induction false} SubsetSize<T>(a: set<T>, b: set<T>)
    requires a <= b
    ensures |a| <= |b|
  {
    if a != {} {
      var x :| x in a;
      SubsetSize(a - {x}, b - {x});
    }
  }

  /** A full map together with a key it lacks outnumbers its limit. */
  lemma RefusalOverflows<K, V>(m: map<K, V>, limit: Option<nat>, k: K, wanted: set<K>)
    requires Refused(m, limit, k)
    requires m.Keys + {k} <= wanted
    ensures !Within(wanted, limit)
  {
    SubsetSize(m.Keys + {k}, wanted);
  }

  /** An accepted update keeps the key set within the limit. */
  lemma AcceptedStaysWithin<K, V>(m: map<K, V>, limit: Option<nat>, k: K)
    requires !Refused(m, limit, k) && Within(m.Keys, limit)
    ensures Within(m.Keys + {k}, limit)
  {
    if k in m {
      assert m.Keys + {k} == m.Keys;
    }
  }

  // ---------- counting ----------

  function Ones(b: bool): nat { if b then 1 else 0 }

  // ---------- process and thread identifiers ----------

  /** The 64-bit identifier of the current task, as its upper and lower half. */
  datatype PidTgid = PidTgid(upper: u32, lower: u32)

  /** A 32-bit pattern read as the signed `pid_t`. */
  function AsPid(x: u32): int {
    if x < 0x8000_0000 then x else x - TWO_32
  }

  function Tgid(id: PidTgid): int { AsPid(id.upper) }

  function ThreadId(id: PidTgid): u32 { id.lower }

  /** `pid_t` keeps the 32-bit pattern: it is the one number in its range that agrees modulo 2 to the 32nd. */
  lemma PidKeepsPattern(x: u32, p: int)
    ensures AsPid(x) == p <==> -0x8000_0000 <= p < 0x8000_0000 && (p - x) % TWO_32 == 0
  {
    if -0x8000_0000 <= p < 0x8000_0000 && (p - x) % TWO_32 == 0 {
      var k := (p - x) / TWO_32;
      assert p - x == k * TWO_32;
      assert k == 0 || k == -1;
    }
  }

  // ---------- fixed-size string buffers ----------

  /** What a reader of a NUL-terminated string sees in a buffer. */
  function CString(buf: seq<byte>): seq<byte> {
    if buf == [] || buf[0] == 0 then [] else [buf[0]] + CString(buf[1..])
  }

  /** The string at `src`, cut so that it fits a buffer of `size` bytes with its NUL. */
  function Cut(src: seq<byte>, size: nat): seq<byte>
    requires 0 < size
  {
    var s := CString(src);
    if |s| < size then s else s[..size - 1]
  }

  /** Copies the string at `src` into `buf`; the bytes after the NUL keep what they held. */
  function StoreString(buf: seq<byte>, src: seq<byte>): (r: seq<byte>)
    requires 0 < |buf|
    ensures |r| == |buf|
  {
    CStringShape(src);
    var s := Cut(src, |buf|);
    s + [0] + buf[|s| + 1..]
  }

  function Zeros(n: nat): (r: seq<byte>)
    ensures |r| == n
  {
    seq(n, i => 0)
  }

  lemma {:induction false} CStringShape(buf: seq<byte>)
    ensures |CString(buf)| <= |buf|
    ensures CString(buf) == buf[..|CString(buf)|]
    ensures 0 !in CString(buf)
    ensures |CString(buf)| < |buf| ==> buf[|CString(buf)|] == 0
  {
    if buf != [] && buf[0] != 0 {
      CStringShape(buf[1..]);
    }
  }

  lemma {:induction false} CStringOfTerminated(s: seq<byte>, rest: seq<byte>)
    requires 0 !in s
    ensures CString(s + [0] + rest) == s
  {
    var buf := s + [0] + rest;
    if s != [] {
      assert buf[1..] == s[1..] + [0] + rest;
      CStringOfTerminated(s[1..], rest);
    }
  }

  /** The memory at `src` starts with the string `s`: its NUL, or the end of what can be read, is right
      behind it. */
  predicate HoldsString(src: seq<byte>, s: seq<byte>) {
    && 0 !in s && |s| <= |src| && src[..|s|] == s
    && (|s| < |src| ==> src[|s|] == 0)
  }

  /** A string cut so that it and its NUL fit `size` bytes. */
  function Fitted(s: seq<byte>, size: nat): seq<byte>
    requires 0 < size
  {
    if |s| < size then s else s[..size - 1]
  }

  lemma {:induction false} StringIsUnique(src: seq<byte>, s: seq<byte>)
    requires HoldsString(src, s)
    ensures CString(src) == s
  {
    if s != [] {
      assert s[0] in s && src[0] == src[..|s|][0];
      forall i | 0 <= i < |s| - 1 ensures src[1..][i] == s[1..][i] {
        assert src[..|s|][i + 1] == s[i + 1];
      }
      StringIsUnique(src[1..], s[1..]);
    }
  }

  /** Every piece of memory starts with exactly one string. */
  lemma OneStringAt(src: seq<byte>, s: seq<byte>)
    ensures HoldsString(src, s) <==> s == CString(src)
  {
    CStringShape(src);
    if HoldsString(src, s) {
      StringIsUnique(src, s);
    }
  }

  lemma CutIsFitted(src: seq<byte>, s: seq<byte>, size: nat)
    requires HoldsString(src, s) && 0 < size
    ensures Cut(src, size) == Fitted(s, size)
  {
    StringIsUnique(src, s);
  }

  lemma StoredStringReadsCut(buf: seq<byte>, src: seq<byte>)
    requires 0 < |buf|
    ensures CString(StoreString(buf, src)) == Cut(src, |buf|)
  {
    CStringShape(src);
    var s := Cut(src, |buf|);
    CStringOfTerminated(s, buf[|s| + 1..]);
  }

  /** Whatever the buffer held before, after a string was stored it holds all of that string that fits, and
      its bytes behind the NUL are untouched. */
  lemma StoredStringReadsBack(buf: seq<byte>, src: seq<byte>, s: seq<byte>)
    requires 0 < |buf| && HoldsString(src, s)
    ensures var kept, after := if |s| < |buf| then s else s[..|buf| - 1], StoreString(buf, src);
            && HoldsString(after, kept) && CString(after) == kept
            && |after| == |buf| && after[|kept| + 1..] == buf[|kept| + 1..]
  {
    CutIsFitted(src, s, |buf|);
    StoredStringReadsCut(buf, src);
    CStringShape(StoreString(buf, src));
  }
}
