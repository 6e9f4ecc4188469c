/** The entries of the Android logger and the bytes they become: `struct logger_entry`
    followed by the message, in little-endian order. */
module LogEntry {
  import opened Kernel
  import opened Ring

  const HEADER: nat := 24          // sizeof(struct logger_entry)
  const COMPAT_HEADER: nat := 20   // sizeof(struct user_logger_entry_compat)
  const MAX_PAYLOAD: nat := 4076   // LOGGER_ENTRY_MAX_PAYLOAD

  datatype Header = Header(len: u16, hdrSize: u16, pid: s32, tid: s32, sec: s32, nsec: s32, euid: u32)

  datatype Entry = Entry(header: Header, payload: seq<byte>)

  predicate WellFormed(e: Entry) {
    0 < |e.payload| == e.header.len <= MAX_PAYLOAD && e.header.hdrSize == HEADER
  }

  // ---- encoding ----

  function Le2(x: u16): (b: seq<byte>)
    ensures |b| == 2
  {
    [x % 256, x / 256]
  }

  function Le4(x: u32): (b: seq<byte>)
    ensures |b| == 4
  {
    [x % 256, x / 0x100 % 256, x / 0x1_0000 % 256, x / 0x100_0000]
  }

  function Unsigned(x: s32): u32 {
    if x < 0 then x + 0x1_0000_0000 else x
  }

  function Encode(h: Header): (b: seq<byte>)
    ensures |b| == HEADER
  {
    Le2(h.len) + Le2(h.hdrSize) + Le4(Unsigned(h.pid)) + Le4(Unsigned(h.tid))
    + Le4(Unsigned(h.sec)) + Le4(Unsigned(h.nsec)) + Le4(h.euid)
  }

  function From2(b: seq<byte>, at: nat): u16
    requires at + 2 <= |b|
  {
    b[at] as int + 0x100 * (b[at + 1] as int)
  }

  function From4(b: seq<byte>, at: nat): u32
    requires at + 4 <= |b|
  {
    b[at] as int + 0x100 * (b[at + 1] as int) + 0x1_0000 * (b[at + 2] as int)
    + 0x100_0000 * (b[at + 3] as int)
  }

  function Signed(x: u32): s32 {
    if x < 0x8000_0000 then x else x - 0x1_0000_0000
  }

  function Decode(b: seq<byte>): Header
    requires |b| == HEADER
  {
    Header(From2(b, 0), From2(b, 2), Signed(From4(b, 4)), Signed(From4(b, 8)),
           Signed(From4(b, 12)), Signed(From4(b, 16)), From4(b, 20))
  }

  lemma Le4Sum(x: u32)
    ensures x % 256 + 0x100 * (x / 0x100 % 256) + 0x1_0000 * (x / 0x1_0000 % 256) + 0x100_0000 * (x / 0x100_0000) == x
  {
    assert x / 0x1_0000 == x / 0x100 / 0x100;
    assert x / 0x100_0000 == x / 0x1_0000 / 0x100;
  }

  lemma Le4RoundTrip(b: seq<byte>, at: nat, x: u32)
    requires at + 4 <= |b| && b[at..at + 4] == Le4(x)
    ensures From4(b, at) == x
  {
    var w := b[at..at + 4];
    Le4Sum(x);
    assert b[at] == w[0] && b[at + 1] == w[1] && b[at + 2] == w[2] && b[at + 3] == w[3];
  }

  /** Every header field survives the trip through the buffer. */
  lemma HeaderRoundTrip(h: Header)
    ensures Decode(Encode(h)) == h
  {
    var b := Encode(h);
    Le4RoundTrip(b, 4, Unsigned(h.pid));
    Le4RoundTrip(b, 8, Unsigned(h.tid));
    Le4RoundTrip(b, 12, Unsigned(h.sec));
    Le4RoundTrip(b, 16, Unsigned(h.nsec));
    Le4RoundTrip(b, 20, h.euid);
  }

  /** The header in the form a reader of ABI version `ver` asked for. */
  function UserHeader(ver: int, h: Header): (b: seq<byte>)
    ensures |b| == UserHeaderLen(ver)
  {
    if ver < 2 then
      Le2(h.len) + [0, 0] + Le4(Unsigned(h.pid)) + Le4(Unsigned(h.tid))
      + Le4(Unsigned(h.sec)) + Le4(Unsigned(h.nsec))
    else Encode(h)
  }

  function UserHeaderLen(ver: int): nat {
    if ver < 2 then COMPAT_HEADER else HEADER
  }

  /** Bytes `b` hold the five fields that both header versions have, at their offsets. */
  predicate CommonFields(b: seq<byte>, h: Header) {
    && |b| >= COMPAT_HEADER && From2(b, 0) == h.len
    && Signed(From4(b, 4)) == h.pid && Signed(From4(b, 8)) == h.tid
    && Signed(From4(b, 12)) == h.sec && Signed(From4(b, 16)) == h.nsec
  }

  lemma FieldsAt(b: seq<byte>, h: Header)
    requires |b| >= COMPAT_HEADER && b[..2] == Le2(h.len)
    requires b[4..8] == Le4(Unsigned(h.pid)) && b[8..12] == Le4(Unsigned(h.tid))
    requires b[12..16] == Le4(Unsigned(h.sec)) && b[16..20] == Le4(Unsigned(h.nsec))
    ensures CommonFields(b, h)
  {
    hide Le4;
    Le4RoundTrip(b, 4, Unsigned(h.pid));
    Le4RoundTrip(b, 8, Unsigned(h.tid));
    Le4RoundTrip(b, 12, Unsigned(h.sec));
    Le4RoundTrip(b, 16, Unsigned(h.nsec));
    assert b[0] == b[..2][0] && b[1] == b[..2][1];
  }

  /** The header a reader is handed, field by field: 20 bytes with zeros after the length in
      version 1, 24 bytes with the header's size there and the uid at the end in version 2. */
  lemma UserHeaderLayout(ver: int, h: Header)
    ensures var b := UserHeader(ver, h);
      && CommonFields(b, h)
      && if ver < 2 then |b| == 20 && From2(b, 2) == 0
         else |b| == 24 && From2(b, 2) == h.hdrSize && From4(b, 20) == h.euid
  {
    hide Le4, From4, Unsigned, Signed;
    var b := UserHeader(ver, h);
    FieldsAt(b, h);
    if ver >= 2 {
      Le4RoundTrip(b, 20, h.euid);
    }
  }

  /** What one read() of `e` hands to user space. */
  function UserBytes(ver: int, e: Entry): seq<byte> {
    UserHeader(ver, e.header) + e.payload
  }

  // ---- history ----

  function EntryBytes(e: Entry): (b: seq<byte>)
    ensures |b| == HEADER + |e.payload|
  {
    Encode(e.header) + e.payload
  }

  /** All bytes ever committed: what an unbounded log would hold. */
  function Hist(es: seq<Entry>): seq<byte> {
    if es == [] then [] else Hist(es[..|es| - 1]) + EntryBytes(es[|es| - 1])
  }

  /** The logical offset of entry boundary `k`. */
  function Pos(es: seq<Entry>, k: nat): nat
    requires k <= |es|
  {
    |Hist(es[..k])|
  }

  lemma HistOfAll(es: seq<Entry>)
    ensures Pos(es, |es|) == |Hist(es)|
  {
    assert es[..|es|] == es;
  }

  lemma PosStep(es: seq<Entry>, k: nat)
    requires k < |es|
    ensures Pos(es, k + 1) == Pos(es, k) + HEADER + |es[k].payload|
    ensures Hist(es[..k + 1]) == Hist(es[..k]) + EntryBytes(es[k])
  {
    assert es[..k + 1][..k] == es[..k];
  }

  /** Later boundaries lie further on, and earlier bytes are never rewritten. */
  lemma {:induction false} PosMonotone(es: seq<Entry>, j: nat, k: nat)
    requires j <= k <= |es|
    ensures Pos(es, j) + HEADER * (k - j) <= Pos(es, k)
    ensures Hist(es[..k])[..Pos(es, j)] == Hist(es[..j])
    decreases k - j
  {
    if j == k {
    } else {
      PosMonotone(es, j, k - 1);
      PosStep(es, k - 1);
    }
  }

  lemma SliceOfSum<T>(h: seq<T>, a: seq<T>, b: seq<T>, c: seq<T>)
    requires |a| + |b| + |c| <= |h| && h[..|a| + |b| + |c|] == a + (b + c)
    ensures h[|a|..|a| + |b|] == b && h[|a| + |b|..|a| + |b| + |c|] == c
  {
    var s := a + (b + c);
    assert s[|a|..|a| + |b|] == b && s[|a| + |b|..] == c;
    assert h[|a|..|a| + |b|] == s[|a|..|a| + |b|];
  }

  /** The bytes between two neighbouring boundaries are the entry between them. */
  lemma EntryAt(es: seq<Entry>, k: nat)
    requires k < |es|
    ensures Pos(es, k) + HEADER + |es[k].payload| == Pos(es, k + 1) <= |Hist(es)|
    ensures Hist(es)[Pos(es, k)..Pos(es, k) + HEADER] == Encode(es[k].header)
    ensures Hist(es)[Pos(es, k) + HEADER..Pos(es, k + 1)] == es[k].payload
  {
    hide Hist, Encode;
    PosStep(es, k);
    PosMonotone(es, k + 1, |es|);
    assert es[..|es|] == es;
    SliceOfSum(Hist(es), Hist(es[..k]), Encode(es[k].header), es[k].payload);
  }

  lemma AppendKeepsPos(es: seq<Entry>, e: Entry, k: nat)
    requires k <= |es|
    ensures Pos(es + [e], k) == Pos(es, k)
    ensures Hist(es + [e]) == Hist(es) + EntryBytes(e)
  {
    hide Encode;
    assert (es + [e])[..k] == es[..k];
    assert (es + [e])[..|es|] == es;
  }

  /** The sizes of the entries in `es`, summed entry by entry. */
  function TotalSize(es: seq<Entry>): nat {
    if es == [] then 0 else HEADER + |es[0].payload| + TotalSize(es[1..])
  }

  lemma {:induction false} UnreadIsTotalSize(es: seq<Entry>, k: nat)
    requires k <= |es|
    ensures TotalSize(es[k..]) == |Hist(es)| - Pos(es, k)
    decreases |es| - k
  {
    if k == |es| {
      HistOfAll(es);
    } else {
      UnreadIsTotalSize(es, k + 1);
      PosStep(es, k);
      assert es[k..][1..] == es[k + 1..];
    }
  }
}
