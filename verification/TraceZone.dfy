/** One zone of the persistent I/O trace: a ring in memory that survives a reboot, written a
    record at a time and read back as a linear log after the next boot. */
module TraceZone {
  import opened Ring

  const RECORD := 40   // sizeof(struct iotrace_record) on a 64-bit kernel

  function LastBytes<T>(hist: seq<T>, n: nat): (r: seq<T>)
    requires n <= |hist|
    ensures |r| == n
  {
    hist[|hist| - n..]
  }

  /** The ring ends with the newest `size` bytes of everything ever written. */
  ghost predicate Keeps(data: seq<byte>, start: nat, size: nat, hist: seq<byte>) {
    && start < |data| && size == Min(|hist|, |data|) && (size < |data| ==> start == size)
    && LastBytes(Get(data, start, |data|), size) == LastBytes(hist, size)
  }

  /** Writing at the start point and moving it on shifts the oldest bytes out. */
  lemma Shifted(data: seq<byte>, start: nat, t: seq<byte>)
    requires start < |data| && |t| <= |data|
    ensures var at := Cell(|data|, start, |t|);
      Get(Put(data, start, t), at, |data|) == LastBytes(Get(data, start, |data|), |data| - |t|) + t
  {
    var at, n := Cell(|data|, start, |t|), |data|;
    forall i | 0 <= i < n
      ensures Put(data, start, t)[Cell(n, at, i)] == (LastBytes(Get(data, start, n), n - |t|) + t)[i]
    {
      var d := if i + |t| < n then i + |t| else i + |t| - n;
      assert Cell(n, at, i) == Cell(n, start, d);
      PutAt(data, start, t, d);
    }
  }

  lemma LastOfSum(a: seq<byte>, b: seq<byte>, n: nat)
    requires n <= |a| + |b|
    ensures LastBytes(a + b, n) == if n >= |b| then LastBytes(a, n - |b|) + b else LastBytes(b, n)
  {
  }

  lemma LastOfLast(a: seq<byte>, n: nat, m: nat)
    requires m <= n <= |a|
    ensures LastBytes(LastBytes(a, n), m) == LastBytes(a, m)
  {
  }

  lemma LastOfAll(a: seq<byte>)
    ensures LastBytes(a, |a|) == a && LastBytes(a, 0) == []
  {
  }

  lemma LastAfterAppend(ring: seq<byte>, hist: seq<byte>, size: nat, s: seq<byte>, k: nat, size': nat)
    requires size == Min(|hist|, |ring|) && LastBytes(ring, size) == LastBytes(hist, size)
    requires k == Min(|s|, |ring|) && size' == Min(|hist| + |s|, |ring|)
    ensures LastBytes(LastBytes(ring, |ring| - k) + LastBytes(s, k), size') == LastBytes(hist + s, size')
  {
    hide LastBytes;
    LastOfSum(hist, s, size');
    LastOfSum(LastBytes(ring, |ring| - k), LastBytes(s, k), size');
    LastOfAll(s);
    if k == |s| {
      LastOfLast(ring, |ring| - k, size' - k);
      LastOfLast(ring, size, size' - k);
      LastOfLast(hist, size, size' - k);
    } else {
      LastOfAll(LastBytes(ring, 0));
      LastOfAll(ring);
    }
  }

  lemma WriteKeeps(data: seq<byte>, start: nat, size: nat, hist: seq<byte>, s: seq<byte>, k: nat)
    requires Keeps(data, start, size, hist) && k == Min(|s|, |data|)
    ensures start < |data| && size <= |data|
    ensures Keeps(Put(data, start, LastBytes(s, k)), Cell(|data|, start, k), Min(size + k, |data|), hist + s)
  {
    Shifted(data, start, LastBytes(s, k));
    LastAfterAppend(Get(data, start, |data|), hist, size, s, k, Min(|hist| + |s|, |data|));
    hide Put, Get;
  }

  /** The two copies of the boot code give the kept bytes in the order they were written. */
  lemma Linearised(data: seq<byte>, start: nat, size: nat, hist: seq<byte>)
    requires Keeps(data, start, size, hist)
    ensures start <= size && data[start..size] + data[..start] == LastBytes(hist, size)
  {
    var a, b := data[start..], data[..start];
    Rotation(data, start);
    hide Get;
    LastOfSum(a, b, size);
    if size < |data| {
      LastOfAll(a);
      assert data[start..size] == [];
    } else {
      LastOfAll(a + b);
    }
  }

  lemma Rotation(data: seq<byte>, start: nat)
    requires start < |data|
    ensures Get(data, start, |data|) == data[start..] + data[..start]
  {
  }

  // ---- a reboot in the middle of a write ----

  /** `s` when only `copied` of its last `k` bytes are written: the others are what their cells
      held before. */
  function Stale(data: seq<byte>, start: nat, s: seq<byte>, k: nat, copied: nat): (r: seq<byte>)
    requires start < |data| && copied <= k <= |data| && k <= |s|
    ensures |r| == |s| && r[..|s| - (k - copied)] == s[..|s| - (k - copied)]
  {
    s[..|s| - (k - copied)] + Get(data, start, k)[copied..]
  }

  lemma StaleEnd(data: seq<byte>, start: nat, s: seq<byte>, k: nat, copied: nat)
    requires start < |data| && copied <= k <= |data| && k <= |s|
    ensures LastBytes(Stale(data, start, s, k, copied), k) == LastBytes(s, k)[..copied] + Get(data, start, k)[copied..]
  {
    hide Get;
  }

  /** Copying the first bytes only is as good as writing the others with what is there. */
  lemma PartIsStale(data: seq<byte>, start: nat, t: seq<byte>, copied: nat)
    requires start < |data| && copied <= |t| <= |data|
    ensures Put(data, start, t[..copied]) == Put(data, start, t[..copied] + Get(data, start, |t|)[copied..])
  {
    var u := t[..copied] + Get(data, start, |t|)[copied..];
    forall c | 0 <= c < |data| ensures Put(data, start, t[..copied])[c] == Put(data, start, u)[c] {
      var d := Distance(|data|, start, c);
      PutAt(data, start, t[..copied], d);
      PutAt(data, start, u, d);
    }
  }

  lemma CutKeeps(data: seq<byte>, start: nat, size: nat, hist: seq<byte>, s: seq<byte>, t: seq<byte>, copied: nat)
    requires Keeps(data, start, size, hist) && |t| == Min(|s|, |data|) && t == LastBytes(s, |t|) && copied <= |t|
    ensures start < |data| && size <= |data|
    ensures Keeps(Put(data, start, t[..copied]), Cell(|data|, start, |t|), Min(size + |t|, |data|),
                  hist + Stale(data, start, s, |t|, copied))
  {
    InBounds(data, start, size, hist);
    hide Put, Get, Keeps, Cell, LastBytes, Stale;
    StaleEnd(data, start, s, |t|, copied);
    PartIsStale(data, start, t, copied);
    WriteKeeps(data, start, size, hist, Stale(data, start, s, |t|, copied), |t|);
  }

  /** With the new size but not yet the new start, the boot code still finds the whole old
      history at the end of the log. */
  lemma SizeOnly(data: seq<byte>, start: nat, size: nat, hist: seq<byte>, size': nat)
    requires Keeps(data, start, size, hist) && size <= size' <= |data| && start <= size'
    ensures var log := data[start..size'] + data[..start];
      |log| == size' && LastBytes(log, size) == LastBytes(hist, size)
  {
    Linearised(data, start, size, hist);
    if size < |data| {
      LastOfSum(data[start..size'], data[..start], size);
      LastOfAll(data[start..size']);
      assert data[start..size] == [];
    } else {
      LastOfAll(data[start..size'] + data[..start]);
    }
  }

  class Zone {
    const data: array<byte>
    // The header in front of the data, which a reboot leaves alone.
    var sig: bool
    var start: nat
    var size: nat
    // The driver's own copies.
    var quickStart: nat
    var quickSize: nat
    ghost var hist: seq<byte>     // everything written since the last reset

    ghost predicate Valid()
      reads this, data
    {
      && sig && size == quickSize && (size > 0 ==> start == quickStart) && quickStart < data.Length
      && Keeps(data[..], quickStart, size, hist)
    }

    /** aml_buffer_size_add */
    method SizeAdd(a: nat)
      modifies this`size, this`quickSize
      requires quickSize <= data.Length && size == quickSize
      ensures size == quickSize == Min(old(size) + a, data.Length)
    {
      if quickSize != data.Length {
        size := Min(quickSize + a, data.Length);
        quickSize := size;
      }
    }

    /** aml_persistent_ram_write: the zone keeps the newest bytes, also of a write that is longer
        than the zone. */
    method Write(s: seq<byte>)
      requires Valid()
      modifies this, data
      ensures Valid() && hist == old(hist) + s
    {
      hide Put, Get, Keeps, Cell, LastBytes, Stale;
      var k := Min(|s|, data.Length);
      assert k <= |s| && k <= data.Length;
      hide Min;
      NothingMissing(data[..], quickStart, s, k);
      ghost var n := WriteCut(s, k);
    }

    /** A write of which only the first `copied` of the bytes to be kept reach the zone. Size and
        start are set before the bytes are copied, so the rest of the new entry is what its cells
        held before. */
    method WriteCut(s: seq<byte>, copied: nat) returns (ghost stale: seq<byte>)
      requires Valid() && copied <= |s| && copied <= data.Length
      modifies this, data
      ensures stale == Stale(old(data[..]), old(quickStart), s, Min(|s|, data.Length), copied)
      ensures Valid() && hist == old(hist) + stale
    {
      hide Put, Get, Keeps, Cell, LastBytes, Stale;
      var t := Clip(s, data.Length);
      CutKeeps(data[..], quickStart, size, hist, s, t, copied);
      hide Min;
      stale := Stale(data[..], quickStart, s, |t|, copied);
      var at := quickStart;
      SizeAdd(|t|);
      quickStart := StartAdd(at, |t|, data.Length);
      start := quickStart;
      Update(data, at, t[..copied]);
      hist := hist + stale;
    }

    /** aml_persistent_ram_post_init and aml_persistent_ram_save_old, at boot, on whatever the
        memory holds: a log is saved exactly when the header is plausible, and the zone starts
        over empty. An empty zone keeps the start in its header. */
    method PostInit(cold: bool, memory: bool) returns (saved: bool, oldLog: seq<byte>)
      requires data.Length > 0
      modifies this
      ensures Valid() && hist == [] && data[..] == old(data[..])
      ensures start == if old(sig) && old(size) == 0 then old(start) else 0
      ensures saved <==> old(sig) && 0 < old(size) <= data.Length && old(start) <= old(size) && !cold && memory
      ensures saved ==> oldLog == old(data[start..size] + data[..start])
      ensures saved && old(Valid()) ==> oldLog == LastBytes(old(hist), Min(|old(hist)|, data.Length))
    {
      saved, oldLog := false, [];
      quickStart, quickSize, hist := 0, 0, [];
      if sig && size == 0 {
        return;
      }
      if sig && size <= data.Length && start <= size && !cold && memory {
        oldLog := data[start..size] + data[..start];
        saved := true;
        ghost var now := data[..];
        if Keeps(now, start, size, old(hist)) {
          Linearised(now, start, size, old(hist));
          assert now[start..size] == data[start..size] && now[..start] == data[..start];
        }
      }
      sig, start, size := true, 0, 0;
    }
  }

  lemma InBounds(data: seq<byte>, start: nat, size: nat, hist: seq<byte>)
    requires Keeps(data, start, size, hist)
    ensures start < |data| && size <= |data|
  {
  }

  lemma NothingMissing(data: seq<byte>, start: nat, s: seq<byte>, k: nat)
    requires start < |data| && k <= |data| && k <= |s|
    ensures Stale(data, start, s, k, k) == s
  {
    hide Get;
    assert Get(data, start, k)[k..] == [];
  }

  /** Of a write longer than the zone only the end is kept. */
  method Clip(s: seq<byte>, n: nat) returns (t: seq<byte>)
    ensures |t| == Min(|s|, n) && t == LastBytes(s, |t|)
  {
    t := s;
    if |t| > n {
      t := t[|t| - n..];
    }
  }

  /** One copy, or two when the end of the zone is in the way. */
  method Update(data: array<byte>, at: nat, t: seq<byte>)
    requires at < data.Length && |t| <= data.Length
    modifies data
    ensures data[..] == Put(old(data[..]), at, t)
  {
    hide Put;
    assert t[..|t|] == t;
    var _ := CopyIn(data, at, t, |t|);
  }

  /** The start point wraps by subtraction. */
  method StartAdd(oldStart: nat, a: nat, size: nat) returns (start: nat)
    requires oldStart < size && a <= size
    ensures start == Cell(size, oldStart, a)
  {
    start := oldStart + a;
    while start >= size
      invariant start == oldStart + a || start == oldStart + a - size
    {
      start := start - size;
    }
  }

  // ---- whole records ----

  type Record = r: seq<byte> | |r| == 40 witness seq(40, _ => 0)

  /** The records laid end to end in a log. */
  function Records(log: seq<byte>): (r: seq<Record>)
    requires |log| % RECORD == 0
    ensures |r| == |log| / RECORD
    decreases |log|
  {
    if |log| == 0 then [] else [log[..RECORD]] + Records(log[RECORD..])
  }

  lemma {:induction false} RecordAt(log: seq<byte>, i: nat)
    requires |log| % RECORD == 0 && RECORD * i < |log|
    ensures i < |Records(log)| && RECORD * i + RECORD <= |log|
    ensures Records(log)[i] == log[RECORD * i..RECORD * i + RECORD]
    decreases i
  {
    if i == 0 {
      assert Records(log)[0] == log[..RECORD];
    } else {
      RecordAt(log[RECORD..], i - 1);
      assert log[RECORD..][RECORD * (i - 1)..RECORD * i] == log[RECORD * i..RECORD * i + RECORD];
    }
  }

  /** Readers skip the remainder of the size at the front. */
  function Skipped(log: seq<byte>): seq<byte> {
    log[|log| % RECORD..]
  }

  lemma {:induction false} RecordsSplit(a: seq<byte>, b: seq<byte>)
    requires |a| % RECORD == 0 && |b| % RECORD == 0
    ensures Records(a + b) == Records(a) + Records(b)
    decreases |a|
  {
    if |a| == 0 {
      assert a + b == b;
    } else {
      assert (a + b)[..RECORD] == a[..RECORD] && (a + b)[RECORD..] == a[RECORD..] + b;
      RecordsSplit(a[RECORD..], b);
    }
  }

  /** When only whole records were written, what a reader sees after the skip is exactly the
      newest whole records that fit, never a part of one. */
  lemma SkipFindsRecords(hist: seq<byte>, n: nat)
    requires |hist| % RECORD == 0 && n <= |hist|
    ensures |Skipped(LastBytes(hist, n))| % RECORD == 0
    ensures Records(Skipped(LastBytes(hist, n))) == LastBytes(Records(hist), n / RECORD)
  {
    var m := n - n % RECORD;
    var a, b := hist[..|hist| - m], hist[|hist| - m..];
    assert Skipped(LastBytes(hist, n)) == b && a + b == hist;
    RecordsSplit(a, b);
  }
}
