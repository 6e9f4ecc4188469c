/** The Android logger itself: a power-of-two byte ring with a write offset, a start head
    and any number of open readers, all updated in place. Each method is tied to a step of
    the unbounded log of `LogRuns` through `LogRing.StandsFor`. */
module Logger {
  import opened Kernel
  import opened Ring
  import opened LogEntry
  import opened LogEffects
  import opened LogRuns
  import opened LogWindow
  import opened LogRing

  datatype WriteResult = Nothing | Written(firstSegment: nat) | WriteFault

  datatype ReadResult = WouldBlock | BufferTooSmall | ReadFault | Data(bytes: seq<byte>)

  /** What a read of `count` bytes by `uid` must answer. */
  function ReadOutcome(s: Log, i: nat, uid: u32, count: nat, fault: bool): ReadResult
    requires InRange(s) && i < |s.readers|
  {
    var r := SeekReader(s.entries, s.readers[i], uid);
    if r.k == |s.entries| then WouldBlock
    else
      var bytes := UserBytes(r.ver, s.entries[r.k]);
      if count < |bytes| then BufferTooSmall else if fault then ReadFault else Data(bytes)
  }

  /** Reader `i` sits on an entry that user `uid` may see. */
  predicate MayRead(s: Log, i: nat, uid: u32) {
    && InRange(s) && i < |s.readers| && s.readers[i].k < |s.entries|
    && (s.readers[i].all || s.entries[s.readers[i].k].header.euid == uid)
  }

  /** A write of `len` bytes has room in `s`. */
  ghost predicate RoomFor(s: Log, len: nat) {
    InRange(s) && Fits(s, len)
  }

  /** The log takes the step of a write of `e`, of which `readable` payload bytes can be read. */
  ghost predicate Commits(s: Log, s': Log, e: Entry, readable: nat) {
    && InRange(s) && Enabled(s, WriteEvent(e, readable)) && s' == Step(s, WriteEvent(e, readable))
    && if readable >= |e.payload| then Writes(s, s', e)
       else Pulls(s, s', HEADER + |e.payload|) && s'.entries == s.entries
  }

  /** All that a read does: it goes to the next entry the reader may see, and hands that over if it
      is there, fits the buffer and can be stored. */
  ghost predicate ReadDid(s: Log, s': Log, i: nat, uid: u32, count: nat, fault: bool, res: ReadResult) {
    exists x: nat :: NextFor(s, i, uid, x) &&
      if x == |s.entries| then res == WouldBlock && Seeks(s, s', i, uid, x)
      else if count < |UserBytes(s.readers[i].ver, s.entries[x])| then res == BufferTooSmall && Seeks(s, s', i, uid, x)
      else if fault then res == ReadFault && Seeks(s, s', i, uid, x)
      else res.Data? && HandsOver(s, s', i, uid, x, res.bytes)
  }

  lemma ReadDidIt(s: Log, i: nat, uid: u32, count: nat, fault: bool, res: ReadResult)
    requires InRange(s) && i < |s.readers| && res == ReadOutcome(s, i, uid, count, fault)
    ensures ReadDid(s, Step(s, if res.Data? then Event.Read(i, uid) else Seek(i, uid)), i, uid, count, fault, res)
  {
    NextIsFirst(s, i, uid);
    var x := SeekEffect(s, i, uid);
    var y := ReadEffect(s, i, uid);
    hide Step, NextFor, Skipped, UserBytes;
    OneNext(s, i, uid, x, y);
    OneNext(s, i, uid, x, SeekReader(s.entries, s.readers[i], uid).k);
    SkippedFields(s.readers[i], SeekReader(s.entries, s.readers[i], uid), x, Filtered(uid));
    hide SeekReader;
  }

  lemma HandsOverHere(s: Log, i: nat, uid: u32)
    requires MayRead(s, i, uid)
    ensures HandsOver(s, Step(s, Event.Read(i, uid)), i, uid, s.readers[i].k,
                      UserBytes(s.readers[i].ver, s.entries[s.readers[i].k]))
  {
    var x := ReadEffect(s, i, uid);
    hide Step;
    assert x == s.readers[i].k by {
      assert x > s.readers[i].k ==> !MaySee(s, i, uid, s.readers[i].k);
    }
  }

  lemma CommitEffect(s: Log, e: Entry, readable: nat)
    requires InRange(s) && WellFormed(e) && Fits(s, HEADER + |e.payload|)
    ensures Commits(s, Step(s, WriteEvent(e, readable)), e, readable)
  {
    hide Writes, Pulls, Fits, WellFormed;
    StepEffect(s, WriteEvent(e, readable));
    hide Step;
  }

  lemma OneNext(s: Log, i: nat, uid: u32, x: nat, y: nat)
    requires NextFor(s, i, uid, x) && NextFor(s, i, uid, y)
    ensures x == y
  {
  }

  /** How many of `n` payload bytes from cell `to` on land behind a ring of `size` cells: those
      that neither the rest of the ring nor a whole further lap can take. */
  function Spill(size: nat, to: nat, n: nat): (k: nat)
    requires to < size
    ensures k > 0 <==> n > 2 * size - to
  {
    if n > 2 * size - to then n - (2 * size - to) else 0
  }

  lemma NoRoomOverlong(s: Log, len: nat)
    requires InRange(s) && len > s.size
    ensures !Fits(s, len)
  {
  }

  lemma NothingBeyond(m: seq<byte>, payload: seq<byte>, end: nat)
    requires end <= |payload|
    ensures Patched(m, 0, payload[end..end]) == m
  {
  }

  lemma SliceOfSlice(s: seq<byte>, a: nat, c: nat, b: nat)
    requires a <= b <= c <= |s|
    ensures s[a..c][b - a..] == s[b..c] && s[a..c][..b - a] == s[a..b]
  {
  }

  lemma OneStretch(buf: seq<byte>, off: nat, a: seq<byte>, payload: seq<byte>, n: nat)
    requires off < |buf| && |a| <= |buf| && n <= |payload| && Wrap(off + |a|, |buf|) + n <= |buf|
    ensures PutEach(buf, off, a + payload[..n]) == Put(Put(buf, off, a), Wrap(off + |a|, |buf|), payload[..n])
  {
    hide Put, PutEach, Wrap;
    PutEachInParts(buf, off, a, payload[..n], []);
    assert payload[..n] + [] == payload[..n];
    PutNothing(Put(Put(buf, off, a), Wrap(off + |a|, |buf|), payload[..n]), 0);
  }

  lemma TwoStretches(buf: seq<byte>, off: nat, a: seq<byte>, payload: seq<byte>, m: nat, n: nat)
    requires off < |buf| && |a| <= |buf| && m <= n <= |payload| && n - m <= |buf|
    requires Wrap(off + |a|, |buf|) + m <= |buf| && (m == n || Wrap(off + |a|, |buf|) + m == |buf|)
    ensures PutEach(buf, off, a + payload[..n]) ==
      Put(Put(Put(buf, off, a), Wrap(off + |a|, |buf|), payload[..m]), 0, payload[m..n])
  {
    hide Put, PutEach, Wrap;
    PutEachInParts(buf, off, a, payload[..m], payload[m..n]);
    assert payload[..n] == payload[..m] + payload[m..n];
  }

  class LoggerLog {
    const size: nat
    const buffer: array<byte>
    const beyond: array<byte>   // whatever lies behind the buffer
    var wOff: nat
    var head: nat
    var readers: seq<Handle>
    ghost var log: Log    // the unbounded log this ring stands for

    ghost function View(): RingState
      reads this, buffer
    {
      RingState(buffer[..], wOff, head, readers)
    }

    ghost predicate Shaped()
      reads this, buffer
    {
      && buffer.Length == size && IsPow2(size) && InBounds(View())
      && beyond != buffer && beyond.Length == MAX_PAYLOAD
    }

    ghost predicate Valid()
      reads this, buffer
    {
      Shaped() && log.size == size && StandsFor(View(), log)
    }

    constructor (size: nat)
      requires IsPow2(size) && HEADER <= size
      ensures Valid() && fresh(buffer) && fresh(beyond) && log == Created(size)
    {
      this.size := size;
      buffer := new byte[size](_ => 0);
      beyond := new byte[MAX_PAYLOAD](_ => 0);
      wOff, head, readers := 0, 0, [];
      log := Created(size);
    }

    /** `n & (size - 1)` */
    method Offset(n: nat) returns (off: nat)
      requires IsPow2(size)
      ensures off == Wrap(n, size)
    {
      off := And(n, size - 1);
      ghost var k :| size == Pow2(k);
      MaskIsModulo(n, k);
      WrapIsModulo(n, size);
    }

    method GetEntryHeader(off: nat) returns (h: Header)
      requires off < buffer.Length && HEADER <= buffer.Length
      ensures h == HeaderAt(buffer[..], off)
    {
      var b := CopyOut(buffer, off, HEADER);
      h := Decode(b);
    }

    // ---- writing ----

    /** The first entry at least `len` bytes on, found by stepping over headers. */
    method GetNextEntry(start: nat, len: nat) returns (off: nat)
      requires start < buffer.Length == size && HEADER <= size && IsPow2(size)
      ensures off == Scan(buffer[..], start, len, 0)
    {
      hide HeaderAt, Wrap;
      var count := 0;
      off := start;
      var done := false;
      while !done
        invariant off < buffer.Length
        invariant Scan(buffer[..], start, len, 0) == if done then off else Scan(buffer[..], off, len, count)
        decreases !done, len - count
      {
        var h := GetEntryHeader(off);
        var nr := HEADER + h.len;
        off := Offset(off + nr);
        count := count + nr;
        done := count >= len;
      }
    }

    /** Pull the start head and every reader that a write of `len` bytes would reach. */
    method FixUpReaders(len: nat)
      requires Shaped()
      modifies this`head, this`readers
      ensures Shaped() && View() == FixUpAll(old(View()), len)
    {
      hide Scan, IsBetween, IsPow2, Wrap;
      ghost var v := FixUpAll(View(), len);
      var end := Offset(wOff + len);
      if IsBetween(wOff, end, head) {
        head := GetNextEntry(head, len);
      }
      for i := 0 to |readers|
        invariant |readers| == |v.readers| && head == v.head
        invariant forall j :: 0 <= j < i ==> readers[j] == v.readers[j]
        invariant forall j :: i <= j < |readers| ==> readers[j] == old(readers)[j]
      {
        if IsBetween(wOff, end, readers[i].rOff) {
          var off := GetNextEntry(readers[i].rOff, len);
          readers := readers[i := readers[i].(rOff := off)];
        }
      }
    }

    /** Lay down a header and as much of the payload as user memory supplies. */
    method CopyEntry(header: Header, payload: seq<byte>, readable: nat) returns (ok: bool)
      requires Shaped() && HEADER + |payload| <= size
      modifies buffer
      ensures Shaped()
      ensures ok <==> readable >= |payload|
      ensures View() == old(View()).(buf := Put(old(buffer[..]), wOff, Encode(header) + payload[..Min(readable, |payload|)]))
    {
      hide Put, Wrap, IsPow2, Encode;
      var _ := CopyIn(buffer, wOff, Encode(header), HEADER);
      assert Encode(header)[..HEADER] == Encode(header);
      var to := Offset(wOff + HEADER);
      PutPut(old(buffer[..]), wOff, Encode(header), payload[..Min(readable, |payload|)]);
      ok := CopyIn(buffer, to, payload, readable);
    }

    /** Move the write offset over an entry that has been laid down. */
    method Advance(count: nat)
      requires Shaped() && HEADER + count <= size
      modifies this`wOff
      ensures Shaped() && View() == old(View()).(wOff := Wrap(old(wOff) + HEADER + count, size))
    {
      hide IsPow2, Wrap;
      var to := Offset(wOff + HEADER);
      WrapTwice(wOff + HEADER, count, size);
      wOff := Offset(to + count);
    }

    /** Lay down one entry and, if all of it could be read, commit it. */
    method Append(header: Header, payload: seq<byte>, readable: nat) returns (ok: bool)
      requires Shaped() && HEADER + |payload| <= size
      modifies this`wOff, this`head, this`readers, buffer
      ensures Shaped()
      ensures ok <==> readable >= |payload|
      ensures View() == AfterWrite(old(View()), Entry(header, payload), readable)
    {
      hide Put, Wrap, Encode, InBounds, FixUpAll, IsPow2;
      FixUpReaders(HEADER + |payload|);
      ok := CopyEntry(header, payload, readable);
      if ok {
        Advance(|payload|);
      }
    }

    method Store(header: Header, payload: seq<byte>, readable: nat) returns (ok: bool)
      requires Valid() && WellFormed(Entry(header, payload)) && HEADER + |payload| <= size
      modifies this, buffer
      ensures Shaped() && (ok <==> readable >= |payload|)
      ensures View() == AfterWrite(old(View()), Entry(header, payload), readable)
      ensures RoomFor(old(log), HEADER + |payload|) ==> Valid() && Commits(old(log), log, Entry(header, payload), readable)
    {
      hide StandsFor, Fits, Wrap, AfterWrite, InBounds, IsPow2, Commits;
      StandsForInBounds(View(), log);
      ok := Append(header, payload, readable);
      if Fits(log, HEADER + |payload|) {
        AnyWriteRefines(old(View()), log, Entry(header, payload), readable);
        CommitEffect(log, Entry(header, payload), readable);
        log := Step(log, WriteEvent(Entry(header, payload), readable));
      }
    }

    /** The second copy of a payload that is longer than the ring: it goes on behind the
        buffer. */
    method CopyRest(rest: seq<byte>) returns (spilled: nat)
      requires Shaped() && |rest| <= MAX_PAYLOAD
      modifies buffer, beyond
      ensures Shaped() && spilled == if |rest| > size then |rest| - size else 0
      ensures buffer[..] == Put(old(buffer[..]), 0, rest[..|rest| - spilled])
      ensures beyond[..] == Patched(old(beyond[..]), 0, rest[|rest| - spilled..])
    {
      hide Patched, Put, IsPow2;
      var inside := Min(|rest|, size);
      CopyFlat(buffer, 0, rest[..inside]);
      Copy(beyond, 0, rest[inside..]);
      spilled := |rest| - inside;
    }

    /** A write that does not fit into the ring at all is not refused. It runs over itself, and
        with more than the ring's size left for the second copy it runs out of the buffer. */
    method StoreOverlong(header: Header, payload: seq<byte>, readable: nat) returns (ok: bool, spilled: nat)
      requires Shaped() && |payload| <= MAX_PAYLOAD
      modifies this`wOff, this`head, this`readers, buffer, beyond
      ensures Shaped() && (ok <==> readable >= |payload|)
      ensures spilled == Spill(size, Wrap(old(wOff) + HEADER, size), Min(readable, |payload|))
      ensures View() == AfterAnyWrite(old(View()), Entry(header, payload), readable, spilled)
      ensures beyond[..] ==
              Patched(old(beyond[..]), 0, payload[Min(readable, |payload|) - spilled..Min(readable, |payload|)])
    {
      hide Wrap, Encode, FixUpAll, IsPow2, Patched, PutEach;
      FixUpReaders(HEADER + |payload|);
      spilled := CopyOverlong(header, payload, readable);
      ok := readable >= |payload|;
      var to := Offset(wOff + HEADER);
      WrapTwice(wOff + HEADER, |payload|, size);
      if ok {
        wOff := Offset(to + |payload|);
      }
    }

    /** Header, first stretch of the payload up to the end of the buffer, and the rest. */
    method CopyOverlong(header: Header, payload: seq<byte>, readable: nat) returns (spilled: nat)
      requires Shaped() && |payload| <= MAX_PAYLOAD
      modifies buffer, beyond
      ensures Shaped()
      ensures spilled == Spill(size, Wrap(wOff + HEADER, size), Min(readable, |payload|))
      ensures buffer[..] ==
              PutEach(old(buffer[..]), wOff, Encode(header) + payload[..Min(readable, |payload|) - spilled])
      ensures beyond[..] ==
              Patched(old(beyond[..]), 0, payload[Min(readable, |payload|) - spilled..Min(readable, |payload|)])
    {
      hide Put, Wrap, Encode, IsPow2, Patched, PutEach;
      ghost var before := buffer[..];
      var _ := CopyIn(buffer, wOff, Encode(header), HEADER);
      assert Encode(header)[..HEADER] == Encode(header);
      var to := Offset(wOff + HEADER);
      var len := Min(|payload|, size - to);
      var end := Min(readable, |payload|);
      if readable < len {
        CopyFlat(buffer, to, payload[..readable]);
        OneStretch(before, wOff, Encode(header), payload, end);
        NothingBeyond(beyond[..], payload, end);
        return 0;
      }
      CopyFlat(buffer, to, payload[..len]);
      spilled := CopyRest(payload[len..end]);
      SliceOfSlice(payload, len, end, end - spilled);
      TwoStretches(before, wOff, Encode(header), payload, len, end - spilled);
    }

    method StoreAny(e: Entry, readable: nat) returns (ok: bool, spilled: nat)
      requires Valid() && WellFormed(e)
      modifies this, buffer, beyond
      ensures Shaped() && (ok <==> readable >= |e.payload|)
      ensures RoomFor(old(log), HEADER + |e.payload|) ==> Valid() && Commits(old(log), log, e, readable)
      ensures spilled == Spill(size, Wrap(old(wOff) + HEADER, size), Min(readable, |e.payload|))
      ensures View() == AfterAnyWrite(old(View()), e, readable, spilled)
      ensures beyond[..] ==
              Patched(old(beyond[..]), 0, e.payload[Min(readable, |e.payload|) - spilled..Min(readable, |e.payload|)])
    {
      StandsForInBounds(View(), log);
      hide StandsFor, Fits, Wrap, InBounds, IsPow2, InRange, AfterWrite, AfterAnyWrite, Patched, Commits;
      if HEADER + |e.payload| <= size {
        AnyWriteIsWrite(View(), e, readable);
        NothingBeyond(beyond[..], e.payload, Min(readable, |e.payload|));
        ok := Store(e.header, e.payload, readable);
        spilled := 0;
      } else {
        NoRoomOverlong(log, HEADER + |e.payload|);
        ok, spilled := StoreOverlong(e.header, e.payload, readable);
      }
    }

    /** One write. A write cut short by a fault leaves bytes past the write point and
        commits nothing; `firstSegment` is all that a successful call reports. */
    method Write(pid: s32, tid: s32, sec: s32, nsec: s32, euid: u32, data: seq<byte>, readable: nat)
      returns (res: WriteResult, spilled: nat, ghost e: Entry)
      requires Valid()
      modifies this, buffer, beyond
      ensures e == Entry(Header(Min(|data|, MAX_PAYLOAD), HEADER, pid, tid, sec, nsec, euid), data[..Min(|data|, MAX_PAYLOAD)])
      ensures res.Nothing? <==> data == []
      ensures res.Nothing? ==> Valid() && log == old(log)
      ensures res.Written? <==> data != [] && readable >= |e.payload|
      ensures res.Written? ==> res.firstSegment == Min(|e.payload|, size - Wrap(old(wOff) + HEADER, size))
      ensures data != [] && RoomFor(old(log), HEADER + |e.payload|) ==> Valid() && Commits(old(log), log, e, readable)
      ensures Shaped() && spilled == Spill(size, Wrap(old(wOff) + HEADER, size), Min(readable, |e.payload|))
      ensures View() == if data == [] then old(View()) else AfterAnyWrite(old(View()), e, readable, spilled)
    {
      hide StandsFor, InBounds, RoomFor, Commits, Wrap, IsPow2, AfterAnyWrite, Patched;
      var count := Min(|data|, MAX_PAYLOAD);
      var entry := Entry(Header(count, HEADER, pid, tid, sec, nsec, euid), data[..count]);
      e := entry;
      if count == 0 {
        return Nothing, 0, e;
      }
      var to := Offset(wOff + HEADER);
      var ok;
      ok, spilled := StoreAny(entry, readable);
      res := if ok then Written(Min(count, size - to)) else WriteFault;
    }

    // ---- opening, closing, flushing ----

    method Open(all: bool)
      requires Valid()
      modifies this`readers, this`log
      ensures Valid() && log == Step(old(log), Event.Open(all))
      ensures Opens(old(log), log, all) && readers == old(readers) + [Handle(head, all, 1)]
    {
      hide Points, Hist, ReaderOk;
      StandsForInBounds(View(), log);
      StepKeepsInv(log, Event.Open(all));
      readers := readers + [Handle(head, all, 1)];
      log := Step(log, Event.Open(all));
    }

    method Release(i: nat)
      requires Valid() && i < |readers|
      modifies this`readers, this`log
      ensures Valid() && log == Step(old(log), Event.Release(i))
      ensures Releases(old(log), log, i) && readers == old(readers)[..i] + old(readers)[i + 1..]
    {
      hide Points, Hist, ReaderOk;
      StandsForInBounds(View(), log);
      StepKeepsInv(log, Event.Release(i));
      readers := readers[..i] + readers[i + 1..];
      log := Step(log, Event.Release(i));
    }

    method SetVersion(i: nat, ver: int) returns (ok: bool)
      requires Valid() && i < |readers|
      modifies this`readers, this`log
      ensures Valid() && (ok <==> 1 <= ver <= 2)
      ensures log == if ok then Step(old(log), Event.SetVersion(i, ver)) else old(log)
      ensures ok ==> SetsVersion(old(log), log, i, ver) && readers == old(readers)[i := old(readers)[i].(rVer := ver)]
    {
      hide Points, Hist, ReaderOk;
      if ver < 1 || ver > 2 {
        return false;
      }
      StandsForInBounds(View(), log);
      StepKeepsInv(log, Event.SetVersion(i, ver));
      readers := readers[i := readers[i].(rVer := ver)];
      log := Step(log, Event.SetVersion(i, ver));
      ok := true;
    }

    method FlushLog()
      requires Valid()
      modifies this`readers, this`head, this`log
      ensures Valid() && log == Step(old(log), Flush)
      ensures Flushes(old(log), log) && head == wOff && |readers| == |old(readers)|
      ensures forall i :: 0 <= i < |readers| ==>
          readers[i] == old(readers)[i].(rOff := wOff) && log.readers[i].k == |log.entries|
    {
      hide Points, Hist, ReaderOk, Flushes;
      StandsForInBounds(View(), log);
      FlushEffect(log);
      StepKeepsInv(log, Flush);
      EndPoints(View(), log);
      for i := 0 to |readers|
        invariant |readers| == |old(readers)| && head == old(head) && log == old(log)
        invariant forall j :: 0 <= j < i ==> readers[j] == old(readers)[j].(rOff := wOff)
        invariant forall j :: i <= j < |readers| ==> readers[j] == old(readers)[j]
      {
        readers := readers[i := readers[i].(rOff := wOff)];
      }
      head := wOff;
      log := Step(log, Flush);
    }

    // ---- reading ----

    /** Starting at `start`, the first entry logged by `euid`, or the write offset. */
    method GetNextEntryByUid(start: nat, euid: u32, ghost k: nat) returns (off: nat)
      requires Valid() && Points(buffer[..], log.entries, start, k)
      ensures Points(buffer[..], log.entries, off, FirstBy(log.entries, k, euid))
    {
      hide Points, Hist, Wrap, HeaderAt, InBounds;
      StandsForInBounds(View(), log);
      ghost var j := k;
      off := start;
      PointsOnBoundary(buffer[..], log.entries, off, j);
      CaughtUpIffSameCell(buffer[..], log.entries, off, j);
      while off != wOff
        invariant off < size && k <= j <= |log.entries| && Points(buffer[..], log.entries, off, j)
        invariant off == wOff <==> j == |log.entries|
        invariant FirstBy(log.entries, k, euid) == FirstBy(log.entries, j, euid)
        decreases |log.entries| - j
      {
        var h := GetEntryHeader(off);
        assert WellFormed(log.entries[j]);
        HeaderInWindow(buffer[..], log.entries, off, j);
        if h.euid == euid {
          return;
        }
        StepInWindow(buffer[..], log.entries, off, j);
        off := Offset(off + HEADER + h.len);
        j := j + 1;
        PointsOnBoundary(buffer[..], log.entries, off, j);
        CaughtUpIffSameCell(buffer[..], log.entries, off, j);
      }
    }

    /** Skip the entries this reader may not see. */
    method SkipUnreadable(i: nat, uid: u32)
      requires Valid() && i < |readers|
      modifies this`readers, this`log
      ensures Valid() && |readers| == |old(readers)| && log == Step(old(log), Seek(i, uid))
      ensures Sought(old(log), log, i, uid)
    {
      hide Points, Hist, ReaderOk;
      StandsForInBounds(View(), log);
      ghost var k, es := log.readers[i].k, log.entries;
      assert HandleFor(buffer[..], es, readers[i], log.readers[i]);
      ghost var x := SeekEffect(log, i, uid);
      hide Sought, Seeks;
      var off := readers[i].rOff;
      if !readers[i].rAll {
        off := GetNextEntryByUid(off, uid, k);
      }
      MoveRefines(View(), log, Seek(i, uid), off);
      readers := readers[i := readers[i].(rOff := off)];
      log := Step(log, Seek(i, uid));
      StandsForInBounds(View(), log);
    }

    /** Is there something for this reader? */
    method Poll(i: nat, uid: u32) returns (ready: bool)
      requires Valid() && i < |readers|
      modifies this`readers, this`log
      ensures Valid() && |readers| == |old(readers)| && log == Step(old(log), Seek(i, uid))
      ensures Sought(old(log), log, i, uid)
      ensures ready <==> log.readers[i].k < |log.entries|
    {
      hide Points, Hist, ReaderOk;
      SkipUnreadable(i, uid);
      assert HandleFor(buffer[..], log.entries, readers[i], log.readers[i]);
      CaughtUpIffSameCell(buffer[..], log.entries, readers[i].rOff, log.readers[i].k);
      ready := wOff != readers[i].rOff;
    }

    /** The size of what the next read would hand over. */
    method NextEntryLen(i: nat, uid: u32) returns (n: nat)
      requires Valid() && i < |readers|
      modifies this`readers, this`log
      ensures Valid() && |readers| == |old(readers)| && log == Step(old(log), Seek(i, uid))
      ensures Sought(old(log), log, i, uid)
      ensures var r := log.readers[i];
          n == if r.k < |log.entries| then |UserBytes(r.ver, log.entries[r.k])| else 0
    {
      hide Points, Hist, ReaderOk, HeaderAt, UserHeader, InBounds;
      var ready := Poll(i, uid);
      if !ready {
        return 0;
      }
      ghost var r := log.readers[i];
      assert HandleFor(buffer[..], log.entries, readers[i], r);
      assert WellFormed(log.entries[r.k]);
      PointsOnBoundary(buffer[..], log.entries, readers[i].rOff, r.k);
      HeaderInWindow(buffer[..], log.entries, readers[i].rOff, r.k);
      var h := GetEntryHeader(readers[i].rOff);
      n := UserHeaderLen(readers[i].rVer) + h.len;
    }

    /** The bytes between a reader and the write point: the unread entries' sizes. */
    method LogLen(i: nat) returns (n: nat)
      requires Valid() && i < |readers|
      ensures log.readers[i].k <= |log.entries| && n == TotalSize(log.entries[log.readers[i].k..])
    {
      LogLenIsUnread(View(), log, i);
      if wOff >= readers[i].rOff {
        n := wOff - readers[i].rOff;
      } else {
        n := (size - readers[i].rOff) + wOff;
      }
    }

    /** Header in the reader's version, then the message in up to two pieces. */
    method DoReadLogToUser(i: nat, uid: u32, fault: bool) returns (res: ReadResult)
      requires Valid() && MayRead(log, i, uid)
      modifies this`readers, this`log
      ensures Valid() && |readers| == |old(readers)|
      ensures fault ==> res == ReadFault && log == old(log)
      ensures !fault ==>
          && log == Step(old(log), Event.Read(i, uid))
          && res == Data(UserBytes(old(log).readers[i].ver, old(log).entries[old(log).readers[i].k]))
          && HandsOver(old(log), log, i, uid, old(log).readers[i].k, res.bytes)
    {
      hide Points, Hist, ReaderOk, HeaderAt, Wrap, InBounds, UserHeader, HandsOver;
      StandsForInBounds(View(), log);
      HandsOverHere(log, i, uid);
      ghost var r, es := log.readers[i], log.entries;
      var off := readers[i].rOff;
      assert HandleFor(buffer[..], es, readers[i], r) && WellFormed(es[r.k]);
      PointsOnBoundary(buffer[..], es, off, r.k);
      HeaderInWindow(buffer[..], es, off, r.k);
      PayloadInWindow(buffer[..], es, off, r.k);
      StepInWindow(buffer[..], es, off, r.k);
      var h := GetEntryHeader(off);
      if fault {
        return ReadFault;
      }
      var start := Offset(off + HEADER);
      var msg := CopyOut(buffer, start, h.len);
      var next := Offset(off + HEADER + h.len);
      res := Data(UserHeader(readers[i].rVer, h) + msg);
      SeekOfReadable(es, r, uid);
      MoveRefines(View(), log, Event.Read(i, uid), next);
      readers := readers[i := readers[i].(rOff := next)];
      log := Step(log, Event.Read(i, uid));
      StandsForInBounds(View(), log);
    }

    /** Hand over the entry the reader sits on if `count` bytes are enough for it. */
    method ReadHere(i: nat, uid: u32, need: nat, count: nat, fault: bool) returns (res: ReadResult)
      requires Valid() && MayRead(log, i, uid)
      requires need == |UserBytes(log.readers[i].ver, log.entries[log.readers[i].k])|
      modifies this`readers, this`log
      ensures Valid() && |readers| == |old(readers)|
      ensures log == if res.Data? then Step(old(log), Event.Read(i, uid)) else old(log)
      ensures res == if count < need then BufferTooSmall else if fault then ReadFault
                     else Data(UserBytes(old(log).readers[i].ver, old(log).entries[old(log).readers[i].k]))
    {
      hide UserBytes, Hist, StandsFor, InBounds;
      if count < need {
        return BufferTooSmall;
      }
      res := DoReadLogToUser(i, uid, fault);
    }

    /** The first section under the lock of a read: is there nothing at all? */
    method CaughtUp(i: nat) returns (empty: bool)
      requires Valid() && i < |readers|
      ensures empty <==> log.readers[i].k == |log.entries|
    {
      hide Points, Hist, ReaderOk;
      assert HandleFor(buffer[..], log.entries, readers[i], log.readers[i]);
      CaughtUpIffSameCell(buffer[..], log.entries, readers[i].rOff, log.readers[i].k);
      empty := wOff == readers[i].rOff;
    }

    /** The second section, after anything else may have happened: exactly one entry, or the
        reason why not. Nothing readable sends the reader back to the first section. */
    method ReadLocked(i: nat, uid: u32, count: nat, fault: bool) returns (res: ReadResult)
      requires Valid() && i < |readers|
      modifies this`readers, this`log
      ensures Valid() && |readers| == |old(readers)|
      ensures log == Step(old(log), if res.Data? then Event.Read(i, uid) else Seek(i, uid))
      ensures res == ReadOutcome(old(log), i, uid, count, fault)
      ensures ReadDid(old(log), log, i, uid, count, fault, res)
    {
      StandsForInBounds(View(), log);
      assert |log.readers| == |readers|;
      hide Valid, UserHeader, Step, InRange;
      SeekThenRead(log, i, uid);
      hide ReadDid;
      forall res | res == ReadOutcome(log, i, uid, count, fault)
        ensures ReadDid(log, Step(log, if res.Data? then Event.Read(i, uid) else Seek(i, uid)), i, uid, count, fault, res)
      {
        ReadDidIt(log, i, uid, count, fault, res);
      }
      var need := NextEntryLen(i, uid);
      if need == 0 {
        return WouldBlock;
      }
      res := ReadHere(i, uid, need, count, fault);
    }

    /** A read that does not wait, with nothing happening between its sections. */
    method Read(i: nat, uid: u32, count: nat, fault: bool) returns (res: ReadResult)
      requires Valid() && i < |readers|
      modifies this`readers, this`log
      ensures Valid()
      ensures log == Step(old(log), if res.Data? then Event.Read(i, uid) else Seek(i, uid))
      ensures res == ReadOutcome(old(log), i, uid, count, fault)
      ensures ReadDid(old(log), log, i, uid, count, fault, res)
    {
      var empty := CaughtUp(i);
      if empty {
        ReadDidIt(log, i, uid, count, fault, WouldBlock);
        NothingToSeek(log, i, uid);
        return WouldBlock;
      }
      res := ReadLocked(i, uid, count, fault);
    }
  }

  lemma NothingToSeek(s: Log, i: nat, uid: u32)
    requires InRange(s) && i < |s.readers| && s.readers[i].k == |s.entries|
    ensures Step(s, Seek(i, uid)) == s && ReadOutcome(s, i, uid, 0, false) == WouldBlock
  {
    SeekOfReadable(s.entries, s.readers[i], uid);
  }
}
