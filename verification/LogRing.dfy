/** The whole ring as a value: bytes, write offset, start head and reader offsets, and the
    relation that says which unbounded log it stands for. */
module LogRing {
  import opened Kernel
  import opened Ring
  import opened LogEntry
  import opened LogRuns
  import opened LogWindow

  /** One open reader: `struct logger_reader`. */
  datatype Handle = Handle(rOff: nat, rAll: bool, rVer: int)

  datatype RingState = RingState(buf: seq<byte>, wOff: nat, head: nat, readers: seq<Handle>)

  ghost predicate HandleFor(buf: seq<byte>, es: seq<Entry>, h: Handle, r: Reader) {
    Points(buf, es, h.rOff, r.k) && h.rAll == r.all && h.rVer == r.ver
  }

  /** Every pointer is where its boundary belongs, and every byte it can still reach is the
      byte that was written. */
  ghost predicate StandsFor(r: RingState, s: Log) {
    && |r.buf| == s.size >= HEADER
    && Inv(s)
    && r.wOff == Wrap(|Hist(s.entries)|, s.size)
    && Points(r.buf, s.entries, r.head, s.head)
    && |r.readers| == |s.readers|
    && forall i :: 0 <= i < |r.readers| ==> HandleFor(r.buf, s.entries, r.readers[i], s.readers[i])
  }

  ghost predicate InBounds(r: RingState) {
    && HEADER <= |r.buf| && r.wOff < |r.buf| && r.head < |r.buf|
    && forall i :: 0 <= i < |r.readers| ==> r.readers[i].rOff < |r.buf|
  }

  function FixUpHandle(buf: seq<byte>, wOff: nat, len: nat, h: Handle): Handle
    requires h.rOff < |buf| && HEADER <= |buf|
  {
    h.(rOff := FixUp(buf, wOff, len, h.rOff))
  }

  function FixUpAll(r: RingState, len: nat): RingState
    requires InBounds(r)
  {
    r.(head := FixUp(r.buf, r.wOff, len, r.head),
       readers := seq(|r.readers|, i requires 0 <= i < |r.readers| => FixUpHandle(r.buf, r.wOff, len, r.readers[i])))
  }

  /** A write of `len` bytes of which only `x` got copied before a fault. */
  function FaultyWrite(r: RingState, len: nat, x: seq<byte>): RingState
    requires InBounds(r) && |x| <= |r.buf|
  {
    FixUpAll(r, len).(buf := Put(r.buf, r.wOff, x))
  }

  /** A write that lays down all of `x` and moves the write offset over it. */
  function FullWrite(r: RingState, x: seq<byte>): RingState
    requires InBounds(r) && |x| <= |r.buf|
  {
    FaultyWrite(r, |x|, x).(wOff := Wrap(r.wOff + |x|, |r.buf|))
  }

  lemma StandsForInBounds(r: RingState, s: Log)
    requires StandsFor(r, s)
    ensures InBounds(r) && InRange(s) && forall e :: e in s.entries ==> WellFormed(e)
  {
    hide Hist, Intact, ReaderOk;
  }

  /** With room for it, a complete write in the ring is a commit in the unbounded log. */
  lemma WriteRefines(r: RingState, s: Log, e: Entry)
    requires StandsFor(r, s) && InBounds(r) && Enabled(s, Write(e))
    ensures StandsFor(FullWrite(r, EntryBytes(e)), Step(s, Write(e)))
  {
    hide Points, Inv, Hist, Put, FixUp, EntryBytes, FitsAt;
    StandsForInBounds(r, s);
    StepKeepsInv(s, Write(e));
    AppendKeepsPos(s.entries, e, 0);
    WrapTwice(|Hist(s.entries)|, |EntryBytes(e)|, s.size);
    FixedUpPointCommits(r.buf, s.entries, r.head, s.head, e);
    forall i | 0 <= i < |r.readers|
      ensures HandleFor(FullWrite(r, EntryBytes(e)).buf, s.entries + [e],
                        FullWrite(r, EntryBytes(e)).readers[i], Step(s, Write(e)).readers[i])
    {
      FixedUpPointCommits(r.buf, s.entries, r.readers[i].rOff, s.readers[i].k, e);
    }
  }

  /** A write that fails part way harms nothing: it only pulls pointers forward. */
  lemma FaultyWriteRefines(r: RingState, s: Log, len: nat, x: seq<byte>)
    requires StandsFor(r, s) && InBounds(r) && Enabled(s, FailedWrite(len)) && |x| <= len
    ensures StandsFor(FaultyWrite(r, len, x), Step(s, FailedWrite(len)))
  {
    hide Points, Inv, Hist, Put, FixUp, FitsAt;
    StandsForInBounds(r, s);
    StepKeepsInv(s, FailedWrite(len));
    FixedUpPointSurvives(r.buf, s.entries, r.head, s.head, len, x);
    forall i | 0 <= i < |r.readers|
      ensures HandleFor(FaultyWrite(r, len, x).buf, s.entries,
                        FaultyWrite(r, len, x).readers[i], Step(s, FailedWrite(len)).readers[i])
    {
      FixedUpPointSurvives(r.buf, s.entries, r.readers[i].rOff, s.readers[i].k, len, x);
    }
  }

  /** One entry written as far as user memory can be read. */
  function AfterWrite(r: RingState, e: Entry, readable: nat): RingState
    requires InBounds(r) && HEADER + |e.payload| <= |r.buf|
  {
    FixUpAll(r, HEADER + |e.payload|).(
      buf := Put(r.buf, r.wOff, Encode(e.header) + e.payload[..Min(readable, |e.payload|)]),
      wOff := if readable >= |e.payload| then Wrap(r.wOff + HEADER + |e.payload|, |r.buf|) else r.wOff)
  }

  /** The ring after a write of any length of which `spilled` bytes ended up elsewhere: the
      pointers are pulled, and header and payload are laid down byte by byte, round and
      round. */
  function AfterAnyWrite(r: RingState, e: Entry, readable: nat, spilled: nat): RingState
    requires InBounds(r) && spilled <= Min(readable, |e.payload|)
  {
    FixUpAll(r, HEADER + |e.payload|).(
      buf := PutEach(r.buf, r.wOff, Encode(e.header) + e.payload[..Min(readable, |e.payload|) - spilled]),
      wOff := if readable >= |e.payload| then Wrap(r.wOff + HEADER + |e.payload|, |r.buf|) else r.wOff)
  }

  lemma AnyWriteIsWrite(r: RingState, e: Entry, readable: nat)
    requires InBounds(r) && HEADER + |e.payload| <= |r.buf|
    ensures AfterAnyWrite(r, e, readable, 0) == AfterWrite(r, e, readable)
  {
    hide FixUpAll, Encode, Put, PutEach, Wrap;
    PutEachIsPut(r.buf, r.wOff, Encode(e.header) + e.payload[..Min(readable, |e.payload|)]);
  }

  function WriteEvent(e: Entry, readable: nat): Event {
    if readable >= |e.payload| then Write(e) else FailedWrite(HEADER + |e.payload|)
  }

  lemma AnyWriteRefines(r: RingState, s: Log, e: Entry, readable: nat)
    requires StandsFor(r, s) && InBounds(r) && InRange(s) && WellFormed(e) && Fits(s, HEADER + |e.payload|)
    requires HEADER + |e.payload| <= |r.buf|
    ensures StandsFor(AfterWrite(r, e, readable), Step(s, WriteEvent(e, readable)))
  {
    hide StandsFor, Encode, Fits, FixUpHandle, PullAll, Put, InBounds, InRange;
    if readable >= |e.payload| {
      assert e.payload[..|e.payload|] == e.payload;
      WriteRefines(r, s, e);
    } else {
      assert Min(readable, |e.payload|) == readable;
      FaultyWriteRefines(r, s, HEADER + |e.payload|, Encode(e.header) + e.payload[..readable]);
    }
  }

  /** Moving one reader's offset to its new boundary is all a read or a seek does. */
  lemma MoveRefines(r: RingState, s: Log, ev: Event, off: nat)
    requires StandsFor(r, s) && Enabled(s, ev) && (ev.Seek? || ev.Read?)
    requires Points(r.buf, s.entries, off, Step(s, ev).readers[ev.i].k)
    ensures StandsFor(r.(readers := r.readers[ev.i := r.readers[ev.i].(rOff := off)]), Step(s, ev))
  {
    hide Points, ReaderOk, Hist;
    StepKeepsInv(s, ev);
  }

  /** The write offset itself is a boundary with nothing left to read. */
  lemma EndPoints(r: RingState, s: Log)
    requires StandsFor(r, s)
    ensures Points(r.buf, s.entries, r.wOff, |s.entries|)
  {
    hide Hist, ReaderOk;
    HistOfAll(s.entries);
  }

  /** The difference of the two wrapped offsets is what the unread entries add up to. */
  lemma LogLenIsUnread(r: RingState, s: Log, i: nat)
    requires StandsFor(r, s) && i < |s.readers|
    ensures s.readers[i].k <= |s.entries|
    ensures (var off := r.readers[i].rOff; if r.wOff >= off then r.wOff - off else |r.buf| - off + r.wOff)
        == TotalSize(s.entries[s.readers[i].k..])
  {
    hide ReaderOk, Hist, Wrap, Intact;
    var k := s.readers[i].k;
    assert Points(r.buf, s.entries, r.readers[i].rOff, k);
    UnreadIsTotalSize(s.entries, k);
    WrapStep(Pos(s.entries, k), TotalSize(s.entries[k..]), |r.buf|);
  }
}
