/** The part of the logger's ring that a pointer may still read: how wrapped offsets stand
    for unbounded ones, and why a write never damages what is left readable. */
module LogWindow {
  import opened Kernel
  import opened Ring
  import opened LogEntry
  import opened LogRuns

  /** The entry header whose first byte is in cell `off`. */
  function HeaderAt(buf: seq<byte>, off: nat): Header
    requires off < |buf| && HEADER <= |buf|
  {
    Decode(Get(buf, off, HEADER))
  }

  /** The wrapped test the writer applies to each pointer `c` before moving from `a` to `b`. */
  predicate IsBetween(a: nat, b: nat, c: nat) {
    if a < b then a < c <= b else c <= b || a < c
  }

  /** On wrapped offsets the test says exactly that a write of `len` bytes at `w` reaches
      the pointer `p` one lap on. */
  lemma BetweenIffLapped(size: nat, w: nat, p: nat, len: nat)
    requires 0 < len <= size && p <= w < p + size
    ensures IsBetween(Wrap(w, size), Wrap(w + len, size), Wrap(p, size)) <==> p + size <= w + len
  {
    WrapStep(w, len, size);
    WrapStep(p, w - p, size);
  }

  /** `off` is where boundary `k` sits in the ring, and everything from it to the write
      point is still there. */
  ghost predicate Points(buf: seq<byte>, es: seq<Entry>, off: nat, k: nat) {
    && |buf| >= HEADER
    && OnBoundary(|buf|, es, k)
    && off == Wrap(Pos(es, k), |buf|)
    && Intact(buf, Hist(es), Pos(es, k), |Hist(es)|)
  }

  /** A pointer has caught up with the write point just when the wrapped offsets agree. */
  lemma CaughtUpIffSameCell(buf: seq<byte>, es: seq<Entry>, off: nat, k: nat)
    requires Points(buf, es, off, k)
    ensures off == Wrap(|Hist(es)|, |buf|) <==> k == |es|
  {
    hide Hist, Wrap;
    HistOfAll(es);
    PosMonotone(es, k, |es|);
    WrapStep(Pos(es, k), |Hist(es)| - Pos(es, k), |buf|);
  }

  lemma StepInWindow(buf: seq<byte>, es: seq<Entry>, off: nat, k: nat)
    requires Points(buf, es, off, k) && k < |es|
    ensures HEADER + |es[k].payload| < |buf|
    ensures Points(buf, es, Wrap(off + HEADER + |es[k].payload|, |buf|), k + 1)
  {
    hide Hist, Wrap, Encode;
    var p, n := Pos(es, k), HEADER + |es[k].payload|;
    EntryAt(es, k);
    WrapTwice(p, n, |buf|);
  }

  lemma HeaderInWindow(buf: seq<byte>, es: seq<Entry>, off: nat, k: nat)
    requires Points(buf, es, off, k) && k < |es|
    ensures HeaderAt(buf, off) == es[k].header
  {
    hide Hist, Wrap, Encode, Decode, Get;
    EntryAt(es, k);
    GetFromWindow(buf, Hist(es), Pos(es, k), |Hist(es)|, Pos(es, k), HEADER);
    HeaderRoundTrip(es[k].header);
  }

  lemma PayloadInWindow(buf: seq<byte>, es: seq<Entry>, off: nat, k: nat)
    requires Points(buf, es, off, k) && k < |es|
    ensures |es[k].payload| <= |buf|
    ensures Get(buf, Wrap(off + HEADER, |buf|), |es[k].payload|) == es[k].payload
  {
    hide Hist, Wrap, Encode, Get;
    var p := Pos(es, k);
    EntryAt(es, k);
    WrapTwice(p, HEADER, |buf|);
    GetFromWindow(buf, Hist(es), p, |Hist(es)|, p + HEADER, |es[k].payload|);
  }

  // ---- pulling forward ----

  /** The offset the pull-forward loop stops at, whatever bytes it meets. */
  function Scan(buf: seq<byte>, off: nat, len: nat, count: nat): (r: nat)
    requires off < |buf| && HEADER <= |buf|
    ensures r < |buf|
    decreases len - count
  {
    var nr := HEADER + HeaderAt(buf, off).len;
    var off' := Wrap(off + nr, |buf|);
    if count + nr < len then Scan(buf, off', len, count + nr) else off'
  }

  /** Every header the loop reads lies below the write point `w`, the loop having started
      at logical offset `p`. */
  ghost predicate ReadsCommitted(buf: seq<byte>, off: nat, p: nat, w: nat, len: nat, count: nat)
    requires off < |buf| && HEADER <= |buf|
    decreases len - count
  {
    var nr := HEADER + HeaderAt(buf, off).len;
    p + count < w && (count + nr < len ==> ReadsCommitted(buf, Wrap(off + nr, |buf|), p, w, len, count + nr))
  }

  lemma {:induction false} ScanStopsAtBoundary(buf: seq<byte>, es: seq<Entry>, off: nat, k: nat, j: nat, len: nat)
    requires forall e :: e in es ==> WellFormed(e)
    requires k <= j && Points(buf, es, off, j)
    requires Pos(es, k) <= Pos(es, j) < Pos(es, k) + len <= |Hist(es)|
    ensures Scan(buf, off, len, Pos(es, j) - Pos(es, k)) == Wrap(Pos(es, Boundary(es, j, Pos(es, k) + len)), |buf|)
    ensures Points(buf, es, Wrap(Pos(es, Boundary(es, j, Pos(es, k) + len)), |buf|), Boundary(es, j, Pos(es, k) + len))
    decreases |es| - j
  {
    hide Hist, Wrap, HeaderAt;
    HistOfAll(es);
    assert WellFormed(es[j]);
    HeaderInWindow(buf, es, off, j);
    StepInWindow(buf, es, off, j);
    PosStep(es, j);
    assert Boundary(es, j, Pos(es, k) + len) == Boundary(es, j + 1, Pos(es, k) + len);
    if Pos(es, j + 1) < Pos(es, k) + len {
      ScanStopsAtBoundary(buf, es, Wrap(off + HEADER + |es[j].payload|, |buf|), k, j + 1, len);
    }
  }

  /** The loop stays within the committed entries exactly when at least `len` bytes lie
      between the pointer and the write point. */
  lemma {:induction false} StaysCommittedIff(buf: seq<byte>, es: seq<Entry>, off: nat, k: nat, j: nat, len: nat)
    requires forall e :: e in es ==> WellFormed(e)
    requires k <= j && Points(buf, es, off, j)
    requires Pos(es, k) <= Pos(es, j) < Pos(es, k) + len
    ensures ReadsCommitted(buf, off, Pos(es, k), |Hist(es)|, len, Pos(es, j) - Pos(es, k))
        <==> Pos(es, k) + len <= |Hist(es)|
    decreases |es| - j
  {
    hide Hist, Wrap, HeaderAt;
    HistOfAll(es);
    if j == |es| {
    } else {
      assert WellFormed(es[j]);
      HeaderInWindow(buf, es, off, j);
      StepInWindow(buf, es, off, j);
      EntryAt(es, j);
      if Pos(es, j + 1) < Pos(es, k) + len {
        StaysCommittedIff(buf, es, Wrap(off + HEADER + |es[j].payload|, |buf|), k, j + 1, len);
      }
    }
  }

  /** What the writer does to a pointer's offset, whatever bytes the ring holds. */
  function FixUp(buf: seq<byte>, wOff: nat, len: nat, off: nat): (r: nat)
    requires off < |buf| && HEADER <= |buf|
    ensures r < |buf|
  {
    if IsBetween(wOff, Wrap(wOff + len, |buf|), off) then Scan(buf, off, len, 0) else off
  }

  lemma TestedIffLapped(buf: seq<byte>, es: seq<Entry>, off: nat, k: nat, len: nat)
    requires Points(buf, es, off, k) && 0 < len <= |buf|
    ensures Pos(es, k) <= |Hist(es)|
    ensures IsBetween(Wrap(|Hist(es)|, |buf|), Wrap(Wrap(|Hist(es)|, |buf|) + len, |buf|), off)
        <==> Laps(|buf|, es, k, len)
  {
    hide Hist, Wrap, Intact, IsBetween;
    var w := |Hist(es)|;
    HistOfAll(es);
    PosMonotone(es, k, |es|);
    BetweenIffLapped(|buf|, w, Pos(es, k), len);
    WrapTwice(w, len, |buf|);
  }

  /** With room for the write, fixing up the wrapped offset is pulling the boundary. */
  lemma FixUpIsPull(buf: seq<byte>, es: seq<Entry>, off: nat, k: nat, len: nat)
    requires forall e :: e in es ==> WellFormed(e)
    requires Points(buf, es, off, k) && 0 < len <= |buf| && FitsAt(|buf|, es, k, len)
    ensures Points(buf, es, FixUp(buf, Wrap(|Hist(es)|, |buf|), len, off), PulledTo(|buf|, es, k, len))
  {
    hide Hist, Wrap, Intact, IsBetween, Scan, Boundary;
    TestedIffLapped(buf, es, off, k, len);
    if Laps(|buf|, es, k, len) {
      ScanStopsAtBoundary(buf, es, off, k, k, len);
    }
  }

  // ---- overwriting ----

  /** Up to `len` bytes written past the write point damage nothing a pulled pointer can
      read, whether or not they are committed. */
  lemma WriteKeepsPoints(buf: seq<byte>, es: seq<Entry>, off: nat, k: nat, x: seq<byte>)
    requires Points(buf, es, off, k) && |x| <= |buf|
    requires |Hist(es)| + |x| < Pos(es, k) + |buf|
    ensures Points(Put(buf, Wrap(|Hist(es)|, |buf|), x), es, off, k)
  {
    hide Hist, Wrap, Put;
    PutKeepsWindow(buf, Hist(es), Pos(es, k), x);
    var buf' := Put(buf, Wrap(|Hist(es)|, |buf|), x);
    forall p | Pos(es, k) <= p < |Hist(es)| ensures buf'[Wrap(p, |buf|)] == Hist(es)[p] {
      assert (Hist(es) + x)[p] == Hist(es)[p];
    }
  }

  /** Committing the entry whose bytes were written moves the write point over them. */
  lemma CommitKeepsPoints(buf: seq<byte>, es: seq<Entry>, off: nat, k: nat, e: Entry)
    requires Points(buf, es, off, k) && HEADER + |e.payload| <= |buf|
    requires |Hist(es)| + HEADER + |e.payload| < Pos(es, k) + |buf|
    ensures Points(Put(buf, Wrap(|Hist(es)|, |buf|), EntryBytes(e)), es + [e], off, k)
  {
    hide Hist, Wrap, Put, EntryBytes;
    PutKeepsWindow(buf, Hist(es), Pos(es, k), EntryBytes(e));
    AppendKeepsPos(es, e, k);
  }

  /** The two halves together: fix a pointer up, then write part or all of an entry. */
  lemma FixedUpPointSurvives(buf: seq<byte>, es: seq<Entry>, off: nat, k: nat, len: nat, x: seq<byte>)
    requires forall e :: e in es ==> WellFormed(e)
    requires Points(buf, es, off, k) && |x| <= len && 0 < len <= |buf| && FitsAt(|buf|, es, k, len)
    ensures Points(Put(buf, Wrap(|Hist(es)|, |buf|), x), es,
                   FixUp(buf, Wrap(|Hist(es)|, |buf|), len, off), PulledTo(|buf|, es, k, len))
  {
    hide Points, Put, FixUp, Hist;
    PointsOnBoundary(buf, es, off, k);
    FixUpIsPull(buf, es, off, k, len);
    PullLandsSafely(|buf|, es, k, len);
    WriteKeepsPoints(buf, es, FixUp(buf, Wrap(|Hist(es)|, |buf|), len, off), PulledTo(|buf|, es, k, len), x);
  }

  lemma FixedUpPointCommits(buf: seq<byte>, es: seq<Entry>, off: nat, k: nat, e: Entry)
    requires forall e :: e in es ==> WellFormed(e)
    requires Points(buf, es, off, k)
    requires HEADER + |e.payload| <= |buf| && FitsAt(|buf|, es, k, HEADER + |e.payload|)
    ensures Points(Put(buf, Wrap(|Hist(es)|, |buf|), EntryBytes(e)), es + [e],
                   FixUp(buf, Wrap(|Hist(es)|, |buf|), HEADER + |e.payload|, off),
                   PulledTo(|buf|, es, k, HEADER + |e.payload|))
  {
    hide Points, Put, FixUp, Hist;
    var len := HEADER + |e.payload|;
    PointsOnBoundary(buf, es, off, k);
    FixUpIsPull(buf, es, off, k, len);
    PullLandsSafely(|buf|, es, k, len);
    CommitKeepsPoints(buf, es, FixUp(buf, Wrap(|Hist(es)|, |buf|), len, off), PulledTo(|buf|, es, k, len), e);
  }

  lemma PointsOnBoundary(buf: seq<byte>, es: seq<Entry>, off: nat, k: nat)
    requires Points(buf, es, off, k)
    ensures OnBoundary(|buf|, es, k) && HEADER <= |buf| && off < |buf|
  {
  }

  // ---- the documented size is not enough ----

  /** The size rule asks for a power of two above one maximal entry. 8192 meets it, yet
      after one 4099-byte entry a maximal write has no room. */
  lemma DocumentedSizeTooSmall(e: Entry)
    requires e == Entry(Header(4075, HEADER, 0, 0, 0, 0, 0), seq(4075, _ => 0))
    ensures 8192 == Pow2(13) && 8192 > HEADER + MAX_PAYLOAD
    ensures InRange(Created(8192)) && Enabled(Created(8192), Write(e))
    ensures var s := Step(Created(8192), Write(e));
        s.entries == [e] && s.head == 0 && !Fits(s, HEADER + MAX_PAYLOAD)
  {
    PowerOf13();
    OneEntryNoRoom(8192, HEADER + MAX_PAYLOAD, e);
  }

  /** In that state the writer does find the start head lapped, and its pull-forward loop
      goes on to read bytes that were never committed. */
  lemma DocumentedSizeReadsGarbage(buf: seq<byte>, e: Entry)
    requires |buf| == 8192
    requires e == Entry(Header(4075, HEADER, 0, 0, 0, 0, 0), seq(4075, _ => 0))
    requires Points(buf, [e], 0, 0)
    ensures IsBetween(Wrap(|Hist([e])|, 8192), Wrap(|Hist([e])| + HEADER + MAX_PAYLOAD, 8192), 0)
    ensures !ReadsCommitted(buf, 0, Pos([e], 0), |Hist([e])|, HEADER + MAX_PAYLOAD, 0)
  {
    hide HeaderAt, Intact, Encode;
    assert [e][..0] == [];
    HistOfAll([e]);
    PosStep([e], 0);
    assert Pos([e], 0) == 0 && |Hist([e])| == 4099;
    StaysCommittedIff(buf, [e], 0, 0, 0, HEADER + MAX_PAYLOAD);
    BetweenIffLapped(8192, 4099, 0, HEADER + MAX_PAYLOAD);
  }

  lemma PowerOf13()
    ensures Pow2(13) == 8192
  {
    assert Pow2(4) == 16 && Pow2(8) == 256 && Pow2(12) == 4096;
  }
}
