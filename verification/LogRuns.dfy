/** The logger seen through offsets that never wrap: a growing list of committed entries,
    a start head and readers that sit on entry boundaries. Each reader also carries the
    record of what it was handed and why it missed the rest. */
module LogRuns {
  import opened Kernel
  import opened Ring
  import opened LogEntry

  /** Why a reader never saw an entry. */
  datatype Why =
    | Lapped(w: nat, len: nat)   // pulled forward by a write of `len` bytes at write point `w`
    | Filtered(uid: u32)         // logged by a user other than the reading one
    | Flushed

  datatype Delivery = Delivery(index: nat, uid: u32, ver: int, bytes: seq<byte>)

  datatype Reader = Reader(k: nat, all: bool, ver: int, since: nat, got: seq<Delivery>, lost: map<nat, Why>)

  datatype Log = Log(size: nat, entries: seq<Entry>, head: nat, readers: seq<Reader>)

  datatype Event =
    | Open(all: bool)
    | Release(i: nat)
    | Write(e: Entry)
    | FailedWrite(len: nat)
    | Seek(i: nat, uid: u32)     // poll, next-entry-length, or a read that delivers nothing
    | Read(i: nat, uid: u32)
    | SetVersion(i: nat, ver: int)
    | Flush

  // ---- pulling forward ----

  /** A write of `len` bytes at the end of `es` would reach boundary `k` one lap on. */
  predicate Laps(size: nat, es: seq<Entry>, k: nat, len: nat)
    requires k <= |es|
  {
    Pos(es, k) + size <= |Hist(es)| + len
  }

  /** The first boundary from `j` on at or past logical offset `target`, or the last one. */
  function Boundary(es: seq<Entry>, j: nat, target: nat): (r: nat)
    requires j <= |es|
    ensures j <= r <= |es|
    ensures r < |es| ==> Pos(es, r) >= target
    ensures forall i :: j <= i < r ==> Pos(es, i) < target
    decreases |es| - j
  {
    if j == |es| || Pos(es, j) >= target then j else Boundary(es, j + 1, target)
  }

  function PulledTo(size: nat, es: seq<Entry>, k: nat, len: nat): (r: nat)
    requires k <= |es|
    ensures k <= r <= |es|
  {
    if Laps(size, es, k, len) then Boundary(es, k, Pos(es, k) + len) else k
  }

  /** A write of `len` bytes leaves a lapped pointer somewhere to go: at least `len` bytes
      lie between it and the write point. */
  predicate FitsAt(size: nat, es: seq<Entry>, k: nat, len: nat)
    requires k <= |es|
  {
    Laps(size, es, k, len) ==> Pos(es, k) + len <= |Hist(es)|
  }

  predicate Fits(s: Log, len: nat)
    requires s.head <= |s.entries| && forall i :: 0 <= i < |s.readers| ==> s.readers[i].k <= |s.entries|
  {
    && 0 < len <= s.size
    && FitsAt(s.size, s.entries, s.head, len)
    && forall i :: 0 <= i < |s.readers| ==> FitsAt(s.size, s.entries, s.readers[i].k, len)
  }

  function Range(lo: nat, hi: nat): (r: set<nat>)
    ensures forall i :: i in r <==> lo <= i < hi
  {
    if lo >= hi then {} else Range(lo, hi - 1) + {hi - 1}
  }

  function Skip(r: Reader, to: nat, why: Why): Reader
    requires r.k <= to
  {
    r.(k := to, lost := r.lost + map i | i in Range(r.k, to) :: why)
  }

  function Pull(size: nat, es: seq<Entry>, r: Reader, len: nat): Reader
    requires r.k <= |es|
  {
    Skip(r, PulledTo(size, es, r.k, len), Lapped(|Hist(es)|, len))
  }

  // ---- reading ----

  /** The first entry from `k` on that `uid` logged, or the end of the log. */
  function FirstBy(es: seq<Entry>, k: nat, uid: u32): (r: nat)
    requires k <= |es|
    ensures k <= r <= |es|
    ensures r < |es| ==> es[r].header.euid == uid
    ensures forall i :: k <= i < r ==> es[i].header.euid != uid
    decreases |es| - k
  {
    if k == |es| || es[k].header.euid == uid then k else FirstBy(es, k + 1, uid)
  }

  function SeekReader(es: seq<Entry>, r: Reader, uid: u32): (r': Reader)
    requires r.k <= |es|
    ensures r'.k <= |es|
  {
    if r.all then r else Skip(r, FirstBy(es, r.k, uid), Filtered(uid))
  }

  function ReadReader(es: seq<Entry>, r: Reader, uid: u32): Reader
    requires r.k <= |es|
  {
    var r := SeekReader(es, r, uid);
    if r.k == |es| then r
    else r.(k := r.k + 1, got := r.got + [Delivery(r.k, uid, r.ver, UserBytes(r.ver, es[r.k]))])
  }

  // ---- steps ----

  predicate InRange(s: Log) {
    s.head <= |s.entries| && forall i :: 0 <= i < |s.readers| ==> s.readers[i].k <= |s.entries|
  }

  predicate Enabled(s: Log, ev: Event)
    requires InRange(s)
  {
    match ev
    case Open(_) => true
    case Release(i) => i < |s.readers|
    case Write(e) => WellFormed(e) && Fits(s, HEADER + |e.payload|)
    case FailedWrite(len) => Fits(s, len)
    case Seek(i, _) => i < |s.readers|
    case Read(i, _) => i < |s.readers|
    case SetVersion(i, ver) => i < |s.readers| && 1 <= ver <= 2
    case Flush => true
  }

  function PullAll(s: Log, len: nat): Log
    requires InRange(s)
  {
    s.(head := PulledTo(s.size, s.entries, s.head, len),
       readers := seq(|s.readers|, i requires 0 <= i < |s.readers| => Pull(s.size, s.entries, s.readers[i], len)))
  }

  function FlushAll(s: Log): Log
    requires InRange(s)
  {
    s.(head := |s.entries|,
       readers := seq(|s.readers|, i requires 0 <= i < |s.readers| => Skip(s.readers[i], |s.entries|, Flushed)))
  }

  function Opened(s: Log, all: bool): Reader {
    Reader(s.head, all, 1, s.head, [], map[])
  }

  function Step(s: Log, ev: Event): Log
    requires InRange(s) && Enabled(s, ev)
  {
    match ev
    case Open(all) => s.(readers := s.readers + [Opened(s, all)])
    case Release(i) => s.(readers := s.readers[..i] + s.readers[i + 1..])
    case Write(e) => PullAll(s, HEADER + |e.payload|).(entries := s.entries + [e])
    case FailedWrite(len) => PullAll(s, len)
    case Seek(i, uid) => s.(readers := s.readers[i := SeekReader(s.entries, s.readers[i], uid)])
    case Read(i, uid) => s.(readers := s.readers[i := ReadReader(s.entries, s.readers[i], uid)])
    case SetVersion(i, ver) => s.(readers := s.readers[i := s.readers[i].(ver := ver)])
    case Flush => FlushAll(s)
  }

  /** A reader that already sits on an entry it may see is left alone by a seek. */
  lemma SeekOfReadable(es: seq<Entry>, r: Reader, uid: u32)
    requires r.k <= |es| && (r.all || r.k == |es| || es[r.k].header.euid == uid)
    ensures SeekReader(es, r, uid) == r
  {
    assert Range(r.k, r.k) == {};
    assert !r.all ==> Skip(r, r.k, Filtered(uid)).lost == r.lost;
  }

  /** Seeking first, as poll does, does not change what a read then delivers. */
  lemma SeekThenRead(s: Log, i: nat, uid: u32)
    requires InRange(s) && i < |s.readers|
    ensures var s' := Step(s, Seek(i, uid));
        InRange(s') && s'.entries == s.entries && |s'.readers| == |s.readers|
        && s'.readers[i] == SeekReader(s.entries, s.readers[i], uid)
    ensures Step(Step(s, Seek(i, uid)), Read(i, uid)) == Step(s, Read(i, uid))
  {
    SeekOfReadable(s.entries, SeekReader(s.entries, s.readers[i], uid), uid);
  }

  // ---- the invariant ----

  /** `k` is a boundary less than one lap behind the write point. */
  ghost predicate OnBoundary(size: nat, es: seq<Entry>, k: nat) {
    k <= |es| && |Hist(es)| < Pos(es, k) + size
  }

  ghost predicate Explained(size: nat, es: seq<Entry>, all: bool, i: nat, why: Why)
    requires i < |es|
  {
    match why
    case Lapped(w, len) => w <= |Hist(es)| && Pos(es, i) + size < w + 2 * len
    case Filtered(uid) => !all && es[i].header.euid != uid
    case Flushed => true
  }

  ghost predicate Faithful(es: seq<Entry>, all: bool, d: Delivery)
    requires d.index < |es|
  {
    && d.bytes == UserBytes(d.ver, es[d.index])
    && (all || es[d.index].header.euid == d.uid)
  }

  function Indices(got: seq<Delivery>): set<nat> {
    set d | d in got :: d.index
  }

  /** What a reader was handed is an in-order, duplicate-free selection of the entries
      committed since it was opened, each exactly as written, and every other entry up to
      its position was missed for a recorded and justified reason. */
  ghost predicate ReaderOk(size: nat, es: seq<Entry>, r: Reader) {
    && OnBoundary(size, es, r.k)
    && r.since <= r.k
    && (forall d :: d in r.got ==> r.since <= d.index < r.k && Faithful(es, r.all, d))
    && (forall i, j :: 0 <= i < j < |r.got| ==> r.got[i].index < r.got[j].index)
    && Indices(r.got) !! r.lost.Keys
    && Indices(r.got) + r.lost.Keys == Range(r.since, r.k)
    && (forall i :: i in r.lost ==> i < |es| && Explained(size, es, r.all, i, r.lost[i]))
  }

  ghost predicate Inv(s: Log) {
    && OnBoundary(s.size, s.entries, s.head)
    && (forall e :: e in s.entries ==> WellFormed(e))
    && (forall i :: 0 <= i < |s.readers| ==> ReaderOk(s.size, s.entries, s.readers[i]))
  }

  // ---- every step keeps it ----

  /** A pulled pointer ends up on a boundary that stays less than a lap behind even after
      the `len` new bytes. */
  lemma PullLandsSafely(size: nat, es: seq<Entry>, k: nat, len: nat)
    requires OnBoundary(size, es, k) && FitsAt(size, es, k, len) && 0 < len
    ensures |Hist(es)| + len < Pos(es, PulledTo(size, es, k, len)) + size
    ensures Laps(size, es, k, len) ==> Pos(es, k) + len <= Pos(es, PulledTo(size, es, k, len))
  {
    HistOfAll(es);
  }

  lemma SkipKeepsReader(size: nat, es: seq<Entry>, r: Reader, to: nat, why: Why)
    requires ReaderOk(size, es, r) && r.k <= to <= |es|
    requires forall i :: r.k <= i < to ==> Explained(size, es, r.all, i, why)
    ensures ReaderOk(size, es, Skip(r, to, why))
  {
    hide Hist, Explained, Faithful;
    PosMonotone(es, r.k, to);
    hide Pos;
    var r' := Skip(r, to, why);
    assert r'.lost.Keys == r.lost.Keys + Range(r.k, to);
    assert Range(r.since, to) == Range(r.since, r.k) + Range(r.k, to);
    assert forall i :: i in Indices(r.got) ==> i in Range(r.since, r.k);
  }

  lemma PullKeepsReader(size: nat, es: seq<Entry>, r: Reader, len: nat)
    requires ReaderOk(size, es, r) && 0 < len && FitsAt(size, es, r.k, len)
    ensures ReaderOk(size, es, Pull(size, es, r, len))
    ensures |Hist(es)| + len < Pos(es, Pull(size, es, r, len).k) + size
  {
    PullLandsSafely(size, es, r.k, len);
    SkipKeepsReader(size, es, r, PulledTo(size, es, r.k, len), Lapped(|Hist(es)|, len));
  }

  lemma AppendKeepsReader(size: nat, es: seq<Entry>, r: Reader, e: Entry)
    requires ReaderOk(size, es, r)
    requires |Hist(es)| + HEADER + |e.payload| < Pos(es, r.k) + size
    ensures ReaderOk(size, es + [e], r)
  {
    hide Hist, UserBytes;
    AppendKeepsPos(es, e, r.k);
    forall i | i in r.lost ensures Explained(size, es + [e], r.all, i, r.lost[i]) {
      AppendKeepsPos(es, e, i);
    }
  }

  lemma SeekKeepsReader(size: nat, es: seq<Entry>, r: Reader, uid: u32)
    requires ReaderOk(size, es, r)
    ensures ReaderOk(size, es, SeekReader(es, r, uid))
  {
    if !r.all {
      SkipKeepsReader(size, es, r, FirstBy(es, r.k, uid), Filtered(uid));
    }
  }

  lemma HandingOverKeepsReader(size: nat, es: seq<Entry>, r: Reader, uid: u32)
    requires ReaderOk(size, es, r) && r.k < |es| && (r.all || es[r.k].header.euid == uid)
    ensures ReaderOk(size, es, r.(k := r.k + 1, got := r.got + [Delivery(r.k, uid, r.ver, UserBytes(r.ver, es[r.k]))]))
  {
    hide Hist, UserBytes;
    PosStep(es, r.k);
    var d := Delivery(r.k, uid, r.ver, UserBytes(r.ver, es[r.k]));
    IndicesOfAppend(r.got, d);
    assert Range(r.since, r.k + 1) == Range(r.since, r.k) + {r.k};
    assert r.k !in Range(r.since, r.k);
  }

  lemma IndicesOfAppend(got: seq<Delivery>, d: Delivery)
    ensures Indices(got + [d]) == Indices(got) + {d.index}
  {
    assert d in got + [d];
    assert forall x :: x in got ==> x in got + [d];
  }

  lemma ReadKeepsReader(size: nat, es: seq<Entry>, r: Reader, uid: u32)
    requires ReaderOk(size, es, r)
    ensures ReaderOk(size, es, ReadReader(es, r, uid))
  {
    SeekKeepsReader(size, es, r, uid);
    var r' := SeekReader(es, r, uid);
    if r'.k < |es| {
      HandingOverKeepsReader(size, es, r', uid);
    }
  }

  lemma PullKeepsInv(s: Log, len: nat)
    requires Inv(s) && Fits(s, len)
    ensures Inv(PullAll(s, len))
    ensures |Hist(s.entries)| + len < Pos(s.entries, PullAll(s, len).head) + s.size
    ensures forall i :: 0 <= i < |s.readers| ==>
        |Hist(s.entries)| + len < Pos(s.entries, PullAll(s, len).readers[i].k) + s.size
  {
    PullLandsSafely(s.size, s.entries, s.head, len);
    forall i | 0 <= i < |s.readers|
      ensures ReaderOk(s.size, s.entries, PullAll(s, len).readers[i])
      ensures |Hist(s.entries)| + len < Pos(s.entries, PullAll(s, len).readers[i].k) + s.size
    {
      PullKeepsReader(s.size, s.entries, s.readers[i], len);
    }
  }

  lemma WriteKeepsInv(s: Log, e: Entry)
    requires Inv(s) && Enabled(s, Write(e))
    ensures Inv(Step(s, Write(e)))
  {
    var len := HEADER + |e.payload|;
    PullKeepsInv(s, len);
    var p := PullAll(s, len);
    hide ReaderOk, Hist;
    AppendKeepsPos(s.entries, e, p.head);
    forall i | 0 <= i < |p.readers| ensures ReaderOk(s.size, s.entries + [e], p.readers[i]) {
      AppendKeepsReader(s.size, s.entries, p.readers[i], e);
    }
  }

  lemma FlushKeepsInv(s: Log)
    requires Inv(s) && s.size > 0
    ensures Inv(FlushAll(s))
  {
    HistOfAll(s.entries);
    forall i | 0 <= i < |s.readers| ensures ReaderOk(s.size, s.entries, FlushAll(s).readers[i]) {
      SkipKeepsReader(s.size, s.entries, s.readers[i], |s.entries|, Flushed);
    }
  }

  lemma FreshReaderOk(s: Log, all: bool)
    requires OnBoundary(s.size, s.entries, s.head)
    ensures ReaderOk(s.size, s.entries, Opened(s, all))
  {
  }

  lemma VersionKeepsReader(size: nat, es: seq<Entry>, r: Reader, ver: int)
    requires ReaderOk(size, es, r)
    ensures ReaderOk(size, es, r.(ver := ver))
  {
  }

  lemma OneReaderKeepsInv(s: Log, i: nat, r: Reader)
    requires Inv(s) && i < |s.readers| && ReaderOk(s.size, s.entries, r)
    ensures Inv(s.(readers := s.readers[i := r]))
  {
    hide ReaderOk, Hist;
  }

  lemma StepKeepsInv(s: Log, ev: Event)
    requires Inv(s) && s.size > 0 && Enabled(s, ev)
    ensures Inv(Step(s, ev))
  {
    hide ReaderOk, Hist;
    match ev
    case Open(all) =>
      FreshReaderOk(s, all);
    case Release(i) =>
    case Write(e) =>
      WriteKeepsInv(s, e);
    case FailedWrite(len) =>
      PullKeepsInv(s, len);
    case Seek(i, uid) =>
      SeekKeepsReader(s.size, s.entries, s.readers[i], uid);
      OneReaderKeepsInv(s, i, SeekReader(s.entries, s.readers[i], uid));
    case Read(i, uid) =>
      ReadKeepsReader(s.size, s.entries, s.readers[i], uid);
      OneReaderKeepsInv(s, i, ReadReader(s.entries, s.readers[i], uid));
    case SetVersion(i, ver) =>
      VersionKeepsReader(s.size, s.entries, s.readers[i], ver);
      OneReaderKeepsInv(s, i, s.readers[i].(ver := ver));
    case Flush =>
      FlushKeepsInv(s);
  }

  // ---- whole runs ----

  function Created(size: nat): Log {
    Log(size, [], 0, [])
  }

  ghost predicate IsRun(states: seq<Log>, events: seq<Event>, size: nat) {
    && |states| == |events| + 1
    && states[0] == Created(size)
    && forall i :: 0 <= i < |events| ==>
        InRange(states[i]) && Enabled(states[i], events[i]) && states[i + 1] == Step(states[i], events[i])
  }

  /** In every state of every run, the start head and each reader are on an entry boundary
      less than a lap behind the write point, and each reader's deliveries are faithful. */
  lemma {:induction false} RunsKeepInv(states: seq<Log>, events: seq<Event>, size: nat, n: nat)
    requires IsRun(states, events, size) && size > 0 && n < |states|
    ensures Inv(states[n]) && states[n].size == size
  {
    if n == 0 {
    } else {
      RunsKeepInv(states, events, size, n - 1);
      StepKeepsInv(states[n - 1], events[n - 1]);
    }
  }

  // ---- why entries are missed ----

  /** Event `ev` in state `s` made reader `j` miss entry `x` for reason `why`: a write that lapped
      the reader and pulled it past the entry, the reader's own seek or read that passed over the
      entries of other users, or a flush in front of it. */
  ghost predicate Caused(s: Log, ev: Event, j: nat, x: nat, why: Why) {
    && j < |s.readers| && s.readers[j].k <= x < |s.entries|
    && match why
       case Lapped(w, len) =>
         && w == |Hist(s.entries)| && (ev == FailedWrite(len) || (ev.Write? && HEADER + |ev.e.payload| == len))
         && Laps(s.size, s.entries, s.readers[j].k, len) && x < PulledTo(s.size, s.entries, s.readers[j].k, len)
       case Filtered(uid) =>
         (ev == Seek(j, uid) || ev == Read(j, uid)) && !s.readers[j].all && x < FirstBy(s.entries, s.readers[j].k, uid)
       case Flushed => ev.Flush?
  }

  /** Event `ev` in state `s` is the read of reader `j` that handed over `g`. */
  predicate Delivers(s: Log, ev: Event, j: nat, g: Delivery) {
    && j < |s.readers| && s.readers[j].k <= |s.entries| && ev == Read(j, g.uid)
    && var r := SeekReader(s.entries, s.readers[j], g.uid);
       r.k < |s.entries| && g == Delivery(r.k, g.uid, r.ver, UserBytes(r.ver, s.entries[r.k]))
  }

  /** The record `r'` is that of reader `j` before the step, but for what the step caused. */
  ghost predicate Continues(s: Log, ev: Event, j: nat, r': Reader) {
    && j < |s.readers|
    && (forall x :: x in r'.lost ==>
          (x in s.readers[j].lost && s.readers[j].lost[x] == r'.lost[x]) || Caused(s, ev, j, x, r'.lost[x]))
    && (r'.got == s.readers[j].got
        || (r'.got != [] && r'.got[..|r'.got| - 1] == s.readers[j].got && Delivers(s, ev, j, r'.got[|r'.got| - 1])))
  }

  lemma SkipContinues(s: Log, ev: Event, j: nat, to: nat, why: Why)
    requires j < |s.readers| && s.readers[j].k <= to <= |s.entries|
    requires forall x :: s.readers[j].k <= x < to ==> Caused(s, ev, j, x, why)
    ensures Continues(s, ev, j, Skip(s.readers[j], to, why))
  {
    hide Caused, Delivers;
  }

  lemma SeekContinues(s: Log, ev: Event, j: nat, uid: u32)
    requires j < |s.readers| && s.readers[j].k <= |s.entries| && (ev == Seek(j, uid) || ev == Read(j, uid))
    ensures Continues(s, ev, j, SeekReader(s.entries, s.readers[j], uid))
  {
    if !s.readers[j].all {
      SkipContinues(s, ev, j, FirstBy(s.entries, s.readers[j].k, uid), Filtered(uid));
    }
  }

  lemma ReadContinues(s: Log, j: nat, uid: u32)
    requires j < |s.readers| && s.readers[j].k <= |s.entries|
    ensures Continues(s, Read(j, uid), j, ReadReader(s.entries, s.readers[j], uid))
  {
    hide Caused, SeekReader, UserBytes;
    SeekContinues(s, Read(j, uid), j, uid);
    SeekKeepsGot(s.entries, s.readers[j], uid);
    var r, r' := SeekReader(s.entries, s.readers[j], uid), ReadReader(s.entries, s.readers[j], uid);
    if r.k < |s.entries| {
      assert r'.got[..|r.got|] == r.got;
    }
  }

  lemma SeekKeepsGot(es: seq<Entry>, r: Reader, uid: u32)
    requires r.k <= |es|
    ensures SeekReader(es, r, uid).got == r.got
  {
  }

  lemma PullContinues(s: Log, ev: Event, j: nat, len: nat)
    requires j < |s.readers| && s.readers[j].k <= |s.entries|
    requires ev == FailedWrite(len) || (ev.Write? && HEADER + |ev.e.payload| == len)
    ensures Continues(s, ev, j, Pull(s.size, s.entries, s.readers[j], len))
  {
    hide Hist, Pos;
    SkipContinues(s, ev, j, PulledTo(s.size, s.entries, s.readers[j].k, len), Lapped(|Hist(s.entries)|, len));
  }

  lemma FlushContinues(s: Log, j: nat)
    requires j < |s.readers| && s.readers[j].k <= |s.entries|
    ensures Continues(s, Flush, j, Skip(s.readers[j], |s.entries|, Flushed))
  {
    SkipContinues(s, Flush, j, |s.entries|, Flushed);
  }

  /** Where in the list the reader at place `i` after `ev` was before it. */
  function Before(ev: Event, i: nat): nat {
    if ev.Release? && ev.i <= i then i + 1 else i
  }

  /** Where in state `m` the reader was that is at place `i` in state `n`. */
  function Earlier(events: seq<Event>, n: nat, i: nat, m: nat): nat
    requires m <= n <= |events|
    decreases n
  {
    if n == m then i else Earlier(events, n - 1, Before(events[n - 1], i), m)
  }

  /** Every reader after a step either is new and has no record yet, or continues its own. */
  lemma StepContinues(s: Log, ev: Event, i: nat)
    requires InRange(s) && Enabled(s, ev) && i < |Step(s, ev).readers|
    ensures var r' := Step(s, ev).readers[i];
      (r'.lost == map[] && r'.got == []) || Continues(s, ev, Before(ev, i), r')
  {
    hide Hist, Caused, Fits, Delivers, SeekReader, ReadReader, Pull, Skip;
    match ev
    case Open(all) =>
    case Release(k) =>
    case Write(e) => PullContinues(s, ev, i, HEADER + |e.payload|);
    case FailedWrite(len) => PullContinues(s, ev, i, len);
    case Seek(k, uid) => SeekContinues(s, ev, k, uid);
    case Read(k, uid) => ReadContinues(s, k, uid);
    case SetVersion(k, ver) =>
    case Flush => FlushContinues(s, i);
  }

  lemma RunStep(states: seq<Log>, events: seq<Event>, size: nat, n: nat)
    requires IsRun(states, events, size) && n + 1 < |states|
    ensures |states| == |events| + 1 && InRange(states[n]) && Enabled(states[n], events[n])
    ensures states[n + 1] == Step(states[n], events[n])
  {
    hide Step, Enabled, InRange;
  }

  /** Entry `x` is missing for a reader because of the step, or was missing for it before. */
  lemma LossStep(s: Log, ev: Event, i: nat, x: nat)
    requires InRange(s) && Enabled(s, ev) && i < |Step(s, ev).readers| && x in Step(s, ev).readers[i].lost
    ensures var why, j := Step(s, ev).readers[i].lost[x], Before(ev, i);
      Caused(s, ev, j, x, why) || (j < |s.readers| && x in s.readers[j].lost && s.readers[j].lost[x] == why)
  {
    hide Step, Enabled, Caused, Before, Delivers;
    StepContinues(s, ev, i);
  }

  lemma DeliveryStep(s: Log, ev: Event, i: nat, d: nat)
    requires InRange(s) && Enabled(s, ev) && i < |Step(s, ev).readers| && d < |Step(s, ev).readers[i].got|
    ensures var g, j := Step(s, ev).readers[i].got[d], Before(ev, i);
      Delivers(s, ev, j, g) || (j < |s.readers| && d < |s.readers[j].got| && s.readers[j].got[d] == g)
  {
    hide Step, Enabled, Caused, Before, Delivers;
    StepContinues(s, ev, i);
  }

  /** In every run, whatever a reader missed it missed because of an event of that run that
      concerned this very reader. */
  lemma {:induction false} LossHasCause(states: seq<Log>, events: seq<Event>, size: nat, n: nat, i: nat, x: nat)
    returns (m: nat)
    requires IsRun(states, events, size) && n < |states| && i < |states[n].readers| && x in states[n].readers[i].lost
    ensures m < n && Caused(states[m], events[m], Earlier(events, n, i, m), x, states[n].readers[i].lost[x])
    decreases n
  {
    if n == 0 {
      assert false;
    } else {
      hide IsRun, Step, Enabled, Caused, InRange, Before;
      RunStep(states, events, size, n - 1);
      LossStep(states[n - 1], events[n - 1], i, x);
      var j := Before(events[n - 1], i);
      if Caused(states[n - 1], events[n - 1], j, x, states[n].readers[i].lost[x]) {
        m := n - 1;
      } else {
        m := LossHasCause(states, events, size, n - 1, j, x);
      }
    }
  }

  /** And whatever it was handed, its own read of the entry it had come to handed over. */
  lemma {:induction false} DeliveryHasCause(states: seq<Log>, events: seq<Event>, size: nat, n: nat, i: nat, d: nat)
    returns (m: nat)
    requires IsRun(states, events, size) && n < |states| && i < |states[n].readers| && d < |states[n].readers[i].got|
    ensures m < n && Delivers(states[m], events[m], Earlier(events, n, i, m), states[n].readers[i].got[d])
    decreases n
  {
    if n == 0 {
      assert false;
    } else {
      hide IsRun, Step, Enabled, Delivers, InRange, Before;
      RunStep(states, events, size, n - 1);
      DeliveryStep(states[n - 1], events[n - 1], i, d);
      var j := Before(events[n - 1], i);
      if Delivers(states[n - 1], events[n - 1], j, states[n].readers[i].got[d]) {
        m := n - 1;
      } else {
        m := DeliveryHasCause(states, events, size, n - 1, j, d);
      }
    }
  }

  /** Entry `x` was handed to reader `r` exactly once, byte for byte as written. */
  ghost predicate HandedOnce(es: seq<Entry>, r: Reader, x: nat)
    requires x < |es|
  {
    exists j :: 0 <= j < |r.got| && r.got[j].index == x
      && r.got[j].bytes == UserBytes(r.got[j].ver, es[x])
      && forall j' :: 0 <= j' < |r.got| && r.got[j'].index == x ==> j' == j
  }

  lemma HandedOrLost(size: nat, es: seq<Entry>, r: Reader, x: nat)
    requires ReaderOk(size, es, r) && r.since <= x < r.k
    ensures x !in r.lost ==> HandedOnce(es, r, x)
    ensures x in r.lost ==> Explained(size, es, r.all, x, r.lost[x]) && forall d :: d in r.got ==> d.index != x
  {
    hide Hist, Pos, UserBytes, Explained;
    assert x in Range(r.since, r.k);
    if x !in r.lost {
      assert x in Indices(r.got);
      var d :| d in r.got && d.index == x;
      var j :| 0 <= j < |r.got| && r.got[j] == d;
    } else {
      forall d | d in r.got ensures d.index != x {
        assert d.index in Indices(r.got);
      }
    }
  }

  /** An entry below the position of a reader was handed to it exactly once and byte for byte, by
      its own read, or else was missed because of an event of this very run that lapped this
      reader, filtered for it or flushed in front of it. */
  lemma EveryEntryAccountedFor(states: seq<Log>, events: seq<Event>, size: nat, n: nat, i: nat, x: nat)
    requires IsRun(states, events, size) && size > 0 && n < |states|
    requires i < |states[n].readers| && states[n].readers[i].since <= x < states[n].readers[i].k
    ensures x < |states[n].entries|
    ensures var r := states[n].readers[i];
      if x !in r.lost then
        && HandedOnce(states[n].entries, r, x)
        && exists m, g :: 0 <= m < n && g in r.got && g.index == x
             && Delivers(states[m], events[m], Earlier(events, n, i, m), g)
      else
        && Explained(size, states[n].entries, r.all, x, r.lost[x]) && (forall g :: g in r.got ==> g.index != x)
        && exists m :: 0 <= m < n && Caused(states[m], events[m], Earlier(events, n, i, m), x, r.lost[x])
  {
    RunsKeepInv(states, events, size, n);
    hide IsRun, Step, Enabled, Explained, Caused, Delivers, Earlier, UserBytes;
    var r := states[n].readers[i];
    HandedOrLost(size, states[n].entries, r, x);
    if x in r.lost {
      var m := LossHasCause(states, events, size, n, i, x);
    } else {
      var d :| 0 <= d < |r.got| && r.got[d].index == x;
      var m := DeliveryHasCause(states, events, size, n, i, d);
      assert r.got[d] in r.got;
    }
  }

  /** With a ring of at least two entries' worth of bytes every write has room. */
  lemma TwiceTheLengthFits(s: Log, len: nat)
    requires Inv(s) && 0 < len && 2 * len <= s.size
    ensures Fits(s, len)
  {
  }

  /** The shortest write has room in every ring that can hold it with a byte to spare. */
  lemma ShortestFits(s: Log)
    requires Inv(s) && HEADER + 1 < s.size
    ensures Fits(s, HEADER + 1)
  {
    ShortestFitsAt(s.size, s.entries, s.head);
    forall i | 0 <= i < |s.readers| ensures FitsAt(s.size, s.entries, s.readers[i].k, HEADER + 1) {
      ShortestFitsAt(s.size, s.entries, s.readers[i].k);
    }
  }

  lemma ShortestFitsAt(size: nat, es: seq<Entry>, k: nat)
    requires k <= |es| && HEADER + 1 < size && forall e :: e in es ==> WellFormed(e)
    ensures FitsAt(size, es, k, HEADER + 1)
  {
    hide Hist;
    HistOfAll(es);
    if k < |es| {
      assert WellFormed(es[k]);
      PosStep(es, k);
      PosMonotone(es, k + 1, |es|);
    }
  }

  /** One entry of one byte less than the write leaves no room in a ring below twice the
      write's length. */
  lemma OneEntryNoRoom(size: nat, len: nat, e: Entry)
    requires HEADER + 2 <= len <= size < 2 * len && len <= HEADER + MAX_PAYLOAD
    requires e == Entry(Header(len - 1 - HEADER, HEADER, 0, 0, 0, 0, 0), seq(len - 1 - HEADER, _ => 0))
    ensures InRange(Created(size)) && Enabled(Created(size), Write(e))
    ensures var s := Step(Created(size), Write(e));
      InRange(s) && s.entries == [e] && s.head == 0 && !Fits(s, len)
  {
    assert [e][..0] == [] && [] + [e] == [e];
    HistOfAll([]);
    HistOfAll([e]);
    PosStep([e], 0);
  }

  // ---- which sizes are enough ----

  /** A write of `len` bytes has room in every state of every run. The writes in a run had room
      themselves, so this is about what writes with room can lead to. */
  ghost predicate AlwaysRoom(size: nat, len: nat) {
    forall states, events, n: nat ::
      IsRun(states, events, size) && n < |states| ==> InRange(states[n]) && Fits(states[n], len)
  }

  predicate Roomy(size: nat, len: nat) {
    2 * len <= size || (len == HEADER + 1 && len < size)
  }

  /** Twice the length is exactly what it takes, for every length a write can have but the
      shortest. */
  lemma AlwaysRoomIff(size: nat, len: nat)
    requires size > 0 && HEADER < len <= HEADER + MAX_PAYLOAD
    ensures AlwaysRoom(size, len) <==> Roomy(size, len)
  {
    if Roomy(size, len) {
      forall states, events, n: nat | IsRun(states, events, size) && n < |states|
        ensures InRange(states[n]) && Fits(states[n], len)
      {
        RunsKeepInv(states, events, size, n);
        if 2 * len <= size {
          TwiceTheLengthFits(states[n], len);
        } else {
          ShortestFits(states[n]);
        }
      }
    } else {
      NoRoomSomewhere(size, len);
    }
  }

  lemma NoRoomSomewhere(size: nat, len: nat)
    requires size > 0 && HEADER < len <= HEADER + MAX_PAYLOAD && !Roomy(size, len)
    ensures !AlwaysRoom(size, len)
  {
    var none: seq<Event> := [];
    var start := [Created(size)];
    assert IsRun(start, none, size);
    if len < size || (len == size && len > HEADER + 1) {
      var e := Entry(Header(len - 1 - HEADER, HEADER, 0, 0, 0, 0, 0), seq(len - 1 - HEADER, _ => 0));
      OneEntryNoRoom(size, len, e);
      var states := [Created(size), Step(Created(size), Write(e))];
      assert IsRun(states, [Write(e)], size);
      assert !Fits(states[1], len);
    } else {
      HistOfAll([]);
      assert !Fits(start[0], len);
    }
  }

  /** In the two logs of 1 KiB, as long as every earlier write had room, a write has room
      for certain exactly up to 512 bytes with its header. */
  lemma OneKibLogs(len: nat)
    requires HEADER < len <= HEADER + MAX_PAYLOAD
    ensures AlwaysRoom(1024, len) <==> len <= 512
  {
    AlwaysRoomIff(1024, len);
  }
}
