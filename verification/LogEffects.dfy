/** What each operation of the logger does to the unbounded log, said without the step function,
    and what follows over whole runs. */
module LogEffects {
  import opened Kernel
  import opened Ring
  import opened LogEntry
  import opened LogRuns

  // ---- pointers ----

  /** Reader `i` may see entry `x` when `uid` reads. */
  predicate MaySee(s: Log, i: nat, uid: u32, x: nat)
    requires i < |s.readers| && x < |s.entries|
  {
    s.readers[i].all || s.entries[x].header.euid == uid
  }

  /** `x` is the next entry reader `i` may see when `uid` reads, or the end of the log. */
  ghost predicate NextFor(s: Log, i: nat, uid: u32, x: nat) {
    && i < |s.readers| && s.readers[i].k <= x <= |s.entries|
    && (forall y :: s.readers[i].k <= y < x ==> !MaySee(s, i, uid, y))
    && (x < |s.entries| ==> MaySee(s, i, uid, x))
  }

  /** A write of `len` bytes moves a pointer from boundary `k` to `k'`: not at all unless it is
      lapped, and else to the first boundary at least `len` bytes on. */
  ghost predicate Pulled(s: Log, k: nat, len: nat, k': nat) {
    && k <= k' <= |s.entries|
    && if |Hist(s.entries)| + len < Pos(s.entries, k) + s.size then k' == k
       else && Pos(s.entries, k) + len <= Pos(s.entries, k')
            && forall j :: k <= j < k' ==> Pos(s.entries, j) < Pos(s.entries, k) + len
  }

  // ---- readers ----

  /** The reader went from its place to `k` and missed all in between for reason `why`. */
  ghost predicate Skipped(r: Reader, r': Reader, k: nat, why: Why) {
    && r' == r.(k := k, lost := r'.lost) && r.k <= k
    && (forall x :: x in r'.lost <==> x in r.lost || r.k <= x < k)
    && (forall x :: x in r'.lost ==> r'.lost[x] == if r.k <= x < k then why else r.lost[x])
  }

  predicate OthersSame(s: Log, s': Log, i: nat) {
    && s' == s.(readers := s'.readers) && |s'.readers| == |s.readers|
    && forall j :: 0 <= j < |s.readers| && j != i ==> s'.readers[j] == s.readers[j]
  }

  // ---- operations ----

  /** A new reader starts at the head with version 1 and nothing on record. */
  predicate Opens(s: Log, s': Log, all: bool) {
    && s' == s.(readers := s'.readers) && |s'.readers| == |s.readers| + 1 && s'.readers[..|s.readers|] == s.readers
    && var r := s'.readers[|s.readers|];
       r.k == s.head && r.all == all && r.ver == 1 && r.since == s.head && r.got == [] && r.lost == map[]
  }

  predicate Releases(s: Log, s': Log, i: nat) {
    && i < |s.readers| && s' == s.(readers := s'.readers) && |s'.readers| == |s.readers| - 1
    && (forall j :: 0 <= j < i ==> s'.readers[j] == s.readers[j])
    && (forall j :: i <= j < |s'.readers| ==> s'.readers[j] == s.readers[j + 1])
  }

  /** Every pointer that `len` bytes would reach is pulled, and what the readers hold stays. */
  ghost predicate Pulls(s: Log, s': Log, len: nat) {
    && s'.size == s.size && Pulled(s, s.head, len, s'.head) && |s'.readers| == |s.readers|
    && forall i :: 0 <= i < |s.readers| ==>
         && Pulled(s, s.readers[i].k, len, s'.readers[i].k)
         && Skipped(s.readers[i], s'.readers[i], s'.readers[i].k, Lapped(|Hist(s.entries)|, len))
  }

  ghost predicate Writes(s: Log, s': Log, e: Entry) {
    Pulls(s, s', HEADER + |e.payload|) && |s'.entries| == |s.entries| + 1
    && s'.entries[..|s.entries|] == s.entries && s'.entries[|s.entries|] == e
  }

  /** Reader `i` went to the next entry it may see. */
  ghost predicate Seeks(s: Log, s': Log, i: nat, uid: u32, x: nat) {
    && NextFor(s, i, uid, x) && OthersSame(s, s', i)
    && Skipped(s.readers[i], s'.readers[i], x, Filtered(uid))
  }

  ghost predicate Sought(s: Log, s': Log, i: nat, uid: u32) {
    exists x :: Seeks(s, s', i, uid, x)
  }

  /** Reader `i` was handed entry `x`, the next it may see, as `b`, and stands behind it. */
  ghost predicate HandsOver(s: Log, s': Log, i: nat, uid: u32, x: nat, b: seq<byte>) {
    && NextFor(s, i, uid, x) && x < |s.entries| && OthersSame(s, s', i)
    && b == UserBytes(s.readers[i].ver, s.entries[x])
    && s'.readers[i].k == x + 1
    && |s'.readers[i].got| == |s.readers[i].got| + 1 && s'.readers[i].got[..|s.readers[i].got|] == s.readers[i].got
    && s'.readers[i].got[|s.readers[i].got|] == Delivery(x, uid, s.readers[i].ver, b)
    && Skipped(s.readers[i], s'.readers[i].(k := x, got := s.readers[i].got), x, Filtered(uid))
  }

  predicate SetsVersion(s: Log, s': Log, i: nat, ver: int) {
    && i < |s.readers| && OthersSame(s, s', i)
    && s'.readers[i].ver == ver && s'.readers[i] == s.readers[i].(ver := s'.readers[i].ver)
  }

  /** The head and every reader are at the end of the log. */
  ghost predicate Flushes(s: Log, s': Log) {
    && s'.size == s.size && s'.entries == s.entries && s'.head == |s.entries| && |s'.readers| == |s.readers|
    && forall i :: 0 <= i < |s.readers| ==>
         s.readers[i].k <= |s.entries| ==> Skipped(s.readers[i], s'.readers[i], |s.entries|, Flushed)
  }

  /** Reader `i` was handed the next entry it may see, or there was none. */
  ghost predicate Reads(s: Log, s': Log, i: nat, uid: u32, x: nat) {
    if i < |s.readers| && x < |s.entries| then
      HandsOver(s, s', i, uid, x, UserBytes(s.readers[i].ver, s.entries[x]))
    else Seeks(s, s', i, uid, x)
  }

  ghost predicate Effect(s: Log, ev: Event, s': Log) {
    match ev
    case Open(all) => Opens(s, s', all)
    case Release(i) => Releases(s, s', i)
    case Write(e) => Writes(s, s', e)
    case FailedWrite(len) => Pulls(s, s', len) && s'.entries == s.entries
    case Seek(i, uid) => Sought(s, s', i, uid)
    case Read(i, uid) => exists x :: Reads(s, s', i, uid, x)
    case SetVersion(i, ver) => SetsVersion(s, s', i, ver)
    case Flush => Flushes(s, s')
  }

  // ---- every step has its effect ----

  lemma SkipSkips(r: Reader, to: nat, why: Why)
    requires r.k <= to
    ensures Skipped(r, Skip(r, to, why), to, why)
  {
  }

  lemma NextIsFirst(s: Log, i: nat, uid: u32)
    requires InRange(s) && i < |s.readers|
    ensures NextFor(s, i, uid, SeekReader(s.entries, s.readers[i], uid).k)
    ensures Skipped(s.readers[i], SeekReader(s.entries, s.readers[i], uid),
                    SeekReader(s.entries, s.readers[i], uid).k, Filtered(uid))
  {
    if !s.readers[i].all {
      SkipSkips(s.readers[i], FirstBy(s.entries, s.readers[i].k, uid), Filtered(uid));
    }
  }

  lemma SeekEffect(s: Log, i: nat, uid: u32) returns (x: nat)
    requires InRange(s) && i < |s.readers|
    ensures Seeks(s, Step(s, Seek(i, uid)), i, uid, x) && Sought(s, Step(s, Seek(i, uid)), i, uid)
  {
    hide SeekReader, NextFor, Skipped;
    NextIsFirst(s, i, uid);
    x := SeekReader(s.entries, s.readers[i], uid).k;
  }

  lemma HandedEffect(s: Log, i: nat, uid: u32, r: Reader)
    requires InRange(s) && i < |s.readers| && NextFor(s, i, uid, r.k) && r.k < |s.entries|
    requires Skipped(s.readers[i], r, r.k, Filtered(uid))
    ensures var b := UserBytes(r.ver, s.entries[r.k]);
      HandsOver(s, s.(readers := s.readers[i := r.(k := r.k + 1, got := r.got + [Delivery(r.k, uid, r.ver, b)])]),
                i, uid, r.k, b)
  {
    hide UserBytes, NextFor;
    var b := UserBytes(r.ver, s.entries[r.k]);
    var r' := r.(k := r.k + 1, got := r.got + [Delivery(r.k, uid, r.ver, b)]);
    assert r'.(k := r.k, got := s.readers[i].got) == r;
    assert r'.got[..|r.got|] == r.got;
  }

  lemma ReadEffect(s: Log, i: nat, uid: u32) returns (x: nat)
    requires InRange(s) && i < |s.readers|
    ensures Reads(s, Step(s, Read(i, uid)), i, uid, x)
  {
    hide SeekReader, NextFor, Skipped, UserBytes, HandsOver;
    NextIsFirst(s, i, uid);
    var r := SeekReader(s.entries, s.readers[i], uid);
    x := r.k;
    if r.k < |s.entries| {
      assert r.ver == s.readers[i].ver by {
        SkippedFields(s.readers[i], r, x, Filtered(uid));
      }
      HandedEffect(s, i, uid, r);
    }
  }

  lemma SkippedFields(r: Reader, r': Reader, k: nat, why: Why)
    requires Skipped(r, r', k, why)
    ensures r'.k == k >= r.k && r'.all == r.all && r'.ver == r.ver && r'.since == r.since && r'.got == r.got
  {
  }

  lemma PullLands(s: Log, k: nat, len: nat)
    requires k <= |s.entries| && FitsAt(s.size, s.entries, k, len)
    ensures Pulled(s, k, len, PulledTo(s.size, s.entries, k, len))
  {
    HistOfAll(s.entries);
    hide Hist;
  }

  lemma PullEffect(s: Log, len: nat)
    requires InRange(s) && Fits(s, len)
    ensures Pulls(s, PullAll(s, len), len)
  {
    hide Hist, Pos, PulledTo, Pulled, FitsAt, Skipped;
    var s' := PullAll(s, len);
    PullLands(s, s.head, len);
    forall i | 0 <= i < |s.readers|
      ensures Pulled(s, s.readers[i].k, len, s'.readers[i].k)
      ensures Skipped(s.readers[i], s'.readers[i], s'.readers[i].k, Lapped(|Hist(s.entries)|, len))
    {
      PullLands(s, s.readers[i].k, len);
      SkipSkips(s.readers[i], PulledTo(s.size, s.entries, s.readers[i].k, len), Lapped(|Hist(s.entries)|, len));
    }
  }

  lemma WriteEffect(s: Log, e: Entry)
    requires InRange(s) && Enabled(s, Write(e))
    ensures Writes(s, Step(s, Write(e)), e)
  {
    hide Pulled, Skipped, Hist, Fits;
    var len := HEADER + |e.payload|;
    PullEffect(s, len);
    var a, b := PullAll(s, len), Step(s, Write(e));
    hide PullAll;
    assert b == a.(entries := s.entries + [e]);
  }

  lemma FlushEffect(s: Log)
    requires InRange(s)
    ensures Flushes(s, Step(s, Flush))
  {
    hide Skipped;
    forall i | 0 <= i < |s.readers|
      ensures Skipped(s.readers[i], Step(s, Flush).readers[i], |s.entries|, Flushed)
    {
      SkipSkips(s.readers[i], |s.entries|, Flushed);
    }
  }

  /** Every step of the log has the effect its operation promises. */
  lemma StepEffect(s: Log, ev: Event)
    requires InRange(s) && Enabled(s, ev)
    ensures Effect(s, ev, Step(s, ev))
  {
    hide Hist, Fits, HandsOver, Seeks, Writes, Flushes, Pulls, Reads;
    match ev
    case Open(all) =>
    case Release(i) =>
    case Write(e) => WriteEffect(s, e);
    case FailedWrite(len) => PullEffect(s, len);
    case Seek(i, uid) => var x := SeekEffect(s, i, uid);
    case Read(i, uid) => var x := ReadEffect(s, i, uid);
    case SetVersion(i, ver) =>
    case Flush => FlushEffect(s);
  }

  // ---- over whole runs ----

  /** From `r` to `r'` a reader went on, and `g`, if anything, was handed to it. */
  ghost predicate WentOn(r: Reader, r': Reader) {
    && r.k <= r'.k
    && (r'.got == r.got
        || (|r'.got| == |r.got| + 1 && r'.got[..|r.got|] == r.got && r'.got[|r.got|].index >= r.k))
  }

  /** No pointer ever moves back. A reader goes on from where it was, or is new at the head. */
  lemma EffectGoesOn(s: Log, ev: Event, s': Log, i: nat)
    requires Effect(s, ev, s') && InRange(s) && i < |s'.readers|
    ensures |s.entries| <= |s'.entries| && s.head <= s'.head
    ensures var j := Before(ev, i);
      if j < |s.readers| then WentOn(s.readers[j], s'.readers[i])
      else s'.readers[i].k == s.head && s'.readers[i].got == []
  {
    hide Hist, Pos, UserBytes;
    match ev
    case Open(all) => assert i < |s.readers| ==> s'.readers[i] == s'.readers[..|s.readers|][i];
    case _ =>
  }

  /** Read `ev` of reader `j` hands something over. */
  predicate IsDataRead(s: Log, ev: Event, j: nat) {
    && j < |s.readers| && ev.Read? && ev.i == j
    && exists x :: s.readers[j].k <= x < |s.entries| && MaySee(s, j, ev.uid, x)
  }

  /** The reads up to state `n` that handed something to the reader then at place `i`. */
  function DataReads(states: seq<Log>, events: seq<Event>, n: nat, i: nat): seq<nat>
    requires n <= |events| && n < |states|
    decreases n
  {
    if n == 0 then []
    else
      var j := Before(events[n - 1], i);
      (if j < |states[n - 1].readers| then DataReads(states, events, n - 1, j) else [])
      + if IsDataRead(states[n - 1], events[n - 1], j) then [n - 1] else []
  }

  /** Step `m` is a read of the reader that is at place `i` in state `n`, and gave it `g`. */
  ghost predicate Gave(states: seq<Log>, events: seq<Event>, n: nat, i: nat, m: nat, g: Delivery)
    requires n <= |events| && n < |states|
  {
    && m < n && events[m].Read? && events[m].i == Earlier(events, n, i, m) && events[m].uid == g.uid
    && HandsOver(states[m], states[m + 1], events[m].i, g.uid, g.index, g.bytes)
  }

  /** A read hands over exactly when there is something to see. */
  lemma ReadGives(s: Log, ev: Event, s': Log, i: nat)
    requires Effect(s, ev, s') && InRange(s) && i < |s'.readers|
    ensures var j := Before(ev, i);
      if IsDataRead(s, ev, j) then
        && |s'.readers[i].got| == |s.readers[j].got| + 1 && s'.readers[i].got[..|s.readers[j].got|] == s.readers[j].got
        && var g := s'.readers[i].got[|s.readers[j].got|];
           j == i && g.uid == ev.uid && HandsOver(s, s', i, g.uid, g.index, g.bytes)
      else s'.readers[i].got == if j < |s.readers| then s.readers[j].got else []
  {
    hide Hist, Pos, UserBytes;
    match ev
    case Open(all) => assert i < |s.readers| ==> s'.readers[i] == s'.readers[..|s.readers|][i];
    case Read(k, uid) =>
      var x :| Reads(s, s', k, uid, x);
    case _ =>
  }

  lemma RunStart(states: seq<Log>, events: seq<Event>, size: nat)
    requires IsRun(states, events, size)
    ensures |states| == |events| + 1 && states[0].readers == []
  {
    hide Step, Enabled, InRange;
  }

  lemma EarlierNow(events: seq<Event>, n: nat, i: nat)
    requires n <= |events|
    ensures Earlier(events, n, i, n) == i
  {
  }

  lemma EarlierStep(events: seq<Event>, n: nat, i: nat, m: nat)
    requires m < n <= |events|
    ensures Earlier(events, n, i, m) == Earlier(events, n - 1, Before(events[n - 1], i), m)
    ensures Earlier(events, n, i, n - 1) == Before(events[n - 1], i)
  {
  }

  lemma DataReadsStep(states: seq<Log>, events: seq<Event>, n: nat, i: nat)
    requires 0 < n <= |events| && n < |states|
    ensures var j := Before(events[n - 1], i);
      DataReads(states, events, n, i) ==
        (if j < |states[n - 1].readers| then DataReads(states, events, n - 1, j) else [])
        + if IsDataRead(states[n - 1], events[n - 1], j) then [n - 1] else []
  {
  }

  lemma GaveLater(states: seq<Log>, events: seq<Event>, n: nat, i: nat, m: nat, g: Delivery)
    requires 0 < n <= |events| && n < |states| && Gave(states, events, n - 1, Before(events[n - 1], i), m, g)
    ensures Gave(states, events, n, i, m, g)
  {
    hide HandsOver, Earlier, Before;
    EarlierStep(events, n, i, m);
  }

  lemma GaveNow(states: seq<Log>, events: seq<Event>, n: nat, i: nat, g: Delivery)
    requires 0 < n <= |events| && n < |states| && IsDataRead(states[n - 1], events[n - 1], i)
    requires events[n - 1].uid == g.uid && HandsOver(states[n - 1], states[n], i, g.uid, g.index, g.bytes)
    ensures Gave(states, events, n, i, n - 1, g)
  {
    hide HandsOver, Earlier;
    EarlierStep(events, n, i, n - 1);
  }

  /** The k-th thing a reader was ever handed is what its k-th read that found something gave. */
  lemma {:induction false} KthRead(states: seq<Log>, events: seq<Event>, size: nat, n: nat, i: nat, d: nat)
    requires IsRun(states, events, size) && n < |states| && i < |states[n].readers|
    ensures |DataReads(states, events, n, i)| == |states[n].readers[i].got|
    ensures d < |states[n].readers[i].got| ==>
      Gave(states, events, n, i, DataReads(states, events, n, i)[d], states[n].readers[i].got[d])
    decreases n
  {
    hide IsRun, Step, Enabled, InRange, HandsOver, IsDataRead, Effect, Gave, DataReads, Before;
    RunStart(states, events, size);
    if n == 0 {
    } else {
      RunStep(states, events, size, n - 1);
      var s, ev, j := states[n - 1], events[n - 1], Before(events[n - 1], i);
      var got := states[n].readers[i].got;
      StepEffect(s, ev);
      ReadGives(s, ev, states[n], i);
      DataReadsStep(states, events, n, i);
      if j < |s.readers| {
        KthRead(states, events, size, n - 1, j, d);
        if d < |s.readers[j].got| {
          GaveLater(states, events, n, i, DataReads(states, events, n - 1, j)[d], s.readers[j].got[d]);
          assert got[d] == got[..|s.readers[j].got|][d];
        }
      }
      if IsDataRead(s, ev, j) {
        IsDataReadInRange(s, ev, j);
        if d + 1 == |got| {
          GaveNow(states, events, n, i, got[d]);
        }
      }
    }
  }

  lemma IsDataReadInRange(s: Log, ev: Event, j: nat)
    requires IsDataRead(s, ev, j)
    ensures j < |s.readers| && ev.Read? && ev.i == j
  {
  }

  /** Two reads of one reader never give the same entry: each gives a later one. */
  lemma ReadsDiffer(states: seq<Log>, events: seq<Event>, size: nat, n: nat, i: nat, d: nat, e: nat)
    requires IsRun(states, events, size) && size > 0 && n < |states| && i < |states[n].readers|
    requires d < e < |DataReads(states, events, n, i)|
    ensures e < |states[n].readers[i].got| && states[n].readers[i].got[d].index < states[n].readers[i].got[e].index
    ensures Gave(states, events, n, i, DataReads(states, events, n, i)[d], states[n].readers[i].got[d])
    ensures Gave(states, events, n, i, DataReads(states, events, n, i)[e], states[n].readers[i].got[e])
  {
    KthRead(states, events, size, n, i, d);
    KthRead(states, events, size, n, i, e);
    hide IsRun, DataReads, Gave;
    RunsKeepInv(states, events, size, n);
    hide Hist, Explained, Faithful;
  }

  /** Head and readers stand at entry `e` or later. */
  predicate AllPast(s: Log, e: nat) {
    s.head >= e && forall i :: 0 <= i < |s.readers| ==> s.readers[i].k >= e
  }

  lemma PastStays(s: Log, ev: Event, e: nat)
    requires InRange(s) && Enabled(s, ev) && (AllPast(s, e) || (ev.Flush? && e <= |s.entries|))
    ensures AllPast(Step(s, ev), e)
  {
    StepEffect(s, ev);
    hide Step, Enabled;
    var s' := Step(s, ev);
    if ev.Flush? {
      hide AllPast;
      FlushedPast(s, s', e);
    } else {
      hide Effect;
      forall i | 0 <= i < |s'.readers| ensures s'.readers[i].k >= e {
        EffectGoesOn(s, ev, s', i);
      }
      if s'.readers == [] {
        HeadGoesOn(s, ev, s');
      } else {
        EffectGoesOn(s, ev, s', 0);
      }
    }
  }

  lemma FlushedPast(s: Log, s': Log, e: nat)
    requires InRange(s) && Flushes(s, s') && (e <= |s.entries| || AllPast(s, e))
    ensures AllPast(s', e)
  {
  }

  lemma HeadGoesOn(s: Log, ev: Event, s': Log)
    requires InRange(s) && Effect(s, ev, s')
    ensures s.head <= s'.head
  {
    hide Hist, Pos, UserBytes, Skipped;
  }

  /** After a flush at step `f` every pointer stays behind all that was committed by then. */
  lemma {:induction false} StaysPast(states: seq<Log>, events: seq<Event>, size: nat, f: nat, n: nat)
    requires IsRun(states, events, size) && f < n < |states| && events[f].Flush?
    ensures AllPast(states[n], |states[f].entries|)
    decreases n
  {
    hide IsRun, Step, Enabled, InRange, AllPast;
    RunStep(states, events, size, n - 1);
    if n == f + 1 {
    } else {
      StaysPast(states, events, size, f, n - 1);
    }
    PastStays(states[n - 1], events[n - 1], |states[f].entries|);
  }

  /** Nothing that was committed before a flush is handed out after it, neither to a reader that
      was open then nor to one opened later. */
  lemma {:induction false} FlushedForGood(states: seq<Log>, events: seq<Event>, size: nat, f: nat, n: nat, i: nat,
                                          g: Delivery)
    requires IsRun(states, events, size) && f < n < |states| && events[f].Flush?
    requires i < |states[n].readers| && g in states[n].readers[i].got
    ensures
      || g.index >= |states[f].entries|
      || var j := Earlier(events, n, i, f + 1);
         j < |states[f + 1].readers| && g in states[f + 1].readers[j].got
    decreases n
  {
    hide IsRun, Step, Enabled, InRange, AllPast, Effect, Earlier, Before;
    RunStart(states, events, size);
    if n == f + 1 {
      EarlierNow(events, n, i);
    } else {
      RunStep(states, events, size, n - 1);
      StaysPast(states, events, size, f, n - 1);
      EarlierStep(events, n, i, f + 1);
      var s, ev, j := states[n - 1], events[n - 1], Before(events[n - 1], i);
      StepEffect(s, ev);
      GotIsOldOrLater(s, ev, states[n], i, g, |states[f].entries|);
      if g.index < |states[f].entries| {
        FlushedForGood(states, events, size, f, n - 1, j, g);
      }
    }
  }

  lemma GotIsOldOrLater(s: Log, ev: Event, s': Log, i: nat, g: Delivery, e: nat)
    requires InRange(s) && Effect(s, ev, s') && AllPast(s, e) && i < |s'.readers| && g in s'.readers[i].got
    ensures g.index >= e || (Before(ev, i) < |s.readers| && g in s.readers[Before(ev, i)].got)
  {
    hide Effect;
    EffectGoesOn(s, ev, s', i);
    var d :| 0 <= d < |s'.readers[i].got| && s'.readers[i].got[d] == g;
    var j := Before(ev, i);
    if j < |s.readers| && d < |s.readers[j].got| {
      assert s'.readers[i].got == s.readers[j].got || s'.readers[i].got[..|s.readers[j].got|][d] == g;
    }
  }
}
