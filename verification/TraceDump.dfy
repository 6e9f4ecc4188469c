/** The dump of the saved trace: the logs of all zones, merged by time. Zones are numbered CPU
    by CPU, and within a CPU by type. */
module TraceDump {
  import opened Kernel
  import opened Ring
  import opened TraceZone

  const MAX_TIME := 0xffff_ffff_ffff_ffff

  type Logs = seq<seq<Record>>

  /** Little-endian. */
  function Le(s: seq<byte>): nat {
    if s == [] then 0 else s[0] + 256 * Le(s[1..])
  }

  function Time(r: Record): nat {
    Le(r[8..16])
  }

  function LeBytes(x: nat, n: nat): (s: seq<byte>)
    ensures |s| == n
    decreases n
  {
    if n == 0 then [] else [x % 256] + LeBytes(x / 256, n - 1)
  }

  function Power256(n: nat): nat {
    if n == 0 then 1 else 256 * Power256(n - 1)
  }

  lemma {:induction false} LeRoundTrip(x: nat, n: nat)
    requires x < Power256(n)
    ensures Le(LeBytes(x, n)) == x
    decreases n
  {
    if n == 0 {
    } else {
      assert x / 256 < Power256(n - 1);
      LeRoundTrip(x / 256, n - 1);
      assert LeBytes(x, n)[1..] == LeBytes(x / 256, n - 1);
    }
  }

  /** A record as `struct iotrace_record` lays it out: magic, pid, cpu, flags, type, time and 24
      bytes that depend on the type. */
  function RecordBytes(magic: u16, pid: u16, cpu: byte, flag: byte, kind: u16, time: u64, rest: seq<byte>): Record
    requires |rest| == 24
  {
    LeBytes(magic, 2) + LeBytes(pid, 2) + [cpu, flag] + LeBytes(kind, 2) + LeBytes(time, 8) + rest
  }

  /** The time read from a record is the one written into it. */
  lemma TimeOfRecord(magic: u16, pid: u16, cpu: byte, flag: byte, kind: u16, time: u64, rest: seq<byte>)
    requires |rest| == 24
    ensures Time(RecordBytes(magic, pid, cpu, flag, kind, time, rest)) == time
  {
    assert Power256(8) == U64 by {
      assert Power256(4) == 0x1_0000_0000;
    }
    LeRoundTrip(time, 8);
    hide Le, LeBytes, Power256;
    assert RecordBytes(magic, pid, cpu, flag, kind, time, rest)[8..16] == LeBytes(time, 8);
  }

  /** One printed record. */
  datatype Item = Item(zone: nat, index: nat)

  predicate Known(logs: Logs, it: Item) {
    it.zone < |logs| && it.index < |logs[it.zone]|
  }

  function TimeOf(logs: Logs, it: Item): nat
    requires Known(logs, it)
  {
    Time(logs[it.zone][it.index])
  }

  /** By time, then by zone, then by place in the zone. */
  predicate Before(logs: Logs, a: Item, b: Item)
    requires Known(logs, a) && Known(logs, b)
  {
    || TimeOf(logs, a) < TimeOf(logs, b)
    || (TimeOf(logs, a) == TimeOf(logs, b) && (a.zone < b.zone || (a.zone == b.zone && a.index < b.index)))
  }

  // ---- choosing the next record ----

  predicate PosOk(logs: Logs, pos: seq<nat>) {
    |pos| == |logs| && forall z :: 0 <= z < |logs| ==> pos[z] <= |logs[z]|
  }

  /** Zone `z` has a next record, and one that can be chosen: the search starts from the largest
      time and takes only what is below. */
  predicate Eligible(logs: Logs, pos: seq<nat>, z: nat)
    requires PosOk(logs, pos)
  {
    z < |logs| && pos[z] < |logs[z]| && Time(logs[z][pos[z]]) < MAX_TIME
  }

  function Head(pos: seq<nat>, z: nat): Item
    requires z < |pos|
  {
    Item(z, pos[z])
  }

  /** The earliest head among the zones below `n`; -1 when there is none. */
  ghost predicate IsPick(logs: Logs, pos: seq<nat>, n: nat, z: int)
    requires PosOk(logs, pos) && n <= |logs|
  {
    && -1 <= z < n && (z >= 0 ==> Eligible(logs, pos, z))
    && forall y :: 0 <= y < n && Eligible(logs, pos, y) ==>
         z >= 0 && (y == z || Before(logs, Head(pos, z), Head(pos, y)))
  }

  // ---- what has been printed ----

  /** The places in zone `z` printed so far, in the order printed. */
  function Project(out: seq<Item>, z: nat): seq<nat> {
    if out == [] then []
    else Project(out[..|out| - 1], z) + (if out[|out| - 1].zone == z then [out[|out| - 1].index] else [])
  }

  function UpTo(n: nat): seq<nat> {
    seq(n, i => i)
  }

  /** Every zone has been printed from its start up to its position, once and in order. */
  ghost predicate Printed(logs: Logs, out: seq<Item>, pos: seq<nat>) {
    && PosOk(logs, pos)
    && (forall k :: 0 <= k < |out| ==> Known(logs, out[k]))
    && (forall z :: 0 <= z < |logs| ==> Project(out, z) == UpTo(pos[z]))
  }

  lemma PrintOne(logs: Logs, out: seq<Item>, pos: seq<nat>, z: nat)
    requires Printed(logs, out, pos) && Eligible(logs, pos, z)
    ensures Printed(logs, out + [Head(pos, z)], pos[z := pos[z] + 1])
  {
    var out', pos' := out + [Head(pos, z)], pos[z := pos[z] + 1];
    assert out'[..|out|] == out;
    forall y | 0 <= y < |logs| ensures Project(out', y) == UpTo(pos'[y]) {
      assert Project(out, y) == UpTo(pos[y]);
      if y == z {
        assert UpTo(pos[z] + 1) == UpTo(pos[z]) + [pos[z]];
      }
    }
  }

  /** Nothing at or above the largest time has been passed. */
  ghost predicate Passed(logs: Logs, pos: seq<nat>)
    requires PosOk(logs, pos)
  {
    forall z :: 0 <= z < |logs| ==> AllBelow(logs[z], pos[z])
  }

  predicate AllBelow(log: seq<Record>, n: nat)
    requires n <= |log|
  {
    forall i :: 0 <= i < n ==> Time(log[i]) < MAX_TIME
  }

  /** `n` is where the dump of a zone ends: at the first record with the largest time, or at the
      end of the log. */
  ghost predicate Stops(log: seq<Record>, n: nat) {
    n <= |log| && AllBelow(log, n) && (n < |log| ==> Time(log[n]) >= MAX_TIME)
  }

  /** Every record of zone `z` has been printed, once and in order. */
  ghost predicate PrintedWhole(logs: Logs, out: seq<Item>, z: nat)
    requires z < |logs|
  {
    Project(out, z) == UpTo(|logs[z]|)
  }

  /** A zone comes out whole exactly when no record in it carries the largest time. */
  lemma CompleteIff(logs: Logs, out: seq<Item>, pos: seq<nat>, z: nat)
    requires Printed(logs, out, pos) && z < |logs| && Stops(logs[z], pos[z])
    ensures PrintedWhole(logs, out, z) <==> AllBelow(logs[z], |logs[z]|)
  {
    hide Project, Time;
    assert Project(out, z) == UpTo(pos[z]);
    assert |UpTo(pos[z])| == pos[z] && |UpTo(|logs[z]|)| == |logs[z]|;
  }

  /** The dump is over: where it stopped in each zone, and which zones came out whole. */
  ghost predicate Finished(logs: Logs, out: seq<Item>, pos: seq<nat>) {
    && Printed(logs, out, pos)
    && (forall z :: 0 <= z < |logs| ==> Stops(logs[z], pos[z]))
    && (forall z :: 0 <= z < |logs| ==> (PrintedWhole(logs, out, z) <==> AllBelow(logs[z], |logs[z]|)))
    && (TimeOrdered(logs) ==> Increasing(logs, out))
  }

  // ---- order ----

  ghost predicate TimeOrdered(logs: Logs) {
    forall z, i, j :: 0 <= z < |logs| && 0 <= i < j < |logs[z]| ==> Time(logs[z][i]) <= Time(logs[z][j])
  }

  /** The last printed record comes before every record that may still be chosen. */
  ghost predicate AheadOf(logs: Logs, out: seq<Item>, pos: seq<nat>)
    requires PosOk(logs, pos)
  {
    out != [] ==>
      && Known(logs, out[|out| - 1])
      && forall y :: 0 <= y < |logs| && Eligible(logs, pos, y) ==> Before(logs, out[|out| - 1], Head(pos, y))
  }

  ghost predicate Increasing(logs: Logs, out: seq<Item>) {
    && (forall k :: 0 <= k < |out| ==> Known(logs, out[k]))
    && (forall k :: 0 < k < |out| ==> Before(logs, out[k - 1], out[k]))
  }

  lemma PrintInOrder(logs: Logs, out: seq<Item>, pos: seq<nat>, z: nat)
    requires PosOk(logs, pos) && TimeOrdered(logs) && IsPick(logs, pos, |logs|, z)
    requires Increasing(logs, out) && AheadOf(logs, out, pos)
    ensures PosOk(logs, pos[z := pos[z] + 1]) && Increasing(logs, out + [Head(pos, z)])
    ensures AheadOf(logs, out + [Head(pos, z)], pos[z := pos[z] + 1])
  {
    var pos' := pos[z := pos[z] + 1];
    forall y | 0 <= y < |logs| && Eligible(logs, pos', y)
      ensures Before(logs, Head(pos, z), Head(pos', y))
    {
      if y == z {
        assert Time(logs[z][pos[z]]) <= Time(logs[z][pos[z] + 1]);
      } else {
        assert Eligible(logs, pos, y);
      }
    }
  }

  /** Neighbours in order make the whole dump strictly increasing, so it is the one arrangement
      of its records by time, zone and place. */
  lemma {:induction false} StrictlyIncreasing(logs: Logs, out: seq<Item>, i: nat, j: nat)
    requires Increasing(logs, out) && i < j < |out|
    ensures Before(logs, out[i], out[j])
    decreases j - i
  {
    if i + 1 == j {
    } else {
      StrictlyIncreasing(logs, out, i, j - 1);
      assert Before(logs, out[j - 1], out[j]);
    }
  }

  /** What holds between two records. */
  ghost predicate Progress(logs: Logs, out: seq<Item>, pos: seq<nat>) {
    && Printed(logs, out, pos) && Passed(logs, pos)
    && (TimeOrdered(logs) ==> Increasing(logs, out) && AheadOf(logs, out, pos))
  }

  lemma ProgressStart(logs: Logs, pos: seq<nat>)
    requires PosOk(logs, pos) && forall z :: 0 <= z < |logs| ==> pos[z] == 0
    ensures Progress(logs, [], pos)
  {
    assert UpTo(0) == [];
  }

  lemma ProgressStep(logs: Logs, out: seq<Item>, pos: seq<nat>, z: nat)
    requires Progress(logs, out, pos) && IsPick(logs, pos, |logs|, z)
    ensures Progress(logs, out + [Head(pos, z)], pos[z := pos[z] + 1])
  {
    PrintOne(logs, out, pos, z);
    if TimeOrdered(logs) {
      PrintInOrder(logs, out, pos, z);
    }
    hide Printed, Increasing, AheadOf, TimeOrdered;
    var pos' := pos[z := pos[z] + 1];
    forall y | 0 <= y < |logs| ensures AllBelow(logs[y], pos'[y]) {
      assert AllBelow(logs[y], pos[y]);
    }
  }

  lemma PickInRange(logs: Logs, pos: seq<nat>, z: nat)
    requires PosOk(logs, pos) && IsPick(logs, pos, |logs|, z)
    ensures z < |logs| == |pos|
  {
  }

  lemma ProgressEnd(logs: Logs, out: seq<Item>, pos: seq<nat>, best: int)
    requires Progress(logs, out, pos) && IsPick(logs, pos, |logs|, best) && best < 0
    ensures Finished(logs, out, pos)
  {
    hide Increasing, AheadOf, TimeOrdered, Project, PrintedWhole;
    forall z | 0 <= z < |logs| ensures Stops(logs[z], pos[z]) {
      assert !Eligible(logs, pos, z);
    }
    forall z | 0 <= z < |logs| ensures PrintedWhole(logs, out, z) <==> AllBelow(logs[z], |logs[z]|) {
      CompleteIff(logs, out, pos, z);
    }
  }

  // ---- termination ----

  function Left(logs: Logs, pos: seq<nat>): int
    requires |pos| == |logs|
  {
    if logs == [] then 0 else |logs[0]| - pos[0] + Left(logs[1..], pos[1..])
  }

  lemma {:induction false} LeftAfter(logs: Logs, pos: seq<nat>, z: nat)
    requires |pos| == |logs| && z < |logs|
    ensures Left(logs, pos[z := pos[z] + 1]) == Left(logs, pos) - 1
    decreases |logs|
  {
    if z == 0 {
    } else {
      LeftAfter(logs[1..], pos[1..], z - 1);
      assert pos[z := pos[z] + 1][1..] == pos[1..][z - 1 := pos[z] + 1];
    }
  }

  lemma {:induction false} LeftNatural(logs: Logs, pos: seq<nat>)
    requires PosOk(logs, pos)
    ensures Left(logs, pos) >= 0
    decreases |logs|
  {
    if logs == [] {
    } else {
      LeftNatural(logs[1..], pos[1..]);
    }
  }

  // ---- saved logs ----

  /** What the boot code saved of a zone. */
  datatype Saved = NoLog | Log(bytes: seq<byte>)

  /** The whole records of a saved log, after the remainder at its front. */
  function RecordsOf(l: Saved): seq<Record> {
    if l.NoLog? then [] else Records(Skipped(l.bytes))
  }

  function AllRecords(saved: seq<Saved>): (logs: Logs)
    ensures |logs| == |saved|
  {
    seq(|saved|, z requires 0 <= z < |saved| => RecordsOf(saved[z]))
  }

  /** The byte offset of record `i`. */
  function Offset(bytes: seq<byte>, i: nat): nat {
    |bytes| % RECORD + RECORD * i
  }

  /** The pointer test says whether a record is left, and the bytes at the pointer are it. */
  lemma AtPointer(bytes: seq<byte>, i: nat)
    requires i <= |RecordsOf(Log(bytes))|
    ensures Offset(bytes, i) + RECORD > |bytes| <==> i == |RecordsOf(Log(bytes))|
    ensures i < |RecordsOf(Log(bytes))| ==>
      RecordsOf(Log(bytes))[i] == bytes[Offset(bytes, i)..Offset(bytes, i) + RECORD]
  {
    var rest := Skipped(bytes);
    assert |rest| % RECORD == 0 && |rest| == RECORD * |Records(rest)|;
    if i < |Records(rest)| {
      RecordAt(rest, i);
      assert rest[RECORD * i..RECORD * i + RECORD] == bytes[Offset(bytes, i)..Offset(bytes, i) + RECORD];
    }
  }

  lemma PartOfPart(s: seq<byte>, a: nat, b: nat, c: nat, d: nat)
    requires c <= d && a + d <= b <= |s|
    ensures s[a..b][c..d] == s[a + c..a + d]
  {
    var x, y := s[a..b][c..d], s[a + c..a + d];
    assert |x| == |y| == d - c;
    forall i | 0 <= i < d - c ensures x[i] == y[i] {
      assert x[i] == s[a..b][c + i] == s[a + c + i];
    }
  }

  method TimeAt(bytes: seq<byte>, ptr: nat, ghost i: nat) returns (time: nat)
    requires i < |RecordsOf(Log(bytes))| && ptr == Offset(bytes, i)
    ensures time == Time(RecordsOf(Log(bytes))[i])
  {
    hide RecordsOf, Le, Offset;
    AtPointer(bytes, i);
    PartOfPart(bytes, ptr, ptr + RECORD, 8, 16);
    time := Le(bytes[ptr + 8..ptr + 16]);
  }

  // ---- the dump ----

  /** A zone's pointer, and whether it is over, say how many records have been passed. */
  ghost predicate PointerOk(l: Saved, ptr: nat, over: bool, i: nat) {
    && i <= |RecordsOf(l)| && (over ==> i == |RecordsOf(l)|)
    && if l.NoLog? then over else ptr == Offset(l.bytes, i)
  }

  class Dumper {
    const saved: seq<Saved>
    const ptr: array<nat>
    const over: array<bool>
    ghost var pos: seq<nat>      // how many records of each zone have been passed
    ghost var out: seq<Item>

    ghost predicate Valid()
      reads this, ptr, over
    {
      && ptr.Length == over.Length == |saved| == |pos|
      && forall z :: 0 <= z < |saved| ==> PointerOk(saved[z], ptr[z], over[z], pos[z])
    }

    ghost predicate Ready()
      reads this
    {
      ptr.Length == over.Length == |saved|
    }

    constructor (saved: seq<Saved>)
      ensures this.saved == saved && Ready() && fresh(ptr) && fresh(over)
    {
      this.saved := saved;
      ptr := new nat[|saved|](_ => 0);
      over := new bool[|saved|](_ => false);
      pos, out := [], [];
    }

    /** prz_record_iter_init: every zone at the first whole record of its log, and the earliest
        of these. */
    method Init() returns (best: int)
      requires Ready()
      modifies this`pos, ptr, over
      ensures Valid() && (forall z :: 0 <= z < |saved| ==> pos[z] == 0)
      ensures PosOk(AllRecords(saved), pos) && IsPick(AllRecords(saved), pos, |saved|, best)
    {
      pos := seq(|saved|, _ => 0);
      for z := 0 to |saved|
        invariant |pos| == |saved| && forall y :: 0 <= y < |saved| ==> pos[y] == 0
        invariant forall y :: 0 <= y < z ==> PointerOk(saved[y], ptr[y], over[y], pos[y])
      {
        if saved[z].NoLog? {
          over[z] := true;
        } else {
          AtPointer(saved[z].bytes, 0);
          ptr[z] := |saved[z].bytes| % RECORD;
          over[z] := ptr[z] + RECORD > |saved[z].bytes|;
        }
      }
      best := GetNextRecord();
    }

    /** get_next_record: the search over all zones for the smallest time. */
    method GetNextRecord() returns (best: int)
      requires Valid()
      modifies over
      ensures Valid() && PosOk(AllRecords(saved), pos) && IsPick(AllRecords(saved), pos, |saved|, best)
    {
      hide RecordsOf;
      var minTime := MAX_TIME;
      best := -1;
      ghost var logs := AllRecords(saved);
      for z := 0 to |saved|
        invariant Valid() && IsPick(logs, pos, z, best)
        invariant minTime == if best < 0 then MAX_TIME else Time(logs[best][pos[best]])
      {
        if !over[z] {
          AtPointer(saved[z].bytes, pos[z]);
          if ptr[z] + RECORD > |saved[z].bytes| {
            over[z] := true;
          } else {
            var time := TimeAt(saved[z].bytes, ptr[z], pos[z]);
            if time < minTime {
              minTime, best := time, z;
            }
          }
        }
      }
    }

    /** trace_auto_show_iter: the record at the zone's pointer. */
    method Show(z: nat)
      requires Valid() && PosOk(AllRecords(saved), pos) && IsPick(AllRecords(saved), pos, |saved|, z)
      modifies this`out, this`pos, ptr
      ensures Valid() && out == old(out) + [Head(old(pos), z)] && pos == old(pos)[z := old(pos[z]) + 1]
    {
      assert PointerOk(saved[z], ptr[z], over[z], pos[z]);
      hide RecordsOf;
      out := out + [Item(z, pos[z])];
      ptr[z] := ptr[z] + RECORD;
      pos := pos[z := pos[z] + 1];
    }

    /** iotrace_auto_dump: it ends; every zone has been printed, in its own order and once, up to
        the first record with the largest time, so whole exactly when it has none; and
        time-ordered zones come out merged in order. */
    method AutoDump()
      requires Ready()
      modifies this, ptr, over
      ensures Valid() && Finished(AllRecords(saved), out, pos)
    {
      hide Progress, IsPick, RecordsOf, PosOk, Left, Finished, PointerOk;
      out := [];
      var best := Init();
      ghost var logs := AllRecords(saved);
      ProgressStart(logs, pos);
      while best >= 0
        invariant Valid() && PosOk(logs, pos) && IsPick(logs, pos, |logs|, best) && Progress(logs, out, pos)
        decreases Left(logs, pos)
      {
        PickInRange(logs, pos, best);
        ProgressStep(logs, out, pos, best);
        LeftAfter(logs, pos, best);
        LeftNatural(logs, pos);
        Show(best);
        best := GetNextRecord();
      }
      ProgressEnd(logs, out, pos, best);
    }
  }

  // ---- from the writes before a reboot to the dump after it ----

  /** What boot and dump make of a zone in which only whole records were written. */
  lemma SavedRecords(hist: seq<byte>, n: nat)
    requires |hist| % RECORD == 0 && n <= |hist|
    ensures RecordsOf(Log(LastBytes(hist, n))) == LastBytes(Records(hist), n / RECORD)
  {
    SkipFindsRecords(hist, n);
  }

  /** The newest whole records that a zone of `size` bytes keeps. */
  ghost function Newest(hist: seq<byte>, size: nat): seq<Record> {
    if |hist| % RECORD != 0 then [] else LastBytes(Records(hist), Min(|hist|, size) / RECORD)
  }

  ghost predicate WholeRecords(zone: Zone)
    reads zone, zone.data
  {
    zone.Valid() && |zone.hist| % RECORD == 0
  }

  method SaveZone(zone: Zone) returns (l: Saved)
    requires WholeRecords(zone)
    modifies zone
    ensures zone.Valid() && RecordsOf(l) == Newest(old(zone.hist), zone.data.Length)
  {
    ghost var hist := zone.hist;
    SavedRecords(hist, Min(|hist|, zone.data.Length));
    var ok, log := zone.PostInit(false, true);
    l := if ok then Log(log) else NoLog;
  }

  /** After whole-record writes and a warm reboot, each zone prints its newest whole records,
      in order and once: all of them unless one carries the largest time. */
  method DumpAfterReboot(zones: seq<Zone>) returns (d: Dumper)
    requires forall i, j :: 0 <= i < j < |zones| ==> zones[i] != zones[j]
    requires forall i :: 0 <= i < |zones| ==> WholeRecords(zones[i])
    modifies zones
    ensures fresh(d) && d.Valid() && |d.saved| == |zones|
    ensures forall i :: 0 <= i < |zones| ==> RecordsOf(d.saved[i]) == Newest(old(zones[i].hist), zones[i].data.Length)
    ensures Finished(AllRecords(d.saved), d.out, d.pos)
  {
    var saved := SaveZones(zones);
    d := new Dumper(saved);
    d.AutoDump();
  }

  method SaveZones(zones: seq<Zone>) returns (saved: seq<Saved>)
    requires forall i, j :: 0 <= i < j < |zones| ==> zones[i] != zones[j]
    requires forall i :: 0 <= i < |zones| ==> WholeRecords(zones[i])
    modifies zones
    ensures |saved| == |zones|
    ensures forall i :: 0 <= i < |zones| ==> RecordsOf(saved[i]) == Newest(old(zones[i].hist), zones[i].data.Length)
  {
    hide RecordsOf, Newest, Keeps;
    saved := [];
    for n := 0 to |zones|
      invariant |saved| == n
      invariant forall i :: n <= i < |zones| ==> WholeRecords(zones[i]) && zones[i].hist == old(zones[i].hist)
      invariant forall i :: 0 <= i < n ==> RecordsOf(saved[i]) == Newest(old(zones[i].hist), zones[i].data.Length)
    {
      var l := SaveZone(zones[n]);
      saved := saved + [l];
    }
  }

  // ---- a record at the largest time ----

  const LATEST: Record := seq(40, _ => 255)

  /** A log with such a record in the middle: everything from it on is never printed. */
  lemma TailNeverPrinted(r: Record, n: nat)
    requires Time(r) < MAX_TIME
    ensures Stops([r, LATEST, r], n) <==> n == 1
  {
    LatestTime();
    var log := [r, LATEST, r];
    assert log[0] == r && log[1] == LATEST;
  }

  lemma LatestTime()
    ensures Time(LATEST) == MAX_TIME
  {
    assert LATEST[8..16] == seq(8, _ => 255);
    LeOnes(8);
    assert Ones(4) == 0xffff_ffff;
  }

  function Ones(n: nat): nat {
    if n == 0 then 0 else 255 + 256 * Ones(n - 1)
  }

  lemma {:induction false} LeOnes(n: nat)
    ensures Le(seq(n, _ => 255)) == Ones(n)
  {
    if n == 0 {
    } else {
      var s: seq<byte> := seq(n, _ => 255);
      assert s[1..] == seq(n - 1, _ => 255);
      LeOnes(n - 1);
    }
  }
}
