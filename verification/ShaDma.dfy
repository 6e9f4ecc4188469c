/** The SHA driver's path from update/final/finup requests to DMA descriptors: a fast path
    that hands scatter entries to the hardware directly, and a slow path through a bounce
    buffer. The hardware is whatever absorbs the descriptors' bytes. */
module ShaDma {
  import opened Kernel
  import opened Ring
  import opened Scatter

  const BLOCK: nat := 64
  const MAX_TABLES: nat := 16            // MAX_NUM_TABLES
  const LENGTH_FIELD: nat := 0x2_0000    // the descriptor's length field has 17 bits

  datatype Desc = Desc(bytes: seq<byte>, begin: bool, end: bool, eoc: bool)

  /** All descriptors handed to the hardware so far, and how they were batched. */
  datatype Wire = Wire(descs: seq<Desc>, batches: seq<Batch>)

  datatype Batch = Batch(bytes: seq<byte>, begin: bool, final: bool)

  function BatchBytes(batches: seq<Batch>): List {
    seq(|batches|, i requires 0 <= i < |batches| => batches[i].bytes)
  }

  function Sent(descs: seq<Desc>): seq<byte> {
    if descs == [] then [] else Sent(descs[..|descs| - 1]) + descs[|descs| - 1].bytes
  }

  lemma SentAppend(descs: seq<Desc>, d: Desc)
    ensures Sent(descs + [d]) == Sent(descs) + d.bytes
  {
    assert (descs + [d])[..|descs|] == descs;
  }

  /** What the hardware reads when asked for all of `b`. */
  function Fetched(b: seq<byte>): (r: seq<byte>)
    ensures r <= b && |r| < LENGTH_FIELD && (|b| - |r|) % LENGTH_FIELD == 0
  {
    b[..|b| % LENGTH_FIELD]
  }

  /** The length field keeps a descriptor whole exactly when it is short enough. */
  lemma FetchedWholeIff(b: seq<byte>)
    ensures Fetched(b) == b <==> |b| < LENGTH_FIELD
  {
    if |b| >= LENGTH_FIELD {
      assert |Fetched(b)| < |b|;
    }
  }

  function FetchedAll(table: List): (r: List)
    ensures |r| == |table|
  {
    seq(|table|, i requires 0 <= i < |table| => Fetched(table[i]))
  }

  predicate Usable(list: List) {
    forall i :: 0 <= i < |list| ==> |list[i]| < LENGTH_FIELD
  }

  predicate GoodBufferLength(n: nat) {
    0 < n < LENGTH_FIELD && n % BLOCK == 0
  }

  /** The first descriptor and the first batch start a hash, and while no descriptor has been
      cut (`whole`) none after them does. Every batch before the last is made of whole
      blocks. */
  ghost predicate WireOk(w: Wire, whole: bool) {
    && (forall i :: 0 <= i < |w.descs| ==> (i == 0 ==> w.descs[i].begin) && (whole && w.descs[i].begin ==> i == 0))
    && (forall i :: 0 <= i < |w.batches| ==> (i == 0 ==> w.batches[i].begin) && (whole && w.batches[i].begin ==> i == 0))
    && (forall i :: 0 <= i < |w.batches| ==> !w.batches[i].final ==> |w.batches[i].bytes| % BLOCK == 0)
    && |w.batches| <= |w.descs|
  }

  function ChunkLength(entry: nat, total: nat, room: nat): (n: nat)
    requires entry > 0 && total > 0 && room > 0
    ensures 0 < n <= entry && n <= total && n <= room
    ensures n == entry || n == total || n == room
  {
    Min(Min(entry, total), room)
  }

  ghost predicate CountOk(lo: nat, hi: nat, descs: seq<Desc>) {
    lo < U64 && hi < U64 && hi * U64 + lo == |Sent(descs)|
  }

  /** What the fast path leaves of an entry it could have all of: nothing for the last entry of
      a final request, the bytes after the last whole block otherwise. */
  function PieceTail(total: nat, entry: nat, lastOfFinal: bool): (tail: nat)
    ensures tail <= total && tail <= entry && tail < BLOCK
    ensures lastOfFinal ==> tail == 0
    ensures !lastOfFinal ==> (Min(total, entry) - tail) % BLOCK == 0
  {
    if lastOfFinal then 0 else Min(total, entry) % BLOCK
  }

  method PieceLength(total: nat, entry: nat, lastOfFinal: bool) returns (length: nat, tail: nat)
    ensures tail == PieceTail(total, entry, lastOfFinal) && length == Min(total, entry) - tail
    ensures length + tail <= total && length + tail <= entry
    ensures length + tail == total || length + tail == entry
    ensures if lastOfFinal then tail == 0 else length % BLOCK == 0 && tail < BLOCK
    ensures total >= BLOCK && entry >= BLOCK ==> length >= BLOCK
  {
    length, tail := Min(total, entry), 0;
    if !lastOfFinal {
      tail := length % BLOCK;
      length := length - tail;
    }
  }

  /** The pieces that the fast path puts into descriptors, from entry `at` on. */
  function FastTable(list: List, at: nat, total: nat, final: bool, room: nat): List
    requires at <= |list|
    decreases room
  {
    if total == 0 || room == 0 || at == |list| then []
    else
      var tail := PieceTail(total, |list[at]|, final && at + 1 == |list|);
      var length := Min(total, |list[at]|) - tail;
      [list[at][..length]] + if tail > 0 then [] else FastTable(list, at + 1, total - length, final, room - 1)
  }

  /** `table` is how far the fast path has got with `all`. */
  ghost predicate OnTheWay(list: List, at: nat, total: nat, final: bool, table: List, halt: bool, all: List) {
    && |table| <= MAX_TABLES && at <= |list|
    && all == table + if halt then [] else FastTable(list, at, total, final, MAX_TABLES - |table|)
  }

  lemma FastTableStart(list: List, at: nat, total: nat, final: bool)
    requires at <= |list|
    ensures OnTheWay(list, at, total, final, [], false, FastTable(list, at, total, final, MAX_TABLES))
  {
  }

  lemma FastTableStep(list: List, at: nat, total: nat, final: bool, table: List, all: List, piece: seq<byte>, tail: nat)
    requires OnTheWay(list, at, total, final, table, false, all)
    requires at < |list| && total > 0 && |table| < MAX_TABLES
    requires tail == PieceTail(total, |list[at]|, final && at + 1 == |list|)
    requires piece == list[at][..Min(total, |list[at]|) - tail]
    ensures OnTheWay(list, at + 1, total - |piece|, final, table + [piece], tail > 0, all)
  {
    hide FastTable, PieceTail;
    FastTableUnfolds(list, at, total, final, MAX_TABLES - |table|, piece, tail);
    AddAssoc(table, [piece],
             if tail > 0 then [] else FastTable(list, at + 1, total - |piece|, final, MAX_TABLES - |table| - 1));
  }

  lemma FastTableUnfolds(list: List, at: nat, total: nat, final: bool, room: nat, piece: seq<byte>, tail: nat)
    requires at < |list| && total > 0 && room > 0
    requires tail == PieceTail(total, |list[at]|, final && at + 1 == |list|)
    requires piece == list[at][..Min(total, |list[at]|) - tail]
    ensures FastTable(list, at, total, final, room) ==
            [piece] + if tail > 0 then [] else FastTable(list, at + 1, total - |piece|, final, room - 1)
  {
    hide PieceTail;
  }

  lemma FastTableEnd(list: List, at: nat, total: nat, final: bool, table: List, halt: bool, all: List)
    requires OnTheWay(list, at, total, final, table, halt, all)
    requires halt || total == 0 || |table| == MAX_TABLES || at == |list|
    ensures all == table
  {
  }

  /** A request reaches the engine whole: it goes through the buffer, or the length field can
      hold every piece that the fast path makes of it. */
  predicate Uncut(bufcnt: nat, src: List, nbytes: nat, final: bool) {
    || nbytes == 0 || bufcnt > 0 || nbytes < BLOCK || src == [] || |src[0]| < BLOCK
    || Usable(FastTable(src, 0, nbytes, final, MAX_TABLES))
  }

  /** A single entry of exactly 128 KiB is cut down to nothing. */
  lemma CutRequest(e: seq<byte>)
    requires |e| == LENGTH_FIELD
    ensures !Uncut(0, [e], |e|, false) && FastTable([e], 0, |e|, false, MAX_TABLES) == [e] && Fetched(e) == []
  {
    var list, none := [e], FastTable([e], 1, 0, false, MAX_TABLES - 1);
    assert list[0][..|e|] == e && none == [];
    assert PieceTail(|e|, |list[0]|, false) == 0;
    assert FastTable(list, 0, |e|, false, MAX_TABLES) == [e] + none == [e];
    hide FastTable;
    assert !Usable([e]) by { assert |[e][0]| >= LENGTH_FIELD; }
  }

  ghost predicate BlockPieces(table: List) {
    forall i :: 0 <= i < |table| ==> |table[i]| % BLOCK == 0
  }

  lemma {:induction false} FetchedBlocks(table: List)
    requires BlockPieces(table)
    ensures |Flat(FetchedAll(table))| % BLOCK == 0
  {
    if table == [] {
    } else {
      assert FetchedAll(table)[1..] == FetchedAll(table[1..]);
      assert |FetchedAll(table)[0]| % BLOCK == 0;
      hide FetchedAll, Fetched;
      FetchedBlocks(table[1..]);
    }
  }

  /** Cutting loses bytes exactly when a piece is too long for the length field. */
  lemma {:induction false} FetchedAllWholeIff(table: List)
    ensures Usable(table) ==> FetchedAll(table) == table
    ensures |Flat(FetchedAll(table))| <= |Flat(table)|
    ensures |Flat(FetchedAll(table))| == |Flat(table)| <==> Usable(table)
  {
    if table == [] {
    } else {
      var rest := table[1..];
      FetchedAllWholeIff(rest);
      FetchedWholeIff(table[0]);
      assert FetchedAll(table)[1..] == FetchedAll(rest);
      assert Usable(table) <==> |table[0]| < LENGTH_FIELD && Usable(rest) by {
        assert forall i :: 0 <= i < |rest| ==> rest[i] == table[i + 1];
      }
      assert FetchedAll(table)[0] == Fetched(table[0]);
    }
  }

  /** Where the fast path stands after `table`: `s` is the next entry, unless it stopped
      inside the entry before. */
  ghost predicate Gathered(list: List, offset: nat, total: nat, final: bool,
                           request: seq<byte>, table: List, s: nat, stop: bool)
  {
    && |table| <= s <= |list|
    && (table != [] ==> |Flat(table)| >= BLOCK)
    && (BlockPieces(table) || (final && total == 0))
    && if stop then
         table != [] && total > 0 && SplitAt(list, s - 1, offset, total, request, table)
       else
         && SplitAt(list, s, 0, total, request, table)
         && (table != [] && total > 0 ==> offset == |list[s - 1]|)
  }

  /** The request is the table followed by what is pending at the cursor. */
  ghost predicate SplitAt(list: List, sg: nat, offset: nat, total: nat, request: seq<byte>, table: List) {
    Covers(list, sg, offset, total) && request == Flat(table) + Pending(list, sg, offset, total)
  }

  /** What the next entry adds to the table, and what that leaves of the request. */
  lemma GatherSplit(list: List, s: nat, total: nat, request: seq<byte>, table: List, length: nat)
    requires Covers(list, s, 0, total) && s < |list| && length <= total && length <= |list[s]|
    requires request == Flat(table) + Pending(list, s, 0, total)
    ensures |Flat(table + [list[s][..length]])| == |Flat(table)| + length
    ensures length < |list[s]| ==>
        && Covers(list, s, length, total - length)
        && request == Flat(table + [list[s][..length]]) + Pending(list, s, length, total - length)
    ensures length == |list[s]| ==>
        && Covers(list, s + 1, 0, total - length)
        && request == Flat(table + [list[s][..length]]) + Pending(list, s + 1, 0, total - length)
    ensures length == total ==>
        && Covers(list, s + 1, 0, 0)
        && request == Flat(table + [list[s][..length]]) + Pending(list, s + 1, 0, 0)
  {
    assert list[s][0..length] == list[s][..length];
    FlatAppend(table, list[s][..length]);
    TakeBytes(list, s, 0, total, length);
    hide Flat, Tail;
    if length < |list[s]| {
      AddAssoc(Flat(table), list[s][..length], Pending(list, s, length, total - length));
    } else {
      AddAssoc(Flat(table), list[s][..length], Pending(list, s + 1, 0, total - length));
    }
  }

  /** The fast path takes `length` bytes of entry `s` and leaves `tail` of those it could
      have had. */
  lemma GatherStep(list: List, offset: nat, total: nat, final: bool, request: seq<byte>, table: List, s: nat,
                   length: nat, tail: nat)
    requires Gathered(list, offset, total, final, request, table, s, false)
    requires total > 0 && s < |list| && length + tail <= total && length + tail <= |list[s]|
    requires length + tail == total || length + tail == |list[s]|
    requires if final && s + 1 == |list| then tail == 0 else length % BLOCK == 0
    requires table == [] ==> length >= BLOCK
    ensures Gathered(list, length, total - length, final, request, table + [list[s][..length]], s + 1, tail > 0)
  {
    if s + 1 == |list| {
      LastEntryCovers(list, s, 0, total);
    }
    hide Flat, Pending, Covers;
    GatherSplit(list, s, total, request, table, length);
  }

  // ---- descriptors and batches ----

  /** The descriptors of one batch: together they carry its bytes, each says whether the batch is
      final, the last one alone ends the chain, and none but the first can begin a hash. */
  ghost predicate Stretch(descs: seq<Desc>, b: Batch) {
    && descs != [] && Sent(descs) == b.bytes
    && forall i :: 0 <= i < |descs| ==>
         descs[i].end == b.final && descs[i].eoc == (i == |descs| - 1) && descs[i].begin == (i == 0 && b.begin)
  }

  /** The descriptors are consecutive stretches, one for each batch. */
  ghost predicate Stretched(descs: seq<Desc>, batches: seq<Batch>)
    decreases |batches|
  {
    if batches == [] then descs == []
    else exists k :: 0 <= k <= |descs| && Stretched(descs[..k], batches[..|batches| - 1])
                     && Stretch(descs[k..], batches[|batches| - 1])
  }

  lemma StretchedMore(descs: seq<Desc>, batches: seq<Batch>, more: seq<Desc>, b: Batch)
    requires Stretched(descs, batches) && Stretch(more, b)
    ensures Stretched(descs + more, batches + [b])
  {
    hide Stretch;
    var all, bs, k := descs + more, batches + [b], |descs|;
    assert all[..k] == descs && all[k..] == more && bs[..|bs| - 1] == batches && bs[|bs| - 1] == b;
  }

  lemma {:induction false} SentSum(a: seq<Desc>, b: seq<Desc>)
    ensures Sent(a + b) == Sent(a) + Sent(b)
    decreases |b|
  {
    if b == [] {
      assert a + b == a;
    } else {
      SentSum(a, b[..|b| - 1]);
      assert (a + b)[..|a + b| - 1] == a + b[..|b| - 1];
      AddAssoc(Sent(a), Sent(b[..|b| - 1]), b[|b| - 1].bytes);
    }
  }

  /** The batches are the descriptors, grouped. */
  ghost predicate Grouped(w: Wire) {
    Flat(BatchBytes(w.batches)) == Sent(w.descs) && Stretched(w.descs, w.batches)
  }

  lemma GroupedAppend(before: Wire, after: Wire, more: seq<Desc>, b: Batch)
    requires Grouped(before) && after.batches == before.batches + [b]
    requires after.descs == before.descs + more && Stretch(more, b)
    ensures Grouped(after)
  {
    StretchedMore(before.descs, before.batches, more, b);
    SentSum(before.descs, more);
    hide Stretched, Sent;
    assert BatchBytes(after.batches) == BatchBytes(before.batches) + [b.bytes];
    FlatAppend(BatchBytes(before.batches), b.bytes);
  }

  /** The descriptor for `bytes` at place `i` of a table of `n`. */
  predicate DescOf(d: Desc, bytes: seq<byte>, i: nat, n: nat, begin: bool, fin: bool) {
    d.bytes == bytes && d.begin == (i == 0 && begin) && d.end == fin && d.eoc == (i + 1 == n)
  }

  lemma BeginsOnce(d: Desc, bytes: seq<byte>, i: nat, n: nat, now: bool, begin: bool, fin: bool)
    requires DescOf(d, bytes, i, n, now, fin) && (i == 0 ==> now == begin)
    ensures DescOf(d, bytes, i, n, begin, fin)
  {
  }

  /** Behind `before` the first `i` descriptors of a table with pieces `got` have been laid down. */
  ghost predicate Laid(before: seq<Desc>, now: seq<Desc>, got: List, i: nat, begin: bool, fin: bool) {
    && i <= |got| && |now| == |before| + i && now[..|before|] == before
    && forall j :: 0 <= j < i ==> DescOf(now[|before| + j], got[j], j, |got|, begin, fin)
  }

  lemma LaidNothing(descs: seq<Desc>, got: List, begin: bool, fin: bool)
    ensures Laid(descs, descs, got, 0, begin, fin)
  {
  }

  lemma {:induction false} LaidSent(before: seq<Desc>, now: seq<Desc>, got: List, i: nat, begin: bool, fin: bool)
    requires Laid(before, now, got, i, begin, fin)
    ensures |now| == |before| + i && (i == 0 ==> now == before)
    ensures i <= |got| && Sent(now) == Sent(before) + Flat(got[..i])
    ensures if i < |got| then |Sent(now)| + |got[i]| <= |Sent(before)| + |Flat(got)| else got[..i] == got
    decreases i
  {
    hide Sent, Flat;
    if i == 0 {
      assert now == now[..|before|] && got[..0] == [];
      NothingFlat();
    } else {
      var was := now[..|now| - 1];
      assert was[..|before|] == now[..|before|];
      forall j | 0 <= j < i - 1 ensures DescOf(was[|before| + j], got[j], j, |got|, begin, fin) {
        assert was[|before| + j] == now[|before| + j];
      }
      LaidSent(before, was, got, i - 1, begin, fin);
      assert now == was + [now[|now| - 1]];
      SentAppend(was, now[|now| - 1]);
      FlatTake(got, i - 1);
      assert DescOf(now[|before| + (i - 1)], got[i - 1], i - 1, |got|, begin, fin);
      AddAssoc(Sent(before), Flat(got[..i - 1]), got[i - 1]);
    }
    if i < |got| {
      FlatTake(got, i);
    } else {
      assert got[..i] == got;
    }
  }

  lemma NothingFlat()
    ensures Flat([]) == []
  {
  }

  lemma LaidOneMore(before: seq<Desc>, was: seq<Desc>, now: seq<Desc>, got: List, i: nat, begin: bool, fin: bool)
    requires Laid(before, was, got, i, begin, fin) && i < |got|
    requires |now| == |was| + 1 && now[..|was|] == was && DescOf(now[|was|], got[i], i, |got|, begin, fin)
    ensures Laid(before, now, got, i + 1, begin, fin)
  {
    hide DescOf;
    assert now[..|before|] == now[..|was|][..|before|];
    forall j | 0 <= j <= i ensures DescOf(now[|before| + j], got[j], j, |got|, begin, fin) {
      assert j < i ==> now[|before| + j] == now[..|was|][|before| + j];
    }
  }

  lemma TableIsStretch(before: seq<Desc>, after: seq<Desc>, got: List, begin: bool, fin: bool)
    requires got != [] && Laid(before, after, got, |got|, begin, fin) && Sent(after) == Sent(before) + Flat(got)
    ensures after == before + after[|before|..] && Stretch(after[|before|..], Batch(Flat(got), begin, fin))
  {
    hide Flat, Sent, DescOf;
    var more := after[|before|..];
    assert after == before + more;
    SentSum(before, more);
    SameTail(Sent(before), Sent(more), Flat(got));
    forall i | 0 <= i < |more| ensures DescOf(more[i], got[i], i, |got|, begin, fin) {
      assert more[i] == after[|before| + i];
    }
    FlagsAreStretch(more, got, begin, fin);
  }

  lemma FlagsAreStretch(descs: seq<Desc>, got: List, begin: bool, fin: bool)
    requires descs != [] && |descs| == |got| && Sent(descs) == Flat(got)
    requires forall i :: 0 <= i < |descs| ==> DescOf(descs[i], got[i], i, |got|, begin, fin)
    ensures Stretch(descs, Batch(Flat(got), begin, fin))
  {
    hide Flat, Sent;
  }

  lemma SameTail(a: seq<byte>, b: seq<byte>, c: seq<byte>)
    requires a + b == a + c
    ensures b == c
  {
    assert b == (a + b)[|a|..] && c == (a + c)[|a|..];
  }

  lemma TableGrouped(before: Wire, after: Wire, got: List, begin: bool, fin: bool)
    requires Grouped(before) && got != [] && Laid(before.descs, after.descs, got, |got|, begin, fin)
    requires Sent(after.descs) == Sent(before.descs) + Flat(got)
    requires after.batches == before.batches + [Batch(Flat(got), begin, fin)]
    ensures Grouped(after)
  {
    hide Grouped, Laid, Stretch, Flat, Sent;
    LaidLength(before.descs, after.descs, got, begin, fin);
    TableIsStretch(before.descs, after.descs, got, begin, fin);
    GroupedAppend(before, after, after.descs[|before.descs|..], Batch(Flat(got), begin, fin));
  }

  lemma LaidLength(before: seq<Desc>, after: seq<Desc>, got: List, begin: bool, fin: bool)
    requires Laid(before, after, got, |got|, begin, fin)
    ensures |after| == |before| + |got| && after[..|before|] == before
  {
    hide DescOf;
  }

  /** Whole blocks only have been sent so far, correctly counted and none marked final. What
      has been conveyed is the message, or is shorter because a descriptor was cut. */
  ghost predicate SettledWire(buflen: nat, lo: nat, hi: nat, wire: Wire, message: seq<byte>, conveyed: seq<byte>) {
    && GoodBufferLength(buflen) && WireOk(wire, conveyed == message) && CountOk(lo, hi, wire.descs)
    && (conveyed == message ==> (wire.descs == [] <==> Sent(wire.descs) == []))
    && |Sent(wire.descs)| % BLOCK == 0
    && NoneFinal(wire.batches) && Grouped(wire)
    && (conveyed == message || |conveyed| < |message|) && |message| < U64 * U64
  }

  /** All of `conveyed` has been sent and only the last batch was marked final. */
  ghost predicate FinishedWire(lo: nat, hi: nat, wire: Wire, message: seq<byte>, conveyed: seq<byte>) {
    && WireOk(wire, conveyed == message) && CountOk(lo, hi, wire.descs) && Grouped(wire)
    && conveyed == Sent(wire.descs) && (conveyed == message || |conveyed| < |message|)
    && wire.batches != [] && wire.batches[|wire.batches| - 1].final
    && NoneFinal(wire.batches[..|wire.batches| - 1])
  }

  class ShaRequest {
    const buflen: nat
    const buffer: array<byte>
    var list: List
    var sg: nat
    var offset: nat
    var total: nat
    var bufcnt: nat
    var fastNents: nat
    var digLo: nat
    var digHi: nat
    var final: bool
    ghost var message: seq<byte>     // what the requests asked to be hashed
    ghost var conveyed: seq<byte>    // what the engine gets of it
    ghost var wire: Wire

    ghost predicate Cursor()
      reads this
    {
      Covers(list, sg, offset, total)
    }

    /** The bytes of the request not yet taken from the scatter list. */
    ghost function Left(): seq<byte>
      reads this
      requires Cursor()
    {
      Pending(list, sg, offset, total)
    }

    ghost predicate Buffered()
      reads this
    {
      bufcnt <= buflen == buffer.Length
    }

    ghost function Held(): seq<byte>
      reads this, buffer
      requires Buffered()
    {
      buffer[..bufcnt]
    }

    /** Copy from the scatter list until the bounce buffer is full or the request is used up. */
    method AppendSg() returns (ghost took: seq<byte>)
      requires Buffered() && Cursor()
      modifies this`sg, this`offset, this`total, this`bufcnt, buffer
      ensures Buffered() && Cursor()
      ensures |took| == Min(old(total), buflen - old(bufcnt))
      ensures Held() == old(Held()) + took && old(Left()) == took + Left()
    {
      hide Covers, Pending, Tail;
      took := [];
      while bufcnt < buflen && total > 0
        invariant Buffered() && Cursor()
        invariant Held() == old(Held()) + took && old(Left()) == took + Left()
        decreases total
      {
        ghost var some := TakeSome();
        took := took + some;
      }
    }

    method Hold(some: seq<byte>)
      requires Buffered() && bufcnt + |some| <= buflen
      modifies this`bufcnt, buffer
      ensures Buffered() && bufcnt == old(bufcnt) + |some| && Held() == old(Held()) + some
    {
      Copy(buffer, bufcnt, some);
      bufcnt := bufcnt + |some|;
    }

    /** Move the cursor past `count` bytes of the current entry. */
    method Pass(count: nat)
      requires Cursor() && sg < |list| && count <= total && offset + count <= |list[sg]|
      modifies this`sg, this`offset, this`total
      ensures Cursor() && total == old(total) - count
      ensures old(Left()) == list[old(sg)][old(offset)..old(offset) + count] + Left()
    {
      hide Covers, Pending, Tail;
      TakeBytes(list, sg, offset, total, count);
      total := total - count;
      offset := offset + count;
      if offset == |list[sg]| {
        sg, offset := sg + 1, 0;
      }
    }

    method TakeSome() returns (some: seq<byte>)
      requires Buffered() && Cursor() && bufcnt < buflen && total > 0
      modifies this`sg, this`offset, this`total, this`bufcnt, buffer
      ensures Buffered() && Cursor() && total < old(total)
      ensures Held() == old(Held()) + some && old(Left()) == some + Left()
    {
      hide Covers, Pending, Tail;
      EntryThere(list, sg, offset, total);
      var count := ChunkLength(|list[sg]| - offset, total, buflen - bufcnt);
      hide ChunkLength;
      some := list[sg][offset..offset + count];
      Hold(some);
      Pass(count);
    }

    // ---- descriptors ----

    /** The 128-bit byte count agrees with what was sent. */
    ghost predicate Counted()
      reads this
    {
      CountOk(digLo, digHi, wire.descs)
    }

    /** Fill in descriptor `i` of `n` and count the bytes that its length field says. */
    method Describe(b: seq<byte>, i: nat, n: nat, fin: bool, ghost whole: bool)
      requires Counted() && WireOk(wire, whole)
      requires |Sent(wire.descs)| + |Fetched(b)| < U64 * U64
      requires wire.descs == [] ==> i == 0
      requires whole && i == 0 ==> (wire.descs == [] <==> Sent(wire.descs) == [])
      modifies this`digLo, this`digHi, this`wire
      ensures Counted() && WireOk(wire, whole) && wire.batches == old(wire).batches
      ensures |wire.descs| == |old(wire).descs| + 1 && wire.descs[..|old(wire).descs|] == old(wire).descs
      ensures DescOf(wire.descs[|old(wire).descs|], Fetched(b), i, n, old(Sent(wire.descs)) == [], fin)
      ensures Sent(wire.descs) == old(Sent(wire.descs)) + Fetched(b)
    {
      hide Fetched, CountOk, WireOk;
      CountZeroIff(digLo, digHi, wire.descs);
      var length := |Fetched(b)|;
      var d := Desc(Fetched(b), i == 0 && digLo == 0 && digHi == 0, fin, i + 1 == n);
      SentAppend(wire.descs, d);
      ShortLength(b);
      CountMore(digLo, digHi, wire.descs, d);
      WireMore(wire, whole, d);
      hide Sent;
      wire := wire.(descs := wire.descs + [d]);
      digLo := (digLo + length) % U64;
      if digLo < length {
        digHi := (digHi + 1) % U64;
      }
    }

    method DescribeAll(table: List, fin: bool, ghost whole: bool)
      requires Counted() && WireOk(wire, whole) && table != []
      requires whole ==> (wire.descs == [] <==> Sent(wire.descs) == [])
      requires |Sent(wire.descs)| + |Flat(FetchedAll(table))| < U64 * U64
      modifies this`digLo, this`digHi, this`wire
      ensures Counted() && WireOk(wire, whole) && wire.batches == old(wire).batches
      ensures |wire.descs| == |old(wire).descs| + |table|
      ensures Sent(wire.descs) == old(Sent(wire.descs)) + Flat(FetchedAll(table))
      ensures Laid(old(wire).descs, wire.descs, FetchedAll(table), |table|, old(Sent(wire.descs)) == [], fin)
    {
      hide WireOk, CountOk, Sent, Fetched, Laid, Flat, DescOf;
      ghost var descs, got, begin := wire.descs, FetchedAll(table), Sent(wire.descs) == [];
      LaidNothing(descs, got, begin, fin);
      for i := 0 to |table|
        invariant Counted() && WireOk(wire, whole) && wire.batches == old(wire).batches
        invariant Laid(descs, wire.descs, got, i, begin, fin)
      {
        ghost var was := wire.descs;
        LaidSent(descs, was, got, i, begin, fin);
        Describe(table[i], i, |table|, fin, whole);
        BeginsOnce(wire.descs[|was|], got[i], i, |table|, Sent(was) == [], begin, fin);
        LaidOneMore(descs, was, wire.descs, got, i, begin, fin);
      }
      LaidSent(descs, wire.descs, got, |table|, begin, fin);
    }

    /** Hand a table of descriptors to the engine as one batch. */
    method XmitDma(table: List, fin: bool, ghost whole: bool)
      requires Counted() && WireOk(wire, whole) && Grouped(wire) && table != []
      requires whole ==> (wire.descs == [] <==> Sent(wire.descs) == [])
      requires |Sent(wire.descs)| + |Flat(FetchedAll(table))| < U64 * U64
      requires fin || |Flat(FetchedAll(table))| % BLOCK == 0
      modifies this`digLo, this`digHi, this`wire
      ensures Counted() && WireOk(wire, whole) && wire.descs != []
      ensures Sent(wire.descs) == old(Sent(wire.descs)) + Flat(FetchedAll(table))
      ensures wire.batches ==
              old(wire).batches + [Batch(Flat(FetchedAll(table)), old(Sent(wire.descs)) == [], fin)]
      ensures Grouped(wire)
      ensures Laid(old(wire).descs, wire.descs, FetchedAll(table), |table|, old(Sent(wire.descs)) == [], fin)
    {
      FirstBatchBegins(wire, whole);
      hide WireOk, CountOk, Sent, Grouped, Laid, Flat, FetchedAll;
      ghost var begin := Sent(wire.descs) == [];
      DescribeAll(table, fin, whole);
      CloseBatch(Flat(FetchedAll(table)), begin, fin, whole, old(wire));
      TableGrouped(old(wire), wire, FetchedAll(table), begin, fin);
    }

    ghost method CloseBatch(bytes: seq<byte>, begin: bool, fin: bool, whole: bool, before: Wire)
      requires Counted() && WireOk(wire, whole) && wire.descs != [] && (fin || |bytes| % BLOCK == 0)
      requires wire.batches == before.batches && |before.batches| <= |before.descs| < |wire.descs|
      requires (before.batches == [] ==> begin) && (whole && begin ==> before.batches == [])
      modifies this`wire
      ensures wire == old(wire).(batches := old(wire).batches + [Batch(bytes, begin, fin)])
      ensures Counted() && WireOk(wire, whole)
    {
      wire := wire.(batches := wire.batches + [Batch(bytes, begin, fin)]);
    }

    // ---- the slow path ----

    ghost predicate Settled()
      reads this
    {
      && Buffered() && bufcnt < buflen
      && SettledWire(buflen, digLo, digHi, wire, message, conveyed)
    }

    /** Between requests what has been conveyed is what was sent, in whole blocks, and then
        what is buffered. */
    ghost predicate Idle()
      reads this, buffer
    {
      Settled() && conveyed == Sent(wire.descs) + Held()
    }

    /** While a request is worked on, what is left of it comes after that. */
    ghost predicate InFlight()
      reads this, buffer
    {
      Settled() && Cursor() && conveyed == Sent(wire.descs) + Held() + Left()
    }

    ghost predicate Finished()
      reads this
    {
      FinishedWire(digLo, digHi, wire, message, conveyed)
    }

    /** Send the buffered bytes as a single descriptor. */
    method XmitBuffer(fin: bool, ghost whole: bool)
      requires Buffered() && buflen < LENGTH_FIELD && Counted() && WireOk(wire, whole) && Grouped(wire)
      requires whole ==> (wire.descs == [] <==> Sent(wire.descs) == [])
      requires |Sent(wire.descs)| + bufcnt < U64 * U64
      requires fin || bufcnt % BLOCK == 0
      modifies this`bufcnt, this`digLo, this`digHi, this`wire
      ensures bufcnt == 0 && Counted() && WireOk(wire, whole) && wire.descs != []
      ensures Sent(wire.descs) == old(Sent(wire.descs)) + old(Held())
      ensures wire.batches == old(wire).batches + [Batch(old(Held()), old(Sent(wire.descs)) == [], fin)]
      ensures Grouped(wire) && |wire.descs| == |old(wire).descs| + 1 && wire.descs[..|old(wire).descs|] == old(wire).descs
      ensures wire.descs[|old(wire).descs|] == Desc(old(Held()), old(Sent(wire.descs)) == [], fin, true)
    {
      var table := [buffer[..bufcnt]];
      FetchedAllWholeIff(table);
      assert Flat(table) == buffer[..bufcnt] by { assert table[1..] == []; }
      hide CountOk, WireOk, Sent, Flat, Grouped;
      bufcnt := 0;
      XmitDma(table, fin, whole);
    }

    method UpdateDmaSlow()
      requires InFlight() && (total > 0 || final)
      modifies this`sg, this`offset, this`total, this`bufcnt, this`digLo, this`digHi, this`wire, buffer
      ensures old(total) > 0 ==> total < old(total)
      ensures if final && total == 0 then Finished() && bufcnt == 0 else InFlight()
    {
      hide WireOk, CountOk, Sent, NoneFinal, Covers, Usable, Pending, Grouped;
      ghost var took := AppendSg();
      var fin := final && total == 0;
      if bufcnt % BLOCK == 0 || fin {
        XmitBuffer(fin, conveyed == message);
        NoneFinalAppend(old(wire).batches, wire.batches);
      }
    }

    method SlowLoop()
      requires InFlight() && total > 0
      modifies this`sg, this`offset, this`total, this`bufcnt, this`digLo, this`digHi, this`wire, buffer
      ensures total == 0 && if final then Finished() && bufcnt == 0 else InFlight()
    {
      hide InFlight, Finished;
      UpdateDmaSlow();
      while total > 0
        invariant if final && total == 0 then Finished() && bufcnt == 0 else InFlight()
        decreases total
      {
        UpdateDmaSlow();
      }
    }

    // ---- the fast path ----

    /** One round of the fast path: entry `at`, or the whole blocks at its start. */
    method GatherOne(ghost request: seq<byte>, ghost table: List, at: nat, ghost all: List)
      returns (piece: seq<byte>, halt: bool)
      requires Gathered(list, offset, total, final, request, table, at, false)
      requires OnTheWay(list, at, total, final, table, false, all) && |table| < MAX_TABLES
      requires total > 0 && at < |list| && (table == [] ==> total >= BLOCK && |list[at]| >= BLOCK)
      modifies this`offset, this`total, this`fastNents
      ensures Gathered(list, offset, total, final, request, table + [piece], at + 1, halt)
      ensures fastNents == old(fastNents) + 1
      ensures OnTheWay(list, at + 1, total, final, table + [piece], halt, all)
    {
      hide Gathered, OnTheWay;
      var length, tail := PieceLength(total, |list[at]|, final && at + 1 == |list|);
      GatherStep(list, offset, total, final, request, table, at, length, tail);
      piece := list[at][..length];
      FastTableStep(list, at, total, final, table, all, piece, tail);
      total := total - length;
      offset := length;
      fastNents := fastNents + 1;
      halt := tail > 0;
    }

    /** Turn as many entries as possible into descriptors, whole blocks only unless the
        entry is the last of a final request. */
    method Gather() returns (table: List, ghost s: nat, ghost stop: bool)
      requires Cursor() && offset == 0 && fastNents == 0 && sg < |list|
      requires total >= BLOCK && |list[sg]| >= BLOCK
      modifies this`offset, this`total, this`fastNents
      ensures table != [] && fastNents == |table| <= MAX_TABLES && s == sg + |table|
      ensures Gathered(list, offset, total, final, old(Left()), table, s, stop)
      ensures table == FastTable(list, sg, old(total), final, MAX_TABLES)
    {
      hide Covers, Pending, Gathered, Tail, Flat, FastTable, OnTheWay;
      FastTableStart(list, sg, total, final);
      GatherNothing(list, sg, total, final);
      table, s, stop := GatherLoop(Left(), FastTable(list, sg, total, final, MAX_TABLES));
    }

    method GatherLoop(ghost request: seq<byte>, ghost all: List)
      returns (table: List, ghost s: nat, ghost stop: bool)
      requires fastNents == 0 && sg < |list| && total >= BLOCK && |list[sg]| >= BLOCK
      requires Gathered(list, offset, total, final, request, [], sg, false)
      requires OnTheWay(list, sg, total, final, [], false, all)
      modifies this`offset, this`total, this`fastNents
      ensures table != [] && fastNents == |table| <= MAX_TABLES && s == sg + |table|
      ensures Gathered(list, offset, total, final, request, table, s, stop) && table == all
    {
      hide Gathered, OnTheWay;
      table := [];
      var at, halt := sg, false;
      while total > 0 && fastNents < MAX_TABLES && at < |list| && !halt
        invariant Gathered(list, offset, total, final, request, table, at, halt)
        invariant OnTheWay(list, at, total, final, table, halt, all)
        invariant fastNents == |table| <= MAX_TABLES && at == sg + |table| <= |list|
        invariant table == [] ==> total == old(total) && !halt
        decreases |list| - at
      {
        var piece;
        piece, halt := GatherOne(request, table, at, all);
        table := table + [piece];
        at := at + 1;
      }
      s, stop := at, halt;
      FastTableEnd(list, at, total, final, table, halt, all);
    }

    /** Move the cursor to where the fast path stopped. */
    method AdjustSgHead()
      requires total > 0 && fastNents > 0 && sg + fastNents <= |list|
      requires offset == |list[sg + fastNents - 1]| ==> sg + fastNents < |list|
      modifies this`sg, this`offset, this`fastNents
      ensures fastNents == 0
      ensures var last := old(sg) + old(fastNents) - 1;
          if old(offset) == |list[last]| then sg == last + 1 && offset == 0 else sg == last && offset == old(offset)
    {
      while fastNents > 1
        invariant fastNents > 0 && sg + fastNents == old(sg) + old(fastNents) && offset == old(offset)
      {
        sg := sg + 1;
        fastNents := fastNents - 1;
      }
      if offset == |list[sg]| {
        sg := sg + 1;
        if sg < |list| {
          offset := 0;
        } else {
          return;
        }
      }
      fastNents := 0;
    }

    /** Send the gathered table. What is conveyed stays the message exactly when no piece is cut. */
    method XmitTable(table: List, ghost s: nat, ghost stop: bool, ghost request: seq<byte>, ghost rest: seq<byte>)
      requires Settled() && bufcnt == 0 && table != []
      requires Gathered(list, offset, total, final, request, table, s, stop)
      requires conveyed == Sent(wire.descs) + request && request == Flat(table) + rest
      requires total == 0 ==> rest == []
      modifies this`digLo, this`digHi, this`wire, this`conveyed
      ensures conveyed == Sent(wire.descs) + rest
      ensures conveyed == message <==> old(conveyed) == message && Usable(table)
      ensures if final && total == 0 then Finished() else Settled()
    {
      hide SettledWire, FinishedWire, CountOk, WireOk, Sent, Flat, Usable, Grouped, Gathered, FetchedAll;
      ghost var before, sent := wire, Sent(wire.descs);
      ghost var after := sent + Flat(FetchedAll(table)) + rest;
      ReadyForTable(buflen, digLo, digHi, wire, message, conveyed, table, rest);
      TableBlocks(list, offset, total, final, request, table, s, stop);
      var fin := final && total == 0;
      XmitDma(table, fin, after == message);
      TableSettles(buflen, old(digLo), old(digHi), digLo, digHi, before, wire, message, conveyed, table, rest, fin);
      conveyed := after;
    }

    method FastPath()
      requires InFlight() && fastNents == 0 && bufcnt == 0 && offset == 0
      requires sg < |list| && total >= BLOCK && |list[sg]| >= BLOCK
      modifies this, buffer
      ensures message == old(message) && final == old(final)
      ensures total == 0 && bufcnt < buflen && if final then Finished() else Idle()
      ensures conveyed == message <==>
              old(conveyed) == message && Usable(FastTable(old(list), old(sg), old(total), final, MAX_TABLES))
    {
      hide SettledWire, FinishedWire, Covers, Pending, Gathered, Sent, Flat, Usable, FastTable;
      ghost var request := Left();
      assert Held() == [] && conveyed == Sent(wire.descs) + request;
      var table;
      ghost var s, stop;
      table, s, stop := Gather();
      ghost var rest := RestOfRequest(list, offset, total, final, request, table, s, stop);
      XmitTable(table, s, stop, request, rest);
      if total > 0 {
        WhereStopped(list, offset, total, final, request, table, s, stop);
        AdjustSgHead();
        SameSuffix(Flat(table), rest, Left());
        SlowLoop();
      }
    }

    /** Nothing of the request will be cut. */
    ghost predicate Reaches()
      reads this
      requires Cursor()
    {
      || total == 0 || bufcnt > 0 || offset > 0 || total < BLOCK || |list[sg]| < BLOCK
      || Usable(FastTable(list, sg, total, final, MAX_TABLES))
    }

    /** Work off the request: directly from the scatter list when it starts on a block
        boundary with at least a block, through the buffer otherwise. */
    method UpdateDmaStart()
      requires InFlight() && fastNents == 0
      modifies this, buffer
      ensures message == old(message) && final == old(final) && total == 0
      ensures if final && old(total) > 0 then Finished() else Idle()
      ensures conveyed == message <==> old(conveyed) == message && old(Reaches())
    {
      hide SettledWire, FinishedWire, Covers, Pending, Usable, FastTable;
      if total == 0 {
        assert Left() == [];
        return;
      }
      EntryThere(list, sg, offset, total);
      if bufcnt > 0 || offset > 0 || total < BLOCK || |list[sg]| < BLOCK {
        SlowLoop();
        if !final {
          assert Left() == [];
        }
        return;
      }
      FastPath();
    }

    // ---- requests ----

    constructor (buflen: nat)
      requires GoodBufferLength(buflen)
      ensures Idle() && !final && message == conveyed == [] && fresh(buffer)
    {
      this.buflen := buflen;
      buffer := new byte[buflen](_ => 0);
      list, sg, offset, total, bufcnt, fastNents := [], 0, 0, 0, 0, 0;
      digLo, digHi, final := 0, 0, false;
      message, conveyed, wire := [], [], Wire([], []);
    }

    /** Take on the first `nbytes` bytes of a scatter list. */
    method Begin(src: List, nbytes: nat)
      requires Idle() && NoEmptyEntry(src)
      requires nbytes <= |Flat(src)| && |message| + nbytes < U64 * U64
      modifies this`list, this`sg, this`offset, this`total, this`fastNents, this`message, this`conveyed
      ensures InFlight() && fastNents == 0 && list == src && sg == offset == 0 && total == nbytes
      ensures message == old(message) + Flat(src)[..nbytes]
      ensures conveyed == message <==> old(conveyed) == old(message)
    {
      hide WireOk, CountOk, Sent, NoneFinal, Grouped;
      list, sg, offset, total, fastNents := src, 0, 0, nbytes, 0;
      if src != [] {
        TailFromStart(src);
      }
      SameAppend(conveyed, message, Flat(src)[..nbytes]);
      message := message + Flat(src)[..nbytes];
      conveyed := conveyed + Flat(src)[..nbytes];
      WeakerWire(wire, old(conveyed) == old(message), conveyed == message);
    }

    /** The message grows by the request's bytes, and the engine goes on getting all of it
        exactly when the request is not cut. */
    method Update(src: List, nbytes: nat)
      requires Idle() && !final && NoEmptyEntry(src)
      requires nbytes <= |Flat(src)| && |message| + nbytes < U64 * U64
      modifies this, buffer
      ensures Idle() && !final && message == old(message) + Flat(src)[..nbytes]
      ensures conveyed == message <==> old(conveyed) == old(message) && Uncut(old(bufcnt), src, nbytes, false)
    {
      hide Idle, InFlight, FastTable, Usable;
      Begin(src, nbytes);
      UpdateDmaStart();
    }

    method Final()
      requires Idle() && !final
      modifies this, buffer
      ensures Finished() && message == old(message) && conveyed == old(conveyed)
    {
      hide SettledWire, FinishedWire;
      final := true;
      list, sg, offset, total := [], 0, 0, 0;
      UpdateDmaSlow();
    }

    /** Update and final in one request; with no data it is just final. */
    method Finup(src: List, nbytes: nat)
      requires Idle() && !final && NoEmptyEntry(src)
      requires nbytes <= |Flat(src)| && |message| + nbytes < U64 * U64
      modifies this, buffer
      ensures Finished() && message == old(message) + Flat(src)[..nbytes]
      ensures conveyed == message <==> old(conveyed) == old(message) && Uncut(old(bufcnt), src, nbytes, true)
    {
      hide InFlight, SettledWire, FinishedWire, FastTable, Usable;
      if nbytes == 0 {
        Final();
        return;
      }
      final := true;
      Begin(src, nbytes);
      UpdateDmaStart();
    }
  }

  lemma CountZeroIff(lo: nat, hi: nat, descs: seq<Desc>)
    requires CountOk(lo, hi, descs)
    ensures lo == 0 && hi == 0 <==> Sent(descs) == []
  {
  }

  /** The carry of the two 64-bit words. */
  lemma CountMore(lo: nat, hi: nat, descs: seq<Desc>, d: Desc)
    requires CountOk(lo, hi, descs) && |d.bytes| < U64 && |Sent(descs)| + |d.bytes| < U64 * U64
    ensures var lo' := (lo + |d.bytes|) % U64;
      CountOk(lo', if lo' < |d.bytes| then (hi + 1) % U64 else hi, descs + [d])
  {
    SentAppend(descs, d);
    hide Sent;
  }

  lemma WireMore(w: Wire, whole: bool, d: Desc)
    requires WireOk(w, whole) && (w.descs == [] ==> d.begin) && (whole && d.begin ==> w.descs == [])
    ensures WireOk(w.(descs := w.descs + [d]), whole)
  {
  }

  lemma ShortLength(b: seq<byte>)
    ensures |Fetched(b)| < LENGTH_FIELD < U64
  {
  }

  /** A batch starts with the begin flag when it is the first, and in a whole wire only then. */
  lemma FirstBatchBegins(w: Wire, whole: bool)
    requires WireOk(w, whole) && Grouped(w) && (whole ==> (w.descs == [] <==> Sent(w.descs) == []))
    ensures |w.batches| <= |w.descs| && (w.batches == [] ==> Sent(w.descs) == [])
    ensures whole && Sent(w.descs) == [] ==> w.batches == []
  {
  }

  /** What has to hold before a table goes out follows from the settled state. */
  lemma ReadyForTable(buflen: nat, lo: nat, hi: nat, w: Wire, message: seq<byte>, conveyed: seq<byte>, table: List,
                      rest: seq<byte>)
    requires SettledWire(buflen, lo, hi, w, message, conveyed) && conveyed == Sent(w.descs) + (Flat(table) + rest)
    ensures var whole := Sent(w.descs) + Flat(FetchedAll(table)) + rest == message;
      && CountOk(lo, hi, w.descs) && WireOk(w, whole) && Grouped(w)
      && (whole ==> (w.descs == [] <==> Sent(w.descs) == []))
      && |Sent(w.descs)| + |Flat(FetchedAll(table))| < U64 * U64
  {
    CutRelation(Sent(w.descs), table, rest, message);
    hide Flat, FetchedAll, Usable, CountOk, Sent, Grouped;
    WeakerWire(w, conveyed == message, Sent(w.descs) + Flat(FetchedAll(table)) + rest == message);
    assert |conveyed| == |Sent(w.descs)| + |Flat(table)| + |rest|;
  }

  /** The state before and after a table has gone out. */
  ghost predicate TableOut(before: Wire, after: Wire, conveyed: seq<byte>, table: List, rest: seq<byte>, fin: bool) {
    && conveyed == Sent(before.descs) + (Flat(table) + rest) && |Flat(table)| >= BLOCK && (fin ==> rest == [])
    && (fin || |Flat(FetchedAll(table))| % BLOCK == 0)
    && Sent(after.descs) == Sent(before.descs) + Flat(FetchedAll(table)) && after.descs != []
    && after.batches == before.batches + [Batch(Flat(FetchedAll(table)), Sent(before.descs) == [], fin)]
  }

  lemma TableConveyed(before: Wire, after: Wire, message: seq<byte>, conveyed: seq<byte>, table: List, rest: seq<byte>,
                      fin: bool)
    requires TableOut(before, after, conveyed, table, rest, fin) && (conveyed == message || |conveyed| < |message|)
    ensures var now := Sent(after.descs) + rest;
      && (now == message <==> conveyed == message && Usable(table)) && (now == message || |now| < |message|)
      && (now == message ==> Sent(after.descs) != [])
  {
    CutRelation(Sent(before.descs), table, rest, message);
    FetchedAllWholeIff(table);
    hide Flat, FetchedAll, Usable, Sent;
  }

  lemma TableSettles(buflen: nat, lo: nat, hi: nat, lo': nat, hi': nat, before: Wire, after: Wire, message: seq<byte>,
                     conveyed: seq<byte>, table: List, rest: seq<byte>, fin: bool)
    requires SettledWire(buflen, lo, hi, before, message, conveyed)
    requires TableOut(before, after, conveyed, table, rest, fin)
    requires CountOk(lo', hi', after.descs) && WireOk(after, Sent(after.descs) + rest == message) && Grouped(after)
    ensures Sent(after.descs) + rest == message <==> conveyed == message && Usable(table)
    ensures if fin then FinishedWire(lo', hi', after, message, Sent(after.descs) + rest)
            else SettledWire(buflen, lo', hi', after, message, Sent(after.descs) + rest)
  {
    hide Flat, FetchedAll, Usable, CountOk, Sent, Grouped, WireOk, NoneFinal;
    TableConveyed(before, after, message, conveyed, table, rest, fin);
    TableSent(before, after, Sent(before.descs), Flat(FetchedAll(table)), fin);
    if fin {
      assert Sent(after.descs) + rest == Sent(after.descs);
    }
  }

  lemma TableSent(before: Wire, after: Wire, sent: seq<byte>, got: seq<byte>, fin: bool)
    requires NoneFinal(before.batches) && sent == Sent(before.descs)
    requires after.batches == before.batches + [Batch(got, sent == [], fin)] && Sent(after.descs) == sent + got
    ensures after.batches[..|after.batches| - 1] == before.batches
    ensures after.batches != [] && after.batches[|after.batches| - 1].final == fin
    ensures NoneFinal(after.batches) <==> !fin
  {
    hide Sent;
    NoneFinalAppend(before.batches, after.batches);
  }

  lemma WeakerWire(w: Wire, whole: bool, less: bool)
    requires WireOk(w, whole) && (less ==> whole)
    ensures WireOk(w, less)
  {
  }

  lemma CutRelation(sent: seq<byte>, table: List, rest: seq<byte>, message: seq<byte>)
    requires var all := sent + (Flat(table) + rest); all == message || |all| < |message|
    ensures var after := sent + Flat(FetchedAll(table)) + rest;
      && (after == message <==> sent + (Flat(table) + rest) == message && Usable(table))
      && (after == message || |after| < |message|)
      && |Flat(FetchedAll(table))| <= |Flat(table)|
  {
    FetchedAllWholeIff(table);
    hide Flat, FetchedAll, Usable;
    assert |sent + (Flat(table) + rest)| == |sent| + |Flat(table)| + |rest|;
    assert |sent + Flat(FetchedAll(table)) + rest| == |sent| + |Flat(FetchedAll(table))| + |rest|;
    AddAssoc(sent, Flat(table), rest);
  }

  lemma TableBlocks(list: List, offset: nat, total: nat, final: bool, request: seq<byte>, table: List, s: nat, stop: bool)
    requires Gathered(list, offset, total, final, request, table, s, stop)
    ensures |Flat(FetchedAll(table))| % BLOCK == 0 || (final && total == 0)
    ensures table != [] ==> |Flat(table)| >= BLOCK
  {
    if BlockPieces(table) {
      FetchedBlocks(table);
    }
  }

  lemma SameAppend(a: seq<byte>, b: seq<byte>, c: seq<byte>)
    requires a == b || |a| < |b|
    ensures a + c == b + c <==> a == b
  {
    assert |a + c| == |a| + |c| && |b + c| == |b| + |c|;
  }

  lemma SameSuffix(a: seq<byte>, x: seq<byte>, y: seq<byte>)
    requires a + x == a + y
    ensures x == y
  {
    assert (a + x)[|a|..] == x && (a + y)[|a|..] == y;
  }

  lemma RestOfRequest(list: List, offset: nat, total: nat, final: bool, request: seq<byte>, table: List, s: nat, stop: bool)
    returns (rest: seq<byte>)
    requires Gathered(list, offset, total, final, request, table, s, stop)
    ensures request == Flat(table) + rest && |rest| == total
  {
    hide Flat, Tail;
    rest := if stop then Pending(list, s - 1, offset, total) else Pending(list, s, 0, total);
  }

  /** The fast path left data behind: it stopped inside the last entry it used, or exactly
      at its end with another entry to come. */
  lemma WhereStopped(list: List, offset: nat, total: nat, final: bool, request: seq<byte>, table: List, s: nat, stop: bool)
    requires Gathered(list, offset, total, final, request, table, s, stop) && table != [] && total > 0
    ensures 0 < s <= |list| && (offset == |list[s - 1]| ==> !stop && s < |list|)
    ensures if offset == |list[s - 1]| then SplitAt(list, s, 0, total, request, table)
            else SplitAt(list, s - 1, offset, total, request, table)
  {
    if stop {
      StopsInside(list, s - 1, offset, total, request, table);
    } else {
      StopsInside(list, s, 0, total, request, table);
    }
  }

  lemma StopsInside(list: List, sg: nat, offset: nat, total: nat, request: seq<byte>, table: List)
    requires SplitAt(list, sg, offset, total, request, table) && total > 0
    ensures sg < |list| && offset < |list[sg]|
  {
  }

  lemma GatherNothing(list: List, sg: nat, total: nat, final: bool)
    requires Covers(list, sg, 0, total)
    ensures Gathered(list, 0, total, final, Pending(list, sg, 0, total), [], sg, false)
  {
  }

  predicate NoneFinal(batches: seq<Batch>) {
    forall i :: 0 <= i < |batches| ==> !batches[i].final
  }

  lemma NoneFinalAppend(before: seq<Batch>, after: seq<Batch>)
    requires NoneFinal(before) && |after| == |before| + 1 && before <= after
    ensures after[..|after| - 1] == before
    ensures NoneFinal(after) <==> !after[|after| - 1].final
  {
  }

  lemma FlatTake(table: List, i: nat)
    requires i < |table|
    ensures Flat(table[..i + 1]) == Flat(table[..i]) + table[i]
    ensures |Flat(table[..i + 1])| <= |Flat(table)|
  {
    assert table[..i + 1] == table[..i] + [table[i]];
    FlatAppend(table[..i], table[i]);
    FlatSplit(table, i + 1);
  }

  lemma {:induction false} FlatSplit(table: List, i: nat)
    requires i <= |table|
    ensures Flat(table) == Flat(table[..i]) + Flat(table[i..])
    decreases |table| - i
  {
    if i == |table| {
      assert table[..i] == table && table[i..] == [];
    } else {
      FlatSplit(table, i + 1);
      assert table[..i + 1] == table[..i] + [table[i]];
      FlatAppend(table[..i], table[i]);
      assert table[i..][1..] == table[i + 1..];
    }
  }

  // ---- the hardware's side ----

  /** Hashing whole blocks with compression function `f`. */
  function Absorb<S>(f: (S, seq<byte>) -> S, state: S, data: seq<byte>): S {
    if |data| < BLOCK then state else Absorb(f, f(state, data[..BLOCK]), data[BLOCK..])
  }

  lemma {:induction false} AbsorbConcat<S>(f: (S, seq<byte>) -> S, state: S, a: seq<byte>, b: seq<byte>)
    requires |a| % BLOCK == 0
    ensures Absorb(f, state, a + b) == Absorb(f, Absorb(f, state, a), b)
    decreases |a|
  {
    if a == [] {
      assert a + b == b;
    } else {
      assert (a + b)[..BLOCK] == a[..BLOCK] && (a + b)[BLOCK..] == a[BLOCK..] + b;
      AbsorbConcat(f, f(state, a[..BLOCK]), a[BLOCK..], b);
    }
  }

  /** The bytes after the last whole block. */
  function LastPart(data: seq<byte>): (t: seq<byte>)
    ensures |t| == |data| % BLOCK
  {
    data[|data| - |data| % BLOCK..]
  }

  /** The hash of a message: `fin` is whatever the engine does at the end with the state, the
      bytes of the last, partial block and the length. */
  function Digest<S, D>(f: (S, seq<byte>) -> S, fin: (S, seq<byte>, nat) -> D, init: S, data: seq<byte>): D {
    fin(Absorb(f, init, data), LastPart(data), |data|)
  }

  datatype Engine<S, D> = Running(state: S, count: nat) | Done(digest: D)

  /** One batch: it starts afresh or resumes what the batch before it saved, and a final one
      ends the hash. */
  function EngineStep<S, D>(f: (S, seq<byte>) -> S, fin: (S, seq<byte>, nat) -> D, init: S, e: Engine<S, D>, b: Batch)
    : Engine<S, D>
  {
    var from := if b.begin || e.Done? then Running(init, 0) else e;
    var state, count := Absorb(f, from.state, b.bytes), from.count + |b.bytes|;
    if b.final then Done(fin(state, LastPart(b.bytes), count)) else Running(state, count)
  }

  function EngineRun<S, D>(f: (S, seq<byte>) -> S, fin: (S, seq<byte>, nat) -> D, init: S, e: Engine<S, D>,
                           batches: seq<Batch>): Engine<S, D>
    decreases |batches|
  {
    if batches == [] then e else EngineRun(f, fin, init, EngineStep(f, fin, init, e, batches[0]), batches[1..])
  }

  lemma EngineLast<S, D>(f: (S, seq<byte>) -> S, fin: (S, seq<byte>, nat) -> D, init: S, e: Engine<S, D>,
                         batches: seq<Batch>)
    requires |batches| == 1
    ensures EngineRun(f, fin, init, e, batches) == EngineStep(f, fin, init, e, batches[0])
  {
    assert batches[1..] == [];
  }

  /** Batches that resume from `done` and end with the only final one. */
  ghost predicate Ending(batches: seq<Batch>) {
    && batches != [] && batches[|batches| - 1].final
    && forall i :: 0 <= i < |batches| - 1 ==> !batches[i].final && |batches[i].bytes| % BLOCK == 0
  }

  lemma BatchSplit<S, D>(f: (S, seq<byte>) -> S, fin: (S, seq<byte>, nat) -> D, init: S, done: seq<byte>, x: seq<byte>)
    requires |done| % BLOCK == 0
    ensures Absorb(f, Absorb(f, init, done), x) == Absorb(f, init, done + x)
    ensures LastPart(done + x) == LastPart(x)
  {
    LastPartOfSum(done, x);
    hide Absorb, LastPart;
    AbsorbConcat(f, init, done, x);
  }

  lemma LastPartOfSum(done: seq<byte>, x: seq<byte>)
    requires |done| % BLOCK == 0
    ensures LastPart(done + x) == LastPart(x)
  {
    assert |done + x| % BLOCK == |x| % BLOCK;
  }

  lemma MiddleBatch<S, D>(f: (S, seq<byte>) -> S, fin: (S, seq<byte>, nat) -> D, init: S, done: seq<byte>, b: Batch)
    requires |done| % BLOCK == 0 && !b.begin && !b.final
    ensures EngineStep(f, fin, init, Running(Absorb(f, init, done), |done|), b)
            == Running(Absorb(f, init, done + b.bytes), |done + b.bytes|)
  {
    hide Absorb, LastPart;
    BatchSplit(f, fin, init, done, b.bytes);
  }

  lemma FinalBatch<S, D>(f: (S, seq<byte>) -> S, fin: (S, seq<byte>, nat) -> D, init: S, done: seq<byte>, b: Batch)
    requires |done| % BLOCK == 0 && !b.begin && b.final
    ensures EngineStep(f, fin, init, Running(Absorb(f, init, done), |done|), b)
            == Done(Digest(f, fin, init, done + b.bytes))
  {
    hide Absorb, LastPart;
    BatchSplit(f, fin, init, done, b.bytes);
  }

  lemma WholeBlocks(a: seq<byte>, b: seq<byte>)
    requires |a| % BLOCK == 0 && |b| % BLOCK == 0
    ensures |a + b| % BLOCK == 0
  {
  }

  /** Resuming batch after batch is hashing everything in one go, because all but the last are
      whole blocks. */
  lemma {:induction false} EngineFollows<S, D>(f: (S, seq<byte>) -> S, fin: (S, seq<byte>, nat) -> D, init: S,
                                               done: seq<byte>, batches: seq<Batch>)
    requires |done| % BLOCK == 0 && Ending(batches)
    requires forall i :: 0 <= i < |batches| ==> !batches[i].begin
    ensures EngineRun(f, fin, init, Running(Absorb(f, init, done), |done|), batches)
            == Done(Digest(f, fin, init, done + Flat(BatchBytes(batches))))
    decreases |batches|
  {
    hide EngineStep, Absorb, LastPart, Digest;
    var b, rest := batches[0], batches[1..];
    assert BatchBytes(batches)[1..] == BatchBytes(rest);
    assert Flat(BatchBytes(batches)) == b.bytes + Flat(BatchBytes(rest));
    if rest == [] {
      assert b.bytes + [] == b.bytes;
      FinalBatch(f, fin, init, done, b);
      EngineLast(f, fin, init, Running(Absorb(f, init, done), |done|), batches);
    } else {
      hide Flat, BatchBytes;
      MiddleBatch(f, fin, init, done, b);
      AddAssoc(done, b.bytes, Flat(BatchBytes(rest)));
      WholeBlocks(done, b.bytes);
      EngineFollows(f, fin, init, done + b.bytes, rest);
    }
  }

  /** The engine at work on descriptors: it collects them up to the end of the chain, where the
      flags say whether the hash begins and whether it is finished. */
  function DescRun<S, D>(f: (S, seq<byte>) -> S, fin: (S, seq<byte>, nat) -> D, init: S, e: Engine<S, D>,
                         chain: seq<Desc>, descs: seq<Desc>): Engine<S, D>
    decreases |descs|
  {
    if descs == [] then e
    else
      var chain := chain + [descs[0]];
      if descs[0].eoc then
        DescRun(f, fin, init, EngineStep(f, fin, init, e, Batch(Sent(chain), chain[0].begin, descs[0].end)), [], descs[1..])
      else DescRun(f, fin, init, e, chain, descs[1..])
  }

  lemma {:induction false} ChainRun<S, D>(f: (S, seq<byte>) -> S, fin: (S, seq<byte>, nat) -> D, init: S, e: Engine<S, D>,
                                          all: seq<Desc>, b: Batch, i: nat, rest: seq<Desc>)
    requires Stretch(all, b) && i < |all|
    ensures DescRun(f, fin, init, e, all[..i], all[i..] + rest)
            == DescRun(f, fin, init, EngineStep(f, fin, init, e, b), [], rest)
    decreases |all| - i
  {
    hide EngineStep, Sent;
    var descs := all[i..] + rest;
    assert descs[0] == all[i] && descs[1..] == all[i + 1..] + rest && all[..i] + [all[i]] == all[..i + 1];
    if i + 1 == |all| {
      assert all[..i + 1] == all && all[i + 1..] + rest == rest;
    } else {
      ChainRun(f, fin, init, e, all, b, i + 1, rest);
    }
  }

  lemma EngineAppend<S, D>(f: (S, seq<byte>) -> S, fin: (S, seq<byte>, nat) -> D, init: S, e: Engine<S, D>,
                           batches: seq<Batch>, b: Batch)
    ensures EngineRun(f, fin, init, e, batches + [b]) == EngineStep(f, fin, init, EngineRun(f, fin, init, e, batches), b)
    decreases |batches|
  {
    hide EngineStep;
    if batches == [] {
      EngineLast(f, fin, init, e, [b]);
      assert [] + [b] == [b];
    } else {
      assert (batches + [b])[1..] == batches[1..] + [b];
      EngineAppend(f, fin, init, EngineStep(f, fin, init, e, batches[0]), batches[1..], b);
    }
  }

  /** Reading the descriptors is working through the batches. */
  lemma {:induction false} DescsAreBatches<S, D>(f: (S, seq<byte>) -> S, fin: (S, seq<byte>, nat) -> D, init: S,
                                                 e: Engine<S, D>, descs: seq<Desc>, batches: seq<Batch>, rest: seq<Desc>)
    requires Stretched(descs, batches)
    ensures DescRun(f, fin, init, e, [], descs + rest)
            == DescRun(f, fin, init, EngineRun(f, fin, init, e, batches), [], rest)
    decreases |batches|
  {
    hide DescRun, EngineStep, EngineRun, Stretch, Stretched;
    if batches == [] {
      NoBatches(f, fin, init, e, descs);
      assert descs + rest == rest;
    } else {
      var bs, b := batches[..|batches| - 1], batches[|batches| - 1];
      var k := LastStretch(descs, batches);
      var more := descs[k..];
      assert descs + rest == descs[..k] + (more + rest) && batches == bs + [b];
      DescsAreBatches(f, fin, init, e, descs[..k], bs, more + rest);
      ChainWhole(f, fin, init, EngineRun(f, fin, init, e, bs), more, b, rest);
      EngineAppend(f, fin, init, e, bs, b);
    }
  }

  lemma NoBatches<S, D>(f: (S, seq<byte>) -> S, fin: (S, seq<byte>, nat) -> D, init: S, e: Engine<S, D>, descs: seq<Desc>)
    requires Stretched(descs, [])
    ensures descs == [] && EngineRun(f, fin, init, e, []) == e
  {
  }

  lemma LastStretch(descs: seq<Desc>, batches: seq<Batch>) returns (k: nat)
    requires Stretched(descs, batches) && batches != []
    ensures k <= |descs| && Stretched(descs[..k], batches[..|batches| - 1])
    ensures Stretch(descs[k..], batches[|batches| - 1])
  {
    hide Stretch;
    k :| 0 <= k <= |descs| && Stretched(descs[..k], batches[..|batches| - 1])
         && Stretch(descs[k..], batches[|batches| - 1]);
  }

  lemma ChainWhole<S, D>(f: (S, seq<byte>) -> S, fin: (S, seq<byte>, nat) -> D, init: S, e: Engine<S, D>,
                         all: seq<Desc>, b: Batch, rest: seq<Desc>)
    requires Stretch(all, b)
    ensures DescRun(f, fin, init, e, [], all + rest)
            == DescRun(f, fin, init, EngineStep(f, fin, init, e, b), [], rest)
  {
    assert all[..0] == [] && all[0..] == all && all != [];
    hide DescRun, EngineStep, Stretch;
    ChainRun(f, fin, init, e, all, b, 0, rest);
  }

  /** When nothing was cut, what the engine ends up with, descriptor by descriptor and whatever
      state it was in before, is the hash of the whole message. */
  lemma DigestIsOfMessage<S, D>(f: (S, seq<byte>) -> S, fin: (S, seq<byte>, nat) -> D, init: S, e: Engine<S, D>,
                                lo: nat, hi: nat, w: Wire, message: seq<byte>)
    requires FinishedWire(lo, hi, w, message, message)
    ensures DescRun(f, fin, init, e, [], w.descs) == Done(Digest(f, fin, init, message))
  {
    BatchesGiveDigest(f, fin, init, e, lo, hi, w, message);
    DescsAreBatches(f, fin, init, e, w.descs, w.batches, []);
    hide FinishedWire, EngineRun, Digest;
    assert w.descs + [] == w.descs;
  }

  lemma BatchesGiveDigest<S, D>(f: (S, seq<byte>) -> S, fin: (S, seq<byte>, nat) -> D, init: S, e: Engine<S, D>,
                                lo: nat, hi: nat, w: Wire, message: seq<byte>)
    requires FinishedWire(lo, hi, w, message, message)
    ensures EngineRun(f, fin, init, e, w.batches) == Done(Digest(f, fin, init, message))
  {
    var b, rest := w.batches[0], w.batches[1..];
    FirstAndRest(lo, hi, w, message);
    hide FinishedWire, Absorb, LastPart, Flat, Ending;
    assert BatchBytes(w.batches)[1..] == BatchBytes(rest);
    if rest == [] {
      OneBatch(w.batches);
      EngineLast(f, fin, init, e, w.batches);
    } else {
      FlatFirst(BatchBytes(w.batches));
      EngineFollows(f, fin, init, b.bytes, rest);
    }
  }

  lemma OneBatch(batches: seq<Batch>)
    requires |batches| == 1
    ensures Flat(BatchBytes(batches)) == batches[0].bytes
  {
    assert BatchBytes(batches)[1..] == [];
  }

  lemma FlatFirst(list: List)
    requires list != []
    ensures Flat(list) == list[0] + Flat(list[1..])
  {
  }

  /** A finished wire starts afresh once and ends once. */
  lemma FirstAndRest(lo: nat, hi: nat, w: Wire, message: seq<byte>)
    requires FinishedWire(lo, hi, w, message, message)
    ensures w.batches != [] && w.batches[0].begin && Flat(BatchBytes(w.batches)) == message
    ensures var rest := w.batches[1..];
      && (forall i :: 0 <= i < |rest| ==> !rest[i].begin)
      && if rest == [] then w.batches[0].final
         else !w.batches[0].final && |w.batches[0].bytes| % BLOCK == 0 && Ending(rest)
  {
    hide CountOk, Sent, Flat;
    forall i | 0 <= i < |w.batches| - 1 ensures !w.batches[i].final && |w.batches[i].bytes| % BLOCK == 0 {
      assert !w.batches[..|w.batches| - 1][i].final;
    }
  }
}
