/** The audio bridge's ring buffer: free-running 32-bit counters `in` and `out`, a
    power-of-two size, and a lazily applied request to drop everything. */
module AudioRing {
  import opened Kernel
  import opened Ring

  /** 32-bit addition and subtraction wrap around. */
  function Add(a: u32, b: u32): u32 {
    (a + b) % 0x1_0000_0000
  }

  function Sub(a: u32, b: u32): u32 {
    (a - b) % 0x1_0000_0000
  }

  // ---- sizes ----

  predicate PowerOfTwo(n: nat) {
    n != 0 && And(n, n - 1) == 0
  }

  lemma {:induction false} PowerOfTwoIff(n: nat)
    ensures PowerOfTwo(n) <==> IsPow2(n)
  {
    if n == 0 {
    } else if n == 1 {
      assert n == Pow2(0);
    } else if n % 2 == 1 {
      AndSelf(n / 2);
      assert (n - 1) / 2 == n / 2;
      forall k: nat ensures Pow2(k) != n {
        assert k == 0 || Pow2(k) == 2 * Pow2(k - 1);
      }
    } else {
      PowerOfTwoIff(n / 2);
      assert (n - 1) / 2 == n / 2 - 1 && (n - 1) % 2 == 1;
      if IsPow2(n / 2) {
        var k: nat :| n / 2 == Pow2(k);
        assert n == Pow2(k + 1);
      }
      if IsPow2(n) {
        var k: nat :| n == Pow2(k);
        assert n / 2 == Pow2(k - 1);
      }
    }
  }

  lemma AndSelf(n: nat)
    ensures And(n, n) == n
  {
  }

  /** The least power of two above `a`, by counting bits. With all 32 bits in use the shift is as
      wide as the word, and the language leaves open what that gives: `overShift`. */
  method RoundUpPowerOf2(a: u32, overShift: u32) returns (r: u32)
    ensures a == 0 ==> r == 0
    ensures 0 < a < 0x8000_0000 ==> IsPow2(r) && r / 2 <= a < r
    ensures 0x8000_0000 <= a ==> r == overShift
  {
    if a == 0 {
      return 0;
    }
    var i: nat, position: nat := a, 0;
    while i != 0
      invariant var p := Pow2(position); i * p <= a < (i + 1) * p && p <= 2 * a
      decreases i
    {
      HalfStep(i, Pow2(position), a);
      i, position := i / 2, position + 1;
    }
    assert Pow2(position) == 2 * Pow2(position - 1);
    TopBit(a, position);
    r := if position < 32 then Pow2(position) else overShift;
  }

  lemma TopBit(a: u32, position: nat)
    requires position > 0 && Pow2(position) / 2 <= a < Pow2(position)
    ensures position < 32 <==> a < 0x8000_0000
    ensures position < 32 ==> Pow2(position) < U32
  {
    Pow2Of32();
    assert Pow2(31) == 0x8000_0000;
    assert Pow2(position) == 2 * Pow2(position - 1);
    if position < 32 {
      if position < 31 {
        Pow2Order(position, 31);
      }
    } else if position > 32 {
      Pow2Order(32, position);
    }
  }

  method RingSize(n: u32, overShift: u32) returns (s: u32)
    ensures n == 0 ==> s == 0
    ensures 0 < n <= 0x8000_0000 ==> IsPow2(s) && n <= s < 2 * n
    ensures 0x8000_0000 < n ==> s == overShift
  {
    hide And, IsPow2;
    s := n;
    PowerOfTwoIff(n);
    if n > 0x8000_0000 {
      NoPowerBetween(n);
    }
    if !PowerOfTwo(n) {
      s := RoundUpPowerOf2(n, overShift);
      if n == 0x8000_0000 {
        Pow2Of31();
      } else if 0 < n < 0x8000_0000 {
        NotHalf(n, s);
      }
    }
  }

  lemma Pow2Of31()
    ensures IsPow2(0x8000_0000)
  {
    Pow2Of32();
    assert Pow2(31) == 0x8000_0000;
  }

  lemma NotHalf(n: nat, s: nat)
    requires n > 0 && !IsPow2(n) && IsPow2(s) && s / 2 <= n
    ensures s < 2 * n
  {
    var k: nat :| s == Pow2(k);
    if k > 0 {
      assert s / 2 == Pow2(k - 1);
    }
  }

  lemma NoPowerBetween(n: u32)
    requires n > 0x8000_0000
    ensures !IsPow2(n)
  {
    Pow2Of32();
    assert Pow2(31) == 0x8000_0000;
    if IsPow2(n) {
      var k: nat :| n == Pow2(k);
      if k < 31 {
        Pow2Order(k, 31);
      } else if k > 32 {
        Pow2Order(32, k);
      }
    }
  }

  lemma HalfStep(i: nat, p: nat, a: nat)
    requires i > 0 && i * p <= a < (i + 1) * p
    ensures i / 2 * (2 * p) <= a < (i / 2 + 1) * (2 * p)
    ensures p <= a
  {
    var h := i / 2;
    assert i == 2 * h || i == 2 * h + 1;
    assert h * (2 * p) == 2 * h * p && (h + 1) * (2 * p) == 2 * h * p + 2 * p;
    assert (2 * h + 1) * p == 2 * h * p + p;
    assert (i + 1) * p == i * p + p && i * p == (i - 1) * p + p;
  }

  // ---- counters ----

  lemma Pow2Of32()
    ensures Pow2(32) == U32
  {
    assert Pow2(4) == 0x10 && Pow2(8) == 0x100 && Pow2(12) == 0x1000 && Pow2(16) == 0x1_0000;
    assert Pow2(20) == 0x10_0000 && Pow2(24) == 0x100_0000 && Pow2(28) == 0x1000_0000;
  }

  lemma {:induction false} Pow2Order(j: nat, k: nat)
    requires j < k
    ensures Pow2(j) < Pow2(k)
  {
    if j + 1 == k {
    } else {
      Pow2Order(j, k - 1);
    }
  }

  lemma {:induction false} WrapDouble(l: nat, s: nat)
    requires s > 0
    ensures Wrap(Wrap(l, 2 * s), s) == Wrap(l, s)
  {
    if l < 2 * s {
    } else {
      WrapDouble(l - 2 * s, s);
      assert Wrap(l, s) == Wrap(l - s, s) == Wrap(l - s - s, s);
      assert l - s - s == l - 2 * s;
    }
  }

  /** Wrapping at a larger power of two first makes no difference. */
  lemma {:induction false} WrapPowers(l: nat, k: nat, j: nat)
    requires k <= j
    ensures Wrap(Wrap(l, Pow2(j)), Pow2(k)) == Wrap(l, Pow2(k))
    decreases j - k
  {
    if k == j {
      WrapSmall(Wrap(l, Pow2(k)), Pow2(k));
    } else {
      var x := Wrap(l, Pow2(j));
      WrapDouble(l, Pow2(j - 1));
      WrapPowers(x, k, j - 1);
      WrapPowers(l, k, j - 1);
    }
  }

  /** However often a counter has wrapped at 2^32, masking it gives the cell of the
      unbounded count. */
  lemma CounterCell(l: nat, size: nat)
    requires IsPow2(size) && size <= U32
    ensures And(l % U32, size - 1) == Wrap(l, size)
  {
    hide And, Wrap;
    var k: nat :| size == Pow2(k);
    Pow2Of32();
    if k > 32 {
      Pow2Order(32, k);
    }
    hide Pow2;
    MaskIsModulo(l % U32, k);
    WrapIsModulo(l % U32, size);
    WrapIsModulo(l, U32);
    WrapPowers(l, k, 32);
  }

  lemma NextCell(l: nat, d: nat, size: nat)
    requires IsPow2(size) && size <= U32 && d <= size
    ensures And((l + d) % U32, size - 1) == Cell(size, Wrap(l, size), d)
  {
    CounterCell(l + d, size);
    WrapIsCell(l, d, size);
  }

  /** `in - out` on wrapped counters is the distance of the unbounded ones. */
  lemma CounterDistance(lin: nat, lout: nat)
    requires lout <= lin < lout + U32
    ensures Sub(lin % U32, lout % U32) == lin - lout
  {
  }

  lemma AddToCounter(l: nat, d: u32)
    ensures Add(l % U32, d) == (l + d) % U32 == Add(l % U32, d) % U32
  {
  }

  lemma FreeSpace(size: u32, inn: u32, out: u32)
    requires Sub(inn, out) <= size
    ensures Add(Sub(size, inn), out) == size - Sub(inn, out)
    ensures inn == (out + Sub(inn, out)) % U32
  {
  }

  lemma AfterPut(inn: u32, out: u32, n: u32)
    requires Sub(inn, out) + n < U32
    ensures Sub(Add(inn, n), out) == Sub(inn, out) + n
  {
  }

  lemma AfterGet(inn: u32, out: u32, n: u32)
    requires n <= Sub(inn, out)
    ensures Sub(inn, Add(out, n)) == Sub(inn, out) - n
  {
  }

  // ---- one caller at a time ----

  class RingBuffer {
    const buffer: array<byte>
    const size: u32
    var inn: u32
    var out: u32
    var goEmpty: bool
    ghost var accepted: seq<byte>    // put since the last go-empty request
    ghost var delivered: seq<byte>   // got since the last go-empty request

    ghost function Contents(): seq<byte>
      reads this, buffer
      requires size == buffer.Length > 0 && Sub(inn, out) <= size
    {
      Get(buffer[..], Wrap(out, size), Sub(inn, out))
    }

    /** The queue the callers see: a go-empty request takes effect at once. */
    ghost function Live(): seq<byte>
      reads this, buffer
      requires size == buffer.Length > 0 && Sub(inn, out) <= size
    {
      if goEmpty then [] else Contents()
    }

    ghost predicate Valid()
      reads this, buffer
    {
      && size == buffer.Length > 0 && IsPow2(size) && Sub(inn, out) <= size
      && accepted == delivered + Live()
    }

    constructor (size: u32)
      requires size > 0
      ensures this.size == size && fresh(buffer)
      ensures IsPow2(size) ==> Valid() && Live() == [] && !goEmpty
    {
      this.size := size;
      buffer := new byte[size](_ => 0);
      inn, out, goEmpty := 0, 0, false;
      accepted, delivered := [], [];
    }

    /** ring_buffer_init. No memory can be had for a ring of no bytes. */
    static method Init(n: u32, overShift: u32, memory: bool) returns (r: RingBuffer?)
      ensures r != null ==> fresh(r) && fresh(r.buffer)
      ensures n == 0 || !memory ==> r == null
      ensures 0 < n <= 0x8000_0000 && memory ==> r != null && r.Valid() && r.Live() == [] && n <= r.size < 2 * n
      ensures 0x8000_0000 < n ==> (r == null <==> overShift == 0 || !memory)
      ensures 0x8000_0000 < n && r != null ==>
          r.size == overShift && (IsPow2(overShift) ==> r.Valid() && r.Live() == [])
    {
      hide IsPow2, Get, Wrap;
      var s := RingSize(n, overShift);
      if s == 0 || !memory {
        return null;
      }
      r := new RingBuffer(s);
    }

    /** Put as much of `data` as fits behind the queue. */
    method Store(data: seq<byte>) returns (n: nat)
      requires size == buffer.Length > 0 && IsPow2(size) && Sub(inn, out) <= size && |data| < U32
      modifies this`inn, buffer
      ensures Sub(inn, out) <= size
      ensures n == Min(|data|, size - |old(Contents())|)
      ensures Contents() == old(Contents()) + data[..n]
    {
      hide Put, Get, Wrap, IsPow2, And, Add, Sub, Cell;
      ghost var off, used := Wrap(out, size), Sub(inn, out);
      FreeSpace(size, inn, out);
      n := Min(|data|, Add(Sub(size, inn), out));
      NextCell(out, used, size);
      AfterPut(inn, out, n);
      var at := And(inn, size - 1);
      GetAfterPut(buffer[..], off, used, data[..n]);
      var _ := CopyIn(buffer, at, data[..n], n);
      assert data[..n][..n] == data[..n];
      inn := Add(inn, n);
    }

    /** Take `n` bytes from the front of the queue. */
    method Fetch(n: nat) returns (data: seq<byte>)
      requires size == buffer.Length > 0 && IsPow2(size) && n <= Sub(inn, out) <= size
      modifies this`out
      ensures Sub(inn, out) <= size
      ensures |data| == n && old(Contents()) == data + Contents()
    {
      assert out % U32 == out;
      AddToCounter(out, n);
      hide Get, Wrap, IsPow2, And, Add, Sub, Cell;
      CounterCell(out, size);
      CounterCell(Add(out, n), size);
      NextCell(out, n, size);
      AfterGet(inn, out, n);
      GetSplit(buffer[..], Wrap(out, size), n, Sub(inn, out));
      var at := And(out, size - 1);
      data := CopyOut(buffer, at, n);
      out := Add(out, n);
    }

    /** Put, applying a pending go-empty first. */
    method Enqueue(data: seq<byte>) returns (n: nat)
      requires Valid() && |data| < U32
      modifies this, buffer
      ensures Valid() && !goEmpty
      ensures n == Min(|data|, size - |old(Live())|)
      ensures Live() == old(Live()) + data[..n]
      ensures accepted == old(accepted) + data[..n] && delivered == old(delivered)
    {
      hide Get, Wrap, IsPow2, Put;
      if goEmpty {
        goEmpty := false;
        inn := out;
      }
      assert Contents() == old(Live());
      n := Store(data);
      accepted := accepted + data[..n];
    }

    /** Get all of `want` bytes or none, applying a pending go-empty first. */
    method Dequeue(want: nat) returns (data: seq<byte>)
      requires Valid()
      modifies this
      ensures Valid() && !goEmpty
      ensures if want <= |old(Live())| then |data| == want && old(Live()) == data + Live()
              else data == [] && Live() == old(Live())
      ensures accepted == old(accepted) && delivered == old(delivered) + data
    {
      hide Get, Wrap, IsPow2;
      if goEmpty {
        goEmpty := false;
        out := inn;
      }
      assert Contents() == old(Live());
      if Sub(inn, out) < want {
        return [];
      }
      data := Fetch(want);
      delivered := delivered + data;
    }

    method GoEmpty()
      requires Valid()
      modifies this`goEmpty, this`accepted, this`delivered
      ensures Valid() && Live() == [] && accepted == [] && delivered == []
    {
      goEmpty := true;
      accepted, delivered := [], [];
    }
  }
}

/** One producer and one consumer on the audio ring, interleaved byte by byte. The producer
    reserves room, copies, then publishes by advancing `in`; the consumer checks, copies,
    then publishes by advancing `out`. `hist` and `taken` record what was published. */
module AudioSpsc {
  import opened Kernel
  import opened Ring
  import opened AudioRing

  datatype Producer = Idle | Copying(data: seq<byte>, done: nat)

  datatype Consumer = Resting | Taking(n: nat, got: seq<byte>)

  datatype State = State(buf: seq<byte>, inn: u32, out: u32, prod: Producer, cons: Consumer,
                         hist: seq<byte>, taken: seq<byte>)

  datatype Event =
    | PutStart(data: seq<byte>) | PutByte | PutPublish
    | GetStart(n: nat) | GetByte | GetPublish

  predicate Shaped(s: State) {
    0 < |s.buf| < U32
  }

  predicate Enabled(s: State, ev: Event) {
    match ev
    case PutStart(data) => s.prod.Idle? && |data| < U32
    case PutByte => s.prod.Copying? && s.prod.done < |s.prod.data| <= |s.buf| && And(s.inn, |s.buf| - 1) < |s.buf|
    case PutPublish => s.prod.Copying? && s.prod.done == |s.prod.data| < U32
    case GetStart(n) => s.cons.Resting?
    case GetByte => s.cons.Taking? && |s.cons.got| < s.cons.n <= |s.buf| && And(s.out, |s.buf| - 1) < |s.buf|
    case GetPublish => s.cons.Taking? && |s.cons.got| == s.cons.n < U32
  }

  function Next(s: State, ev: Event): State
    requires Shaped(s) && Enabled(s, ev)
  {
    var size := |s.buf|;
    match ev
    case PutStart(data) =>
      s.(prod := Copying(data[..Min(|data|, Add(Sub(size, s.inn), s.out))], 0))
    case PutByte =>
      var c := Cell(size, And(s.inn, size - 1), s.prod.done);
      s.(buf := s.buf[c := s.prod.data[s.prod.done]], prod := s.prod.(done := s.prod.done + 1))
    case PutPublish =>
      s.(inn := Add(s.inn, |s.prod.data|), prod := Idle, hist := s.hist + s.prod.data)
    case GetStart(n) =>
      if Sub(s.inn, s.out) < n then s else s.(cons := Taking(n, []))
    case GetByte =>
      var c := Cell(size, And(s.out, size - 1), |s.cons.got|);
      s.(cons := s.cons.(got := s.cons.got + [s.buf[c]]))
    case GetPublish =>
      s.(out := Add(s.out, s.cons.n), cons := Resting, taken := s.taken + s.cons.got)
  }

  // ---- the invariant ----

  function Copied(s: State): seq<byte>
    requires s.prod.Copying? ==> s.prod.done <= |s.prod.data|
  {
    if s.prod.Copying? then s.prod.data[..s.prod.done] else []
  }

  function Reserved(s: State): nat {
    if s.prod.Copying? then |s.prod.data| else 0
  }

  ghost predicate CountersOk(s: State) {
    && Shaped(s) && IsPow2(|s.buf|)
    && s.inn == |s.hist| % U32 && s.out == |s.taken| % U32
    && s.taken <= s.hist
    && |s.hist| + Reserved(s) <= |s.taken| + |s.buf|
    && (s.prod.Copying? ==> s.prod.done <= |s.prod.data|)
  }

  ghost predicate Inv(s: State) {
    && CountersOk(s)
    && Intact(s.buf, s.hist + Copied(s), |s.taken|, |s.hist| + |Copied(s)|)
    && (s.cons.Taking? ==>
          && |s.cons.got| <= s.cons.n <= |s.hist| - |s.taken|
          && s.cons.got == s.hist[|s.taken|..|s.taken| + |s.cons.got|])
  }

  /** What has been published and not yet taken. */
  function Queue(s: State): seq<byte>
    requires s.taken <= s.hist
  {
    s.hist[|s.taken|..]
  }

  lemma PutStartKeepsInv(s: State, data: seq<byte>)
    requires Inv(s) && Enabled(s, PutStart(data))
    ensures Inv(Next(s, PutStart(data)))
  {
    hide Intact, IsPow2, Add, Sub;
    CounterDistance(|s.hist|, |s.taken|);
    FreeSpace(|s.buf|, s.inn, s.out);
    var s' := Next(s, PutStart(data));
    assert Copied(s') == Copied(s);
  }

  lemma PutByteKeepsInv(s: State)
    requires Inv(s) && Enabled(s, PutByte)
    ensures Inv(Next(s, PutByte))
  {
    hide IsPow2, Add, Sub, And, Wrap, Put;
    var s', done, data := Next(s, PutByte), s.prod.done, s.prod.data;
    var h, size := s.hist + Copied(s), |s.buf|;
    CounterCell(|s.hist|, size);
    WrapIsCell(|s.hist|, done, size);
    PutKeepsWindow(s.buf, h, |s.taken|, [data[done]]);
    UpdateIsPut(s.buf, Wrap(|h|, size), data[done]);
    assert h + [data[done]] == s'.hist + Copied(s');
  }

  lemma PublishKeepsInv(s: State)
    requires Inv(s) && Enabled(s, PutPublish)
    ensures Inv(Next(s, PutPublish))
  {
    hide IsPow2, Intact, Add;
    var s' := Next(s, PutPublish);
    AddToCounter(|s.hist|, |s.prod.data|);
    assert s.prod.data[..s.prod.done] == s.prod.data;
    assert s'.hist + Copied(s') == s.hist + Copied(s);
    assert s.cons.Taking? ==> s'.hist[|s.taken|..|s.taken| + |s.cons.got|] == s.hist[|s.taken|..|s.taken| + |s.cons.got|];
  }

  lemma GetStartKeepsInv(s: State, n: nat)
    requires Inv(s) && Enabled(s, GetStart(n))
    ensures Inv(Next(s, GetStart(n)))
  {
    hide IsPow2, Intact, Sub;
    CounterDistance(|s.hist|, |s.taken|);
  }

  lemma GetByteKeepsInv(s: State)
    requires Inv(s) && Enabled(s, GetByte)
    ensures Inv(Next(s, GetByte))
  {
    hide IsPow2, And, Wrap;
    var at, size := |s.taken| + |s.cons.got|, |s.buf|;
    CounterCell(|s.taken|, size);
    WrapIsCell(|s.taken|, |s.cons.got|, size);
    assert (s.hist + Copied(s))[at] == s.hist[at];
    assert s.hist[|s.taken|..at + 1] == s.hist[|s.taken|..at] + [s.hist[at]];
  }

  lemma TakeKeepsInv(s: State)
    requires Inv(s) && Enabled(s, GetPublish)
    ensures Inv(Next(s, GetPublish))
  {
    hide IsPow2, Wrap, Add;
    var s' := Next(s, GetPublish);
    AddToCounter(|s.taken|, s.cons.n);
    assert s'.taken == s.hist[..|s'.taken|];
  }

  lemma StepKeepsInv(s: State, ev: Event)
    requires Inv(s) && Enabled(s, ev)
    ensures Inv(Next(s, ev))
  {
    hide Inv, Next;
    match ev
    case PutStart(data) => PutStartKeepsInv(s, data);
    case PutByte => PutByteKeepsInv(s);
    case PutPublish => PublishKeepsInv(s);
    case GetStart(n) => GetStartKeepsInv(s, n);
    case GetByte => GetByteKeepsInv(s);
    case GetPublish => TakeKeepsInv(s);
  }

  /** A transfer that was started can always be carried on to its publishing step. */
  lemma TransfersCanFinish(s: State)
    requires Inv(s)
    ensures s.prod.Copying? ==> Enabled(s, if s.prod.done < |s.prod.data| then PutByte else PutPublish)
    ensures s.cons.Taking? ==> Enabled(s, if |s.cons.got| < s.cons.n then GetByte else GetPublish)
  {
    hide IsPow2, And, Wrap, Intact;
    CounterCell(|s.hist|, |s.buf|);
    CounterCell(|s.taken|, |s.buf|);
  }

  // ---- the queue it implements ----

  /** A bounded queue without buffer, mask or counters, and the two transfers under way. */
  datatype Fifo = Fifo(cap: nat, queue: seq<byte>, prod: Producer, cons: Consumer, taken: seq<byte>)

  function Abs(s: State): Fifo
    requires s.taken <= s.hist
  {
    Fifo(|s.buf|, Queue(s), s.prod, s.cons, s.taken)
  }

  predicate FifoEnabled(f: Fifo, ev: Event) {
    && |f.queue| <= f.cap
    && match ev
       case PutStart(_) => f.prod.Idle?
       case PutByte => f.prod.Copying? && f.prod.done < |f.prod.data|
       case PutPublish => f.prod.Copying? && f.prod.done == |f.prod.data|
       case GetStart(_) => f.cons.Resting?
       case GetByte => f.cons.Taking? && |f.cons.got| < f.cons.n <= |f.queue|
       case GetPublish => f.cons.Taking? && |f.cons.got| == f.cons.n <= |f.queue|
  }

  /** A put moves as much as there is room for, and a get moves all it asked for or, when
      the queue holds less, nothing at all. */
  function FifoNext(f: Fifo, ev: Event): Fifo
    requires FifoEnabled(f, ev)
  {
    match ev
    case PutStart(data) => f.(prod := Copying(data[..Min(|data|, f.cap - |f.queue|)], 0))
    case PutByte => f.(prod := f.prod.(done := f.prod.done + 1))
    case PutPublish => f.(queue := f.queue + f.prod.data, prod := Idle)
    case GetStart(n) => if n <= |f.queue| then f.(cons := Taking(n, [])) else f
    case GetByte => f.(cons := f.cons.(got := f.queue[..|f.cons.got| + 1]))
    case GetPublish =>
      f.(queue := f.queue[f.cons.n..], cons := Resting, taken := f.taken + f.queue[..f.cons.n])
  }

  lemma PutStartRefines(s: State, data: seq<byte>)
    requires Inv(s) && Enabled(s, PutStart(data))
    ensures FifoEnabled(Abs(s), PutStart(data))
    ensures Abs(Next(s, PutStart(data))) == FifoNext(Abs(s), PutStart(data))
  {
    hide Intact, IsPow2, Add, Sub;
    CounterDistance(|s.hist|, |s.taken|);
    FreeSpace(|s.buf|, s.inn, s.out);
  }

  lemma GetStartRefines(s: State, n: nat)
    requires Inv(s) && Enabled(s, GetStart(n))
    ensures FifoEnabled(Abs(s), GetStart(n))
    ensures Abs(Next(s, GetStart(n))) == FifoNext(Abs(s), GetStart(n))
  {
    hide Intact, IsPow2, Sub;
    CounterDistance(|s.hist|, |s.taken|);
  }

  lemma GetByteRefines(s: State)
    requires Inv(s) && Enabled(s, GetByte)
    ensures FifoEnabled(Abs(s), GetByte)
    ensures Next(s, GetByte).taken <= Next(s, GetByte).hist
    ensures Abs(Next(s, GetByte)) == FifoNext(Abs(s), GetByte)
  {
    GetByteKeepsInv(s);
    hide IsPow2, Intact, And, Cell;
    var at := |s.taken| + |s.cons.got|;
    assert s.hist[|s.taken|..at + 1] == Queue(s)[..|s.cons.got| + 1];
  }

  lemma TakeRefines(s: State)
    requires Inv(s) && Enabled(s, GetPublish)
    ensures FifoEnabled(Abs(s), GetPublish)
    ensures Next(s, GetPublish).taken <= Next(s, GetPublish).hist
    ensures Abs(Next(s, GetPublish)) == FifoNext(Abs(s), GetPublish)
  {
    TakeKeepsInv(s);
    hide IsPow2, Intact, Add;
    assert s.cons.got == Queue(s)[..s.cons.n];
  }

  /** Seen as a queue, the ring takes exactly the step the bounded queue takes. */
  lemma StepRefinesQueue(s: State, ev: Event)
    requires Inv(s) && Enabled(s, ev)
    ensures Inv(Next(s, ev)) && |Next(s, ev).buf| == |s.buf|
    ensures FifoEnabled(Abs(s), ev) && Abs(Next(s, ev)) == FifoNext(Abs(s), ev)
  {
    StepKeepsInv(s, ev);
    hide IsPow2, Intact, Add, Sub, And, Cell;
    match ev
    case PutStart(data) => PutStartRefines(s, data);
    case GetStart(n) => GetStartRefines(s, n);
    case GetByte => GetByteRefines(s);
    case GetPublish => TakeRefines(s);
    case _ =>
  }

  // ---- whole runs ----

  predicate Initial(s: State) {
    s.inn == 0 && s.out == 0 && s.prod.Idle? && s.cons.Resting? && s.hist == [] && s.taken == []
  }

  ghost predicate IsRun(states: seq<State>, events: seq<Event>) {
    && |states| == |events| + 1
    && Initial(states[0]) && 0 < |states[0].buf| < U32 && IsPow2(|states[0].buf|)
    && forall i :: 0 <= i < |events| ==>
        Shaped(states[i]) && Enabled(states[i], events[i]) && states[i + 1] == Next(states[i], events[i])
  }

  lemma {:induction false} RunsKeepInv(states: seq<State>, events: seq<Event>, n: nat)
    requires IsRun(states, events) && n < |states|
    ensures Inv(states[n]) && |states[n].buf| == |states[0].buf|
  {
    hide Enabled, Next, FifoNext, FifoEnabled, Abs;
    if n == 0 {
    } else {
      hide Inv;
      RunsKeepInv(states, events, n - 1);
      StepRefinesQueue(states[n - 1], events[n - 1]);
    }
  }

  /** In every interleaving and across any number of counter wraps the ring moves step by step
      as the bounded queue does, so the bytes taken are a prefix of the bytes published and no
      more than the ring holds are ever in between. */
  lemma DeliveryInOrder(states: seq<State>, events: seq<Event>, n: nat)
    requires IsRun(states, events) && n < |events|
    ensures states[n].taken <= states[n].hist && states[n + 1].taken <= states[n + 1].hist
    ensures FifoEnabled(Abs(states[n]), events[n])
    ensures Abs(states[n + 1]) == FifoNext(Abs(states[n]), events[n])
    ensures |Queue(states[n + 1])| <= |states[0].buf|
  {
    hide Enabled, Next, FifoNext, FifoEnabled, Intact, IsPow2;
    RunsKeepInv(states, events, n);
    StepRefinesQueue(states[n], events[n]);
  }
}
