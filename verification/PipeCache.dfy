/** The byte queue between a client and a server of the trusted-world data pipes: a cyclic
    buffer that keeps the positions of its first and last byte and a count. */
module PipeCache {
  import opened Ring
  import opened Scatter

  /** The positions of the queue. NULL is -1. */
  datatype Shape = Shape(size: nat, start: int, end: int, count: nat)

  predicate ShapeOk(s: Shape) {
    && 0 < s.size && s.count <= s.size
    && (s.count > 0 ==> 0 <= s.start < s.size && s.end == Cell(s.size, s.start, s.count - 1))
  }

  predicate Wrapped(s: Shape) {
    s.count > 0 && s.start > s.end
  }

  function Free(s: Shape): int {
    s.size - s.count
  }

  /** How much one pass of the writer may copy. Behind wrapped data the code takes the amount
      of data for the amount of room. */
  function Room(s: Shape): int {
    if s.count == 0 then s.size
    else if Wrapped(s) then s.count
    else if s.end != s.size - 1 then s.size - 1 - s.end
    else s.start
  }

  /** Where one pass of the writer copies to. */
  function WriteAt(s: Shape): int {
    if s.count == 0 || (!Wrapped(s) && s.end == s.size - 1) then 0 else s.end + 1
  }

  function AfterWrite(s: Shape, n: nat): (s': Shape)
    ensures s'.size == s.size && s'.count == s.count + n
  {
    if s.count == 0 then Shape(s.size, 0, n - 1, n)
    else if !Wrapped(s) && s.end == s.size - 1 then Shape(s.size, s.start, n - 1, s.count + n)
    else Shape(s.size, s.start, s.end + n, s.count + n)
  }

  /** How much one pass of the reader may copy. */
  function Readable(s: Shape): int {
    if Wrapped(s) then s.size - s.start else s.count
  }

  function AfterRead(s: Shape, n: nat): (s': Shape)
    requires n <= s.count
    ensures s'.size == s.size && s'.count == s.count - n
    ensures n == 0 < s.count && s.start < s.size ==> s' == s
  {
    if n == s.count then Shape(s.size, -1, -1, 0)
    else if Wrapped(s) && n == s.size - s.start then Shape(s.size, 0, s.end, s.count - n)
    else Shape(s.size, s.start + n, s.end, s.count - n)
  }

  /** One pass lands on the cell behind the queue and leaves a sound queue exactly when what it
      copies fits. Only behind wrapped data can it fail to. */
  lemma WriteFitsIff(s: Shape, n: nat)
    requires ShapeOk(s) && s.count < s.size && 0 < n <= Room(s)
    ensures ShapeOk(AfterWrite(s, n)) <==> n <= Free(s)
    ensures n > Free(s) ==> Wrapped(s)
    ensures WriteAt(s) == if s.count == 0 then 0 else Cell(s.size, s.start, s.count)
    ensures n <= Free(s) ==> WriteAt(s) + n <= s.size
    ensures WriteAt(s) + n <= 2 * s.size
  {
  }

  /** A pass goes as far as it can: to the end of the buffer or, in front of the data, up to it.
      Only behind wrapped data it takes the amount of data for that. */
  lemma RoomIs(s: Shape)
    requires ShapeOk(s) && s.count < s.size
    ensures if Wrapped(s) then Room(s) == s.count && WriteAt(s) == s.end + 1
            else WriteAt(s) + Room(s) == if s.count > 0 && WriteAt(s) < s.start then s.start else s.size
  {
  }

  lemma ReadableIs(s: Shape)
    requires ShapeOk(s) && 0 < s.count
    ensures Readable(s) == if s.start + s.count <= s.size then s.count else s.size - s.start
  {
  }

  lemma HasRoom(s: Shape)
    requires ShapeOk(s) && s.count < s.size
    ensures 0 < Room(s) <= s.size
  {
  }

  lemma HasData(s: Shape)
    requires ShapeOk(s) && 0 < s.count
    ensures 0 < Readable(s) <= s.count && s.start < s.size
  {
  }

  lemma ReadKeepsShape(s: Shape, n: nat)
    requires ShapeOk(s) && 0 < n <= Readable(s) && 0 < s.count
    ensures n <= s.count && s.start + n <= s.size && ShapeOk(AfterRead(s, n))
    ensures n < s.count ==> AfterRead(s, n).start == Cell(s.size, s.start, n)
  {
  }

  // ---- one call of the writer ----

  predicate DoublesTo(d: nat, size: nat)
    decreases size - d
  {
    d == size || (0 < d < size && DoublesTo(2 * d, size))
  }

  function Doubled(d: nat, j: nat): nat
    decreases j
  {
    if j == 0 then d else Doubled(2 * d, j - 1)
  }

  lemma {:induction false} DoubledGrows(d: nat, j: nat)
    ensures Doubled(d, j) >= d
    decreases j
  {
    if j == 0 {
    } else {
      DoubledGrows(2 * d, j - 1);
    }
  }

  lemma {:induction false} DoublesToFound(d: nat, size: nat) returns (j: nat)
    requires DoublesTo(d, size)
    ensures Doubled(d, j) == size
    decreases size - d
  {
    if d == size {
      j := 0;
    } else {
      var i := DoublesToFound(2 * d, size);
      j := i + 1;
    }
  }

  lemma {:induction false} DoubledDoublesTo(d: nat, j: nat)
    requires 0 < d
    ensures DoublesTo(d, Doubled(d, j))
    decreases j
  {
    if j == 0 {
    } else {
      DoubledDoublesTo(2 * d, j - 1);
      DoubledGrows(2 * d, j - 1);
    }
  }

  /** Doubling `d` some number of times gives `size`. */
  lemma DoublesToIff(d: nat, size: nat)
    requires 0 < d
    ensures DoublesTo(d, size) <==> exists j: nat :: Doubled(d, j) == size
  {
    hide DoublesTo, Doubled;
    if DoublesTo(d, size) {
      var j := DoublesToFound(d, size);
    }
    if exists j: nat :: Doubled(d, j) == size {
      var j: nat :| Doubled(d, j) == size;
      DoubledDoublesTo(d, j);
    }
  }

  /** A non-blocking write of `n` bytes never runs over unread data: the data is not wrapped,
      or there is room for all of it, or doubling the data fills the buffer exactly. */
  predicate SafeCall(s: Shape, n: nat) {
    !Wrapped(s) || n <= Free(s) || DoublesTo(s.count, s.size)
  }

  lemma NothingLeftToDo(s: Shape, n: nat)
    requires ShapeOk(s)
    ensures 0 < s.size && s.count <= s.size && (n <= Free(s) || s.count == s.size ==> SafeCall(s, n))
  {
  }

  /** The condition is exact pass by pass. */
  lemma SafeStep(s: Shape, n: nat)
    requires ShapeOk(s) && s.count < s.size && 0 < n
    ensures 0 < Min(n, Room(s))
    ensures SafeCall(s, n) <==>
            Min(n, Room(s)) <= Free(s) && SafeCall(AfterWrite(s, Min(n, Room(s))), n - Min(n, Room(s)))
  {
    if Wrapped(s) {
      assert DoublesTo(s.count, s.size) <==> DoublesTo(2 * s.count, s.size);
      assert 2 * s.count > s.size ==> !DoublesTo(2 * s.count, s.size);
      assert DoublesTo(s.size, s.size);
      hide DoublesTo;
    } else {
      assert DoublesTo(s.size, s.size);
      hide DoublesTo;
    }
  }

  /** An empty cache of four bytes after writing four, reading two, writing two and reading
      one, all of them safe. */
  lemma FourTwoTwoOne()
    ensures AfterRead(AfterWrite(AfterRead(AfterWrite(Shape(4, -1, -1, 0), 4), 2), 2), 1) == Shape(4, 3, 1, 3)
    ensures SafeCall(Shape(4, -1, -1, 0), 4) && SafeCall(AfterRead(AfterWrite(Shape(4, -1, -1, 0), 4), 2), 2)
  {
    hide DoublesTo;
  }

  /** In that state one byte is free, and every longer write runs over unread data. */
  lemma Overrun(n: nat)
    ensures ShapeOk(Shape(4, 3, 1, 3)) && Free(Shape(4, 3, 1, 3)) == 1
    ensures SafeCall(Shape(4, 3, 1, 3), n) <==> n <= 1
  {
    assert !DoublesTo(3, 4) by {
      assert !DoublesTo(6, 4);
    }
    hide DoublesTo;
  }

  // ---- whole calls ----

  /** The queue with `n` more bytes behind it. */
  function Appended(s: Shape, n: nat): (s': Shape)
    requires ShapeOk(s) && n <= Free(s)
    ensures ShapeOk(s') && s'.size == s.size && s'.count == s.count + n
  {
    if n == 0 then s
    else if s.count == 0 then Shape(s.size, 0, n - 1, n)
    else Shape(s.size, s.start, Cell(s.size, s.start, s.count + n - 1), s.count + n)
  }

  /** The queue without its oldest `n` bytes. */
  function Dropped(s: Shape, n: nat): (s': Shape)
    requires ShapeOk(s) && n <= s.count
    ensures ShapeOk(s') && s'.size == s.size && s'.count == s.count - n
  {
    if n == 0 then s
    else if n == s.count then Shape(s.size, -1, -1, 0)
    else Shape(s.size, Cell(s.size, s.start, n), s.end, s.count - n)
  }

  /** Reading pass by pass is dropping all that was read at once. */
  lemma DroppedTwice(s: Shape, m: nat, n: nat)
    requires ShapeOk(s) && 0 < s.count && 0 < n <= Readable(s) && n + m <= s.count
    ensures ShapeOk(AfterRead(s, n)) && AfterRead(s, n) == Dropped(s, n)
    ensures Dropped(AfterRead(s, n), m) == Dropped(s, n + m)
  {
  }

  lemma AppendedTwice(s: Shape, m: nat, n: nat)
    requires ShapeOk(s) && s.count < s.size && 0 < n <= Room(s) && n + m <= Free(s)
    ensures ShapeOk(AfterWrite(s, n)) && Appended(AfterWrite(s, n), m) == Appended(s, n + m)
  {
  }

  /** A non-blocking write of `n` bytes, pass by pass, up to the first that runs over unread
      data: from there on the count exceeds the size. */
  function Passes(s: Shape, n: nat): (s': Shape)
    requires s.count < s.size ==> ShapeOk(s)
    ensures s'.size == s.size && s.count <= s'.count <= s.count + n
    ensures ShapeOk(s) && s'.count <= s.size ==> ShapeOk(s')
    decreases n
  {
    if n == 0 || s.count >= s.size then s
    else
      HasRoom(s);
      var once := Min(n, Room(s));
      WriteFitsIff(s, once);
      Passes(AfterWrite(s, once), n - once)
  }

  predicate Exact(s: Shape, n: nat, s': Shape)
    requires ShapeOk(s)
  {
    if SafeCall(s, n) then s.count <= s.size && s' == Appended(s, Min(n, Free(s))) else s'.count > s.size
  }

  lemma ExactStep(s: Shape, n: nat, s': Shape)
    requires ShapeOk(s) && s.count < s.size && 0 < n
    ensures 0 < Room(s)
    ensures var s1 := AfterWrite(s, Min(n, Room(s)));
      if s1.count <= s.size then ShapeOk(s1) && (Exact(s1, n - Min(n, Room(s)), s') ==> Exact(s, n, s'))
      else !SafeCall(s, n)
  {
    HasRoom(s);
    SafeStep(s, n);
    var once := Min(n, Room(s));
    WriteFitsIff(s, once);
    if once <= Free(s) && SafeCall(s, n) {
      AppendedTwice(s, Min(n - once, Free(s) - once), once);
    }
    hide SafeCall, Room, ShapeOk, Appended, AfterWrite;
  }

  /** A safe call appends as much as fits, and every other call ends up beyond the size. */
  lemma {:induction false} PassesIff(s: Shape, n: nat)
    requires ShapeOk(s)
    ensures if SafeCall(s, n) then Passes(s, n) == Appended(s, Min(n, Free(s))) else Passes(s, n).count > s.size
    decreases n
  {
    hide SafeCall, Room;
    NothingLeftToDo(s, n);
    if n == 0 || s.count == s.size {
    } else {
      hide Appended, ShapeOk, AfterWrite;
      ExactStep(s, n, Passes(s, n));
      var once := Min(n, Room(s));
      if AfterWrite(s, once).count <= s.size {
        PassesIff(AfterWrite(s, once), n - once);
      }
    }
  }

  /** How a call on a blocking pipe stands: the queue, the bytes moved so far, how often the other
      end has come in, and whether it faulted or ran over unread data. */
  datatype Progress = Progress(s: Shape, moved: nat, used: nat, ok: bool, overrun: bool)

  /** The pass behind the first `done` of `len` bytes meets one that cannot be read, and `overrun`
      tells whether what it copied before went over unread data. */
  predicate Faulted(s: Shape, len: nat, readable: nat, done: nat, overrun: bool) {
    && s.count < s.size && done <= len && readable < len && readable < done + Room(s)
    && (overrun <==> readable > done + Free(s))
  }

  /** One round of a write of `len` bytes, of which `readable` can be read. */
  function Round(s: Shape, len: nat, readable: nat, done: nat, used: nat): (p: Progress)
    requires ShapeOk(s) && done < len
    ensures p.s.size == s.size && p.used == used && done <= p.moved <= len && p.s.count == s.count + (p.moved - done)
    ensures p.ok ==> p.s.count > 0 && (p.overrun <==> p.s.count > s.size) && (p.moved == done ==> s.count == s.size)
    ensures !p.overrun ==> ShapeOk(p.s)
    ensures p.overrun ==> len - done > Free(s)
    ensures !p.ok ==> p.s == s && p.moved == done && Faulted(s, len, readable, done, p.overrun)
  {
    if s.count == s.size then Progress(s, done, used, true, false)
    else
      HasRoom(s);
      var once, can := Min(len - done, Room(s)), if readable > done then readable - done else 0;
      WriteFitsIff(s, once);
      if can < once then Progress(s, done, used, false, can > Free(s))
      else Progress(AfterWrite(s, once), done + once, used, true, once > Free(s))
  }

  /** A blocking write: round after round, the other end taking bytes after each as long as it
      does. It gives up only in front of a full cache that nobody reads. */
  function WriteRun(s: Shape, len: nat, readable: nat, takes: seq<nat>, done: nat, used: nat): (p: Progress)
    requires ShapeOk(s) && done <= len && used <= |takes|
    decreases |takes| - used, len - done
  {
    if done == len then Progress(s, done, used, true, false)
    else
      var p := Round(s, len, readable, done, used);
      if !p.ok || p.overrun || p.moved == len then p
      else if used < |takes| then
        WriteRun(Dropped(p.s, Min(takes[used], p.s.count)), len, readable, takes, p.moved, used + 1)
      else if p.s.count == s.size then p
      else WriteRun(p.s, len, readable, takes, p.moved, used)
  }

  /** One round of a read of `want` bytes into a buffer that takes `writable`. */
  function Fetch(s: Shape, want: nat, writable: nat, done: nat, used: nat): (p: Progress)
    requires ShapeOk(s) && done < want
    ensures ShapeOk(p.s) && p.s.size == s.size && p.used == used && done <= p.moved <= want
    ensures p.s.count == s.count - (p.moved - done) && (p.ok && p.moved == done ==> s.count == 0)
    ensures !p.ok ==> p.s == s && p.moved == done && writable < want && writable < done + Readable(s)
    ensures !p.overrun
  {
    if s.count == 0 then Progress(s, done, used, true, false)
    else
      HasData(s);
      var once := Min(want - done, Readable(s));
      ReadKeepsShape(s, once);
      if writable < done + once then Progress(s, done, used, false, false)
      else Progress(AfterRead(s, once), done + once, used, true, false)
  }

  /** A blocking read: round after round, the other end writing after each as long as it does. It
      gives up only in front of an empty cache that nobody writes. */
  function ReadRun(s: Shape, want: nat, writable: nat, gives: List, done: nat, used: nat): (p: Progress)
    requires ShapeOk(s) && done <= want && used <= |gives|
    decreases |gives| - used, want - done
  {
    if done == want then Progress(s, done, used, true, false)
    else
      var p := Fetch(s, want, writable, done, used);
      if !p.ok || p.moved == want then p
      else if used < |gives| then
        var s' := Passes(p.s, |gives[used]|);
        if s'.count > s.size then p.(s := s', overrun := true)
        else ReadRun(s', want, writable, gives, p.moved, used + 1)
      else if p.s.count == 0 then p
      else ReadRun(p.s, want, writable, gives, p.moved, used)
  }

  /** What gets in of the bytes the other end writes during a blocking read. */
  function Given(s: Shape, want: nat, writable: nat, gives: List, done: nat, used: nat): seq<byte>
    requires ShapeOk(s) && done <= want && used <= |gives|
    decreases |gives| - used, want - done
  {
    if done == want then []
    else
      var p := Fetch(s, want, writable, done, used);
      if !p.ok || p.moved == want then []
      else if used < |gives| then
        var s' := Passes(p.s, |gives[used]|);
        gives[used][..s'.count - p.s.count]
        + if s'.count > s.size then [] else Given(s', want, writable, gives, p.moved, used + 1)
      else if p.s.count == 0 then []
      else Given(p.s, want, writable, gives, p.moved, used)
  }

  lemma FullIsRound(s: Shape, len: nat, readable: nat, done: nat)
    requires ShapeOk(s) && done < len
    ensures 0 < s.size && s.count <= s.size
    ensures s.count == s.size ==> Round(s, len, readable, done, 0) == Progress(s, done, 0, true, false)
  {
  }

  lemma PassIsRound(s: Shape, len: nat, readable: nat, done: nat, p: Progress)
    requires ShapeOk(s) && s.count < s.size && done < len && 0 < Room(s) && p.used == 0
    requires var once, can := Min(len - done, Room(s)), if readable > done then readable - done else 0;
      && (p.ok <==> can >= once) && (p.overrun <==> Min(can, once) > Free(s))
      && p.moved == done + (if p.ok then once else 0) && p.s == if p.ok then AfterWrite(s, once) else s
    ensures Round(s, len, readable, done, 0) == p
    ensures done <= p.moved <= len && (p.ok ==> p.moved > done)
  {
    hide Room, AfterWrite;
  }

  /** The rounds of a non-blocking write are its passes. */
  lemma RoundPasses(s: Shape, len: nat, readable: nat, done: nat)
    requires ShapeOk(s) && s.count < s.size && done < len
    ensures var p := Round(s, len, readable, done, 0);
      && (p.ok ==> Passes(s, len - done) == Passes(p.s, len - p.moved))
      && (p.overrun ==> Passes(s, len - done).count > s.size)
  {
    HasRoom(s);
    WriteFitsIff(s, Min(len - done, Room(s)));
  }

  lemma StillPrefix(d: seq<byte>, w: seq<byte>, x: seq<byte>)
    requires d <= w
    ensures d <= w + x
  {
  }

  lemma SamePrefix(d: seq<byte>, a: seq<byte>, b: seq<byte>, x: seq<byte>)
    requires d + a + x == d + b
    ensures a + x == b
  {
    assert b == (d + b)[|d|..] == (d + a + x)[|d|..] == a + x;
  }

  lemma PassesEnd(s: Shape, n: nat)
    requires (s.count < s.size ==> ShapeOk(s)) && (n == 0 || s.count >= s.size)
    ensures Passes(s, n) == s
  {
  }

  /** The cache in the course of a call, as far as a specification sees it. */
  datatype Snap = Snap(s: Shape, written: seq<byte>, delivered: seq<byte>, moved: nat, used: nat)

  /** From `a` to `b` a blocking write of `data` has gone on, and if `go` goes on from there. */
  ghost predicate WriteSpans(data: seq<byte>, readable: nat, takes: seq<nat>, a: Snap, b: Snap,
                             go: bool, ok: bool, overrun: bool) {
    && ShapeOk(a.s) && a.moved <= b.moved <= |data| && a.used <= b.used <= |takes|
    && (go ==> ShapeOk(b.s) && b.moved < |data| && ok && !overrun)
    && WriteRun(a.s, |data|, readable, takes, a.moved, a.used)
       == (if go then WriteRun(b.s, |data|, readable, takes, b.moved, b.used)
           else Progress(b.s, b.moved, b.used, ok, overrun))
    && b.written == a.written + data[a.moved..b.moved] && a.delivered <= b.delivered <= b.written
    && b.s.count == a.s.count + (b.moved - a.moved) - (|b.delivered| - |a.delivered|)
    && ((forall t :: t in takes ==> t > 0) ==> |b.delivered| - |a.delivered| >= b.used - a.used)
  }

  lemma WriteSpansTwice(data: seq<byte>, readable: nat, takes: seq<nat>, a: Snap, b: Snap, c: Snap,
                        go: bool, ok: bool, overrun: bool)
    requires WriteSpans(data, readable, takes, a, b, true, true, false)
    requires WriteSpans(data, readable, takes, b, c, go, ok, overrun)
    ensures WriteSpans(data, readable, takes, a, c, go, ok, overrun)
  {
    hide WriteRun, ShapeOk;
    var x, y := data[a.moved..b.moved], data[b.moved..c.moved];
    assert data[a.moved..c.moved] == x + y;
    AddAssoc(a.written, x, y);
  }

  /** The same for a blocking read, in which `data` comes out and `given` gets in. */
  ghost predicate ReadSpans(want: nat, writable: nat, gives: List, a: Snap, b: Snap,
                            data: seq<byte>, given: seq<byte>, go: bool, ok: bool, overrun: bool) {
    && ShapeOk(a.s) && a.moved <= want && a.used <= |gives|
    && b.moved == a.moved + |data| <= want && a.used <= b.used <= |gives|
    && (go ==> ShapeOk(b.s) && b.moved < want && ok && !overrun)
    && ReadRun(a.s, want, writable, gives, a.moved, a.used)
       == (if go then ReadRun(b.s, want, writable, gives, b.moved, b.used)
           else Progress(b.s, b.moved, b.used, ok, overrun))
    && Given(a.s, want, writable, gives, a.moved, a.used)
       == given + (if go then Given(b.s, want, writable, gives, b.moved, b.used) else [])
    && b.delivered == a.delivered + data && b.written == a.written + given && b.delivered <= b.written
  }

  lemma ReadSpansTwice(want: nat, writable: nat, gives: List, a: Snap, b: Snap, c: Snap, x: seq<byte>, y: seq<byte>,
                       g: seq<byte>, h: seq<byte>, go: bool, ok: bool, overrun: bool)
    requires ReadSpans(want, writable, gives, a, b, x, g, true, true, false)
    requires ReadSpans(want, writable, gives, b, c, y, h, go, ok, overrun)
    ensures ReadSpans(want, writable, gives, a, c, x + y, g + h, go, ok, overrun)
  {
    hide ReadRun, Given, ShapeOk;
    AddAssoc(a.delivered, x, y);
    AddAssoc(a.written, g, h);
    AddAssoc(g, h, if go then Given(c.s, want, writable, gives, c.moved, c.used) else []);
  }

  lemma WriteSpansStart(data: seq<byte>, readable: nat, takes: seq<nat>, a: Snap)
    requires ShapeOk(a.s) && a.delivered <= a.written && a.moved == a.used == 0
    ensures WriteSpans(data, readable, takes, a, a, |data| > 0, true, false)
  {
    hide ShapeOk;
    assert a.written + data[0..0] == a.written;
  }

  /** A round of a write from `a` to `b`. */
  ghost predicate Wrote(data: seq<byte>, readable: nat, a: Snap, b: Snap, ok: bool, overrun: bool) {
    && ShapeOk(a.s) && a.moved < |data| && b.used == a.used
    && Round(a.s, |data|, readable, a.moved, 0) == Progress(b.s, b.moved, 0, ok, overrun)
    && b.written == a.written + data[a.moved..b.moved] && b.delivered == a.delivered && b.delivered <= b.written
  }

  lemma WroteSpans(data: seq<byte>, readable: nat, takes: seq<nat>, a: Snap, b: Snap, ok: bool, overrun: bool)
    requires Wrote(data, readable, a, b, ok, overrun) && a.used <= |takes|
    requires !ok || overrun || b.moved == |data| || a.used == |takes|
    ensures WriteSpans(data, readable, takes, a, b, ok && !overrun && b.moved < |data| && b.s.count != b.s.size,
                       ok, overrun)
  {
    hide ShapeOk, Round, WriteRun, Dropped;
    WriteRunStep(a.s, |data|, readable, takes, a.moved, a.used);
  }

  lemma TakenSpans(data: seq<byte>, readable: nat, takes: seq<nat>, a: Snap, b: Snap, c: Snap)
    requires Wrote(data, readable, a, b, true, false) && b.moved < |data| && a.used < |takes| && ShapeOk(b.s)
    requires c.s == Dropped(b.s, Min(takes[a.used], b.s.count)) && c.moved == b.moved && c.used == b.used + 1
    requires c.written == b.written && b.delivered <= c.delivered <= c.written
    requires |c.delivered| == |b.delivered| + Min(takes[a.used], b.s.count)
    ensures WriteSpans(data, readable, takes, a, c, true, true, false)
  {
    hide ShapeOk, Round, WriteRun, Dropped;
    WriteRunStep(a.s, |data|, readable, takes, a.moved, a.used);
    assert takes[a.used] in takes;
  }

  lemma WriteSpansBound(data: seq<byte>, readable: nat, takes: seq<nat>, a: Snap, b: Snap,
                        go: bool, ok: bool, overrun: bool)
    requires WriteSpans(data, readable, takes, a, b, go, ok, overrun)
    ensures b.moved <= |data| && b.used <= |takes| && (go ==> b.moved < |data| && ok && !overrun)
  {
    hide ShapeOk, WriteRun;
  }

  /** What holds when a blocking write of `data` from `a` to `b` is over. */
  ghost predicate WriteOver(data: seq<byte>, readable: nat, takes: seq<nat>, a: Snap, b: Snap,
                            ok: bool, overrun: bool) {
    && ShapeOk(a.s) && b.moved <= |data| && b.used <= |takes|
    && WriteRun(a.s, |data|, readable, takes, 0, 0) == Progress(b.s, b.moved, b.used, ok, overrun)
    && b.written == a.written + data[..b.moved] && a.delivered <= b.delivered <= b.written
    && b.s.count == a.s.count + b.moved - (|b.delivered| - |a.delivered|)
    && (readable >= |data| ==> ok) && (!ok ==> Faulted(b.s, |data|, readable, b.moved, overrun))
    && (ok ==> (overrun <==> b.s.count > b.s.size))
    && (ok && !overrun && b.moved < |data| ==> b.s.count == b.s.size && b.used == |takes|)
    && (|data| <= Free(a.s) ==> !overrun && (ok ==> b.moved == |data|))
    && ((forall t :: t in takes ==> t > 0) ==> |b.delivered| >= |a.delivered| + b.used)
  }

  lemma WriteSpansAll(data: seq<byte>, readable: nat, takes: seq<nat>, a: Snap, b: Snap, ok: bool, overrun: bool)
    requires WriteSpans(data, readable, takes, a, b, false, ok, overrun) && a.moved == a.used == 0
    ensures WriteOver(data, readable, takes, a, b, ok, overrun)
  {
    hide ShapeOk, WriteRun, Room;
    WriteRunEnds(a.s, |data|, readable, takes, 0, 0);
    assert data[0..b.moved] == data[..b.moved];
  }

  /** A round of a read from `a` to `b` that brings out `data`. */
  ghost predicate Fetched(want: nat, writable: nat, a: Snap, b: Snap, data: seq<byte>, ok: bool) {
    && ShapeOk(a.s) && a.moved < want && b.used == a.used && b.moved == a.moved + |data|
    && Fetch(a.s, want, writable, a.moved, 0) == Progress(b.s, b.moved, 0, ok, false)
    && b.delivered == a.delivered + data && b.written == a.written && b.delivered <= b.written
  }

  lemma FetchedSpans(want: nat, writable: nat, gives: List, a: Snap, b: Snap, data: seq<byte>, ok: bool)
    requires Fetched(want, writable, a, b, data, ok) && a.used <= |gives|
    requires !ok || b.moved == want || a.used == |gives|
    ensures ReadSpans(want, writable, gives, a, b, data, [], ok && b.moved < want && b.s.count != 0, ok, false)
  {
    hide ShapeOk, Fetch, ReadRun, Given, Passes;
    ReadRunStep(a.s, want, writable, gives, a.moved, a.used);
    assert a.written + [] == a.written;
  }

  lemma GivenSpans(want: nat, writable: nat, gives: List, a: Snap, b: Snap, c: Snap, data: seq<byte>, piece: seq<byte>)
    requires Fetched(want, writable, a, b, data, true) && b.moved < want && a.used < |gives| && ShapeOk(b.s)
    requires c.s == Passes(b.s, |gives[a.used]|) && piece == gives[a.used][..c.s.count - b.s.count]
    requires c.moved == b.moved && c.used == if c.s.count > c.s.size then b.used else b.used + 1
    requires c.delivered == b.delivered && c.written == b.written + piece
    ensures ReadSpans(want, writable, gives, a, c, data, piece, c.s.count <= c.s.size, true, c.s.count > c.s.size)
  {
    hide ShapeOk, Fetch, ReadRun, Given, Passes;
    ReadRunStep(a.s, want, writable, gives, a.moved, a.used);
    assert piece + [] == piece;
  }

  lemma ReadSpansStart(want: nat, writable: nat, gives: List, a: Snap)
    requires ShapeOk(a.s) && a.delivered <= a.written && a.moved == a.used == 0
    ensures ReadSpans(want, writable, gives, a, a, [], [], want > 0, true, false)
  {
    hide ShapeOk, Fetch;
    assert [] + Given(a.s, want, writable, gives, 0, 0) == Given(a.s, want, writable, gives, 0, 0);
  }

  lemma ReadSpansBound(want: nat, writable: nat, gives: List, a: Snap, b: Snap, data: seq<byte>, given: seq<byte>,
                       go: bool, ok: bool, overrun: bool)
    requires ReadSpans(want, writable, gives, a, b, data, given, go, ok, overrun)
    ensures a.used <= b.used <= |gives| && b.moved == a.moved + |data| <= want
    ensures go ==> b.moved < want && ok && !overrun
  {
    hide ShapeOk, ReadRun, Given;
  }

  /** What holds when a blocking read from `a` to `b` that brought out `data` is over. */
  ghost predicate ReadOver(want: nat, writable: nat, gives: List, a: Snap, b: Snap, data: seq<byte>,
                           ok: bool, overrun: bool) {
    && ShapeOk(a.s) && |data| <= want && b.used <= |gives|
    && ReadRun(a.s, want, writable, gives, 0, 0) == Progress(b.s, |data|, b.used, ok, overrun)
    && b.delivered == a.delivered + data && b.delivered <= b.written
    && b.written == a.written + Given(a.s, want, writable, gives, 0, 0)
    && (writable >= want ==> ok) && (!ok ==> writable < |data| + Readable(b.s))
    && (ok && !overrun && |data| < want ==> b.s.count == 0 && b.used == |gives|)
    && (overrun ==> ok && b.used < |gives| && b.s.count > b.s.size)
    && (|Flat(gives)| <= Free(a.s) ==> !overrun && b.written == a.written + Flat(gives[..b.used]))
  }

  lemma ReadSpansAll(want: nat, writable: nat, gives: List, a: Snap, b: Snap, data: seq<byte>, given: seq<byte>,
                     ok: bool, overrun: bool)
    requires ReadSpans(want, writable, gives, a, b, data, given, false, ok, overrun) && a.moved == a.used == 0
    ensures ReadOver(want, writable, gives, a, b, data, ok, overrun)
  {
    hide ShapeOk, ReadRun, Given, Flat, Readable;
    assert given + [] == given;
    ReadRunEnds(a.s, want, writable, gives, 0, 0);
    WholeList(gives);
    if |Flat(gives)| <= Free(a.s) {
      GivenWhole(a.s, want, writable, gives, 0, 0);
    }
  }

  lemma WholeList(list: List)
    ensures list[0..] == list && forall j :: 0 <= j <= |list| ==> list[0..j] == list[..j]
  {
  }

  lemma DropNothing(s: Shape)
    requires ShapeOk(s)
    ensures Dropped(s, 0) == s
  {
  }

  lemma DropMore(s: Shape, m: nat, n: nat)
    requires ShapeOk(s) && m + n <= s.count
    ensures Dropped(Dropped(s, m), n) == Dropped(s, m + n)
  {
  }

  lemma WriteRunStep(s: Shape, len: nat, readable: nat, takes: seq<nat>, done: nat, used: nat)
    requires ShapeOk(s) && done < len && used <= |takes|
    ensures var p := Round(s, len, readable, done, 0);
      var all := WriteRun(s, len, readable, takes, done, used);
      if !p.ok || p.overrun || p.moved == len || (used == |takes| && p.s.count == s.size) then all == p.(used := used)
      else if used == |takes| then all == WriteRun(p.s, len, readable, takes, p.moved, used)
      else all == WriteRun(Dropped(p.s, Min(takes[used], p.s.count)), len, readable, takes, p.moved, used + 1)
  {
    assert Round(s, len, readable, done, used) == Round(s, len, readable, done, 0).(used := used);
    hide Round, ShapeOk, Dropped;
  }

  lemma WriteRunDone(s: Shape, len: nat, readable: nat, takes: seq<nat>, used: nat)
    requires ShapeOk(s) && used <= |takes|
    ensures WriteRun(s, len, readable, takes, len, used) == Progress(s, len, used, true, false)
  {
  }

  lemma ReadRunStep(s: Shape, want: nat, writable: nat, gives: List, done: nat, used: nat)
    requires ShapeOk(s) && done < want && used <= |gives|
    ensures var p := Fetch(s, want, writable, done, 0);
      var all, given := ReadRun(s, want, writable, gives, done, used), Given(s, want, writable, gives, done, used);
      if !p.ok || p.moved == want || (used == |gives| && p.s.count == 0) then all == p.(used := used) && given == []
      else if used == |gives| then
        && all == ReadRun(p.s, want, writable, gives, p.moved, used)
        && given == Given(p.s, want, writable, gives, p.moved, used)
      else
        var s' := Passes(p.s, |gives[used]|);
        var piece := gives[used][..s'.count - p.s.count];
        if s'.count > s.size then all == p.(s := s', used := used, overrun := true) && given == piece
        else all == ReadRun(s', want, writable, gives, p.moved, used + 1)
             && given == piece + Given(s', want, writable, gives, p.moved, used + 1)
  {
    assert Fetch(s, want, writable, done, used) == Fetch(s, want, writable, done, 0).(used := used);
    hide Fetch, ShapeOk, Passes;
  }

  lemma ReadRunDone(s: Shape, want: nat, writable: nat, gives: List, used: nat)
    requires ShapeOk(s) && used <= |gives|
    ensures ReadRun(s, want, writable, gives, want, used) == Progress(s, want, used, true, false)
    ensures Given(s, want, writable, gives, want, used) == []
  {
  }

  /** What a blocking write comes to. Only with more to write than was free can it run over
      unread data, and then the count shows it; it fails only when the data cannot be read; and it
      stops short only in front of a full cache that nobody reads any more. */
  lemma {:induction false} WriteRunEnds(s: Shape, len: nat, readable: nat, takes: seq<nat>, done: nat, used: nat)
    requires ShapeOk(s) && done <= len && used <= |takes|
    ensures var p := WriteRun(s, len, readable, takes, done, used);
      && p.s.size == s.size && done <= p.moved <= len && used <= p.used <= |takes|
      && (!p.ok ==> Faulted(p.s, len, readable, p.moved, p.overrun))
      && (p.ok ==> (p.overrun <==> p.s.count > s.size)) && (!p.overrun ==> ShapeOk(p.s))
      && (p.ok && !p.overrun && p.moved < len ==> p.s.count == s.size && p.used == |takes|)
      && (len - done <= Free(s) ==> !p.overrun && (p.ok ==> p.moved == len))
    decreases |takes| - used, len - done
  {
    hide ShapeOk, Round, Dropped;
    if done == len {
      NothingLeftToDo(s, 0);
    } else {
      var p := Round(s, len, readable, done, used);
      if !p.ok || p.overrun || p.moved == len {
        NothingLeftToDo(s, 0);
      } else if used < |takes| {
        WriteRunEnds(Dropped(p.s, Min(takes[used], p.s.count)), len, readable, takes, p.moved, used + 1);
      } else if p.s.count == s.size {
      } else {
        NothingLeftToDo(p.s, 0);
        WriteRunEnds(p.s, len, readable, takes, p.moved, used);
      }
    }
  }

  /** A blocking write that neither faults nor runs over unread data is finished once the other
      end has come in as often as there are bytes to write and taken something each time. */
  lemma {:induction false} WriteCompletes(s: Shape, len: nat, readable: nat, takes: seq<nat>, done: nat, used: nat)
    requires ShapeOk(s) && done <= len && used <= |takes| && forall i :: used <= i < |takes| ==> takes[i] > 0
    requires |takes| - used + (if s.count < s.size then 1 else 0) >= len - done
    ensures var p := WriteRun(s, len, readable, takes, done, used);
      p.ok && !p.overrun ==> p.moved == len
    decreases |takes| - used, len - done
  {
    hide ShapeOk, Round, Dropped;
    if done == len {
    } else {
      var p := Round(s, len, readable, done, used);
      if !p.ok || p.overrun || p.moved == len {
      } else if used < |takes| {
        WriteCompletes(Dropped(p.s, Min(takes[used], p.s.count)), len, readable, takes, p.moved, used + 1);
      }
    }
  }

  /** What a blocking read comes to. */
  lemma {:induction false} ReadRunEnds(s: Shape, want: nat, writable: nat, gives: List, done: nat, used: nat)
    requires ShapeOk(s) && done <= want && used <= |gives|
    ensures var p := ReadRun(s, want, writable, gives, done, used);
      && p.s.size == s.size && done <= p.moved <= want && used <= p.used <= |gives|
      && (!p.ok ==> writable < want && writable < p.moved + Readable(p.s)) && (!p.overrun ==> ShapeOk(p.s))
      && (p.overrun ==> p.ok && p.used < |gives| && p.s.count > s.size)
      && (p.ok && !p.overrun && p.moved < want ==> p.s.count == 0 && p.used == |gives|)
    decreases |gives| - used, want - done
  {
    hide ShapeOk, Fetch, Passes;
    if done == want {
    } else {
      var p := Fetch(s, want, writable, done, used);
      if !p.ok || p.moved == want {
      } else if used < |gives| {
        NothingLeftToDo(p.s, 0);
        var s' := Passes(p.s, |gives[used]|);
        if s'.count <= s.size {
          ReadRunEnds(s', want, writable, gives, p.moved, used + 1);
        }
      } else if p.s.count == 0 {
      } else {
        ReadRunEnds(p.s, want, writable, gives, p.moved, used);
      }
    }
  }

  /** When all that the other end writes would fit at the start, all of it gets in. */
  lemma {:induction false} GivenWhole(s: Shape, want: nat, writable: nat, gives: List, done: nat, used: nat)
    requires ShapeOk(s) && done <= want && used <= |gives| && |Flat(gives[used..])| <= Free(s)
    ensures var p := ReadRun(s, want, writable, gives, done, used);
      && used <= p.used <= |gives| && !p.overrun
      && Given(s, want, writable, gives, done, used) == Flat(gives[used..p.used])
    decreases |gives| - used, want - done
  {
    hide ShapeOk, Fetch, Passes, SafeCall;
    ReadRunEnds(s, want, writable, gives, done, used);
    assert Flat(gives[used..used]) == [];
    if done == want {
    } else {
      var p := Fetch(s, want, writable, done, used);
      if !p.ok || p.moved == want {
      } else if used < |gives| {
        FlatFrom(gives, used, |gives|);
        WholePasses(p.s, |gives[used]|);
        var s' := Passes(p.s, |gives[used]|);
        GivenWhole(s', want, writable, gives, p.moved, used + 1);
        FlatFrom(gives, used, ReadRun(s', want, writable, gives, p.moved, used + 1).used);
        assert gives[used][..|gives[used]|] == gives[used];
      } else if p.s.count == 0 {
      } else {
        GivenWhole(p.s, want, writable, gives, p.moved, used);
      }
    }
  }

  lemma FlatFrom(list: List, i: nat, j: nat)
    requires i < j <= |list|
    ensures Flat(list[i..j]) == list[i] + Flat(list[i + 1..j])
    ensures j == |list| ==> list[i..j] == list[i..] && list[i + 1..j] == list[i + 1..]
  {
    assert list[i..j][1..] == list[i + 1..j];
  }

  lemma WholePasses(s: Shape, n: nat)
    requires ShapeOk(s) && n <= Free(s)
    ensures Passes(s, n).count == s.count + n <= s.size
  {
    NothingLeftToDo(s, n);
    PassesIff(s, n);
  }

  /** A blocking read that neither faults nor meets an overrun is finished once the other end has
      come in as often as there are bytes to read and written something each time. */
  lemma {:induction false} ReadCompletes(s: Shape, want: nat, writable: nat, gives: List, done: nat, used: nat)
    requires ShapeOk(s) && done <= want && used <= |gives| && forall i :: used <= i < |gives| ==> gives[i] != []
    requires |gives| - used + (if s.count > 0 then 1 else 0) >= want - done
    ensures var p := ReadRun(s, want, writable, gives, done, used);
      p.ok && !p.overrun ==> p.moved == want
    decreases |gives| - used, want - done
  {
    hide ShapeOk, Fetch, Passes;
    if done == want {
    } else {
      var p := Fetch(s, want, writable, done, used);
      if !p.ok || p.moved == want {
      } else if used < |gives| {
        NothingLeftToDo(p.s, 0);
        SomethingPassed(p.s, |gives[used]|);
        var s' := Passes(p.s, |gives[used]|);
        if s'.count <= s.size {
          ReadCompletes(s', want, writable, gives, p.moved, used + 1);
        }
      }
    }
  }

  lemma SomethingPassed(s: Shape, n: nat)
    requires ShapeOk(s) && 0 < n
    ensures Passes(s, n).count > 0
  {
    if s.count < s.size {
      HasRoom(s);
    }
  }

  // ---- the cache ----

  class CyclicCache {
    const size: nat
    const memory: array<byte>   // the cache, then as much again of whatever lies behind it
    var start: int
    var end: int
    var count: nat
    ghost var written: seq<byte>
    ghost var delivered: seq<byte>

    ghost function Positions(): Shape
      reads this
    {
      Shape(size, start, end, count)
    }

    ghost function Snapshot(moved: nat, used: nat): Snap
      reads this
    {
      Snap(Positions(), written, delivered, moved, used)
    }

    ghost predicate Formed()
      reads this
    {
      memory.Length == 2 * size && ShapeOk(Positions())
    }

    ghost function Contents(): seq<byte>
      reads this, memory
      requires Formed()
    {
      Queue(memory[..], Positions())
    }

    /** Every byte written and not lost is either delivered, in order, or still queued. */
    ghost predicate Valid()
      reads this, memory
    {
      Formed() && written == delivered + Contents()
    }

    lemma InOrder()
      requires Valid()
      ensures delivered <= written && ShapeOk(Positions())
    {
    }

    constructor (n: nat)
      requires n > 0
      ensures Valid() && fresh(memory) && size == n && count == 0 && written == []
    {
      size := n;
      memory := new byte[2 * n](_ => 0);
      start, end, count := -1, -1, 0;
      written, delivered := [], [];
    }

    /** write_once_cache. `readable` bytes of the caller's data can be read. The pass fails to
        keep the queue exactly when it copies more than is free, and then the oldest unread
        byte has been replaced. */
    method WriteOnce(data: seq<byte>, readable: nat) returns (ok: bool, n: nat, overrun: bool)
      requires Valid() && count < size && 0 < |data|
      modifies this, memory
      ensures ok <==> readable >= Min(|data|, Room(old(Positions())))
      ensures n == if ok then Min(|data|, Room(old(Positions()))) else 0
      ensures Positions() == if ok then AfterWrite(old(Positions()), n) else old(Positions())
      ensures overrun <==> Min(readable, Min(|data|, Room(old(Positions())))) > Free(old(Positions()))
      ensures overrun ==> memory[old(start)] == data[Free(old(Positions()))]
      ensures ok ==> (overrun <==> count > size)
      ensures !overrun ==> Valid() && Contents() == old(Contents()) + data[..n]
      ensures delivered == old(delivered) && written == old(written) + data[..n]
    {
      hide Queue, Put, Get, ShapeOk, Room, WriteAt, AfterWrite;
      var s := Shape(size, start, end, count);
      HasRoom(s);
      var once := Min(|data|, Room(s));
      var copied := Min(readable, once);
      overrun := copied > Free(s);
      WriteFitsIff(s, once);
      ghost var before := memory[..];
      var at := WriteAt(s);
      Copied(s, before, data[..copied]);
      Copy(memory, at, data[..copied]);
      assert memory[..] == Patched(before, at, data[..copied]);
      ok, n := readable >= once, 0;
      if ok {
        n := once;
        var s' := AfterWrite(s, once);
        start, end, count := s'.start, s'.end, s'.count;
        written := written + data[..n];
      }
    }

    /** The locked part of one round of write_cache: a pass unless the cache is full. `n` bytes
        have been written before it and `n'` after it. */
    method WriteRound(data: seq<byte>, n: nat, readable: nat, ghost used: nat)
      returns (ok: bool, n': nat, overrun: bool)
      requires Valid() && n < |data|
      modifies this, memory
      ensures Wrote(data, readable, old(Snapshot(n, used)), Snapshot(n', used), ok, overrun)
      ensures n <= n' <= |data| && (ok && n' == n ==> count == size)
      ensures !overrun ==> Valid()
    {
      InOrder();
      hide Valid, Room, AfterWrite, ShapeOk, Queue, Contents, SafeCall, Round;
      ghost var s := Positions();
      FullIsRound(s, |data|, readable, n);
      ok, n', overrun := true, n, false;
      if count != size {
        HasRoom(s);
        var m;
        ok, m, overrun := WriteOnce(data[n..], if readable > n then readable - n else 0);
        PassIsRound(s, |data|, readable, n, Progress(Positions(), n + m, 0, ok, overrun));
        assert data[n..][..m] == data[n..n + m];
        n' := n + m;
      } else {
        assert written + data[n..n] == written;
      }
      StillPrefix(delivered, old(written), data[n..n']);
    }

    /** write_cache on a non-blocking pipe: pass after pass until all is written or the cache is
        full. Modelled up to the first pass that runs over unread data, if there is one. `done`
        bytes get in, also when a later one cannot be read. */
    method WriteCache(data: seq<byte>, readable: nat) returns (ok: bool, n: nat, overrun: bool, ghost done: nat)
      requires Valid()
      modifies this, memory
      ensures readable >= |data| ==> ok && (overrun <==> !SafeCall(old(Positions()), |data|))
      ensures overrun ==> !SafeCall(old(Positions()), |data|)
      ensures ok ==> Positions() == Passes(old(Positions()), |data|) && (overrun <==> count > size)
      ensures ok && !overrun ==> n == Min(|data|, Free(old(Positions())))
      ensures n == if ok then done else 0
      ensures !ok ==> Faulted(Positions(), |data|, readable, done, overrun)
      ensures delivered == old(delivered) && (!overrun ==> Valid() && Contents() == old(Contents()) + data[..done])
      ensures done <= |data| && written == old(written) + data[..done] && count == old(count) + done
    {
      hide SafeCall, Round, ShapeOk, Passes, Contents;
      ghost var s0 := Positions();
      PassesIff(s0, |data|);
      n, ok, overrun, done := 0, true, false, 0;
      assert written + data[..0] == written;
      NothingLeftToDo(s0, |data|);
      while n < |data| && count != size && !overrun
        invariant 0 <= n == done <= |data| && ok
        invariant delivered == old(delivered) && written == old(written) + data[..n]
        invariant !overrun ==> Valid()
        invariant count == s0.count + n && (overrun <==> count > size)
        invariant Passes(s0, |data|) == Passes(Positions(), |data| - n)
        decreases |data| - n, !overrun
      {
        var m;
        RoundPasses(Positions(), |data|, readable, n);
        ok, m, overrun := WriteRound(data, n, readable, 0);
        if !ok {
          assert data[n..m] == [];
          if !overrun {
            SamePrefix(delivered, old(Contents()), Contents(), data[..n]);
          }
          return false, 0, overrun, n;
        }
        assert data[..n] + data[n..m] == data[..m];
        AddAssoc(old(written), data[..n], data[n..m]);
        n, done := m, m;
      }
      PassesEnd(Positions(), |data| - n);
      if !overrun {
        SamePrefix(delivered, old(Contents()), Contents(), data[..n]);
      }
    }

    /** read_once_cache. The reader's buffer takes `writable` bytes. */
    method ReadOnce(want: nat, writable: nat) returns (ok: bool, data: seq<byte>)
      requires Valid() && 0 < count && 0 < want
      modifies this
      ensures ok <==> writable >= Min(want, Readable(old(Positions())))
      ensures |data| == if ok then Min(want, Readable(old(Positions()))) else 0
      ensures Positions() == if ok then AfterRead(old(Positions()), |data|) else old(Positions())
      ensures Positions() == Dropped(old(Positions()), |data|)
      ensures count == old(count) - |data| && (ok ==> 0 < |data| <= want)
      ensures Valid() && old(Contents()) == data + Contents()
      ensures written == old(written) && delivered == old(delivered) + data
    {
      hide Queue, ShapeOk, Readable, AfterRead, Get, Dropped;
      var s := Shape(size, start, end, count);
      HasData(s);
      assert Contents() == [] + Contents();
      var once := Min(want, Readable(s));
      DropNothing(s);
      if writable < once {
        return false, [];
      }
      DroppedTwice(s, 0, once);
      Taken(s, memory[..], once);
      data := memory[start..start + once];
      assert data == memory[..][start..start + once];
      var s' := AfterRead(s, once);
      start, end, count := s'.start, s'.end, s'.count;
      ok := true;
      assert old(delivered) + (data + Contents()) == (old(delivered) + data) + Contents();
      delivered := delivered + data;
    }

    /** read_cache on a non-blocking pipe: the oldest bytes, in order, as many as there are. A
        fault ends it after the passes that worked. */
    method ReadCache(want: nat, writable: nat) returns (ok: bool, data: seq<byte>)
      requires Valid()
      modifies this
      ensures writable >= want ==> ok
      ensures ok ==> |data| == Min(want, old(count))
      ensures !ok ==> writable < want && writable < |data| + Readable(Positions())
      ensures |data| <= want <= old(count) || |data| <= old(count) <= want
      ensures Positions() == Dropped(old(Positions()), |data|)
      ensures Valid() && old(Contents()) == data + Contents()
      ensures written == old(written) && delivered == old(delivered) + data
    {
      hide Queue, ShapeOk, Readable, AfterRead, Dropped;
      data, ok := [], true;
      ghost var s0 := Positions();
      DropNothing(s0);
      while |data| < want && count != 0
        invariant Valid() && ok && |data| <= want && old(Contents()) == data + Contents()
        invariant |data| <= s0.count && Positions() == Dropped(s0, |data|)
        invariant written == old(written) && delivered == old(delivered) + data
        decreases want - |data|
      {
        var more;
        HasData(Positions());
        ok, more := ReadOnce(want - |data|, if writable > |data| then writable - |data| else 0);
        DropMore(s0, |data|, |more|);
        data := data + more;
        if !ok {
          return;
        }
      }
    }

    /** One round and, if there is more to write, the wait after it. */
    method WriteTurn(data: seq<byte>, readable: nat, takes: seq<nat>, n: nat, used: nat)
      returns (go: bool, ok: bool, n': nat, used': nat, overrun: bool)
      requires Valid() && n < |data| && used <= |takes|
      modifies this, memory
      ensures WriteSpans(data, readable, takes, old(Snapshot(n, used)), Snapshot(n', used'), go, ok, overrun)
      ensures go ==> n' > n || used' > used
      ensures !overrun ==> Valid()
    {
      hide Valid, Wrote, WriteSpans, Dropped, Readable;
      ghost var a := Snapshot(n, used);
      used' := used;
      ok, n', overrun := WriteRound(data, n, readable, used);
      ghost var b := Snapshot(n', used);
      if !ok || overrun || n' == |data| || used == |takes| {
        go := ok && !overrun && n' < |data| && count != size;
        WroteSpans(data, readable, takes, a, b, ok, overrun);
      } else {
        InOrder();
        var _, _ := ReadCache(takes[used], takes[used]);
        InOrder();
        go, used' := true, used + 1;
        TakenSpans(data, readable, takes, a, b, Snapshot(n', used'));
      }
    }

    /** write_cache on a blocking pipe. After each round the other end may take bytes, `takes` of
        them one after the other. A wait is over at once while there is room; it is given up,
        interrupted or because the pipe was closed, only in front of a full cache and when
        `takes` is used up. `done` bytes get in, also when a later one cannot be read. */
    method WriteBlocking(data: seq<byte>, readable: nat, takes: seq<nat>)
      returns (ok: bool, n: nat, used: nat, overrun: bool, ghost done: nat)
      requires Valid()
      modifies this, memory
      ensures WriteOver(data, readable, takes, old(Snapshot(0, 0)), Snapshot(done, used), ok, overrun)
      ensures n == (if ok then done else 0) && (!overrun ==> Valid())
    {
      InOrder();
      hide Valid, ShapeOk, WriteRun, WriteSpans, WriteOver;
      ghost var a := Snapshot(0, 0);
      var m: nat, go := 0, |data| > 0;
      ok, used, overrun := true, 0, false;
      WriteSpansStart(data, readable, takes, a);
      while go
        invariant WriteSpans(data, readable, takes, a, Snapshot(m, used), go, ok, overrun)
        invariant (go ==> ok && !overrun && m < |data| && used <= |takes|) && (!overrun ==> Valid())
        decreases if go then |takes| - used else 0, if go then |data| - m else 0, go
      {
        ghost var b := Snapshot(m, used);
        go, ok, m, used, overrun := WriteTurn(data, readable, takes, m, used);
        WriteSpansTwice(data, readable, takes, a, b, Snapshot(m, used), go, ok, overrun);
        WriteSpansBound(data, readable, takes, a, Snapshot(m, used), go, ok, overrun);
      }
      WriteSpansAll(data, readable, takes, a, Snapshot(m, used), ok, overrun);
      n, done := if ok then m else 0, m;
    }

    /** The locked part of one round of read_cache. */
    method ReadRound(want: nat, done: nat, writable: nat, ghost used: nat) returns (ok: bool, data: seq<byte>)
      requires Valid() && done < want
      modifies this
      ensures Fetched(want, writable, old(Snapshot(done, used)), Snapshot(done + |data|, used), data, ok)
      ensures Valid() && ShapeOk(Positions()) && done + |data| <= want && (ok && data == [] ==> count == 0)
    {
      hide Readable, AfterRead, ShapeOk, Queue, Contents;
      ok, data := true, [];
      if count != 0 {
        HasData(Positions());
        ok, data := ReadOnce(want - done, if writable > done then writable - done else 0);
      }
      InOrder();
    }

    /** A whole non-blocking write by the other end. */
    method Give(data: seq<byte>) returns (overrun: bool)
      requires Valid()
      modifies this, memory
      ensures Positions() == Passes(old(Positions()), |data|) && (overrun <==> count > size)
      ensures written == old(written) + data[..count - old(count)] && delivered == old(delivered) <= written
      ensures !overrun ==> Valid()
    {
      InOrder();
      hide ShapeOk, SafeCall, Passes, Contents;
      var ok, n;
      ghost var done;
      ok, n, overrun, done := WriteCache(data, |data|);
    }

    /** One round and, if more is wanted, the wait after it, in which `piece` gets in. */
    method ReadTurn(want: nat, writable: nat, gives: seq<seq<byte>>, done: nat, used: nat)
      returns (go: bool, ok: bool, data: seq<byte>, done': nat, used': nat, overrun: bool, ghost piece: seq<byte>)
      requires Valid() && done < want && used <= |gives|
      modifies this, memory
      ensures ReadSpans(want, writable, gives, old(Snapshot(done, used)), Snapshot(done', used'), data, piece,
                        go, ok, overrun)
      ensures go ==> done' > done || used' > used
      ensures !overrun ==> Valid()
    {
      hide Valid, Fetched, ReadSpans, Passes;
      ghost var a := Snapshot(done, used);
      used', overrun, piece := used, false, [];
      ok, data := ReadRound(want, done, writable, used);
      done' := done + |data|;
      ghost var b := Snapshot(done', used);
      if !ok || done' == want || used == |gives| {
        go := ok && done' < want && count != 0;
        FetchedSpans(want, writable, gives, a, b, data, ok);
      } else {
        overrun := Give(gives[used]);
        piece := gives[used][..count - b.s.count];
        go, used' := !overrun, if overrun then used else used + 1;
        GivenSpans(want, writable, gives, a, b, Snapshot(done', used'), data, piece);
      }
    }

    /** read_cache on a blocking pipe, with the other end writing `gives` one after the other
        between the passes. The call ends unfinished in front of an empty cache, when `gives` is
        used up. */
    method ReadBlocking(want: nat, writable: nat, gives: seq<seq<byte>>)
      returns (ok: bool, data: seq<byte>, used: nat, overrun: bool)
      requires Valid()
      modifies this, memory
      ensures ReadOver(want, writable, gives, old(Snapshot(0, 0)), Snapshot(|data|, used), data, ok, overrun)
      ensures !overrun ==> Valid()
    {
      InOrder();
      hide Valid, ShapeOk, ReadRun, Given, ReadSpans, ReadOver;
      ghost var a, given := Snapshot(0, 0), [];
      data, ok, used, overrun := [], true, 0, false;
      var m: nat, go := 0, want > 0;
      ReadSpansStart(want, writable, gives, a);
      while go
        invariant ReadSpans(want, writable, gives, a, Snapshot(m, used), data, given, go, ok, overrun)
        invariant (go ==> ok && !overrun && m < want && used <= |gives|) && (!overrun ==> Valid())
        decreases if go then |gives| - used else 0, if go then want - m else 0, go
      {
        ghost var b, g := Snapshot(m, used), given;
        var x := data;
        var more;
        ghost var piece;
        go, ok, more, m, used, overrun, piece := ReadTurn(want, writable, gives, m, used);
        data, given := x + more, g + piece;
        ReadSpansTwice(want, writable, gives, a, b, Snapshot(m, used), x, more, g, piece, go, ok, overrun);
        ReadSpansBound(want, writable, gives, a, Snapshot(m, used), data, given, go, ok, overrun);
      }
      ReadSpansBound(want, writable, gives, a, Snapshot(m, used), data, given, false, ok, overrun);
      ReadSpansAll(want, writable, gives, a, Snapshot(m, used), data, given, ok, overrun);
    }
  }

  /** The queue that a shape describes in a memory. */
  ghost function Queue(memory: seq<byte>, s: Shape): seq<byte>
    requires ShapeOk(s) && |memory| >= s.size
  {
    if s.count == 0 then [] else Get(memory[..s.size], s.start, s.count)
  }

  lemma Copied(s: Shape, memory: seq<byte>, data: seq<byte>)
    requires ShapeOk(s) && s.count < s.size && |data| <= Room(s) && |memory| == 2 * s.size
    ensures 0 <= WriteAt(s) && WriteAt(s) + |data| <= |memory|
    ensures var m := Patched(memory, WriteAt(s), data);
      if |data| > Free(s) then 0 <= s.start < |m| && m[s.start] == data[Free(s)]
      else Queue(m, s) == Queue(memory, s)
           && (|data| > 0 ==>
                 ShapeOk(AfterWrite(s, |data|)) && Queue(m, AfterWrite(s, |data|)) == Queue(memory, s) + data)
  {
    if |data| > Free(s) {
    } else {
      CopiedSafely(s, memory, data);
    }
  }

  lemma CopiedSafely(s: Shape, memory: seq<byte>, data: seq<byte>)
    requires ShapeOk(s) && s.count < s.size && |data| <= Room(s) && |data| <= Free(s) && |memory| == 2 * s.size
    ensures 0 <= WriteAt(s) && WriteAt(s) + |data| <= s.size
    ensures var m := Patched(memory, WriteAt(s), data);
      Queue(m, s) == Queue(memory, s)
      && (|data| > 0 ==> ShapeOk(AfterWrite(s, |data|)) && Queue(m, AfterWrite(s, |data|)) == Queue(memory, s) + data)
  {
    if s.count == 0 {
      CopiedAt(s.size, memory, 0, 0, 0, data);
    } else {
      var at := Cell(s.size, s.start, s.count);
      assert WriteAt(s) == at && at + |data| <= s.size;
      CopiedAt(s.size, memory, s.start, s.count, at, data);
    }
    hide Get, Patched;
  }

  lemma CopiedAt(size: nat, memory: seq<byte>, start: nat, count: nat, at: nat, data: seq<byte>)
    requires start < size && count + |data| <= size && |memory| == 2 * size
    requires at == Cell(size, start, count) && at + |data| <= size
    ensures var m := Patched(memory, at, data);
      && Get(m[..size], start, count) == Get(memory[..size], start, count)
      && Get(m[..size], start, count + |data|) == Get(memory[..size], start, count) + data
  {
    var m, buf := Patched(memory, at, data), memory[..size];
    PutShort(buf, at, data);
    assert m[..size] == buf[..at] + data + buf[at + |data|..];
    hide Put, Patched;
    GetAfterPut(buf, start, count, data);
    GetSplit(m[..size], start, count, count + |data|);
    hide Get;
    var all := Get(m[..size], start, count + |data|);
    assert all[..count] == Get(buf, start, count);
    assert all[..count] == Get(m[..size], start, count);
  }

  lemma Taken(s: Shape, memory: seq<byte>, n: nat)
    requires ShapeOk(s) && 0 < s.count && 0 < n <= Readable(s) && |memory| == 2 * s.size
    ensures 0 <= s.start && s.start + n <= s.size && n <= s.count && ShapeOk(AfterRead(s, n))
    ensures Queue(memory, s) == memory[s.start..s.start + n] + Queue(memory, AfterRead(s, n))
  {
    ReadKeepsShape(s, n);
    GetSplit(memory[..s.size], s.start, n, s.count);
    assert Get(memory[..s.size], s.start, n) == memory[s.start..s.start + n];
  }
}
