/** Power-of-two masks and byte rings, shared by the logger and the audio ring buffer.
    A ring of `|buf|` cells is described by offsets that never wrap: the byte with
    logical offset `p` lives in cell `p` modulo `|buf|`. */
module Ring {

  type byte = x: int | 0 <= x < 256

  function Min(a: nat, b: nat): nat {
    if a < b then a else b
  }

  // ---- masks ----

  function Pow2(k: nat): (p: nat)
    ensures p > 0
  {
    if k == 0 then 1 else 2 * Pow2(k - 1)
  }

  ghost predicate IsPow2(n: nat) {
    exists k: nat :: n == Pow2(k)
  }

  /** Bitwise `a & b`. */
  function And(a: nat, b: nat): nat
    decreases a
  {
    if a == 0 || b == 0 then 0 else (a % 2) * (b % 2) + 2 * And(a / 2, b / 2)
  }

  /** `n & (size - 1)` is `n` modulo `size` when `size` is a power of two. */
  lemma {:induction false} MaskIsModulo(n: nat, k: nat)
    ensures And(n, Pow2(k) - 1) == n % Pow2(k)
  {
    if n == 0 || k == 0 {
    } else {
      var h := Pow2(k - 1);
      MaskIsModulo(n / 2, k - 1);
      assert (2 * h - 1) / 2 == h - 1 && (2 * h - 1) % 2 == 1;
      HalveModulo(n, h);
    }
  }

  lemma HalveModulo(n: nat, h: nat)
    requires h > 0
    ensures n % (2 * h) == n % 2 + 2 * ((n / 2) % h)
  {
    var q, r := (n / 2) / h, (n / 2) % h;
    assert n == q * (2 * h) + (n % 2 + 2 * r);
    ModuloIs(n, 2 * h, q, n % 2 + 2 * r);
  }

  // ---- modulus ----

  lemma ModuloIs(n: nat, size: nat, q: int, r: int)
    requires 0 <= r < size
    requires n == q * size + r
    ensures n % size == r
  {
    var e, r' := q - n / size, n % size;
    assert n == (n / size) * size + r';
    assert e * size == r' - r by {
      assert (n / size + e) * size == (n / size) * size + e * size;
    }
    if e >= 1 {
      Grow(e, size);
    } else if e <= -1 {
      Grow(-e, size);
    }
  }

  lemma Grow(e: int, size: nat)
    requires e >= 1
    ensures e * size >= size
  {
    assert e * size == (e - 1) * size + size;
  }

  /** The cell of logical offset `p`: `p` modulo `size`, taken lap by lap. */
  function Wrap(p: nat, size: nat): (c: nat)
    requires 0 < size
    ensures c < size
    decreases p
  {
    if p < size then p else Wrap(p - size, size)
  }

  lemma {:induction false} WrapIsModulo(p: nat, size: nat)
    requires 0 < size
    ensures Wrap(p, size) == p % size
    decreases p
  {
    if p < size {
      ModuloIs(p, size, 0, p);
    } else {
      WrapIsModulo(p - size, size);
      var q := (p - size) / size;
      assert (q + 1) * size == q * size + size;
      ModuloIs(p, size, q + 1, (p - size) % size);
    }
  }

  /** Adding at most one lap either stays on the lap or drops back by `size`. */
  lemma {:induction false} WrapStep(p: nat, d: nat, size: nat)
    requires 0 < size && d <= size
    ensures Wrap(p + d, size) == if Wrap(p, size) + d < size then Wrap(p, size) + d else Wrap(p, size) + d - size
    decreases p
  {
    if p < size {
    } else {
      WrapStep(p - size, d, size);
    }
  }

  lemma WrapSmall(off: nat, size: nat)
    requires off < size
    ensures Wrap(off, size) == off
  {
  }

  lemma {:induction false} WrapTwice(p: nat, d: nat, size: nat)
    requires 0 < size
    ensures Wrap(Wrap(p, size) + d, size) == Wrap(p + d, size)
    decreases d
  {
    if d <= size {
      WrapStep(p, d, size);
      WrapStep(Wrap(p, size), d, size);
      WrapSmall(Wrap(p, size), size);
    } else {
      WrapTwice(p, d - size, size);
    }
  }

  // ---- rings ----

  /** The cell `i` cells after `off`. */
  function Cell(size: nat, off: nat, i: nat): (c: nat)
    requires off < size && i <= size
    ensures c < size
  {
    if off + i < size then off + i else off + i - size
  }

  /** How many cells after `off` cell `c` lies. */
  function Distance(size: nat, off: nat, c: nat): (d: nat)
    requires off < size && c < size
    ensures d < size && Cell(size, off, d) == c
  {
    if c >= off then c - off else c + size - off
  }

  /** `buf` after `data` is laid down from cell `off` onwards, wrapping at the end. */
  function Put<T>(buf: seq<T>, off: nat, data: seq<T>): (r: seq<T>)
    requires off < |buf| && |data| <= |buf|
    ensures |r| == |buf|
  {
    seq(|buf|, c requires 0 <= c < |buf| =>
      if Distance(|buf|, off, c) < |data| then data[Distance(|buf|, off, c)] else buf[c])
  }

  /** The `n` cells from `off` onwards, wrapping at the end. */
  function Get<T>(buf: seq<T>, off: nat, n: nat): (r: seq<T>)
    requires off < |buf| && n <= |buf|
    ensures |r| == n
  {
    seq(n, i requires 0 <= i < n => buf[Cell(|buf|, off, i)])
  }

  lemma WrapIsCell(p: nat, d: nat, size: nat)
    requires 0 < size && d <= size
    ensures Wrap(p + d, size) == Cell(size, Wrap(p, size), d)
  {
    WrapStep(p, d, size);
  }

  lemma PutAt<T>(buf: seq<T>, off: nat, data: seq<T>, d: nat)
    requires off < |buf| && |data| <= |buf| && d < |buf|
    ensures Put(buf, off, data)[Cell(|buf|, off, d)] == if d < |data| then data[d] else buf[Cell(|buf|, off, d)]
  {
    assert Distance(|buf|, off, Cell(|buf|, off, d)) == d;
  }

  /** Every byte of `hist` with logical offset in `[lo, hi)` is still in its cell. */
  ghost predicate Intact<T>(buf: seq<T>, hist: seq<T>, lo: nat, hi: nat)
    requires |buf| > 0
  {
    && hi <= |hist|
    && forall p {:trigger hist[p]} :: lo <= p < hi ==> buf[Wrap(p, |buf|)] == hist[p]
  }

  lemma PutKeepsByte<T>(buf: seq<T>, w: nat, data: seq<T>, p: nat)
    requires |buf| > 0 && |data| <= |buf|
    requires w + |data| <= p + |buf| && p < w + |data|
    ensures Put(buf, Wrap(w, |buf|), data)[Wrap(p, |buf|)] == if p < w then buf[Wrap(p, |buf|)] else data[p - w]
  {
    var d := if p >= w then p - w else p + |buf| - w;
    if p < w {
      WrapStep(p, |buf|, |buf|);
    }
    WrapIsCell(w, d, |buf|);
    PutAt(buf, Wrap(w, |buf|), data, d);
  }

  /** Appending `data` at the write point keeps the window `[lo, hi)` and extends it,
      as long as the extended window is at most one lap long. */
  lemma PutKeepsWindow<T>(buf: seq<T>, hist: seq<T>, lo: nat, data: seq<T>)
    requires |buf| > 0 && |data| <= |buf|
    requires Intact(buf, hist, lo, |hist|)
    requires |hist| + |data| <= lo + |buf|
    ensures Intact(Put(buf, Wrap(|hist|, |buf|), data), hist + data, lo, |hist| + |data|)
  {
    hide Put, Wrap;
    forall p | lo <= p < |hist| + |data|
      ensures Put(buf, Wrap(|hist|, |buf|), data)[Wrap(p, |buf|)] == (hist + data)[p]
    {
      PutKeepsByte(buf, |hist|, data, p);
      assert p < |hist| ==> hist[p] == (hist + data)[p];
    }
  }

  lemma GetFromWindow<T>(buf: seq<T>, hist: seq<T>, lo: nat, hi: nat, p: nat, n: nat)
    requires |buf| > 0 && n <= |buf|
    requires Intact(buf, hist, lo, hi) && lo <= p && p + n <= hi
    ensures Get(buf, Wrap(p, |buf|), n) == hist[p..p + n]
  {
    forall i | 0 <= i < n
      ensures Get(buf, Wrap(p, |buf|), n)[i] == hist[p..p + n][i]
    {
      WrapIsCell(p, i, |buf|);
    }
  }

  /** Reading past freshly written cells yields the old cells, then the new data. */
  lemma GetAfterPut<T>(buf: seq<T>, off: nat, n: nat, data: seq<T>)
    requires off < |buf| && n + |data| <= |buf|
    ensures Get(Put(buf, Cell(|buf|, off, n), data), off, n + |data|) == Get(buf, off, n) + data
  {
    var at := Cell(|buf|, off, n);
    forall i | 0 <= i < n + |data|
      ensures Put(buf, at, data)[Cell(|buf|, off, i)] == (Get(buf, off, n) + data)[i]
    {
      var d := if i >= n then i - n else i + |buf| - n;
      assert Cell(|buf|, off, i) == Cell(|buf|, at, d);
      PutAt(buf, at, data, d);
    }
  }

  lemma GetSplit<T>(buf: seq<T>, off: nat, m: nat, n: nat)
    requires off < |buf| && m <= n <= |buf|
    ensures Get(buf, off, n) == Get(buf, off, m) + Get(buf, Cell(|buf|, off, m), n - m)
  {
  }

  // ---- copying ----

  /** `memory` with `data` laid over it from `at` on. */
  function Patched<T>(memory: seq<T>, at: nat, data: seq<T>): (r: seq<T>)
    requires at + |data| <= |memory|
    ensures |r| == |memory|
  {
    memory[..at] + data + memory[at + |data|..]
  }

  lemma AddAssoc<T>(a: seq<T>, b: seq<T>, c: seq<T>)
    ensures a + (b + c) == a + b + c
  {
  }

  lemma PatchedTwice<T>(memory: seq<T>, at: nat, a: seq<T>, b: seq<T>)
    requires at + |a| + |b| <= |memory|
    ensures Patched(Patched(memory, at, a), at + |a|, b) == Patched(memory, at, a + b)
  {
  }

  /** A contiguous copy into `dst` from cell `at` on. */
  method Copy<T>(dst: array<T>, at: nat, src: seq<T>)
    requires at + |src| <= dst.Length
    modifies dst
    ensures dst[..] == Patched(old(dst[..]), at, src)
  {
    forall i | 0 <= i < |src| {
      dst[at + i] := src[i];
    }
  }

  lemma PutShort<T>(buf: seq<T>, off: nat, data: seq<T>)
    requires off < |buf| && off + |data| <= |buf|
    ensures Put(buf, off, data) == buf[..off] + data + buf[off + |data|..]
  {
    forall c | 0 <= c < |buf|
      ensures Put(buf, off, data)[c] == (buf[..off] + data + buf[off + |data|..])[c]
    {
      PutAt(buf, off, data, Distance(|buf|, off, c));
    }
  }

  lemma PutLong<T>(buf: seq<T>, off: nat, data: seq<T>, len: nat, end: nat)
    requires off < |buf| && off + len <= |buf| && len <= end <= |data| <= |buf|
    requires off + len == |buf| || len == end
    ensures Put(buf, off, data[..end]) == data[len..end] + Put(buf, off, data[..len])[end - len..]
  {
    var once := Put(buf, off, data[..len]);
    forall c | 0 <= c < |buf|
      ensures Put(buf, off, data[..end])[c] == (data[len..end] + once[end - len..])[c]
    {
      PutAt(buf, off, data[..end], Distance(|buf|, off, c));
      PutAt(buf, off, data[..len], Distance(|buf|, off, c));
    }
  }

  /** Two adjacent writes are one write of the concatenation. */
  lemma PutPut<T>(buf: seq<T>, off: nat, x: seq<T>, y: seq<T>)
    requires off < |buf| && |x| + |y| <= |buf|
    ensures Put(Put(buf, off, x), Wrap(off + |x|, |buf|), y) == Put(buf, off, x + y)
  {
    WrapSmall(off, |buf|);
    WrapStep(off, |x|, |buf|);
    var once := Put(buf, off, x);
    forall c | 0 <= c < |buf|
      ensures Put(once, Wrap(off + |x|, |buf|), y)[c] == Put(buf, off, x + y)[c]
    {
    }
  }

  /** `buf` after `data`, however long, is laid down byte by byte from cell `off` on, round and
      round. */
  function PutEach<T>(buf: seq<T>, off: nat, data: seq<T>): (r: seq<T>)
    requires off < |buf|
    ensures |r| == |buf|
    decreases |data|
  {
    if data == [] then buf else PutEach(buf[off := data[0]], Cell(|buf|, off, 1), data[1..])
  }

  lemma {:induction false} PutEachSum<T>(buf: seq<T>, off: nat, a: seq<T>, b: seq<T>)
    requires off < |buf|
    ensures PutEach(buf, off, a + b) == PutEach(PutEach(buf, off, a), Wrap(off + |a|, |buf|), b)
    decreases |a|
  {
    if a == [] {
      assert a + b == b;
    } else {
      PutEachSum(buf[off := a[0]], Cell(|buf|, off, 1), a[1..], b);
      assert (a + b)[1..] == a[1..] + b;
      assert Wrap(Cell(|buf|, off, 1) + |a| - 1, |buf|) == Wrap(off + |a|, |buf|);
    }
  }

  lemma UpdateIsPut<T>(buf: seq<T>, c: nat, b: T)
    requires c < |buf|
    ensures buf[c := b] == Put(buf, c, [b])
  {
  }

  /** Up to one lap that is laying it down at once. */
  lemma {:induction false} PutEachIsPut<T>(buf: seq<T>, off: nat, data: seq<T>)
    requires off < |buf| && |data| <= |buf|
    ensures PutEach(buf, off, data) == Put(buf, off, data)
    decreases |data|
  {
    if data == [] {
    } else {
      PutEachIsPut(buf[off := data[0]], Cell(|buf|, off, 1), data[1..]);
      UpdateIsPut(buf, off, data[0]);
      WrapIsCell(off, 1, |buf|);
      WrapSmall(off, |buf|);
      PutPut(buf, off, data[..1], data[1..]);
      assert data[..1] == [data[0]] && data == data[..1] + data[1..];
    }
  }

  /** Three stretches, the second of which ends at the end of the buffer unless the third is
      empty. */
  lemma PutEachInParts<T>(buf: seq<T>, off: nat, a: seq<T>, b: seq<T>, c: seq<T>)
    requires off < |buf| && |a| <= |buf| && |c| <= |buf|
    requires var to := Wrap(off + |a|, |buf|); to + |b| <= |buf| && (c == [] || to + |b| == |buf|)
    ensures PutEach(buf, off, a + (b + c)) == Put(Put(Put(buf, off, a), Wrap(off + |a|, |buf|), b), 0, c)
  {
    hide Put, PutEach;
    var to, buf1 := Wrap(off + |a|, |buf|), Put(buf, off, a);
    PutEachSum(buf, off, a, b + c);
    PutEachIsPut(buf, off, a);
    PutEachSum(buf1, to, b, c);
    PutEachIsPut(buf1, to, b);
    PutEachIsPut(Put(buf1, to, b), 0, c);
    if c == [] {
      PutEachIsPut(Put(buf1, to, b), Wrap(to + |b|, |buf|), c);
      PutNothing(Put(buf1, to, b), Wrap(to + |b|, |buf|));
      PutNothing(Put(buf1, to, b), 0);
    }
  }

  lemma PutNothing<T>(buf: seq<T>, off: nat)
    requires off < |buf|
    ensures Put(buf, off, []) == buf
  {
  }

  method CopyFlat<T>(dst: array<T>, off: nat, data: seq<T>)
    requires off < dst.Length && off + |data| <= dst.Length
    modifies dst
    ensures dst[..] == Put(old(dst[..]), off, data)
  {
    hide Put;
    PutShort(dst[..], off, data);
    Copy(dst, off, data);
  }

  /** The two-part copy every ring writer here uses: up to the end of the buffer, then the
      rest from its start. Only `readable` bytes of the source can be read. */
  method CopyIn<T>(dst: array<T>, off: nat, data: seq<T>, readable: nat) returns (ok: bool)
    requires off < dst.Length && |data| <= dst.Length
    modifies dst
    ensures ok <==> readable >= |data|
    ensures dst[..] == Put(old(dst[..]), off, data[..Min(readable, |data|)])
  {
    hide Put;
    var len := Min(|data|, dst.Length - off);
    ghost var before := dst[..];
    if readable < len {
      CopyFlat(dst, off, data[..readable]);
      return false;
    }
    CopyFlat(dst, off, data[..len]);
    var end := Min(readable, |data|);
    Copy(dst, 0, data[len..end]);
    PutLong(before, off, data, len, end);
    ok := readable >= |data|;
  }

  /** The two-part copy every ring reader here uses. */
  method CopyOut<T>(src: array<T>, off: nat, n: nat) returns (data: seq<T>)
    requires off < src.Length && n <= src.Length
    ensures data == Get(src[..], off, n)
  {
    var len := Min(n, src.Length - off);
    data := src[off..off + len] + src[..n - len];
  }
}
