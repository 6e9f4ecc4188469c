/** The AES engine's requests: a scatter list is run through the engine either a page at a time
    over bounce buffers, or all at once with a linked descriptor. */
module AesDma {
  import opened Kernel
  import opened Ring
  import opened AesModes

  const BUFLEN := 4096
  const MAX_DMA_BYTE_LENGTH := 0x20000
  const LINK_FIELD := 0x400_0000   // the length field of a linked entry has 26 bits

  // ---- scatter lists over the bytes they describe ----

  /** Where entry `k` starts. */
  function Start(lens: seq<nat>, k: nat): nat
    requires k <= |lens|
  {
    if k == 0 then 0 else Start(lens, k - 1) + lens[k - 1]
  }

  lemma StartNext(lens: seq<nat>, k: nat)
    requires k < |lens|
    ensures Start(lens, k + 1) == Start(lens, k) + lens[k]
  {
  }

  lemma {:induction false} StartMonotone(lens: seq<nat>, j: nat, k: nat)
    requires j <= k <= |lens|
    ensures Start(lens, j) <= Start(lens, k)
    decreases k
  {
    if j == k {
    } else {
      StartMonotone(lens, j, k - 1);
    }
  }

  ghost predicate Describes(lens: seq<nat>, n: nat) {
    Start(lens, |lens|) == n
  }

  ghost predicate NoEmpty(lens: seq<nat>) {
    forall i :: 0 <= i < |lens| ==> 0 < lens[i]
  }

  /** A list of non-empty entries that describes `n` bytes. */
  ghost predicate ListOk(lens: seq<nat>, n: nat) {
    Describes(lens, n) && NoEmpty(lens)
  }

  /** The cursor is inside an entry, at an empty one, or past the last one. */
  predicate CursorOk(lens: seq<nat>, sg: nat, offset: nat): (ok: bool)
    ensures ok ==> sg <= |lens|
  {
    && sg <= |lens|
    && if sg < |lens| then offset <= lens[sg] && (offset == lens[sg] ==> lens[sg] == 0) else offset == 0
  }

  function Position(lens: seq<nat>, sg: nat, offset: nat): nat
    requires sg <= |lens|
  {
    Start(lens, sg) + offset
  }

  /** The entry under the cursor is there while bytes are left, and ends within the list. */
  lemma EntryThere(lens: seq<nat>, n: nat, sg: nat, offset: nat)
    requires Describes(lens, n) && CursorOk(lens, sg, offset) && Position(lens, sg, offset) < n
    ensures sg < |lens| && Start(lens, sg) + lens[sg] <= n
    ensures offset <= lens[sg] && (offset == lens[sg] ==> lens[sg] == 0)
    ensures Start(lens, sg) + offset == Position(lens, sg, offset)
  {
    if sg < |lens| {
      StartMonotone(lens, sg + 1, |lens|);
    }
  }

  lemma JoinSlices(s: seq<byte>, a: nat, b: nat, c: nat)
    requires a <= b <= c <= |s|
    ensures s[a..b] + s[b..c] == s[a..c]
  {
  }

  /** aml_aes_sg_copy: bytes of the list from the cursor on, into the buffer or out of it. An
      empty entry stops it short. */
  method SgCopy(lens: seq<nat>, sg0: nat, offset0: nat, mem: array<byte>, buf: array<byte>,
                buflen: nat, total: nat, out: bool)
    returns (sg: nat, offset: nat, n: nat)
    requires mem != buf && Describes(lens, mem.Length) && CursorOk(lens, sg0, offset0) && buflen <= buf.Length
    requires Position(lens, sg0, offset0) + total <= mem.Length
    modifies if out then {mem} else {buf}
    ensures n <= Min(buflen, total) && (n < Min(buflen, total) ==> sg < |lens| && lens[sg] == 0)
    ensures CursorOk(lens, sg, offset) && Position(lens, sg, offset) == Position(lens, sg0, offset0) + n
    ensures if out then mem[..] == Patched(old(mem[..]), Position(lens, sg0, offset0), buf[..n])
            else buf[..] == Patched(old(buf[..]), 0, mem[Position(lens, sg0, offset0)..Position(lens, sg, offset)])
  {
    hide Describes, Patched, CursorOk, Position, Start;
    ghost var p := Position(lens, sg0, offset0);
    var room, left := buflen, total;
    sg, offset, n := sg0, offset0, 0;
    NothingPatched(mem[..], p);
    NothingPatched(buf[..], 0);
    while room > 0 && left > 0
      invariant CursorOk(lens, sg, offset) && Position(lens, sg, offset) == p + n
      invariant n + room == buflen && n + left == total
      invariant if out then mem[..] == Patched(old(mem[..]), p, buf[..n])
                else buf[..] == Patched(old(buf[..]), 0, mem[p..p + n])
      decreases left
    {
      EntryThere(lens, mem.Length, sg, offset);
      var count := Min(Min(lens[sg] - offset, left), room);
      if count == 0 {
        return;
      }
      var at := Start(lens, sg) + offset;
      if out {
        PatchedTwice(old(mem[..]), p, buf[..n], buf[n..n + count]);
        JoinSlices(buf[..], 0, n, n + count);
        Copy(mem, at, buf[n..n + count]);
      } else {
        PatchedTwice(old(buf[..]), 0, mem[p..p + n], mem[at..at + count]);
        JoinSlices(mem[..], p, at, at + count);
        Copy(buf, n, mem[at..at + count]);
      }
      n, room, left := n + count, room - count, left - count;
      sg, offset := Pass(lens, sg, offset, count);
    }
  }

  /** Move the cursor over bytes of the current entry. */
  method Pass(lens: seq<nat>, sg0: nat, offset0: nat, count: nat) returns (sg: nat, offset: nat)
    requires sg0 < |lens| && offset0 + count <= lens[sg0]
    ensures CursorOk(lens, sg, offset) && Position(lens, sg, offset) == Start(lens, sg0) + offset0 + count
  {
    sg, offset := sg0, offset0 + count;
    if offset == lens[sg] {
      sg, offset := sg + 1, 0;
    }
  }

  lemma EntryNotEmpty(lens: seq<nat>)
    requires NoEmpty(lens)
    ensures forall i :: 0 <= i < |lens| ==> lens[i] != 0
  {
  }

  lemma NothingPatched(m: seq<byte>, p: nat)
    requires p <= |m|
    ensures Patched(m, p, []) == m && m[p..p] == [] && m[..0] == []
  {
  }

  // ---- the counter in place ----

  lemma {:induction false} IncCarry(s: seq<byte>, k: nat)
    requires k <= |s| && forall i :: k <= i < |s| ==> s[i] == 255
    ensures Inc(s) == Inc(s[..k]) + seq(|s| - k, _ => 0)
    decreases |s|
  {
    if k < |s| {
      IncCarry(s[..|s| - 1], k);
      assert s[..|s| - 1][..k] == s[..k];
      assert seq(|s| - k, _ => 0) == seq(|s| - 1 - k, _ => 0) + [0];
    } else {
      assert s[..k] == s;
    }
  }

  /** One increment, from the last byte up while there is a carry. */
  method Increment(val: array<byte>)
    modifies val
    ensures val[..] == Inc(old(val[..]))
  {
    ghost var s := val[..];
    var i := val.Length;
    while i > 0
      invariant 0 <= i <= val.Length
      invariant forall j :: i <= j < val.Length ==> s[j] == 255 && val[j] == 0
      invariant forall j :: 0 <= j < i ==> val[j] == s[j]
    {
      i := i - 1;
      val[i] := (val[i] as int + 1) % 256;
      if val[i] != 0 {
        IncCarry(s, i + 1);
        assert s[..i + 1][..i] == s[..i];
        assert val[..] == s[..i] + [s[i] + 1] + seq(val.Length - 1 - i, _ => 0);
        return;
      }
    }
    IncCarry(s, 0);
  }

  /** aml_aes_ctr_update_iv: the counter, read as a big-endian number, grows by `value` modulo
      2^128. */
  method CtrUpdateIv(val: array<byte>, value: nat)
    requires val.Length == BLOCK
    modifies val
    ensures val[..] == Add(old(val[..]), value)
    ensures Value(val[..]) == (Value(old(val[..])) + value) % TWO128
  {
    AddIsModulo(val[..], value);
    hide Inc, Value;
    var left := value;
    while left > 0
      invariant 0 <= left <= value && Add(val[..], left) == Add(old(val[..]), value)
    {
      Increment(val);
      left := left - 1;
    }
  }

  // ---- requests ----

  class AesRequest {
    const c: Cipher
    const mode: Mode
    const src: array<byte>       // the bytes of the source list, in order
    const srcLens: seq<nat>
    const dst: array<byte>       // the same array when the request works in place
    const dstLens: seq<nat>
    const bufIn: array<byte>
    const bufOut: array<byte>
    const iv: array<byte>
    var engineIv: Block          // the engine's own chaining register
    var inSg: nat
    var inOffset: nat
    var outSg: nat
    var outOffset: nat
    var total: nat

    ghost predicate Apart() {
      && bufIn != bufOut && bufIn != iv && bufOut != iv
      && src != bufIn && src != bufOut && src != iv && dst != bufIn && dst != bufOut && dst != iv
      && bufIn.Length == bufOut.Length == BUFLEN && iv.Length == BLOCK
      && ListOk(srcLens, src.Length) && ListOk(dstLens, dst.Length)
    }

    ghost function InPos(): nat
      reads this
      requires CursorOk(srcLens, inSg, inOffset)
    {
      Position(srcLens, inSg, inOffset)
    }

    ghost function OutPos(): nat
      reads this
      requires CursorOk(dstLens, outSg, outOffset)
    {
      Position(dstLens, outSg, outOffset)
    }

    /** Between chunks: both cursors at `p`, and the engine and the request agree on the
        chaining value. */
    ghost predicate At(p: nat)
      reads this, iv
    {
      && Apart() && CursorOk(srcLens, inSg, inOffset) && CursorOk(dstLens, outSg, outOffset)
      && InPos() == p && OutPos() == p && p + total <= src.Length && p + total <= dst.Length
      && Fits(mode, total) && (total == 0 ==> mode != CbcEncrypt && mode != CbcDecrypt)
      && iv[..] == engineIv
    }

    constructor (c: Cipher, mode: Mode, src: array<byte>, srcLens: seq<nat>, dst: array<byte>, dstLens: seq<nat>,
                 iv: array<byte>)
      requires ListOk(srcLens, src.Length) && ListOk(dstLens, dst.Length) && iv.Length == BLOCK
      requires iv != src && iv != dst
      ensures Apart() && this.c == c && this.mode == mode && this.src == src && this.dst == dst && this.iv == iv
      ensures this.srcLens == srcLens && this.dstLens == dstLens && fresh(bufIn) && fresh(bufOut)
    {
      this.c, this.mode, this.iv := c, mode, iv;
      this.src, this.srcLens, this.dst, this.dstLens := src, srcLens, dst, dstLens;
      bufIn := new byte[BUFLEN](_ => 0);
      bufOut := new byte[BUFLEN](_ => 0);
      engineIv := seq(BLOCK, _ => 0);
      inSg, inOffset, outSg, outOffset, total := 0, 0, 0, 0, 0;
    }

    /** The engine runs one descriptor over the bounce buffers. */
    method EngineRun(len: nat)
      requires Apart() && len <= BUFLEN && Fits(mode, len)
      modifies this`engineIv, bufOut
      ensures bufOut[..] == Patched(old(bufOut[..]), 0, Crypt(c, mode, old(engineIv), bufIn[..len]))
      ensures engineIv == NextIv(c, mode, old(engineIv), bufIn[..len])
    {
      hide Crypt, NextIv, ListOk;
      var data := bufIn[..len];
      Copy(bufOut, 0, Crypt(c, mode, engineIv, data));
      engineIv := NextIv(c, mode, engineIv, data);
    }

    /** The vector for the next chunk, taken from the buffers the chunk of `n` bytes left. */
    method InstallIv(n: nat, ghost iv0: Block)
      requires Apart() && n <= BUFLEN && iv[..] == iv0 && Fits(mode, n)
      requires (mode == CbcEncrypt || mode == CbcDecrypt) ==> n > 0
      requires mode == CbcEncrypt ==> bufOut[..n] == Crypt(c, mode, iv0, bufIn[..n])
      modifies iv
      ensures iv[..] == NextIv(c, mode, iv0, bufIn[..n])
    {
      hide Crypt, NextIv, ListOk, Add;
      ghost var data := bufIn[..n];
      match mode
      case EcbEncrypt => NextUnused(c, mode, iv0, data);
      case EcbDecrypt => NextUnused(c, mode, iv0, data);
      case CbcEncrypt =>
        NextIsLastOut(c, iv0, data);
        Overwrite(iv, bufOut[n - BLOCK..n]);
        assert bufOut[n - BLOCK..n] == Last(bufOut[..n]);
      case CbcDecrypt =>
        NextIsLastIn(c, iv0, data);
        Overwrite(iv, bufIn[n - BLOCK..n]);
        assert bufIn[n - BLOCK..n] == Last(data);
      case Ctr =>
        NextCounter(c, iv0, data);
        CtrUpdateIv(iv, Blocks(n));
    }

    /** aml_aes_crypt_dma_start: fill the bounce buffer and run the engine. The last chunk of a
        CTR request is filled up to a whole block with whatever the buffer holds. */
    method StartChunk(ghost p: nat) returns (n: nat)
      requires At(p)
      modifies this, bufIn, bufOut
      ensures n == Min(BUFLEN, old(total)) && total == old(total) - n && Fits(mode, n)
      ensures CursorOk(srcLens, inSg, inOffset) && InPos() == p + n
      ensures outSg == old(outSg) && outOffset == old(outOffset)
      ensures bufIn[..n] == src[p..p + n]
      ensures bufOut[..n] == Crypt(c, mode, old(engineIv), bufIn[..n])
      ensures engineIv == NextIv(c, mode, old(engineIv), bufIn[..n])
    {
      hide Crypt, NextIv, Describes, NoEmpty, Patched, CursorOk, Position;
      ghost var iv0 := engineIv;
      EntryNotEmpty(srcLens);
      inSg, inOffset, n := SgCopy(srcLens, inSg, inOffset, src, bufIn, BUFLEN, total, false);
      FrontPatched(old(bufIn[..]), src[p..p + n]);
      total := total - n;
      var len := BLOCK * Blocks(n);
      PaddedRun(c, mode, iv0, bufIn[..len], n);
      assert bufIn[..len][..n] == bufIn[..n];
      FrontPatched(bufOut[..], Crypt(c, mode, iv0, bufIn[..len]));
      EngineRun(len);
      assert bufOut[..len][..n] == bufOut[..n];
    }

    /** aml_aes_crypt_dma_stop, without a linked descriptor. */
    method StopChunk(n: nat, ghost iv0: Block, ghost p: nat)
      requires Apart() && n <= BUFLEN && iv[..] == iv0 && Fits(mode, n)
      requires (mode == CbcEncrypt || mode == CbcDecrypt) ==> n > 0
      requires bufOut[..n] == Crypt(c, mode, iv0, bufIn[..n])
      requires CursorOk(dstLens, outSg, outOffset) && OutPos() == p && p + n <= dst.Length
      modifies this`outSg, this`outOffset, dst, iv
      ensures CursorOk(dstLens, outSg, outOffset) && OutPos() == p + n
      ensures dst[..] == Patched(old(dst[..]), p, bufOut[..n])
      ensures iv[..] == NextIv(c, mode, iv0, bufIn[..n])
    {
      hide Crypt, NextIv, Describes, NoEmpty, Patched, CursorOk, Position;
      EntryNotEmpty(dstLens);
      var count;
      outSg, outOffset, count := SgCopy(dstLens, outSg, outOffset, dst, bufOut, BUFLEN, n, true);
      InstallIv(n, iv0);
    }

    /** One chunk over the bounce buffers. */
    method Chunk(ghost p: nat) returns (n: nat)
      requires At(p)
      modifies this, bufIn, bufOut, iv, dst
      ensures n == Min(BUFLEN, old(total)) && total == old(total) - n && Fits(mode, n)
      ensures CursorOk(srcLens, inSg, inOffset) && CursorOk(dstLens, outSg, outOffset)
      ensures InPos() == p + n && OutPos() == p + n
      ensures iv[..] == engineIv == NextIv(c, mode, old(engineIv), old(src[p..p + n]))
      ensures dst[..] == Patched(old(dst[..]), p, Crypt(c, mode, old(engineIv), old(src[p..p + n])))
    {
      hide Crypt, NextIv, ListOk, Patched, CursorOk, Position;
      ghost var iv0 := engineIv;
      n := StartChunk(p);
      StopChunk(n, iv0, p);
    }

    /** After `done` bytes of `data`, which came from `all`: the output so far lies over `before`,
        the chain stands where it should, and the input still to come is untouched. */
    ghost predicate Bounced(iv0: Block, all: seq<byte>, before: seq<byte>, n: nat, done: nat)
      reads this, iv, src, dst
    {
      && |all| == src.Length && |before| == dst.Length && done + total == n <= |all| && n <= |before|
      && (if src == dst then all == before else src[..] == all)
      && src[done..n] == all[done..n] && Fits(mode, done)
      && iv[..] == engineIv == NextIv(c, mode, iv0, all[..done])
      && dst[..] == Patched(before, 0, Crypt(c, mode, iv0, all[..done]))
    }

    method Round(ghost iv0: Block, ghost all: seq<byte>, ghost before: seq<byte>, ghost n: nat, ghost done: nat)
      returns (k: nat)
      requires At(done) && done % BLOCK == 0 && Bounced(iv0, all, before, n, done)
      modifies this, bufIn, bufOut, iv, dst
      ensures k == Min(BUFLEN, old(total)) && total == old(total) - k && Bounced(iv0, all, before, n, done + k)
      ensures total > 0 ==> At(done + k) && (done + k) % BLOCK == 0
    {
      hide Crypt, NextIv, ListOk, Patched, CursorOk, Position;
      assert src[done..done + Min(BUFLEN, total)] == all[done..done + Min(BUFLEN, total)] by {
        FrontOfSlice(src[..], done, n, Min(BUFLEN, total));
        FrontOfSlice(all, done, n, Min(BUFLEN, total));
      }
      k := Chunk(done);
      OneMore(c, mode, iv0, all, before, done, k);
      if src == dst {
        assert src[..] == Patched(before, 0, Crypt(c, mode, iv0, all[..done + k]));
        RestKept(before, Crypt(c, mode, iv0, all[..done + k]), src[..], n);
      }
    }

    /** The loop over the bounce buffers: as one run of the mode over the whole request, in
        place or not. */
    method Bounce()
      requires At(0)
      modifies this, bufIn, bufOut, iv, dst
      ensures total == 0
      ensures iv[..] == NextIv(c, mode, old(engineIv), old(src[..total]))
      ensures dst[..] == Patched(old(dst[..]), 0, Crypt(c, mode, old(engineIv), old(src[..total])))
    {
      hide Crypt, NextIv, ListOk, Patched, CursorOk, Position;
      ghost var iv0, all, before, n := engineIv, src[..], dst[..], total;
      ghost var done := 0;
      NothingDone(c, mode, iv0, before);
      assert all[..0] == [];
      var again := true;
      while again
        invariant 0 <= done && Bounced(iv0, all, before, n, done)
        invariant if again then At(done) && done % BLOCK == 0 else total == 0
        decreases again, total
      {
        var k := Round(iv0, all, before, n, done);
        done := done + k;
        again := total > 0;
      }
    }

    /** The engine follows the two link tables. With too few cells in one of them it does
        nothing. */
    method EngineLinked(inn: seq<Link>, out: seq<Link>, n: nat)
      requires Apart() && Fits(mode, n) && n <= src.Length && n <= dst.Length
      requires inn == TableFor(srcLens, 0) && out == TableFor(dstLens, 0)
      modifies this`engineIv, dst
      ensures Reaches(srcLens, n) && Reaches(dstLens, n) ==>
        && dst[..] == Patched(old(dst[..]), 0, Crypt(c, mode, old(engineIv), old(src[..n])))
        && engineIv == NextIv(c, mode, old(engineIv), old(src[..n]))
    {
      hide Crypt, NextIv, NoEmpty, Patched, Cells, Reaches, TableFor;
      var from, to := Cells(inn), Cells(out);
      CellsInOrderIff(srcLens, n);
      CellsInOrderIff(dstLens, n);
      if |from| < n || |to| < n {
        return;
      }
      CellsInside(srcLens, 0);
      CellsInside(dstLens, 0);
      var data := ReadCells(src, from[..n]);
      var res := Crypt(c, mode, engineIv, data);
      WriteCells(dst, to[..n], res);
      engineIv := NextIv(c, mode, engineIv, data);
    }

    /** One linked descriptor over the whole request: the engine reads and writes the lists
        themselves. In place, the last ciphertext block has to be saved before it is gone. */
    method Link()
      requires At(0) && total < MAX_DMA_BYTE_LENGTH
      modifies this, iv, dst
      ensures total == 0
      ensures old(Reaches(srcLens, total) && Reaches(dstLens, total)) ==>
        && iv[..] == NextIv(c, mode, old(engineIv), old(src[..total]))
        && dst[..] == Patched(old(dst[..]), 0, Crypt(c, mode, old(engineIv), old(src[..total])))
    {
      hide Crypt, NextIv, ListOk, Patched, CursorOk, Position, Reaches, TableFor;
      ghost var data := src[..total];
      var fast := total;
      total := 0;
      var inn := BuildTable(srcLens);
      var out := BuildTable(dstLens);
      if mode == CbcDecrypt {
        assert src[fast - BLOCK..fast] == Last(data);
        Overwrite(iv, src[fast - BLOCK..fast]);
      }
      EngineLinked(inn, out, fast);
      FrontPatched(old(dst[..]), Crypt(c, mode, old(engineIv), data));
      LinkIv(fast, old(engineIv), data);
    }

    /** The vector after a linked descriptor. */
    method LinkIv(fast: nat, ghost iv0: Block, ghost data: seq<byte>)
      requires Apart() && Fits(mode, fast) && fast <= dst.Length && |data| == fast
      requires fast == 0 ==> mode != CbcEncrypt && mode != CbcDecrypt
      requires iv[..] == if mode == CbcDecrypt then Last(data) else iv0
      modifies iv
      ensures dst[..fast] == Crypt(c, mode, iv0, data) ==> iv[..] == NextIv(c, mode, iv0, data)
    {
      hide Crypt, NextIv, ListOk, Add;
      match mode
      case CbcEncrypt =>
        NextIsLastOut(c, iv0, data);
        assert dst[fast - BLOCK..fast] == Last(dst[..fast]);
        Overwrite(iv, dst[fast - BLOCK..fast]);
      case CbcDecrypt => NextIsLastIn(c, iv0, data);
      case Ctr =>
        NextCounter(c, iv0, data);
        CtrUpdateIv(iv, Blocks(fast));
      case EcbEncrypt => NextUnused(c, mode, iv0, data);
      case EcbDecrypt => NextUnused(c, mode, iv0, data);
    }

    /** aml_aes_handle_queue. Which path is taken shows neither in the output nor in the vector
        left for the next request. */
    method HandleQueue(cryptlen: nat, linkMode: bool) returns (err: int)
      requires Apart() && cryptlen <= src.Length && cryptlen <= dst.Length
      requires cryptlen == 0 ==> mode != CbcEncrypt && mode != CbcDecrypt
      modifies this, bufIn, bufOut, iv, dst
      ensures err == if Fits(mode, cryptlen) then 0 else EAGAIN
      ensures err == 0 && (linkMode && cryptlen < MAX_DMA_BYTE_LENGTH ==> Reaches(srcLens, cryptlen) && Reaches(dstLens, cryptlen)) ==>
        && iv[..] == NextIv(c, mode, old(iv[..]), old(src[..cryptlen]))
        && dst[..] == Patched(old(dst[..]), 0, Crypt(c, mode, old(iv[..]), old(src[..cryptlen])))
      ensures err != 0 ==> iv[..] == old(iv[..]) && dst[..] == old(dst[..])
    {
      total, inSg, inOffset, outSg, outOffset := cryptlen, 0, 0, 0, 0;
      FromStart(srcLens, src.Length);
      FromStart(dstLens, dst.Length);
      engineIv := iv[..];
      hide Crypt, NextIv, ListOk, Patched, CursorOk, Position, Reaches;
      if total % BLOCK == 0 || mode == Ctr {
        if linkMode && total < MAX_DMA_BYTE_LENGTH {
          Link();
        } else {
          Bounce();
        }
        return 0;
      }
      return EAGAIN;
    }
  }

  // ---- link tables ----

  /** One entry of a link table: where it is, and what its length field holds. */
  datatype Link = Link(addr: nat, len: nat)

  function Field(len: nat): (f: nat)
    ensures f <= len && (f == len <==> len < LINK_FIELD)
    ensures f < LINK_FIELD && (len - f) % LINK_FIELD == 0
  {
    len % LINK_FIELD
  }

  function TableFor(lens: seq<nat>, k: nat): (table: seq<Link>)
    requires k <= |lens|
    ensures |table| == |lens| - k
    decreases |lens| - k
  {
    if k == |lens| then [] else [Link(Start(lens, k), Field(lens[k]))] + TableFor(lens, k + 1)
  }

  /** The loops of aml_aes_sg_dma over a scatter list. */
  method BuildTable(lens: seq<nat>) returns (table: seq<Link>)
    ensures table == TableFor(lens, 0)
  {
    table := [];
    var addr := 0;
    for i := 0 to |lens|
      invariant addr == Start(lens, i) && table + TableFor(lens, i) == TableFor(lens, 0)
    {
      AddAssoc(table, [Link(addr, Field(lens[i]))], TableFor(lens, i + 1));
      table := table + [Link(addr, Field(lens[i]))];
      addr := addr + lens[i];
    }
  }

  /** The cells that a table leads through. */
  function Cells(table: seq<Link>): seq<nat> {
    if table == [] then []
    else seq(table[0].len, i requires 0 <= i < table[0].len => table[0].addr + i) + Cells(table[1..])
  }

  /** Every entry that the first `n` bytes touch has a length field with room for what they
      take of it. */
  ghost predicate Reaches(lens: seq<nat>, n: nat) {
    ReachesFrom(lens, n, 0)
  }

  ghost predicate ReachesFrom(lens: seq<nat>, n: nat, j: nat) {
    forall k :: j <= k < |lens| && Start(lens, k) < n ==> Min(lens[k], n - Start(lens, k)) <= Field(lens[k])
  }

  function Range(lo: nat, hi: nat): (r: seq<nat>)
    requires lo <= hi
    ensures |r| == hi - lo
  {
    seq(hi - lo, i requires 0 <= i < hi - lo => lo + i)
  }

  ghost predicate InOrder(cells: seq<nat>, lo: nat, hi: nat)
    requires lo <= hi
  {
    |cells| >= hi - lo && cells[..hi - lo] == Range(lo, hi)
  }

  lemma {:induction false} CellsAbove(lens: seq<nat>, k: nat)
    requires k <= |lens|
    ensures forall i :: 0 <= i < |Cells(TableFor(lens, k))| ==>
      Start(lens, k) <= Cells(TableFor(lens, k))[i] < Start(lens, |lens|)
    decreases |lens| - k
  {
    if k == |lens| {
    } else {
      CellsAbove(lens, k + 1);
      StartMonotone(lens, k + 1, |lens|);
      assert TableFor(lens, k)[1..] == TableFor(lens, k + 1);
    }
  }

  lemma CellsInside(lens: seq<nat>, k: nat)
    requires k <= |lens|
    ensures forall i :: 0 <= i < |Cells(TableFor(lens, k))| ==> Cells(TableFor(lens, k))[i] < Start(lens, |lens|)
  {
    CellsAbove(lens, k);
  }

  lemma CellsStep(lens: seq<nat>, k: nat)
    requires k < |lens|
    ensures Start(lens, k + 1) == Start(lens, k) + lens[k]
    ensures Cells(TableFor(lens, k)) ==
            Range(Start(lens, k), Start(lens, k) + Field(lens[k])) + Cells(TableFor(lens, k + 1))
  {
    assert TableFor(lens, k)[1..] == TableFor(lens, k + 1);
  }

  lemma CellsEnd(lens: seq<nat>, n: nat)
    requires n == Start(lens, |lens|)
    ensures InOrder(Cells(TableFor(lens, |lens|)), n, n) && ReachesFrom(lens, n, |lens|)
  {
    hide Start;
  }

  lemma {:induction false} CellsFromIff(lens: seq<nat>, n: nat, k: nat)
    requires k <= |lens| && Start(lens, k) <= n <= Start(lens, |lens|)
    ensures InOrder(Cells(TableFor(lens, k)), Start(lens, k), n) <==> ReachesFrom(lens, n, k)
    decreases |lens| - k
  {
    hide Cells, TableFor, Range, InOrder, ReachesFrom, Field, Start;
    if k == |lens| {
      CellsEnd(lens, n);
    } else {
      var lo, field := Start(lens, k), Field(lens[k]);
      var tail := Cells(TableFor(lens, k + 1));
      CellsStep(lens, k);
      if field >= n - lo {
        EnoughHere(lens, n, k);
        OrderedHere(tail, lo, lo + field, n);
      } else if lens[k] < LINK_FIELD {
        CellsFromIff(lens, n, k + 1);
        Continued(tail, lo, lo + field, n);
        ReachesSplit(lens, n, k);
      } else {
        CellsAbove(lens, k + 1);
        TooShort(lens, n, k);
        Skipping(tail, lo, lo + field, n);
      }
    }
  }

  lemma TooShort(lens: seq<nat>, n: nat, k: nat)
    requires k < |lens| && Start(lens, k) + Field(lens[k]) < n && LINK_FIELD <= lens[k]
    ensures !ReachesFrom(lens, n, k)
  {
    hide Start, Field;
  }

  lemma OrderedHere(tail: seq<nat>, lo: nat, mid: nat, hi: nat)
    requires lo <= hi <= mid
    ensures InOrder(Range(lo, mid) + tail, lo, hi)
  {
    assert (Range(lo, mid) + tail)[..hi - lo] == Range(lo, hi);
  }

  lemma Skipping(tail: seq<nat>, lo: nat, mid: nat, hi: nat)
    requires lo <= mid < hi && forall i :: 0 <= i < |tail| ==> tail[i] > mid
    ensures !InOrder(Range(lo, mid) + tail, lo, hi)
  {
    var all := Range(lo, mid) + tail;
    if |all| >= hi - lo {
      assert all[..hi - lo][mid - lo] == tail[0];
      assert Range(lo, hi)[mid - lo] == mid;
    }
  }

  lemma EnoughHere(lens: seq<nat>, n: nat, k: nat)
    requires k < |lens| && Field(lens[k]) >= n - Start(lens, k) && Start(lens, k) <= n
    ensures ReachesFrom(lens, n, k)
  {
    hide Field, Start;
    StartNext(lens, k);
    forall j | k <= j < |lens| && Start(lens, j) < n ensures Min(lens[j], n - Start(lens, j)) <= Field(lens[j]) {
      if j > k {
        StartMonotone(lens, k + 1, j);
      }
    }
  }

  lemma ReachesSplit(lens: seq<nat>, n: nat, k: nat)
    requires k < |lens| && lens[k] < LINK_FIELD
    ensures ReachesFrom(lens, n, k) <==> ReachesFrom(lens, n, k + 1)
  {
    hide Start, Field;
  }

  lemma Continued(tail: seq<nat>, lo: nat, mid: nat, hi: nat)
    requires lo <= mid <= hi
    ensures InOrder(Range(lo, mid) + tail, lo, hi) <==> InOrder(tail, mid, hi)
  {
    var all := Range(lo, mid) + tail;
    if |tail| >= hi - mid {
      assert all[..hi - lo] == Range(lo, mid) + tail[..hi - mid];
      assert Range(lo, hi) == Range(lo, mid) + Range(mid, hi);
      if all[..hi - lo] == Range(lo, hi) {
        assert tail[..hi - mid] == all[..hi - lo][mid - lo..] == Range(lo, hi)[mid - lo..] == Range(mid, hi);
      }
    }
  }

  /** Following the table leads through the first `n` cells in order exactly when it reaches
      that far. */
  lemma CellsInOrderIff(lens: seq<nat>, n: nat)
    requires n <= Start(lens, |lens|)
    ensures InOrder(Cells(TableFor(lens, 0)), 0, n) <==> Reaches(lens, n)
  {
    CellsFromIff(lens, n, 0);
  }

  /** A single entry of 64 MiB leads nowhere. */
  lemma LongEntryMissed(n: nat)
    requires 0 < n <= LINK_FIELD
    ensures !Reaches([LINK_FIELD], n) && Cells(TableFor([LINK_FIELD], 0)) == []
  {
    var lens := [LINK_FIELD];
    assert Start(lens, 0) == 0 && Field(lens[0]) == 0;
    assert TableFor(lens, 1) == [] && TableFor(lens, 0)[1..] == TableFor(lens, 1);
  }

  method ReadCells(mem: array<byte>, cells: seq<nat>) returns (data: seq<byte>)
    requires forall i :: 0 <= i < |cells| ==> cells[i] < mem.Length
    ensures |data| == |cells| && forall i :: 0 <= i < |cells| ==> data[i] == mem[cells[i]]
    ensures |cells| <= mem.Length && cells == Range(0, |cells|) ==> data == mem[..|cells|]
  {
    data := seq(|cells|, i requires 0 <= i < |cells| reads mem => mem[cells[i]]);
  }

  method WriteCells(mem: array<byte>, cells: seq<nat>, data: seq<byte>)
    requires |data| == |cells| && forall i :: 0 <= i < |cells| ==> cells[i] < mem.Length
    modifies mem
    ensures |cells| <= mem.Length && cells == Range(0, |cells|) ==> mem[..] == Patched(old(mem[..]), 0, data)
  {
    for i := 0 to |cells|
      invariant cells == Range(0, |cells|) ==>
        forall j :: 0 <= j < mem.Length ==> mem[j] == if j < i then data[j] else old(mem[j])
    {
      mem[cells[i]] := data[i];
    }
  }

  lemma FromStart(lens: seq<nat>, n: nat)
    requires ListOk(lens, n)
    ensures CursorOk(lens, 0, 0) && Position(lens, 0, 0) == 0
  {
  }

  lemma FrontOfSlice(s: seq<byte>, a: nat, b: nat, m: nat)
    requires a + m <= b <= |s|
    ensures s[a..a + m] == s[a..b][..m]
  {
  }

  lemma NothingDone(c: Cipher, mode: Mode, iv: Block, before: seq<byte>)
    ensures Crypt(c, mode, iv, []) == [] && NextIv(c, mode, iv, []) == iv
    ensures Patched(before, 0, []) == before
  {
  }

  lemma RestKept(before: seq<byte>, x: seq<byte>, now: seq<byte>, n: nat)
    requires |x| <= n <= |before| && now == Patched(before, 0, x)
    ensures now[|x|..n] == before[|x|..n]
  {
  }

  /** The next chunk continues the output and the chain of the chunks before it. */
  lemma OneMore(c: Cipher, mode: Mode, iv: Block, data: seq<byte>, before: seq<byte>, done: nat, n: nat)
    requires done % BLOCK == 0 && done + n <= |data| && done + n <= |before| && Fits(mode, n)
    ensures Fits(mode, done) && Fits(mode, done + n)
    ensures var iv' := NextIv(c, mode, iv, data[..done]);
      && NextIv(c, mode, iv', data[done..done + n]) == NextIv(c, mode, iv, data[..done + n])
      && Patched(Patched(before, 0, Crypt(c, mode, iv, data[..done])), done, Crypt(c, mode, iv', data[done..done + n]))
         == Patched(before, 0, Crypt(c, mode, iv, data[..done + n]))
  {
    hide Crypt, NextIv, Patched;
    var a, b := data[..done], data[done..done + n];
    assert data[..done + n] == a + b;
    CryptSplit(c, mode, iv, a, b);
    PatchedTwice(before, 0, Crypt(c, mode, iv, a), Crypt(c, mode, NextIv(c, mode, iv, a), b));
  }

  method Overwrite(iv: array<byte>, b: seq<byte>)
    requires iv.Length == |b|
    modifies iv
    ensures iv[..] == b
  {
    Copy(iv, 0, b);
  }

  lemma FrontPatched(m: seq<byte>, data: seq<byte>)
    requires |data| <= |m|
    ensures Patched(m, 0, data)[..|data|] == data
  {
  }

  /** What the engine makes of the first `n` bytes does not depend on the filling. */
  lemma PaddedRun(c: Cipher, mode: Mode, iv: Block, padded: seq<byte>, n: nat)
    requires n <= |padded| == BLOCK * Blocks(n) && Fits(mode, n)
    ensures Fits(mode, |padded|)
    ensures Crypt(c, mode, iv, padded)[..n] == Crypt(c, mode, iv, padded[..n])
    ensures NextIv(c, mode, iv, padded) == NextIv(c, mode, iv, padded[..n])
  {
    if mode == Ctr {
      assert padded == padded[..n] + padded[n..];
      CtrPadded(c, iv, padded[..n], padded[n..]);
    } else {
      assert padded[..n] == padded;
    }
  }
}
