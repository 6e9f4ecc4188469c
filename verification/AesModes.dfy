/** The block cipher modes of NIST SP 800-38A over an abstract 16-byte block cipher: output and
    next initialisation vector, one block after the other, and what that means for whole
    messages. */
module AesModes {
  import opened Ring

  const BLOCK := 16
  const TWO128 := 0x1_0000_0000_0000_0000_0000_0000_0000_0000

  type Block = b: seq<byte> | |b| == 16 witness seq(16, _ => 0)

  datatype Cipher = Cipher(E: Block -> Block, D: Block -> Block)
  datatype Mode = EcbEncrypt | EcbDecrypt | CbcEncrypt | CbcDecrypt | Ctr

  // ---- exclusive or ----

  function XorBits(a: nat, b: nat, n: nat): (x: nat)
    ensures x < Pow2(n)
  {
    if n == 0 then 0 else (a % 2 + b % 2) % 2 + 2 * XorBits(a / 2, b / 2, n - 1)
  }

  function Bit(a: nat, i: nat): nat
    decreases i
  {
    if i == 0 then a % 2 else Bit(a / 2, i - 1)
  }

  /** A bit of the exclusive or is set exactly when the two bits differ. */
  lemma {:induction false} XorBitAt(a: nat, b: nat, n: nat, i: nat)
    requires i < n
    ensures Bit(XorBits(a, b, n), i) == if Bit(a, i) != Bit(b, i) then 1 else 0
    decreases n
  {
    var x := XorBits(a, b, n);
    if i == 0 {
      assert x % 2 == (a % 2 + b % 2) % 2;
    } else {
      assert x / 2 == XorBits(a / 2, b / 2, n - 1);
      XorBitAt(a / 2, b / 2, n - 1, i - 1);
    }
  }

  lemma {:induction false} XorTwice(a: nat, b: nat, n: nat)
    requires a < Pow2(n)
    ensures XorBits(XorBits(a, b, n), b, n) == a
    decreases n
  {
    if n == 0 {
    } else {
      var x := XorBits(a, b, n);
      var low := (a % 2 + b % 2) % 2;
      assert x / 2 == XorBits(a / 2, b / 2, n - 1) && x % 2 == low;
      assert (low + b % 2) % 2 == a % 2;
      XorTwice(a / 2, b / 2, n - 1);
    }
  }

  function XorByte(a: byte, b: byte): byte {
    assert Pow2(8) == 256 by { assert Pow2(4) == 16; }
    XorBits(a, b, 8)
  }

  function Xor(a: seq<byte>, b: seq<byte>): (x: seq<byte>)
    requires |a| <= |b|
    ensures |x| == |a|
  {
    seq(|a|, i requires 0 <= i < |a| => XorByte(a[i], b[i]))
  }

  lemma XorCancels(a: seq<byte>, b: seq<byte>)
    requires |a| <= |b|
    ensures Xor(Xor(a, b), b) == a
  {
    assert Pow2(8) == 256 by { assert Pow2(4) == 16; }
    forall i | 0 <= i < |a| ensures Xor(Xor(a, b), b)[i] == a[i] {
      XorTwice(a[i], b[i], 8);
    }
  }

  // ---- the counter ----

  /** Bytes as a big-endian number. */
  function Value(s: seq<byte>): nat {
    if s == [] then 0 else 256 * Value(s[..|s| - 1]) + s[|s| - 1]
  }

  function Pow256(n: nat): nat {
    if n == 0 then 1 else 256 * Pow256(n - 1)
  }

  /** The standard incrementing function on a byte string. */
  function Inc(s: seq<byte>): (r: seq<byte>)
    ensures |r| == |s|
  {
    if s == [] then []
    else if s[|s| - 1] == 255 then Inc(s[..|s| - 1]) + [0]
    else s[..|s| - 1] + [s[|s| - 1] + 1]
  }

  lemma {:induction false} ValueBound(s: seq<byte>)
    ensures Value(s) < Pow256(|s|)
  {
    if s == [] {
    } else {
      ValueBound(s[..|s| - 1]);
    }
  }

  lemma {:induction false} IncAddsOne(s: seq<byte>)
    ensures Value(Inc(s)) == if Value(s) + 1 == Pow256(|s|) then 0 else Value(s) + 1
  {
    if s == [] {
    } else {
      var init := s[..|s| - 1];
      IncAddsOne(init);
      ValueBound(init);
      if s[|s| - 1] == 255 {
        assert Inc(s)[..|s| - 1] == Inc(init);
      } else {
        assert Inc(s)[..|s| - 1] == init;
      }
    }
  }

  function Add(s: seq<byte>, n: nat): (r: seq<byte>)
    ensures |r| == |s|
    decreases n
  {
    if n == 0 then s else Add(Inc(s), n - 1)
  }

  lemma {:induction false} AddSum(s: seq<byte>, m: nat, n: nat)
    ensures Add(s, m + n) == Add(Add(s, m), n)
    decreases m
  {
    if m == 0 {
    } else {
      AddSum(Inc(s), m - 1, n);
    }
  }

  lemma Pow256Sixteen()
    ensures Pow256(16) == TWO128
  {
    assert Pow256(4) == 0x1_0000_0000;
    assert Pow256(8) == 0x1_0000_0000_0000_0000;
    assert Pow256(12) == 0x1_0000_0000_0000_0000_0000_0000;
  }

  /** Section B.1: `n` increments of a 16-byte counter add `n` modulo 2^128. */
  lemma {:induction false} AddIsModulo(s: Block, n: nat)
    ensures Value(Add(s, n)) == (Value(s) + n) % TWO128
    decreases n
  {
    Pow256Sixteen();
    ValueBound(s);
    hide Pow256, Value, Inc;
    if n == 0 {
    } else {
      IncAddsOne(s);
      AddIsModulo(Inc(s), n - 1);
    }
  }

  // ---- one block ----

  /** ECB and CBC take whole blocks; CTR may end with part of one. */
  predicate Fits(m: Mode, n: nat) {
    m == Ctr || n % BLOCK == 0
  }

  function OutBlock(c: Cipher, m: Mode, iv: Block, x: seq<byte>): (y: seq<byte>)
    requires |x| <= BLOCK && Fits(m, |x|) && |x| > 0
    ensures |y| == |x|
  {
    match m
    case EcbEncrypt => c.E(x)
    case EcbDecrypt => c.D(x)
    case CbcEncrypt => c.E(Xor(x, iv))
    case CbcDecrypt => Xor(c.D(x), iv)
    case Ctr => Xor(x, c.E(iv))
  }

  function Next(c: Cipher, m: Mode, iv: Block, x: seq<byte>): Block
    requires |x| <= BLOCK && Fits(m, |x|) && |x| > 0
  {
    match m
    case EcbEncrypt => iv
    case EcbDecrypt => iv
    case CbcEncrypt => OutBlock(c, m, iv, x)
    case CbcDecrypt => x
    case Ctr => Inc(iv)
  }

  // ---- whole messages ----

  function First(data: seq<byte>): seq<byte> {
    data[..Min(BLOCK, |data|)]
  }

  function Rest(data: seq<byte>): seq<byte> {
    data[Min(BLOCK, |data|)..]
  }

  function Crypt(c: Cipher, m: Mode, iv: Block, data: seq<byte>): (out: seq<byte>)
    requires Fits(m, |data|)
    ensures |out| == |data|
    decreases |data|
  {
    if data == [] then []
    else OutBlock(c, m, iv, First(data)) + Crypt(c, m, Next(c, m, iv, First(data)), Rest(data))
  }

  function NextIv(c: Cipher, m: Mode, iv: Block, data: seq<byte>): Block
    requires Fits(m, |data|)
    decreases |data|
  {
    if data == [] then iv else NextIv(c, m, Next(c, m, iv, First(data)), Rest(data))
  }

  lemma CryptStep(c: Cipher, m: Mode, iv: Block, data: seq<byte>)
    requires Fits(m, |data|) && data != []
    ensures Fits(m, |First(data)|) && Fits(m, |Rest(data)|) && First(data) != []
    ensures Crypt(c, m, iv, data) ==
            OutBlock(c, m, iv, First(data)) + Crypt(c, m, Next(c, m, iv, First(data)), Rest(data))
    ensures NextIv(c, m, iv, data) == NextIv(c, m, Next(c, m, iv, First(data)), Rest(data))
  {
  }

  lemma FirstOfSum(a: seq<byte>, b: seq<byte>)
    requires |a| % BLOCK == 0 && a != []
    ensures First(a + b) == First(a) && Rest(a + b) == Rest(a) + b
    ensures |Rest(a)| % BLOCK == 0 && |Rest(a)| < |a|
  {
  }

  lemma FitsSum(m: Mode, a: nat, b: nat)
    requires a % BLOCK == 0 && Fits(m, b)
    ensures Fits(m, a) && Fits(m, a + b)
  {
  }

  /** Processing in pieces that end on a block boundary is processing at once. */
  lemma {:induction false} CryptSplit(c: Cipher, m: Mode, iv: Block, a: seq<byte>, b: seq<byte>)
    requires |a| % BLOCK == 0 && Fits(m, |b|)
    ensures Crypt(c, m, iv, a + b) == Crypt(c, m, iv, a) + Crypt(c, m, NextIv(c, m, iv, a), b)
    ensures NextIv(c, m, iv, a + b) == NextIv(c, m, NextIv(c, m, iv, a), b)
    decreases |a|
  {
    FitsSum(m, |a|, |b|);
    if a == [] {
      assert a + b == b;
    } else {
      hide Crypt, NextIv, OutBlock, Next, First, Rest, Fits;
      FirstOfSum(a, b);
      CryptStep(c, m, iv, a);
      CryptStep(c, m, iv, a + b);
      var iv' := Next(c, m, iv, First(a));
      CryptSplit(c, m, iv', Rest(a), b);
      AddAssoc(OutBlock(c, m, iv, First(a)), Crypt(c, m, iv', Rest(a)), Crypt(c, m, NextIv(c, m, iv, a), b));
    }
  }

  function Blocks(n: nat): nat {
    (n + BLOCK - 1) / BLOCK
  }

  /** Filling up the last block changes neither the output before it nor the next counter. */
  lemma {:induction false} CtrPadded(c: Cipher, iv: Block, data: seq<byte>, pad: seq<byte>)
    requires |data| + |pad| == BLOCK * Blocks(|data|)
    ensures Crypt(c, Ctr, iv, data + pad)[..|data|] == Crypt(c, Ctr, iv, data)
    ensures NextIv(c, Ctr, iv, data + pad) == NextIv(c, Ctr, iv, data)
    decreases |data|
  {
    if data == [] {
      assert data + pad == [];
    } else if |data| <= BLOCK {
      var all := data + pad;
      assert First(all) == all && Rest(all) == [] && First(data) == data && Rest(data) == [];
      assert OutBlock(c, Ctr, iv, all)[..|data|] == OutBlock(c, Ctr, iv, data);
    } else {
      assert First(data + pad) == First(data) && Rest(data + pad) == Rest(data) + pad;
      CtrPadded(c, Inc(iv), Rest(data), pad);
    }
  }

  /** Counting blocks chunk by chunk is counting them all at once. */
  lemma ChunkCountersAddUp(iv: Block, a: nat, b: nat)
    requires a % BLOCK == 0
    ensures Add(Add(iv, Blocks(a)), Blocks(b)) == Add(iv, Blocks(a + b))
  {
    AddSum(iv, Blocks(a), Blocks(b));
  }

  // ---- sections 6.1, 6.2 and 6.5, block by block ----

  function BlockAt(s: seq<byte>, j: nat): seq<byte>
    requires BLOCK * j <= |s|
  {
    s[BLOCK * j..Min(BLOCK * j + BLOCK, |s|)]
  }

  /** The chaining value in front of block `j`. */
  function ChainAt(m: Mode, iv: Block, data: seq<byte>, out: seq<byte>, j: nat): seq<byte>
    requires BLOCK * j <= |data| == |out|
  {
    match m
    case EcbEncrypt => iv
    case EcbDecrypt => iv
    case CbcEncrypt => if j == 0 then iv else BlockAt(out, j - 1)
    case CbcDecrypt => if j == 0 then iv else BlockAt(data, j - 1)
    case Ctr => Add(iv, j)
  }

  lemma BlockAtShift(s: seq<byte>, j: nat)
    requires 0 < j && BLOCK * j <= |s|
    ensures BlockAt(s, j) == BlockAt(s[BLOCK..], j - 1)
  {
    var t, lo, hi := s[BLOCK..], BLOCK * j, Min(BLOCK * j + BLOCK, |s|);
    assert Min(lo - BLOCK + BLOCK, |t|) == hi - BLOCK;
    assert t[lo - BLOCK..hi - BLOCK] == s[lo..hi];
  }

  lemma {:induction false} ChainAtStep(c: Cipher, m: Mode, iv: Block, data: seq<byte>, j: nat)
    requires Fits(m, |data|) && 0 < j && BLOCK * j < |data|
    ensures var out := Crypt(c, m, iv, data);
            var iv' := Next(c, m, iv, First(data));
      ChainAt(m, iv, data, out, j) == ChainAt(m, iv', Rest(data), Crypt(c, m, iv', Rest(data)), j - 1)
  {
    var out, iv' := Crypt(c, m, iv, data), Next(c, m, iv, First(data));
    CryptStep(c, m, iv, data);
    hide Crypt, OutBlock, Xor, Inc;
    assert out[BLOCK..] == Crypt(c, m, iv', Rest(data)) && out[..BLOCK] == OutBlock(c, m, iv, First(data));
    if j > 1 {
      BlockAtShift(out, j - 1);
      BlockAtShift(data, j - 1);
      hide BlockAt;
    }
  }

  lemma CryptFirst(c: Cipher, m: Mode, iv: Block, data: seq<byte>)
    requires Fits(m, |data|) && data != []
    ensures var out := Crypt(c, m, iv, data);
            var chain := ChainAt(m, iv, data, out, 0);
      |chain| == BLOCK && BlockAt(out, 0) == OutBlock(c, m, chain, BlockAt(data, 0))
  {
    CryptStep(c, m, iv, data);
    hide Crypt, OutBlock, Next;
    var out := Crypt(c, m, iv, data);
    assert BlockAt(data, 0) == First(data);
    assert BlockAt(out, 0) == OutBlock(c, m, iv, First(data));
  }

  /** Every output block is the cipher applied to its input block and chaining value, as the
      standard writes it. */
  lemma {:induction false} CryptAt(c: Cipher, m: Mode, iv: Block, data: seq<byte>, j: nat)
    requires Fits(m, |data|) && BLOCK * j < |data|
    ensures var out := Crypt(c, m, iv, data);
            var chain := ChainAt(m, iv, data, out, j);
      |chain| == BLOCK && BlockAt(out, j) == OutBlock(c, m, chain, BlockAt(data, j))
    decreases j
  {
    if j == 0 {
      CryptFirst(c, m, iv, data);
    } else {
      CryptStep(c, m, iv, data);
      var out, iv' := Crypt(c, m, iv, data), Next(c, m, iv, First(data));
      hide Crypt, OutBlock, Next, ChainAt, BlockAt;
      assert out[BLOCK..] == Crypt(c, m, iv', Rest(data));
      ChainAtStep(c, m, iv, data, j);
      BlockAtShift(out, j);
      BlockAtShift(data, j);
      CryptAt(c, m, iv', Rest(data), j - 1);
    }
  }

  /** Section 6.1: every block goes through the cipher by itself. */
  lemma EcbBytes(c: Cipher, iv: Block, data: seq<byte>, j: nat)
    requires |data| % BLOCK == 0 && BLOCK * j < |data|
    ensures var x: Block := data[BLOCK * j..BLOCK * j + BLOCK];
      && Crypt(c, EcbEncrypt, iv, data)[BLOCK * j..BLOCK * j + BLOCK] == c.E(x)
      && Crypt(c, EcbDecrypt, iv, data)[BLOCK * j..BLOCK * j + BLOCK] == c.D(x)
  {
    CryptAt(c, EcbEncrypt, iv, data, j);
    CryptAt(c, EcbDecrypt, iv, data, j);
  }

  /** The block before block `j` of `s`, or the vector. */
  function BlockBefore(iv: Block, s: seq<byte>, j: nat): Block
    requires BLOCK * j <= |s|
  {
    if j == 0 then iv else s[BLOCK * j - BLOCK..BLOCK * j]
  }

  /** Section 6.2: an output block is the cipher on the input block xor the output block before. */
  lemma CbcEncryptBytes(c: Cipher, iv: Block, data: seq<byte>, j: nat) returns (x: Block)
    requires |data| % BLOCK == 0 && BLOCK * j < |data|
    ensures var out := Crypt(c, CbcEncrypt, iv, data);
      && out[BLOCK * j..BLOCK * j + BLOCK] == c.E(x)
      && forall i :: 0 <= i < BLOCK ==> x[i] == XorByte(data[BLOCK * j + i], BlockBefore(iv, out, j)[i])
  {
    CryptAt(c, CbcEncrypt, iv, data, j);
    hide XorByte, Crypt;
    var out := Crypt(c, CbcEncrypt, iv, data);
    x := Xor(BlockAt(data, j), BlockBefore(iv, out, j));
    assert forall i :: 0 <= i < BLOCK ==> BlockAt(data, j)[i] == data[BLOCK * j + i];
  }

  /** Section 6.2: an output byte is that of the inverse cipher on the input block, xor the input
      block before. */
  lemma CbcDecryptBytes(c: Cipher, iv: Block, data: seq<byte>, j: nat, i: nat)
    requires |data| % BLOCK == 0 && BLOCK * j < |data| && i < BLOCK
    ensures Crypt(c, CbcDecrypt, iv, data)[BLOCK * j + i]
            == XorByte(c.D(data[BLOCK * j..BLOCK * j + BLOCK])[i], BlockBefore(iv, data, j)[i])
  {
    CryptAt(c, CbcDecrypt, iv, data, j);
    hide XorByte, Crypt;
    var out := Crypt(c, CbcDecrypt, iv, data);
    assert out[BLOCK * j + i] == BlockAt(out, j)[i];
  }

  /** Section 6.5: an output byte is the input byte xor the cipher on the counter, which is the
      vector plus the number of the block modulo 2^128. */
  lemma CtrBytes(c: Cipher, iv: Block, data: seq<byte>, j: nat, i: nat) returns (counter: Block)
    requires i < BLOCK && BLOCK * j + i < |data|
    ensures Value(counter) == (Value(iv) + j) % TWO128
    ensures Crypt(c, Ctr, iv, data)[BLOCK * j + i] == XorByte(data[BLOCK * j + i], c.E(counter)[i])
  {
    CryptAt(c, Ctr, iv, data, j);
    AddIsModulo(iv, j);
    hide XorByte, Crypt, Value;
    counter := Add(iv, j);
    var out := Crypt(c, Ctr, iv, data);
    assert out[BLOCK * j + i] == BlockAt(out, j)[i] && data[BLOCK * j + i] == BlockAt(data, j)[i];
  }

  // ---- the next vector in closed form ----

  function Last(s: seq<byte>): seq<byte>
    requires |s| >= BLOCK
  {
    s[|s| - BLOCK..]
  }

  lemma {:induction false} NextCounter(c: Cipher, iv: Block, data: seq<byte>)
    ensures NextIv(c, Ctr, iv, data) == Add(iv, Blocks(|data|))
    decreases |data|
  {
    if data == [] {
    } else {
      CryptStep(c, Ctr, iv, data);
      hide NextIv;
      NextCounter(c, Inc(iv), Rest(data));
      assert |data| > BLOCK ==> Blocks(|data|) == 1 + Blocks(|data| - BLOCK);
    }
  }

  lemma {:induction false} NextIsLastOut(c: Cipher, iv: Block, data: seq<byte>)
    requires |data| % BLOCK == 0 && data != []
    ensures NextIv(c, CbcEncrypt, iv, data) == Last(Crypt(c, CbcEncrypt, iv, data))
    decreases |data|
  {
    CryptStep(c, CbcEncrypt, iv, data);
    hide NextIv, OutBlock;
    if |data| > BLOCK {
      NextIsLastOut(c, Next(c, CbcEncrypt, iv, First(data)), Rest(data));
      hide Crypt;
    } else {
      NextOfNothing(c, CbcEncrypt, Next(c, CbcEncrypt, iv, First(data)));
    }
  }

  lemma {:induction false} NextIsLastIn(c: Cipher, iv: Block, data: seq<byte>)
    requires |data| % BLOCK == 0 && data != []
    ensures NextIv(c, CbcDecrypt, iv, data) == Last(data)
    decreases |data|
  {
    CryptStep(c, CbcDecrypt, iv, data);
    hide NextIv, Crypt, OutBlock;
    if |data| > BLOCK {
      NextIsLastIn(c, First(data), Rest(data));
    } else {
      NextOfNothing(c, CbcDecrypt, First(data));
    }
  }

  lemma NextOfNothing(c: Cipher, m: Mode, iv: Block)
    ensures NextIv(c, m, iv, []) == iv
  {
  }

  lemma {:induction false} NextUnused(c: Cipher, m: Mode, iv: Block, data: seq<byte>)
    requires |data| % BLOCK == 0 && (m == EcbEncrypt || m == EcbDecrypt)
    ensures NextIv(c, m, iv, data) == iv
    decreases |data|
  {
    if data == [] {
    } else {
      NextUnused(c, m, iv, Rest(data));
    }
  }

  // ---- decryption undoes encryption ----

  ghost predicate Inverse(c: Cipher) {
    forall b: Block :: c.D(c.E(b)) == b
  }

  function Opposite(m: Mode): Mode {
    match m
    case EcbEncrypt => EcbDecrypt
    case EcbDecrypt => EcbEncrypt
    case CbcEncrypt => CbcDecrypt
    case CbcDecrypt => CbcEncrypt
    case Ctr => Ctr
  }

  lemma {:induction false} RoundTrip(c: Cipher, m: Mode, iv: Block, data: seq<byte>)
    requires Inverse(c) && Fits(m, |data|) && (m == EcbEncrypt || m == CbcEncrypt || m == Ctr)
    ensures Crypt(c, Opposite(m), iv, Crypt(c, m, iv, data)) == data
    ensures NextIv(c, Opposite(m), iv, Crypt(c, m, iv, data)) == NextIv(c, m, iv, data)
    decreases |data|
  {
    if data == [] {
    } else {
      var x, out := First(data), Crypt(c, m, iv, data);
      var y := OutBlock(c, m, iv, x);
      assert First(out) == y && Rest(out) == Crypt(c, m, Next(c, m, iv, x), Rest(data));
      BlockRoundTrip(c, m, iv, x);
      hide OutBlock, Next, Inverse;
      RoundTrip(c, m, Next(c, m, iv, x), Rest(data));
      assert x + Rest(data) == data;
    }
  }

  lemma BlockRoundTrip(c: Cipher, m: Mode, iv: Block, x: seq<byte>)
    requires Inverse(c) && (m == EcbEncrypt || m == CbcEncrypt || m == Ctr)
    requires 0 < |x| <= BLOCK && Fits(m, |x|)
    ensures OutBlock(c, Opposite(m), iv, OutBlock(c, m, iv, x)) == x
    ensures Next(c, Opposite(m), iv, OutBlock(c, m, iv, x)) == Next(c, m, iv, x)
  {
    match m
    case EcbEncrypt =>
    case CbcEncrypt => XorCancels(x, iv);
    case Ctr => XorCancels(x, c.E(iv));
  }
}
