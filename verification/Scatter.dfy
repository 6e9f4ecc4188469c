/** Scatter lists: a byte string laid out over several entries, and a cursor into it. */
module Scatter {
  import opened Ring

  type List = seq<seq<byte>>

  /** The bytes of all entries, in order. */
  function Flat(list: List): seq<byte> {
    if list == [] then [] else list[0] + Flat(list[1..])
  }

  /** The bytes from the cursor on; `sg == |list|` is the null entry. */
  function Tail(list: List, sg: nat, offset: nat): seq<byte>
    requires sg <= |list| && (sg < |list| ==> offset <= |list[sg]|)
  {
    if sg == |list| then [] else list[sg][offset..] + Flat(list[sg + 1..])
  }

  lemma TailFromStart(list: List)
    requires list != []
    ensures Tail(list, 0, 0) == Flat(list)
  {
    assert list[0][0..] == list[0];
  }

  /** Passing `n` bytes of the current entry. */
  lemma TailStep(list: List, sg: nat, offset: nat, n: nat)
    requires sg < |list| && offset + n <= |list[sg]|
    ensures Tail(list, sg, offset) == list[sg][offset..offset + n] + Tail(list, sg, offset + n)
  {
    hide Flat;
    var x, rest := list[sg], Flat(list[sg + 1..]);
    assert x[offset..] == x[offset..offset + n] + x[offset + n..];
    AddAssoc(x[offset..offset + n], x[offset + n..], rest);
  }

  /** The end of one entry is the start of the next. */
  lemma TailNext(list: List, sg: nat)
    requires sg < |list|
    ensures Tail(list, sg, |list[sg]|) == Tail(list, sg + 1, 0)
  {
    assert list[sg][|list[sg]|..] == [];
    if sg + 1 < |list| {
      assert list[sg + 1..][0] == list[sg + 1] && list[sg + 1..][1..] == list[sg + 2..];
      assert list[sg + 1][0..] == list[sg + 1];
    }
  }

  lemma {:induction false} FlatAppend(list: List, e: seq<byte>)
    ensures Flat(list + [e]) == Flat(list) + e
  {
    if list == [] {
      assert [e][1..] == [];
    } else {
      FlatAppend(list[1..], e);
      assert (list + [e])[1..] == list[1..] + [e];
    }
  }

  // ---- requests ----

  predicate NoEmptyEntry(list: List) {
    forall i :: 0 <= i < |list| ==> 0 < |list[i]|
  }

  /** The cursor is in place and the list holds the `total` bytes still to be taken. */
  ghost predicate Covers(list: List, sg: nat, offset: nat, total: nat) {
    && NoEmptyEntry(list)
    && sg <= |list| && (sg < |list| ==> offset <= |list[sg]|)
    && total <= |Tail(list, sg, offset)|
    && (total > 0 ==> sg < |list| && offset < |list[sg]|)
  }

  ghost function Pending(list: List, sg: nat, offset: nat, total: nat): (p: seq<byte>)
    requires Covers(list, sg, offset, total)
    ensures |p| == total
  {
    Tail(list, sg, offset)[..total]
  }

  lemma EntryThere(list: List, sg: nat, offset: nat, total: nat)
    requires Covers(list, sg, offset, total) && total > 0
    ensures sg < |list| && offset < |list[sg]|
  {
  }

  lemma PrefixOfSum(a: seq<byte>, t: seq<byte>, n: nat)
    requires |a| <= n <= |a| + |t|
    ensures (a + t)[..n] == a + t[..n - |a|]
  {
  }

  /** Taking `n` bytes of the current entry off a request of `total` bytes. */
  lemma TakeBytes(list: List, sg: nat, offset: nat, total: nat, n: nat)
    requires Covers(list, sg, offset, total) && sg < |list| && n <= total && offset + n <= |list[sg]|
    ensures offset + n < |list[sg]| ==>
        && Covers(list, sg, offset + n, total - n)
        && Pending(list, sg, offset, total) == list[sg][offset..offset + n] + Pending(list, sg, offset + n, total - n)
    ensures offset + n == |list[sg]| ==>
        && Covers(list, sg + 1, 0, total - n)
        && Pending(list, sg, offset, total) == list[sg][offset..offset + n] + Pending(list, sg + 1, 0, total - n)
  {
    hide Flat;
    TailStep(list, sg, offset, n);
    if offset + n == |list[sg]| {
      TailNext(list, sg);
    }
    PrefixOfSum(list[sg][offset..offset + n], Tail(list, sg, offset + n), total);
  }

  /** The last entry holds all that is left. */
  lemma LastEntryCovers(list: List, sg: nat, offset: nat, total: nat)
    requires Covers(list, sg, offset, total) && sg + 1 == |list|
    ensures total <= |list[sg]| - offset
  {
    assert list[sg + 1..] == [];
  }
}
