/** The fixed table of data pipes: admission under a memory budget, ids, closing. */
module PipeTable {
  import opened Kernel

  const SLOTS := 64
  const MAX_ALL_CACHE := 8 * 1024 * 1024

  datatype Status = Closed | Opening | Opened
  datatype Slot = Slot(status: Status, id: u32, mode: u32, toSize: u32, fromSize: u32)

  const EMPTY := Slot(Closed, 0, 0, 0, 0)

  /** A closed slot has neither id nor caches; an open one has an id and two equal caches. */
  predicate SlotOk(s: Slot) {
    if s.status == Closed then s == EMPTY else s.id != 0 && 0 < s.toSize == s.fromSize
  }

  function Sum(slots: seq<Slot>): nat {
    if slots == [] then 0 else slots[0].toSize + slots[0].fromSize + Sum(slots[1..])
  }

  lemma {:induction false} SumUpdate(slots: seq<Slot>, i: nat, s: Slot)
    requires i < |slots|
    ensures Sum(slots[i := s]) == Sum(slots) - slots[i].toSize - slots[i].fromSize + s.toSize + s.fromSize
    decreases |slots|
  {
    if i == 0 {
    } else {
      SumUpdate(slots[1..], i - 1, s);
      assert slots[i := s][1..] == slots[1..][i - 1 := s];
    }
  }

  lemma {:induction false} SumHas(slots: seq<Slot>, i: nat)
    requires i < |slots|
    ensures slots[i].toSize + slots[i].fromSize <= Sum(slots)
    decreases |slots|
  {
    if i == 0 {
    } else {
      SumHas(slots[1..], i - 1);
    }
  }

  ghost predicate InUse(slots: seq<Slot>, id: u32) {
    exists i :: 0 <= i < |slots| && slots[i].id == id
  }

  ghost predicate DistinctIds(slots: seq<Slot>) {
    forall i, j :: 0 <= i < j < |slots| && slots[i].id != 0 ==> slots[i].id != slots[j].id
  }

  ghost predicate AllOk(slots: seq<Slot>) {
    forall i :: 0 <= i < |slots| ==> SlotOk(slots[i])
  }

  /** No id is above the number of pipes opened so far. */
  ghost predicate IdsUpTo(slots: seq<Slot>, opens: nat) {
    forall i :: 0 <= i < |slots| ==> slots[i].id <= opens
  }

  /** The table is sound: the running total is the sum of all caches and within the budget, and
      no two open pipes share an id. `opens` counts the pipes ever admitted. */
  ghost predicate Sound(slots: seq<Slot>, total: u32, maxId: u32, opens: nat) {
    && |slots| == SLOTS && AllOk(slots) && DistinctIds(slots)
    && total == Sum(slots) <= MAX_ALL_CACHE
    && maxId == opens % U32 && (opens < U32 ==> IdsUpTo(slots, opens))
  }

  /** Admission with 32-bit arithmetic tests the budget itself for every size the ioctl lets
      through. */
  lemma AdmissionIsExact(total: u32, exp: u32)
    requires total <= MAX_ALL_CACHE && exp <= MAX_ALL_CACHE
    ensures (total + exp * 2 % U32) % U32 > MAX_ALL_CACHE <==> total + 2 * exp > MAX_ALL_CACHE
  {
  }

  function NextId(maxId: u32): u32 {
    (maxId + 1) % U32
  }

  /** Admitting a pipe under `id` keeps the ids apart exactly when the id is not 0 and not in
      use; before the counter wraps it never is. */
  lemma AdmitKeepsIds(slots: seq<Slot>, k: nat, s: Slot)
    requires k < |slots| && AllOk(slots) && DistinctIds(slots) && slots[k] == EMPTY
    requires s.status != Closed && 0 < s.toSize == s.fromSize
    ensures AllOk(slots[k := s]) && DistinctIds(slots[k := s]) <==> s.id != 0 && !InUse(slots, s.id)
  {
    var after := slots[k := s];
    if s.id != 0 && !InUse(slots, s.id) {
    } else if s.id == 0 {
      assert !SlotOk(after[k]);
    } else {
      var i :| 0 <= i < |slots| && slots[i].id == s.id;
      assert i != k && after[i].id == after[k].id;
      var lo, hi := if i < k then i else k, if i < k then k else i;
      assert after[lo].id == after[hi].id && after[lo].id != 0;
    }
  }

  lemma NewIdIsFree(slots: seq<Slot>, maxId: u32, opens: nat)
    requires maxId == opens % U32 && opens + 1 < U32 && IdsUpTo(slots, opens)
    ensures NextId(maxId) == opens + 1 && !InUse(slots, NextId(maxId))
  {
  }

  /** The first opening pipe, `id` in slot `k`, is now open, and nothing else has changed. */
  ghost predicate OpenedAt(before: seq<Slot>, after: seq<Slot>, k: int, id: u32) {
    && 0 <= k < |before| && before[k].status == Opening && before[k].id == id
    && (forall i :: 0 <= i < k ==> before[i].status != Opening)
    && after == before[k := before[k].(status := Opened)]
  }

  class PipeSet {
    const slots: array<Slot>
    var total: u32
    var maxId: u32
    var backlog: nat
    ghost var opens: nat

    ghost predicate Valid()
      reads this, slots
    {
      slots.Length == SLOTS && backlog <= SLOTS && Sound(slots[..], total, maxId, opens)
    }

    constructor ()
      ensures Valid() && fresh(slots) && backlog == 0 && total == 0
      ensures forall i :: 0 <= i < SLOTS ==> slots[i] == EMPTY
    {
      slots := new Slot[SLOTS](_ => EMPTY);
      total, maxId, backlog, opens := 0, 0, 0, 0;
      new;
      SumEmpty(slots[..]);
    }

    /** tee_ioctl_listen_data_pipe. When the copy faults after `copied` of the four bytes, the
        rest is zero and the limit is not applied. */
    method Listen(value: u32, fault: bool, copied: nat) returns (ok: bool)
      requires Valid() && copied < 4
      modifies this`backlog
      ensures ok == !fault
      ensures ok ==> Valid() && backlog == if 0 < value <= SLOTS then value else SLOTS
      ensures !ok ==> backlog == LowBytes(value, copied)
      ensures Valid() <==> ok || LowBytes(value, copied) <= SLOTS
    {
      if fault {
        backlog := LowBytes(value, copied);
        return false;
      }
      backlog := value;
      if backlog > SLOTS || backlog == 0 {
        backlog := SLOTS;
      }
      return true;
    }

    /** The first slot below the backlog that is closed, if any. */
    method FindClosed() returns (k: int)
      requires Valid()
      ensures -1 <= k < backlog
      ensures k >= 0 ==> slots[k].status == Closed
      ensures forall i :: 0 <= i < (if k < 0 then backlog else k) ==> slots[i].status != Closed
    {
      k := 0;
      while k < backlog
        invariant 0 <= k <= backlog && forall i :: 0 <= i < k ==> slots[i].status != Closed
      {
        if slots[k].status == Closed {
          return;
        }
        k := k + 1;
      }
      k := -1;
    }

    /** get_pipe_by_id */
    method GetPipeById(id: u32) returns (k: int)
      requires Valid()
      ensures -1 <= k < backlog
      ensures k >= 0 ==> slots[k].id == id
      ensures forall i :: 0 <= i < (if k < 0 then backlog else k) ==> slots[i].id != id
    {
      k := 0;
      while k < backlog
        invariant 0 <= k <= backlog && forall i :: 0 <= i < k ==> slots[i].id != id
      {
        if slots[k].id == id {
          return;
        }
        k := k + 1;
      }
      k := -1;
    }

    /** get_adapted_pipe, for the sizes that the open ioctl lets through. `room1` and `room2` say
        whether memory for the two caches can be had; a cache of no bytes never can. */
    method GetAdaptedPipe(exp: u32, mode: u32, room1: bool, room2: bool) returns (k: int)
      requires Valid() && exp <= MAX_ALL_CACHE
      modifies this, slots
      ensures backlog == old(backlog) && -1 <= k < backlog
      ensures k < 0 <==> (forall i :: 0 <= i < backlog ==> old(slots[i]).status != Closed)
                         || old(total) + 2 * exp > MAX_ALL_CACHE || exp == 0 || !room1 || !room2
      ensures k < 0 ==> Valid() && slots[..] == old(slots[..]) && total == old(total) && opens == old(opens)
      ensures k >= 0 ==> old(slots[k]) == EMPTY && opens == old(opens) + 1 && total == old(total) + 2 * exp
      ensures forall i :: 0 <= i < k ==> old(slots[i]).status != Closed
      ensures k >= 0 ==> slots[..] == old(slots[..])[k := Slot(Opening, NextId(old(maxId)), mode, exp, exp)]
      ensures k >= 0 ==> (Valid() <==> NextId(old(maxId)) != 0 && !InUse(old(slots[..]), NextId(old(maxId))))
      ensures old(opens) + 1 < U32 ==> Valid()
    {
      k := FindClosed();
      if k < 0 {
        return;
      }
      AdmissionIsExact(total, exp);
      if (total + exp * 2 % U32) % U32 > MAX_ALL_CACHE {
        return -1;
      }
      if exp == 0 || !room1 || !room2 {
        return -1;
      }
      Admit(k, Slot(Opening, NextId(maxId), mode, exp, exp));
    }

    method Admit(k: nat, s: Slot)
      requires Valid() && k < backlog && slots[k] == EMPTY
      requires s.status == Opening && s.id == NextId(maxId) && 0 < s.toSize == s.fromSize
      requires total + 2 * s.toSize <= MAX_ALL_CACHE
      modifies this, slots
      ensures backlog == old(backlog) && opens == old(opens) + 1 && total == old(total) + 2 * s.toSize
      ensures slots[..] == old(slots[..])[k := s]
      ensures Valid() <==> s.id != 0 && !InUse(old(slots[..]), s.id)
      ensures old(opens) + 1 < U32 ==> Valid()
    {
      ghost var before, ids := slots[..], opens;
      slots[k] := s;
      assert slots[..] == before[k := s];
      total := total + s.toSize * 2;
      maxId := NextId(maxId);
      opens := opens + 1;
      SumUpdate(before, k, s);
      AdmitKeepsIds(before, k, s);
      if ids + 1 < U32 {
        NewIdIsFree(before, ids, ids);
      }
    }

    /** close_pipe_by_id: the pipe with this id is closed and its memory back in the budget. An
        unknown id, and the 0 of closed slots, changes nothing. */
    method ClosePipeById(id: u32)
      requires Valid()
      modifies this, slots
      ensures Valid() && backlog == old(backlog) && opens == old(opens)
      ensures forall i :: 0 <= i < SLOTS ==>
          slots[i] == if i < backlog && id != 0 && old(slots[i]).id == id then EMPTY else old(slots[i])
    {
      var k := GetPipeById(id);
      if k < 0 {
        return;
      }
      assert SlotOk(slots[k]);
      if slots[k].status == Closed {
        return;
      }
      Release(k);
    }

    method Release(k: nat)
      requires Valid() && k < SLOTS && slots[k].status != Closed
      modifies this, slots
      ensures Valid() && backlog == old(backlog) && opens == old(opens)
      ensures slots[..] == old(slots[..])[k := EMPTY]
      ensures forall i :: 0 <= i < SLOTS && i != k ==> old(slots[i]).id != old(slots[k]).id
    {
      ghost var before := slots[..];
      SumHas(before, k);
      SumUpdate(before, k, EMPTY);
      total := total - (slots[k].toSize + slots[k].fromSize);
      slots[k] := EMPTY;
      assert slots[..] == before[k := EMPTY];
    }

    /** tee_ioctl_accept_data_pipe once an opening pipe is there. */
    method Accept(writable: bool) returns (id: u32)
      requires Valid()
      modifies slots
      ensures Valid()
      ensures id == 0 <==> !writable || forall i :: 0 <= i < backlog ==> old(slots[i]).status != Opening
      ensures id == 0 ==> slots[..] == old(slots[..])
      ensures id != 0 ==> writable
      ensures id != 0 ==> exists k :: (0 <= k < backlog && OpenedAt(old(slots[..]), slots[..], k, id))
    {
      var k := 0;
      while k < backlog && slots[k].status != Opening
        invariant 0 <= k <= backlog && forall i :: 0 <= i < k ==> slots[i].status != Opening
      {
        k := k + 1;
      }
      if k == backlog || !writable {
        return 0;
      }
      id := slots[k].id;
      MarkOpened(k);
      assert OpenedAt(old(slots[..]), slots[..], k, id);
    }

    method MarkOpened(k: nat)
      requires Valid() && k < SLOTS && slots[k].status == Opening
      modifies slots
      ensures Valid() && slots[..] == old(slots[..])[k := old(slots[k]).(status := Opened)]
      ensures old(slots[k]).id != 0
    {
      ghost var before := slots[..];
      assert SlotOk(before[k]);
      SumUpdate(before, k, before[k].(status := Opened));
      slots[k] := slots[k].(status := Opened);
      assert slots[..] == before[k := before[k].(status := Opened)];
    }

    /** destroy_data_pipe_set: every slot below the backlog ends closed; with the full backlog
        the budget is whole again. */
    method Destroy()
      requires Valid()
      modifies this, slots
      ensures Valid() && backlog == old(backlog)
      ensures forall i :: 0 <= i < SLOTS ==> slots[i] == if i < backlog then EMPTY else old(slots[i])
      ensures backlog == SLOTS ==> total == 0
    {
      var n := 0;
      while n < backlog
        invariant Valid() && backlog == old(backlog) && 0 <= n <= backlog
        invariant forall i :: 0 <= i < SLOTS ==> slots[i] == if i < n then EMPTY else old(slots[i])
      {
        ghost var before := slots[..];
        assert SlotOk(before[n]);
        assert forall i :: n < i < SLOTS && before[n].id != 0 ==> before[i].id != before[n].id;
        ClosePipeById(slots[n].id);
        n := n + 1;
      }
      if backlog == SLOTS {
        SumEmpty(slots[..]);
      }
    }
  }

  function LowBytes(value: u32, n: nat): nat
    requires n < 4
  {
    if n == 0 then 0 else if n == 1 then value % 0x100 else if n == 2 then value % 0x1_0000 else value % 0x100_0000
  }

  lemma {:induction false} SumEmpty(slots: seq<Slot>)
    requires forall i :: 0 <= i < |slots| ==> slots[i] == EMPTY
    ensures Sum(slots) == 0
    decreases |slots|
  {
    if slots == [] {
    } else {
      SumEmpty(slots[1..]);
    }
  }

  // ---- where the table stops being sound ----

  const NEW_PIPE := Slot(Opening, 0, 0, 4096, 4096)

  /** The empty table with 2^32 - 1 as the last id given is sound. The next pipe gets the id of
      closed slots. */
  lemma NextIdIsZero(slots: seq<Slot>)
    requires |slots| == SLOTS && forall i :: 0 <= i < SLOTS ==> slots[i] == EMPTY
    ensures Sound(slots, 0, 0xffff_ffff, 0xffff_ffff) && NextId(0xffff_ffff) == 0
    ensures !Sound(slots[0 := NEW_PIPE], 8192, 0, 0x1_0000_0000)
  {
    SumEmpty(slots);
    assert !SlotOk(slots[0 := NEW_PIPE][0]);
  }

  /** So is the table in which only the first pipe is open and the last id given is 0. The next
      pipe gets the first one's id too. */
  lemma NextIdIsInUse(slots: seq<Slot>)
    requires |slots| == SLOTS && slots[0] == Slot(Opened, 1, 0, 4096, 4096)
    requires forall i :: 1 <= i < SLOTS ==> slots[i] == EMPTY
    ensures Sound(slots, 8192, 0, 0x1_0000_0000) && NextId(0) == 1
    ensures !Sound(slots[1 := NEW_PIPE.(id := 1)], 16384, 1, 0x1_0000_0001)
  {
    SumEmpty(slots[1..]);
    var after := slots[1 := NEW_PIPE.(id := 1)];
    assert after[0].id == after[1].id == 1;
  }

  /** A backlog of 65 of which only the first byte can be read stays as it is. */
  method ListenOverLimit() returns (pipes: PipeSet)
    ensures fresh(pipes) && pipes.backlog == 65 && !pipes.Valid()
  {
    pipes := new PipeSet();
    var _ := pipes.Listen(65, true, 1);
  }
}
