/** Parameters of a call into the trusted world: user space names shared memory objects, the
    kernel takes a reference to each while it resolves the parameters and gives every one of
    them back when the call ends, however it ends. */
module TeeParams {
  import opened Kernel
  import opened Ring

  const MEMREF_NULL: u64 := 0xffff_ffff_ffff_ffff
  const MAX_ARG_SIZE := 1024
  const PARAM_SIZE := 32
  const OPEN_ARG_SIZE := 56
  const INVOKE_ARG_SIZE := 24
  const LOGIN_KERNEL_MIN := 0x8000_0000
  const LOGIN_KERNEL_MAX := 0xBFFF_FFFF

  // Attributes: a type in the low eight bits, a meta flag in bit 8, nothing above.
  const NONE := 0
  const VALUE_INPUT := 1
  const VALUE_OUTPUT := 2
  const VALUE_INOUT := 3
  const MEMREF_INPUT := 5
  const MEMREF_INOUT := 7

  function Kind(attr: u64): int {
    attr % 256
  }

  predicate IsMemref(attr: u64) {
    MEMREF_INPUT <= Kind(attr) <= MEMREF_INOUT
  }

  /** One parameter in user memory; reading it may fault. */
  datatype User = Fault | Given(attr: u64, a: u64, b: u64, c: u64)

  /** One resolved parameter. The three words are a union: for a memory reference they are the
      offset, the size and the address of the object, 0 for none. */
  datatype Param = Param(attr: u64, a: u64, b: u64, c: u64)

  const ZERO := Param(0, 0, 0, 0)

  datatype Shm = Shm(ctx: nat, id: int, size: u64, refs: nat)

  /** The objects of a device by address, and the table of their ids. */
  datatype Table = Table(objects: map<u64, Shm>, idr: map<int, u64>)

  /** No object is at address 0, and the id table lists objects under their own ids. */
  ghost predicate TableOk(t: Table) {
    && 0 !in t.objects
    && (forall i :: i in t.idr ==> i >= 0 && t.idr[i] in t.objects && t.objects[t.idr[i]].id == i)
    && (forall k :: k in t.objects && t.objects[k].id in t.idr ==> t.idr[t.objects[k].id] == k)
  }

  ghost predicate Alive(t: Table) {
    forall k :: k in t.objects ==> t.objects[k].refs > 0
  }

  predicate Kept(base: Table, held: multiset<u64>, k: u64) {
    k in base.objects && base.objects[k].refs + held[k] > 0
  }

  /** `base` with the references `held` on top: what nobody refers to is gone. */
  function Counted(base: Table, held: multiset<u64>): Table {
    Table(map k | k in base.objects && Kept(base, held, k) ::
            base.objects[k].(refs := base.objects[k].refs + held[k]),
          map i | i in base.idr && Kept(base, held, base.idr[i]) :: base.idr[i])
  }

  lemma AllKept(t: Table, held: multiset<u64>)
    requires TableOk(t) && Alive(t)
    ensures Counted(t, held).idr == t.idr
    ensures Counted(t, held).objects.Keys == t.objects.Keys
  {
    assert forall i :: i in t.idr ==> Kept(t, held, t.idr[i]);
  }

  /** With nobody else at work the table between calls never changes. */
  lemma NothingHeld(t: Table)
    requires TableOk(t) && Alive(t)
    ensures Counted(t, multiset{}) == t
  {
    AllKept(t, multiset{});
    assert Counted(t, multiset{}).objects == t.objects;
  }

  /** The reference a parameter holds, if any. */
  function Ref(p: Param): multiset<u64> {
    if IsMemref(p.attr) && p.c != 0 then multiset{p.c} else multiset{}
  }

  /** The references that the parameters from `i` on hold, with repetitions. */
  function Held(ps: seq<Param>, i: nat): multiset<u64>
    requires i <= |ps|
    decreases |ps| - i
  {
    if i == |ps| then multiset{} else Ref(ps[i]) + Held(ps, i + 1)
  }

  lemma {:induction false} HeldAfterUpdate(ps: seq<Param>, i: nat, n: nat, p: Param)
    requires i <= |ps| && n < |ps| && Ref(ps[n]) == multiset{}
    ensures Held(ps[n := p], i) == Held(ps, i) + (if i <= n then Ref(p) else multiset{})
    decreases |ps| - i
  {
    if i == |ps| {
    } else {
      HeldAfterUpdate(ps, i + 1, n, p);
      var qs := ps[n := p];
      hide Ref;
      assert Held(qs, i) == Ref(qs[i]) + Held(qs, i + 1);
      assert Held(ps, i) == Ref(ps[i]) + Held(ps, i + 1);
      hide Held;
    }
  }

  lemma {:induction false} HeldSame(ps: seq<Param>, qs: seq<Param>, i: nat)
    requires i <= |ps| == |qs| && forall j :: i <= j < |ps| ==> Ref(ps[j]) == Ref(qs[j])
    ensures Held(ps, i) == Held(qs, i)
    decreases |ps| - i
  {
    if i == |ps| {
    } else {
      HeldSame(ps, qs, i + 1);
    }
  }

  ghost predicate Within(held: multiset<u64>, t: Table) {
    forall k :: k in held ==> k in t.objects
  }

  lemma HeldEnd(ps: seq<Param>)
    ensures Held(ps, |ps|) == multiset{}
  {
  }

  lemma NextHeld(ps: seq<Param>, n: nat)
    requires n < |ps|
    ensures Held(ps, n) == if IsMemref(ps[n].attr) && ps[n].c != 0 then Held(ps, n + 1) + multiset{ps[n].c}
                           else Held(ps, n + 1)
  {
  }

  lemma HeldStored(ps: seq<Param>, n: nat, p: Param)
    requires n < |ps| && ps[n] == ZERO
    ensures Held(ps[n := p], 0) == Held(ps, 0) + Ref(p)
  {
    HeldAfterUpdate(ps, 0, n, p);
  }

  lemma {:induction false} HeldNothing(ps: seq<Param>, i: nat)
    requires i <= |ps| && forall j :: 0 <= j < |ps| ==> ps[j] == ZERO
    ensures Held(ps, i) == multiset{}
    decreases |ps| - i
  {
    if i == |ps| {
    } else {
      HeldNothing(ps, i + 1);
    }
  }

  // ---- what user space may ask for ----

  /** A 64-bit value passed where an int is taken. */
  function ToInt(c: u64): (id: int)
    ensures -0x8000_0000 <= id < 0x8000_0000 && (id - c) % U32 == 0
  {
    var low := c % U32;
    if low < 0x8000_0000 then low else low - U32
  }

  /** The object that context `ctx` knows under `id`, or 0. */
  function Named(t: Table, ctx: nat, id: int): u64 {
    if id in t.idr && t.idr[id] in t.objects && t.objects[t.idr[id]].ctx == ctx then t.idr[id] else 0
  }

  /** A memory reference is acceptable when it names an object of the caller's context and its
      range, as unbounded integers, ends within the object. */
  predicate RangeOk(t: Table, ctx: nat, u: User)
    requires u.Given?
  {
    var k := Named(t, ctx, ToInt(u.c));
    k != 0 && k in t.objects && u.a + u.b <= t.objects[k].size
  }

  predicate Accepts(t: Table, ctx: nat, nullOk: bool, u: User) {
    && u.Given?
    && u.attr < 512
    && (|| NONE <= Kind(u.attr) <= VALUE_INOUT
        || (IsMemref(u.attr) && if u.c == MEMREF_NULL then nullOk else RangeOk(t, ctx, u)))
  }

  function Refusal(u: User): int {
    if u.Fault? then EFAULT else EINVAL
  }

  /** What an accepted parameter becomes. Outputs carry no words in. */
  function Meaning(t: Table, ctx: nat, u: User): Param
    requires u.Given?
  {
    if IsMemref(u.attr) then
      Param(u.attr, u.a, u.b, if u.c == MEMREF_NULL then 0 else Named(t, ctx, ToInt(u.c)))
    else if Kind(u.attr) == VALUE_INPUT || Kind(u.attr) == VALUE_INOUT then
      Param(u.attr, u.a, u.b, u.c)
    else
      Param(u.attr, 0, 0, 0)
  }

  /** In table `t`, `id` is listed and leads to an object of context `ctx` at address `k`. */
  predicate Owns(t: Table, ctx: nat, id: int, k: u64) {
    id in t.idr && t.idr[id] == k && k in t.objects && t.objects[k].ctx == ctx && t.objects[k].id == id
  }

  /** In table `t` context `ctx` may pass `u`, and it becomes `p`. An attribute is a kind in eight
      bits and one flag. Values go in as they are, outputs as zeros. A memory reference is the
      null one, where the context may use it, or lies within an object of the caller's own. */
  predicate Allowed(t: Table, ctx: nat, nullOk: bool, u: User, p: Param) {
    && u.Given? && u.attr < 512 && p.attr == u.attr
    && var kind := u.attr % 256;
       if kind == 0 || kind == 2 then p.a == 0 && p.b == 0 && p.c == 0
       else if kind == 1 || kind == 3 then p.a == u.a && p.b == u.b && p.c == u.c
       else if kind == 5 || kind == 6 || kind == 7 then
         && p.a == u.a && p.b == u.b
         && if u.c == 0xffff_ffff_ffff_ffff then nullOk && p.c == 0
            else Owns(t, ctx, ToInt(u.c), p.c) && u.a + u.b <= t.objects[p.c].size
       else false
  }

  ghost predicate Refused(t: Table, ctx: nat, nullOk: bool, u: User) {
    forall p :: !Allowed(t, ctx, nullOk, u, p)
  }

  lemma NamedIsOwn(t: Table, ctx: nat, id: int, k: u64)
    requires TableOk(t)
    ensures k != 0 && k == Named(t, ctx, id) <==> Owns(t, ctx, id, k)
    ensures Named(t, ctx, id) != 0 <==>
      id in t.idr && t.idr[id] in t.objects && t.objects[t.idr[id]].ctx == ctx
  {
  }

  /** Exactly the allowed parameters are accepted, with exactly that meaning. */
  lemma AllowedIff(t: Table, ctx: nat, nullOk: bool, u: User, p: Param)
    requires TableOk(t)
    ensures Allowed(t, ctx, nullOk, u, p) <==> Accepts(t, ctx, nullOk, u) && p == Meaning(t, ctx, u)
  {
    if u.Given? {
      NamedIsOwn(t, ctx, ToInt(u.c), p.c);
      NamedIsOwn(t, ctx, ToInt(u.c), Named(t, ctx, ToInt(u.c)));
      hide Named, ToInt, TableOk;
    }
  }

  /** A listed object of another context is refused. */
  lemma OthersRefused(t: Table, ctx: nat, nullOk: bool, u: User, p: Param)
    requires TableOk(t) && u.Given? && IsMemref(u.attr) && u.c != MEMREF_NULL
    requires ToInt(u.c) in t.idr && t.objects[t.idr[ToInt(u.c)]].ctx != ctx
    ensures !Allowed(t, ctx, nullOk, u, p) && !Accepts(t, ctx, nullOk, u) && Refusal(u) == EINVAL
  {
    AllowedIff(t, ctx, nullOk, u, Meaning(t, ctx, u));
  }

  lemma CountedOk(base: Table, held: multiset<u64>)
    requires TableOk(base)
    ensures TableOk(Counted(base, held))
  {
  }

  /** Both tests together reject exactly the ranges that do not fit, the 64-bit sum that wraps
      among them. */
  lemma RangeTestIsExact(a: u64, b: u64, size: u64)
    ensures (a + b) % U64 < a || (a + b) % U64 > size <==> a + b > size
  {
    if a + b >= U64 {
      assert (a + b) % U64 == a + b - U64;
    }
  }

  // ---- the whole call ----

  /** What the trusted world writes back into a parameter: the words of a value, the size of a
      memory reference. */
  function WriteBack(p: Param, o: (u64, u64, u64)): (q: Param)
    ensures Ref(q) == Ref(p)
  {
    if IsMemref(p.attr) then p.(b := o.1)
    else if Kind(p.attr) == NONE then p
    else p.(a := o.0, b := o.1, c := o.2)
  }

  /** A request as it lies in user memory, and whether the memory it needs is there. */
  datatype Request = Request(bufReadable: bool, bufLen: u64, argReadable: bool, login: nat,
                             params: seq<User>, memory: bool, resultsWritable: bool, paramsWritable: bool)

  datatype Reply = Reply(rc: int, out: seq<(u64, u64, u64)>)

  /** The checks before any parameter is looked at. */
  function Early(r: Request, argSize: nat): (rc: int)
    ensures rc == 0 <==>
      && r.bufReadable && argSize <= r.bufLen <= 1024 && r.argReadable
      && argSize + 32 * |r.params| == r.bufLen && (r.params == [] || r.memory)
    ensures rc == EFAULT <==> !r.bufReadable || (argSize <= r.bufLen <= 1024 && !r.argReadable)
    ensures rc == ENOMEM ==> r.params != [] && !r.memory
    ensures rc == 0 || rc == EFAULT || rc == EINVAL || rc == ENOMEM
  {
    if !r.bufReadable then EFAULT
    else if r.bufLen > MAX_ARG_SIZE || r.bufLen < argSize then EINVAL
    else if !r.argReadable then EFAULT
    else if argSize + PARAM_SIZE * |r.params| != r.bufLen then EINVAL
    else if r.params != [] && !r.memory then ENOMEM
    else 0
  }

  /** The error of the first parameter that is refused, 0 when there is none. */
  function FirstRefusal(t: Table, ctx: nat, nullOk: bool, us: seq<User>): int {
    if us == [] then 0
    else if !Accepts(t, ctx, nullOk, us[0]) then Refusal(us[0])
    else FirstRefusal(t, ctx, nullOk, us[1..])
  }

  /** What resolving parameters comes to: the error, and the parameters when there is none. */
  datatype Resolution = Resolution(rc: int, ps: seq<Param>)

  /** The tables of the other users of a device as time goes by, counting their references only.
      Between any two of the call's own steps under the mutex the others may have moved on. */
  type World = nat -> Table

  /** Resolving `us` from time `w` on, with `held` already taken. Each parameter is looked up in
      the table of its own time. */
  function Resolve(world: World, w: nat, ctx: nat, nullOk: bool, us: seq<User>, held: multiset<u64>): Resolution
    decreases |us|
  {
    if us == [] then Resolution(0, [])
    else
      var seen := Counted(world(w + 1), held);
      if !Accepts(seen, ctx, nullOk, us[0]) then Resolution(Refusal(us[0]), [])
      else
        var p := Meaning(seen, ctx, us[0]);
        var rest := Resolve(world, w + 2, ctx, nullOk, us[1..], held + Ref(p));
        Resolution(rest.rc, [p] + rest.ps)
  }

  /** What resolving `us` came to: one parameter after the other was allowed in the table of its
      own time, up to the end or up to one that is not, whose error is the result. */
  ghost predicate ResolvedAs(world: World, w: nat, ctx: nat, nullOk: bool, us: seq<User>, held: multiset<u64>,
                             rc: int, ps: seq<Param>) {
    && |ps| <= |us|
    && (forall i {:trigger ps[i]} :: 0 <= i < |ps| ==>
          Allowed(Counted(world(w + 2 * i + 1), held + Held(ps[..i], 0)), ctx, nullOk, us[i], ps[i]))
    && if |ps| == |us| then rc == 0
       else && rc == (if us[|ps|].Fault? then EFAULT else EINVAL)
            && Refused(Counted(world(w + 2 * |ps| + 1), held + Held(ps, 0)), ctx, nullOk, us[|ps|])
  }

  lemma HeldFront(p: Param, ps: seq<Param>)
    ensures Held([p] + ps, 0) == Ref(p) + Held(ps, 0)
  {
    HeldShift([p] + ps, ps, 0);
  }

  lemma {:induction false} HeldShift(qs: seq<Param>, ps: seq<Param>, i: nat)
    requires |qs| == |ps| + 1 && qs[1..] == ps && i <= |ps|
    ensures Held(qs, i + 1) == Held(ps, i)
    decreases |ps| - i
  {
    hide Ref;
    if i == |ps| {
    } else {
      HeldShift(qs, ps, i + 1);
      assert qs[i + 1] == qs[1..][i];
    }
  }

  lemma ResolvedMore(world: World, w: nat, ctx: nat, nullOk: bool, us: seq<User>, held: multiset<u64>, p: Param,
                     rc: int, ps: seq<Param>)
    requires us != [] && Allowed(Counted(world(w + 1), held), ctx, nullOk, us[0], p)
    requires ResolvedAs(world, w + 2, ctx, nullOk, us[1..], held + Ref(p), rc, ps)
    ensures ResolvedAs(world, w, ctx, nullOk, us, held, rc, [p] + ps)
  {
    hide Allowed, Counted, Ref, Refused, Held;
    var qs := [p] + ps;
    forall i | 0 <= i < |qs|
      ensures Allowed(Counted(world(w + 2 * i + 1), held + Held(qs[..i], 0)), ctx, nullOk, us[i], qs[i])
    {
      if i == 0 {
        NoneHeld(held, qs[..0]);
      } else {
        assert qs[i] == ps[i - 1] && us[i] == us[1..][i - 1] && qs[..i] == [p] + ps[..i - 1];
        HeldWith(held, p, ps[..i - 1]);
        assert w + 2 + 2 * (i - 1) + 1 == w + 2 * i + 1;
      }
    }
    HeldWith(held, p, ps);
    if |qs| < |us| {
      assert us[1..][|ps|] == us[|qs|];
      assert w + 2 + 2 * |ps| + 1 == w + 2 * |qs| + 1;
    }
  }

  lemma NoneHeld(held: multiset<u64>, ps: seq<Param>)
    requires ps == []
    ensures held + Held(ps, 0) == held
  {
  }

  lemma HeldWith(held: multiset<u64>, p: Param, ps: seq<Param>)
    ensures held + Held([p] + ps, 0) == held + Ref(p) + Held(ps, 0)
  {
    hide Held, Ref;
    HeldFront(p, ps);
  }

  /** Resolving resolves, in the terms of the tables alone. */
  lemma {:induction false} ResolveIs(world: World, w: nat, ctx: nat, nullOk: bool, us: seq<User>, held: multiset<u64>)
    requires WorldOk(world)
    ensures var all := Resolve(world, w, ctx, nullOk, us, held);
      ResolvedAs(world, w, ctx, nullOk, us, held, all.rc, all.ps)
    decreases |us|
  {
    if us == [] {
    } else {
      var seen := Counted(world(w + 1), held);
      CountedOk(world(w + 1), held);
      hide WorldOk;
      if Accepts(seen, ctx, nullOk, us[0]) {
        var p := Meaning(seen, ctx, us[0]);
        AllowedIff(seen, ctx, nullOk, us[0], p);
        ResolveIs(world, w + 2, ctx, nullOk, us[1..], held + Ref(p));
        var rest := Resolve(world, w + 2, ctx, nullOk, us[1..], held + Ref(p));
        ResolvedMore(world, w, ctx, nullOk, us, held, p, rest.rc, rest.ps);
      } else {
        forall p ensures !Allowed(seen, ctx, nullOk, us[0], p) {
          AllowedIff(seen, ctx, nullOk, us[0], p);
        }
        RefusedAtOnce(world, w, ctx, nullOk, us, held);
      }
    }
  }

  lemma RefusedAtOnce(world: World, w: nat, ctx: nat, nullOk: bool, us: seq<User>, held: multiset<u64>)
    requires us != [] && Refused(Counted(world(w + 1), held), ctx, nullOk, us[0])
    ensures ResolvedAs(world, w, ctx, nullOk, us, held, Refusal(us[0]), [])
  {
    hide Allowed, Counted, Refused;
    assert held + multiset{} == held && Held([], 0) == multiset{};
  }

  /** Resolving has got through the first `n` parameters, which are stored. */
  ghost predicate Underway(world: World, w: nat, ctx: nat, nullOk: bool, us: seq<User>, ps: seq<Param>, n: nat,
                           all: Resolution)
  {
    && |ps| == |us| && n <= |us| && (forall i :: n <= i < |us| ==> ps[i] == ZERO)
    && var rest := Resolve(world, w, ctx, nullOk, us[n..], Held(ps, 0));
       all == Resolution(rest.rc, ps[..n] + rest.ps)
  }

  lemma UnderwayStart(world: World, w: nat, ctx: nat, nullOk: bool, us: seq<User>, ps: seq<Param>)
    requires |ps| == |us| && forall i :: 0 <= i < |ps| ==> ps[i] == ZERO
    ensures Held(ps, 0) == multiset{}
    ensures Underway(world, w, ctx, nullOk, us, ps, 0, Resolve(world, w, ctx, nullOk, us, multiset{}))
  {
    HeldNothing(ps, 0);
    assert us[0..] == us && ps[..0] == [];
  }

  lemma StillZero(world: World, w: nat, ctx: nat, nullOk: bool, us: seq<User>, ps: seq<Param>, n: nat, all: Resolution)
    requires Underway(world, w, ctx, nullOk, us, ps, n, all) && n < |us|
    ensures |ps| == |us| && ps[n] == ZERO
  {
  }

  lemma UnderwayStep(world: World, w: nat, ctx: nat, nullOk: bool, us: seq<User>, ps: seq<Param>, n: nat, all: Resolution)
    requires Underway(world, w, ctx, nullOk, us, ps, n, all) && n < |us|
    requires Accepts(Counted(world(w + 1), Held(ps, 0)), ctx, nullOk, us[n])
    ensures var p := Meaning(Counted(world(w + 1), Held(ps, 0)), ctx, us[n]);
      Underway(world, w + 2, ctx, nullOk, us, ps[n := p], n + 1, all)
  {
    var p := Meaning(Counted(world(w + 1), Held(ps, 0)), ctx, us[n]);
    hide Accepts, Meaning, Counted;
    HeldAfterUpdate(ps, 0, n, p);
    assert us[n..][0] == us[n] && us[n..][1..] == us[n + 1..];
    var rest := Resolve(world, w + 2, ctx, nullOk, us[n + 1..], Held(ps, 0) + Ref(p));
    hide Resolve, Held, Ref;
    assert ps[n := p][..n + 1] == ps[..n] + [p];
    AddAssoc(ps[..n], [p], rest.ps);
  }

  lemma RefusedHere(world: World, w: nat, ctx: nat, nullOk: bool, us: seq<User>, ps: seq<Param>, n: nat, all: Resolution)
    requires Underway(world, w, ctx, nullOk, us, ps, n, all) && n < |us|
    requires !Accepts(Counted(world(w + 1), Held(ps, 0)), ctx, nullOk, us[n])
    ensures all.rc == Refusal(us[n])
  {
    assert us[n..][0] == us[n];
  }

  lemma AllResolved(world: World, w: nat, ctx: nat, nullOk: bool, us: seq<User>, ps: seq<Param>, all: Resolution)
    requires Underway(world, w, ctx, nullOk, us, ps, |us|, all)
    ensures all == Resolution(0, ps)
  {
    assert us[|us|..] == [] && ps[..|us|] == ps;
  }

  /** With nobody else at work, exactly the parameters that the table accepts are accepted. */
  lemma {:induction false} QuietResolve(world: World, base: Table, w: nat, ctx: nat, nullOk: bool, us: seq<User>,
                                        held: multiset<u64>)
    requires TableOk(base) && Alive(base) && forall i: nat :: world(i) == base
    ensures Resolve(world, w, ctx, nullOk, us, held).rc == FirstRefusal(base, ctx, nullOk, us)
    decreases |us|
  {
    if us == [] {
    } else {
      SeenQuietly(base, held, ctx, nullOk, us[0]);
      if Accepts(base, ctx, nullOk, us[0]) {
        hide Accepts;
        QuietResolve(world, base, w + 2, ctx, nullOk, us[1..],
                     held + Ref(Meaning(Counted(base, held), ctx, us[0])));
      }
    }
  }

  lemma SeenQuietly(base: Table, held: multiset<u64>, ctx: nat, nullOk: bool, u: User)
    requires TableOk(base) && Alive(base)
    ensures Accepts(Counted(base, held), ctx, nullOk, u) <==> Accepts(base, ctx, nullOk, u)
  {
    if u.Given? {
      AllKept(base, held);
      hide TableOk, Alive, Kept;
    }
  }

  /** The result once the driver has answered. */
  function Outcome(driver: int, r: Request): int {
    if driver != 0 then driver
    else if !r.resultsWritable || !r.paramsWritable then EFAULT
    else 0
  }

  /** An object that one table of the others has, the next one still has, if only for this call. */
  ghost predicate Outlives(before: Table, after: Table) {
    forall k :: k in before.objects ==> k in after.objects
  }

  ghost predicate WorldOk(world: World) {
    forall i: nat :: TableOk(world(i)) && Outlives(world(i), world(i + 1))
  }

  /** The result of a call: that of the first check that fails, or of the driver. */
  function InvokeResult(hasOp: bool, early: int, found: int, r: Request, driver: int): int {
    if !hasOp then EINVAL else if early != 0 then early else if found != 0 then found else Outcome(driver, r)
  }

  predicate LoginRefused(login: nat) {
    LOGIN_KERNEL_MIN <= login <= LOGIN_KERNEL_MAX
  }

  function OpenResult(hasOp: bool, early: int, found: int, r: Request, driver: int): int {
    if hasOp && early == 0 && found == 0 && LoginRefused(r.login) then EPERM
    else InvokeResult(hasOp, early, found, r, driver)
  }

  /** A parameter that is no memory reference is taken or refused whatever the table says. */
  method ValueFromUser(ghost seen: Table, ghost ctx: nat, ghost nullOk: bool, u: User) returns (rc: int, p: Param)
    requires u.Fault? || u.attr >= 512 || !IsMemref(u.attr)
    ensures rc == if Accepts(seen, ctx, nullOk, u) then 0 else Refusal(u)
    ensures Ref(p) == multiset{} && (rc == 0 ==> p == Meaning(seen, ctx, u))
  {
    p := ZERO;
    if u.Fault? {
      rc := EFAULT;
    } else if u.attr >= 512 {
      rc := EINVAL;
    } else {
      p := p.(attr := u.attr);
      if Kind(u.attr) == NONE || Kind(u.attr) == VALUE_OUTPUT {
        rc := 0;
      } else if Kind(u.attr) == VALUE_INPUT || Kind(u.attr) == VALUE_INOUT {
        rc, p := 0, Param(u.attr, u.a, u.b, u.c);
      } else {
        rc := EINVAL;
      }
    }
  }

  class TeeDevice {
    const world: World
    var now: nat
    var t: Table

    /** The call under way holds `held`, and the table counts exactly that on top of what the
        others hold. */
    ghost predicate Holding(held: multiset<u64>)
      reads this
    {
      WorldOk(world) && t == Counted(world(now), held) && Within(held, world(now))
    }

    /** Between calls the table counts the others' references only. */
    ghost predicate Valid()
      reads this
    {
      Holding(multiset{})
    }

    constructor (world: World)
      requires WorldOk(world)
      ensures Valid() && this.world == world
    {
      this.world := world;
      now := 0;
      t := Counted(world(0), multiset{});
    }

    /** The others move on. */
    method Others(held: multiset<u64>)
      requires Holding(held)
      modifies this
      ensures Holding(held) && now == old(now) + 1
    {
      assert Outlives(world(now), world(now + 1));
      hide Counted, TableOk;
      now := now + 1;
      t := Counted(world(now), held);
    }

    /** tee_shm_get_from_id under the mutex: the address, or 0 for -EINVAL. */
    method GetFromId(ctx: nat, id: int, ghost held: multiset<u64>) returns (k: u64)
      requires Holding(held)
      modifies this`t
      ensures k == Named(old(t), ctx, id)
      ensures k != 0 <==> id in old(t).idr && old(t).idr[id] in old(t).objects && old(t).objects[old(t).idr[id]].ctx == ctx
      ensures k != 0 ==> Owns(old(t), ctx, id, k)
      ensures t == if k == 0 then old(t) else old(t).(objects := t.objects)
      ensures k != 0 ==>
          t.objects == old(t).objects[k := old(t).objects[k].(refs := old(t).objects[k].refs + 1)]
      ensures Holding(if k == 0 then held else held + multiset{k})
      ensures k != 0 ==> k in t.objects && k in old(t).objects && t.objects[k].size == old(t).objects[k].size
    {
      CountedOk(world(now), held);
      NamedIsOwn(t, ctx, id, Named(t, ctx, id));
      k := Named(t, ctx, id);
      if k != 0 {
        ghost var base := world(now);
        assert TableOk(base) && Kept(base, held, k);
        PutMore(base, held, k);
        t := t.(objects := t.objects[k := t.objects[k].(refs := t.objects[k].refs + 1)]);
        GotMore(base, held, k);
      }
    }

    /** tee_shm_put under the mutex: the last reference takes the object off the id table and
        frees it. */
    method Put(k: u64, ghost held: multiset<u64>)
      requires Holding(held + multiset{k})
      modifies this`t
      ensures Holding(held)
    {
      ghost var base := world(now);
      assert TableOk(base) && k in held + multiset{k};
      var shm := t.objects[k];
      if shm.refs == 1 {
        var rest := if shm.id >= 0 then t.idr - {shm.id} else t.idr;
        assert base.objects[k].refs == 0 && held[k] == 0;
        t := Table(t.objects - {k}, rest);
        PutLast(base, held, k);
      } else {
        t := t.(objects := t.objects[k := shm.(refs := shm.refs - 1)]);
        PutMore(base, held, k);
      }
    }

    /** One parameter of params_from_user. Only an accepted memory reference keeps the reference
        it took; a parameter refused after its attributes were stored still has no object. */
    method ParamFromUser(ctx: nat, nullOk: bool, u: User, held: multiset<u64>) returns (rc: int, p: Param)
      requires Holding(held)
      modifies this
      ensures now == old(now) + 2
      ensures var seen := Counted(world(old(now) + 1), held);
        && rc == (if Accepts(seen, ctx, nullOk, u) then 0 else Refusal(u))
        && (rc == 0 ==> p == Meaning(seen, ctx, u))
      ensures var seen := Counted(world(old(now) + 1), held);
        if rc == 0 then Allowed(seen, ctx, nullOk, u, p)
        else rc == (if u.Fault? then EFAULT else EINVAL) && Refused(seen, ctx, nullOk, u)
      ensures rc != 0 ==> Ref(p) == multiset{}
      ensures Holding(held + Ref(p))
    {
      hide WorldOk, Counted, Within, Accepts, Meaning, Allowed, Ref;
      SeenAllowed(world, now + 1, held, ctx, nullOk, u);
      rc, p := ParamByKind(ctx, nullOk, u, held);
    }

    method ParamByKind(ctx: nat, nullOk: bool, u: User, held: multiset<u64>) returns (rc: int, p: Param)
      requires Holding(held)
      modifies this
      ensures now == old(now) + 2
      ensures var seen := Counted(world(old(now) + 1), held);
        && rc == (if Accepts(seen, ctx, nullOk, u) then 0 else Refusal(u))
        && (rc == 0 ==> p == Meaning(seen, ctx, u))
      ensures rc != 0 ==> Ref(p) == multiset{}
      ensures Holding(held + Ref(p))
    {
      hide WorldOk, Counted, Within, RangeOk, Named, Owns;
      Others(held);
      assert held + multiset{} == held;
      if !u.Fault? && u.attr < 512 && IsMemref(u.attr) {
        var k;
        rc, k := Memref(ctx, nullOk, u, held);
        p := if rc == 0 then Param(u.attr, u.a, u.b, k) else ZERO.(attr := u.attr);
      } else {
        rc, p := ValueFromUser(Counted(world(now), held), ctx, nullOk, u);
        Others(held);
      }
    }

    /** The reference to an object out of range is given back under the mutex once more. */
    method Memref(ctx: nat, nullOk: bool, u: User, held: multiset<u64>) returns (rc: int, k: u64)
      requires Holding(held) && u.Given?
      modifies this
      ensures now == old(now) + 1 && (rc == 0 || rc == EINVAL)
      ensures rc == 0 <==> if u.c == MEMREF_NULL then nullOk else RangeOk(old(t), ctx, u)
      ensures rc == 0 ==> k == if u.c == MEMREF_NULL then 0 else Named(old(t), ctx, ToInt(u.c))
      ensures rc == 0 && u.c != MEMREF_NULL ==>
          Owns(old(t), ctx, ToInt(u.c), k) && u.a + u.b <= old(t).objects[k].size
      ensures u.c != MEMREF_NULL && (forall k :: !Owns(old(t), ctx, ToInt(u.c), k)) ==> rc == EINVAL
      ensures Holding(if rc == 0 && k != 0 then held + multiset{k} else held)
    {
      hide WorldOk, Counted, Within, Named, ToInt, Owns;
      rc, k := EINVAL, 0;
      if u.c == MEMREF_NULL {
        rc := if nullOk then 0 else EINVAL;
        Others(held);
        return;
      }
      k := GetFromId(ctx, ToInt(u.c), held);
      if k == 0 {
        Others(held);
        return;
      }
      var size := t.objects[k].size;
      RangeTestIsExact(u.a, u.b, size);
      Others(held + multiset{k});
      if (u.a + u.b) % U64 < u.a || (u.a + u.b) % U64 > size {
        Put(k, held);
        return;
      }
      rc := 0;
    }

    /** params_from_user, into a zeroed array. Whatever it returns, the references it leaves
        taken are exactly the ones the array holds. */
    method ParamsFromUser(ctx: nat, nullOk: bool, params: array<Param>, us: seq<User>) returns (rc: int)
      requires Valid() && params.Length == |us|
      requires forall i :: 0 <= i < params.Length ==> params[i] == ZERO
      modifies this, params
      ensures rc == Resolve(world, old(now), ctx, nullOk, us, multiset{}).rc
      ensures rc == 0 ==> params[..] == Resolve(world, old(now), ctx, nullOk, us, multiset{}).ps
      ensures rc == 0 ==> ResolvedAs(world, old(now), ctx, nullOk, us, multiset{}, 0, params[..])
      ensures rc != 0 ==> exists ps :: ResolvedAs(world, old(now), ctx, nullOk, us, multiset{}, rc, ps)
      ensures Holding(Held(params[..], 0))
    {
      hide WorldOk, Counted, Held, Ref, Accepts, Meaning, Within, Resolve, Underway, Refusal, Allowed, ResolvedAs;
      ResolveIs(world, now, ctx, nullOk, us, multiset{});
      ghost var all := Resolve(world, now, ctx, nullOk, us, multiset{});
      UnderwayStart(world, now, ctx, nullOk, us, params[..]);
      var n := 0;
      while n < |us|
        invariant 0 <= n <= |us| && Holding(Held(params[..], 0))
        invariant Underway(world, now, ctx, nullOk, us, params[..], n, all)
      {
        ghost var ps, w := params[..], now;
        var p;
        rc, p := ParamFromUser(ctx, nullOk, us[n], Held(params[..], 0));
        StillZero(world, w, ctx, nullOk, us, ps, n, all);
        HeldStored(ps, n, p);
        params[n] := p;
        assert params[..] == ps[n := p];
        if rc != 0 {
          RefusalIsError(us[n]);
          RefusedHere(world, w, ctx, nullOk, us, ps, n, all);
          return;
        }
        RefusalIsError(us[n]);
        UnderwayStep(world, w, ctx, nullOk, us, ps, n, all);
        n := n + 1;
      }
      AllResolved(world, now, ctx, nullOk, us, params[..], all);
      return 0;
    }

    /** The end of every call: one reference less for each memory reference that has an object.
        Every object it touches is still there, since the array holds a reference to it. */
    method PutParams(params: array<Param>)
      requires Holding(Held(params[..], 0))
      modifies this
      ensures Valid()
    {
      HeldEnd(params[..]);
      hide Counted, Within, Held, WorldOk, IsMemref;
      var ps := params[..];
      var n := 0;
      while n < params.Length
        invariant 0 <= n <= params.Length && Holding(Held(ps, n))
      {
        NextHeld(ps, n);
        Others(Held(ps, n));
        if IsMemref(params[n].attr) && params[n].c != 0 {
          Put(params[n].c, Held(ps, n + 1));
        }
        n := n + 1;
      }
    }

    /** The driver runs: the trusted world fills in its results, and the others move on. */
    method Driver(params: array<Param>, r: Reply)
      requires Holding(Held(params[..], 0))
      modifies this, params
      ensures Holding(Held(params[..], 0))
    {
      hide Counted, Within, Ref, Held, WriteBack, WorldOk;
      ghost var ps := params[..];
      for n := 0 to params.Length
        invariant forall i :: 0 <= i < params.Length ==> Ref(params[i]) == Ref(ps[i])
        invariant Holding(Held(ps, 0))
      {
        if n < |r.out| {
          params[n] := WriteBack(params[n], r.out[n]);
        }
      }
      HeldSame(ps, params[..], 0);
      Others(Held(params[..], 0));
    }

    /** tee_ioctl_open_session. The call leaves none of its references behind, on any path and
        whatever the others do between its steps, and a session stays open only when user space
        got to know of it. */
    method OpenSession(ctx: nat, nullOk: bool, hasOpen: bool, hasClose: bool, r: Request, reply: Reply)
      returns (rc: int, reached: bool, session: bool, ghost passed: seq<Param>)
      requires Valid()
      modifies this
      ensures Valid()
      ensures reached ==> ResolvedAs(world, old(now), ctx, nullOk, r.params, multiset{}, 0, passed)
      ensures rc == 0 <==> reached && reply.rc == 0 && r.resultsWritable && r.paramsWritable
      ensures reached && reply.rc != 0 ==> rc == reply.rc
      ensures var found := Resolve(world, old(now), ctx, nullOk, r.params, multiset{}).rc;
        && reached == (hasOpen && Early(r, OPEN_ARG_SIZE) == 0 && found == 0 && !(0x8000_0000 <= r.login < 0xC000_0000))
        && rc == OpenResult(hasOpen, Early(r, OPEN_ARG_SIZE), found, r, reply.rc)
      ensures session <==> reached && reply.rc == 0 && (rc == 0 || !hasClose)
    {
      hide Counted, Within, WorldOk, Resolve, Held, ResolvedAs;
      ResolveIs(world, now, ctx, nullOk, r.params, multiset{});
      session, reached, passed := false, false, [];
      if !hasOpen {
        return EINVAL, false, false, [];
      }
      rc := Early(r, OPEN_ARG_SIZE);
      if rc != 0 {
        return;
      }
      var params := new Param[|r.params|](_ => ZERO);
      rc := ParamsFromUser(ctx, nullOk, params, r.params);
      if rc == 0 && LoginRefused(r.login) {
        rc := EPERM;
      }
      if rc == 0 {
        reached, passed := true, params[..];
        Driver(params, reply);
        rc, session := Outcome(reply.rc, r), reply.rc == 0;
      }
      if rc != 0 && session && hasClose {
        session := false;
      }
      PutParams(params);
    }

    /** tee_ioctl_invoke */
    method Invoke(ctx: nat, nullOk: bool, hasInvoke: bool, r: Request, reply: Reply)
      returns (rc: int, reached: bool, ghost passed: seq<Param>)
      requires Valid()
      modifies this
      ensures Valid()
      ensures reached ==> ResolvedAs(world, old(now), ctx, nullOk, r.params, multiset{}, 0, passed)
      ensures rc == 0 <==> reached && reply.rc == 0 && r.resultsWritable && r.paramsWritable
      ensures reached && reply.rc != 0 ==> rc == reply.rc
      ensures var found := Resolve(world, old(now), ctx, nullOk, r.params, multiset{}).rc;
        && reached == (hasInvoke && Early(r, INVOKE_ARG_SIZE) == 0 && found == 0)
        && rc == InvokeResult(hasInvoke, Early(r, INVOKE_ARG_SIZE), found, r, reply.rc)
    {
      hide Counted, Within, WorldOk, Resolve, Held, ResolvedAs;
      ResolveIs(world, now, ctx, nullOk, r.params, multiset{});
      reached, passed := false, [];
      if !hasInvoke {
        return EINVAL, false, [];
      }
      rc := Early(r, INVOKE_ARG_SIZE);
      if rc != 0 {
        return;
      }
      var params := new Param[|r.params|](_ => ZERO);
      rc := ParamsFromUser(ctx, nullOk, params, r.params);
      if rc == 0 {
        reached, passed := true, params[..];
        Driver(params, reply);
        rc := Outcome(reply.rc, r);
      }
      PutParams(params);
    }
  }

  lemma SeenAllowed(world: World, w: nat, held: multiset<u64>, ctx: nat, nullOk: bool, u: User)
    requires WorldOk(world)
    ensures var seen := Counted(world(w), held);
      forall p :: Allowed(seen, ctx, nullOk, u, p) <==> Accepts(seen, ctx, nullOk, u) && p == Meaning(seen, ctx, u)
  {
    CountedOk(world(w), held);
    var seen := Counted(world(w), held);
    hide Counted, Allowed, Accepts, Meaning, WorldOk;
    forall p
      ensures Allowed(seen, ctx, nullOk, u, p) <==> Accepts(seen, ctx, nullOk, u) && p == Meaning(seen, ctx, u)
    {
      AllowedIff(seen, ctx, nullOk, u, p);
    }
  }

  lemma RefusalIsError(u: User)
    ensures Refusal(u) != 0
  {
  }

  lemma GotMore(base: Table, held: multiset<u64>, k: u64)
    requires Kept(base, held, k)
    ensures Counted(base, held + multiset{k}).objects ==
      Counted(base, held).objects[k := base.objects[k].(refs := base.objects[k].refs + held[k] + 1)]
  {
    var more := held + multiset{k};
    forall j ensures Kept(base, held, j) <==> Kept(base, more, j) {
      assert more[j] == if j == k then held[j] + 1 else held[j];
    }
  }

  lemma PutLast(base: Table, held: multiset<u64>, k: u64)
    requires TableOk(base) && k in base.objects && base.objects[k].refs == 0 && held[k] == 0
    ensures Counted(base, held).objects == Counted(base, held + multiset{k}).objects - {k}
    ensures Counted(base, held).idr ==
      if base.objects[k].id >= 0 then Counted(base, held + multiset{k}).idr - {base.objects[k].id}
      else Counted(base, held + multiset{k}).idr
  {
    var more := held + multiset{k};
    forall j ensures Kept(base, held, j) <==> Kept(base, more, j) && j != k {
      assert more[j] == if j == k then held[j] + 1 else held[j];
    }
    PutLastIdr(base, held, more, k);
  }

  lemma PutLastIdr(base: Table, held: multiset<u64>, more: multiset<u64>, k: u64)
    requires TableOk(base) && k in base.objects
    requires forall j :: Kept(base, held, j) <==> Kept(base, more, j) && j != k
    ensures Counted(base, held).idr ==
      if base.objects[k].id >= 0 then Counted(base, more).idr - {base.objects[k].id} else Counted(base, more).idr
  {
    hide Kept;
    var id, few := base.objects[k].id, Counted(base, held).idr;
    forall i ensures i in few <==> i in Counted(base, more).idr && i != id {
      if i in base.idr {
        assert Kept(base, held, base.idr[i]) <==> Kept(base, more, base.idr[i]) && base.idr[i] != k;
        assert base.idr[i] == k <==> i == id;
      }
    }
    assert id < 0 ==> id !in base.idr;
  }

  lemma PutMore(base: Table, held: multiset<u64>, k: u64)
    requires TableOk(base) && k in base.objects && base.objects[k].refs + held[k] > 0
    ensures Counted(base, held).idr == Counted(base, held + multiset{k}).idr
    ensures Counted(base, held).objects ==
      Counted(base, held + multiset{k}).objects[k := base.objects[k].(refs := base.objects[k].refs + held[k])]
  {
    var more := held + multiset{k};
    forall j ensures Kept(base, held, j) <==> Kept(base, more, j) {
      assert more[j] == if j == k then held[j] + 1 else held[j];
    }
    SameIdr(base, held, more);
  }

  lemma SameIdr(base: Table, a: multiset<u64>, b: multiset<u64>)
    requires forall j :: Kept(base, a, j) <==> Kept(base, b, j)
    ensures Counted(base, a).idr == Counted(base, b).idr
  {
    hide Kept;
    forall i | i in base.idr ensures i in Counted(base, a).idr <==> i in Counted(base, b).idr {
      assert Kept(base, a, base.idr[i]) <==> Kept(base, b, base.idr[i]);
    }
  }
}
