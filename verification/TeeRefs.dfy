/** Reference counting in the TEE core: users of the device, references on contexts and on
    shared memory, and the id table. Each step is one stretch of code between taking and
    dropping the device mutex, or one atomic counter operation, so a run is any
    interleaving of any number of callers. */
module TeeRefs {

  /** A table entry: NULL, reserved by some caller, or an object. */
  datatype Slot = Reserved(caller: nat) | Entry(shm: nat)

  /** How far the release of a shared memory object has got. */
  datatype Stage = Live | Unpublished | CtxDropped

  /** Everything that exists or is under way, each under its own identity. */
  datatype Thing =
    | Context(refcount: nat, open: bool)
    | Shm(ctx: nat, refs: nat, id: int, stage: Stage, maker: nat)   // `maker` is the call that created it
    | Handle(shm: nat)                              // one reference to a shared memory object
    | Opening                                       // teedev_open, device reference taken
    | Closing                                       // teedev_close_context, device reference still held
    | Reserving(ctx: nat, id: int)                  // an id is reserved in the table
    | Building(ctx: nat, id: int)                   // and the device reference is taken
    | Pinning(ctx: nat, id: int)                    // and, when registering, a context reference too
    | Undoing(ctx: nat, id: int)                    // a failed caller about to give its id back
    | Publishing(ctx: nat, id: int, shm: nat, handle: nat)   // about to put the object in the table

  datatype World = World(
    things: map<nat, Thing>,
    idr: map<int, Slot>,
    next: nat,              // identities are never used twice
    released: set<nat>)     // shared memory fully released

  datatype State = State(
    w: World,
    desc: bool,             // teedev->desc is not NULL
    numUsers: int,
    basePut: bool,          // tee_device_unregister has dropped its reference
    completed: bool,        // c_no_users
    oops: bool)             // something gone was touched, or a count was raised from 0

  datatype Event =
    | OpenStart | OpenOk(p: nat) | OpenFail(p: nat)
    | Close(c: nat) | CloseDone(p: nat)
    | Reserve(c: nat, id: int) | GetDevice(p: nat) | BuildKernel(c: nat)
    | BuildFail(p: nat) | Undo(p: nat)
    | Pin(p: nat) | PinFail(p: nat)
    | Make(p: nat) | MakePinned(p: nat) | Publish(p: nat)
    | Lookup(c: nat, id: int) | GetFd(h: nat) | Put(h: nat)
    | ReleaseCtx(m: nat) | ReleaseDev(m: nat)
    | Unregister

  // ---- the world ----

  function Set(w: World, k: nat, t: Thing): World {
    w.(things := w.things[k := t])
  }

  function Remove(w: World, k: nat): World {
    w.(things := w.things - {k})
  }

  function New(w: World, t: Thing): World {
    Set(w, w.next, t).(next := w.next + 1)
  }

  predicate IsContext(w: World, c: nat) {
    c in w.things && w.things[c].Context?
  }

  predicate IsOpen(w: World, c: nat) {
    IsContext(w, c) && w.things[c].open
  }

  predicate IsShm(w: World, m: nat) {
    m in w.things && w.things[m].Shm?
  }

  /** A caller inside an operation on a context. */
  predicate Working(t: Thing) {
    t.Reserving? || t.Building? || t.Pinning? || t.Undoing? || t.Publishing?
  }

  // ---- counting references ----

  datatype Query = Users | OfContext(c: nat) | OfShm(m: nat)

  predicate Matches(q: Query, t: Thing) {
    match q
    case Users =>
      t.Opening? || t.Closing? || t.Building? || t.Pinning? || t.Shm? || (t.Context? && t.open)
    case OfContext(c) =>
      (t.Shm? && t.ctx == c && t.stage != CtxDropped) || (t.Pinning? && t.ctx == c)
    case OfShm(m) =>
      t.Handle? && t.shm == m
  }

  function Select(things: map<nat, Thing>, q: Query): set<nat> {
    set k | k in things && Matches(q, things[k])
  }

  function Count(things: map<nat, Thing>, q: Query): nat {
    |Select(things, q)|
  }

  function One(b: bool): nat {
    if b then 1 else 0
  }

  /** The number of matching things when `k` is set aside. */
  function Others(things: map<nat, Thing>, k: nat, q: Query): nat {
    |Select(things, q) - {k}|
  }

  lemma CountSplit(things: map<nat, Thing>, k: nat, q: Query)
    ensures Count(things, q) == Others(things, k, q) + One(k in things && Matches(q, things[k]))
  {
    var rest := Select(things, q) - {k};
    assert Select(things, q) == rest + if k in things && Matches(q, things[k]) then {k} else {};
  }

  lemma OthersSame(things: map<nat, Thing>, k: nat, t: Thing, q: Query)
    ensures Others(things[k := t], k, q) == Others(things, k, q)
  {
    hide Matches;
    var a, b := Select(things[k := t], q) - {k}, Select(things, q) - {k};
    forall j ensures j in a <==> j in b {
    }
    assert a == b;
  }

  lemma SetCount(things: map<nat, Thing>, k: nat, t: Thing, q: Query)
    ensures Count(things[k := t], q) == Count(things, q) - One(k in things && Matches(q, things[k])) + One(Matches(q, t))
  {
    hide Matches, Count, Others, Select;
    CountSplit(things, k, q);
    CountSplit(things[k := t], k, q);
    OthersSame(things, k, t, q);
  }

  lemma RemoveCount(things: map<nat, Thing>, k: nat, q: Query)
    ensures Count(things - {k}, q) == Count(things, q) - One(k in things && Matches(q, things[k]))
  {
    CountSplit(things, k, q);
    hide Matches;
    assert Select(things - {k}, q) == Select(things, q) - {k};
  }

  lemma SetCounts(things: map<nat, Thing>, k: nat, t: Thing)
    ensures forall q {:trigger Count(things[k := t], q)} ::
        Count(things[k := t], q) == Count(things, q) - One(k in things && Matches(q, things[k])) + One(Matches(q, t))
  {
    hide Count, Matches;
    forall q
      ensures Count(things[k := t], q) == Count(things, q) - One(k in things && Matches(q, things[k])) + One(Matches(q, t))
    {
      SetCount(things, k, t, q);
    }
  }

  lemma RemoveCounts(things: map<nat, Thing>, k: nat)
    ensures forall q {:trigger Count(things - {k}, q)} ::
        Count(things - {k}, q) == Count(things, q) - One(k in things && Matches(q, things[k]))
  {
    hide Count, Matches;
    forall q ensures Count(things - {k}, q) == Count(things, q) - One(k in things && Matches(q, things[k])) {
      RemoveCount(things, k, q);
    }
  }

  lemma CountZero(things: map<nat, Thing>, q: Query)
    ensures Count(things, q) == 0 <==> forall k :: k in things ==> !Matches(q, things[k])
  {
    if Count(things, q) == 0 {
      forall k | k in things ensures !Matches(q, things[k]) {
        assert k !in Select(things, q);
      }
    } else {
      var k :| k in Select(things, q);
    }
  }

  lemma Positive(things: map<nat, Thing>, k: nat, q: Query)
    requires k in things && Matches(q, things[k])
    ensures Count(things, q) > 0
  {
    assert k in Select(things, q);
  }

  lemma TwoMatches(things: map<nat, Thing>, k: nat, l: nat, q: Query)
    requires k in things && l in things && k != l && Matches(q, things[k]) && Matches(q, things[l])
    ensures Count(things, q) > 1
  {
    assert Select(things, q) == (Select(things, q) - {k, l}) + {k, l};
  }

  // ---- steps ----

  function Deref(s: State): State {
    s.(oops := s.oops || !s.desc)
  }

  /** tee_device_put */
  function DevicePut(s: State): State {
    if !s.desc then s.(oops := true)
    else s.(numUsers := s.numUsers - 1, desc := s.numUsers != 1, completed := s.completed || s.numUsers == 1)
  }

  /** A successful tee_device_get. */
  function DeviceGet(s: State): State {
    s.(numUsers := s.numUsers + 1)
  }

  /** teedev_ctx_put: the last reference releases the context through desc. */
  function ContextPut(s: State, c: nat): State {
    if !IsContext(s.w, c) || s.w.things[c].refcount == 0 then s.(oops := true)
    else if s.w.things[c].refcount == 1 then Deref(s.(w := Remove(s.w, c)))
    else s.(w := Set(s.w, c, s.w.things[c].(refcount := s.w.things[c].refcount - 1)))
  }

  /** teedev_ctx_get */
  function ContextGet(s: State, c: nat): State {
    if !IsContext(s.w, c) || s.w.things[c].refcount == 0 then s.(oops := true)
    else s.(w := Set(s.w, c, s.w.things[c].(refcount := s.w.things[c].refcount + 1)))
  }

  /** One more reference to `m`, under a new handle. */
  function ShmGet(s: State, m: nat): State {
    if !IsShm(s.w, m) || s.w.things[m].refs == 0 then s.(oops := true)
    else s.(w := New(Set(s.w, m, s.w.things[m].(refs := s.w.things[m].refs + 1)), Handle(m)))
  }

  /** tee_shm_put up to where it drops the mutex. */
  function ShmPut(s: State, h: nat, m: nat): State {
    if !IsShm(s.w, m) || s.w.things[m].refs == 0 then s.(oops := true)
    else if s.w.things[m].refs > 1 then
      s.(w := Set(Remove(s.w, h), m, s.w.things[m].(refs := s.w.things[m].refs - 1)))
    else
      s.(w := Unlist(Remove(s.w, h), m, s.w.things[m]))
  }

  function Unlist(w: World, m: nat, t: Thing): World
    requires t.Shm?
  {
    Set(w, m, t.(refs := 0, stage := Unpublished)).(idr := if t.id >= 0 then w.idr - {t.id} else w.idr)
  }

  /** A new object, the creator's handle to it, and if it has an id its publication. */
  function ShmNew(w: World, p: nat, c: nat, id: int): World {
    var m, h := w.next, w.next + 1;
    var w := New(New(w, Shm(c, 1, id, Live, p)), Handle(m));
    if id >= 0 then Set(w, p, Publishing(c, id, m, h)) else Remove(w, p)
  }

  /** A step can be taken when its caller is at that point. A file stays open while a call on
      it is in progress, and a creator gives up its handle only after publishing. */
  predicate Enabled(s: State, ev: Event) {
    var things := s.w.things;
    match ev
    case OpenStart => s.desc
    case OpenOk(p) => p in things && things[p].Opening?
    case OpenFail(p) => p in things && things[p].Opening?
    case Close(c) => IsOpen(s.w, c) && forall k :: k in things && Working(things[k]) ==> things[k].ctx != c
    case CloseDone(p) => p in things && things[p].Closing?
    case Reserve(c, id) => IsOpen(s.w, c) && id >= 1 && id !in s.w.idr
    case GetDevice(p) => p in things && things[p].Reserving?
    case BuildKernel(c) => IsOpen(s.w, c)
    case BuildFail(p) => p in things && things[p].Building?
    case Undo(p) => p in things && things[p].Undoing?
    case Pin(p) => p in things && things[p].Building?
    case PinFail(p) => p in things && things[p].Pinning?
    case Make(p) => p in things && things[p].Building?
    case MakePinned(p) => p in things && things[p].Pinning?
    case Publish(p) => p in things && things[p].Publishing?
    case Lookup(c, id) => true
    case GetFd(h) => h in things && things[h].Handle?
    case Put(h) => h in things && things[h].Handle?
        && forall k :: k in things && things[k].Publishing? ==> things[k].handle != h
    case ReleaseCtx(m) => IsShm(s.w, m) && things[m].stage == Unpublished
    case ReleaseDev(m) => IsShm(s.w, m) && things[m].stage == CtxDropped
    case Unregister => !s.basePut
  }

  function Step(s: State, ev: Event): State
    requires Enabled(s, ev)
  {
    var w, things := s.w, s.w.things;
    match ev
    case OpenStart => DeviceGet(s).(w := New(w, Opening))
    case OpenOk(p) => Deref(s).(w := Set(w, p, Context(1, true)))
    case OpenFail(p) => DevicePut(s).(w := Remove(w, p))
    case Close(c) =>
      var s' := ContextPut(s.(w := Set(w, c, things[c].(open := false))), c);
      s'.(w := New(s'.w, Closing))
    case CloseDone(p) => DevicePut(s).(w := Remove(w, p))
    case Reserve(c, id) => s.(w := New(w, Reserving(c, id)).(idr := w.idr[id := Reserved(w.next)]))
    case GetDevice(p) =>
      if s.desc then DeviceGet(s).(w := Set(w, p, Building(things[p].ctx, things[p].id)))
      else s.(w := Set(w, p, Undoing(things[p].ctx, things[p].id)))
    case BuildKernel(c) =>
      if s.desc then DeviceGet(s).(w := New(w, Building(c, -1))) else s
    case BuildFail(p) =>
      DevicePut(s).(w := if things[p].id >= 0 then Set(w, p, Undoing(things[p].ctx, things[p].id)) else Remove(w, p))
    case Undo(p) => s.(w := Remove(w, p).(idr := w.idr - {things[p].id}))
    case Pin(p) =>
      var s' := ContextGet(Deref(s), things[p].ctx);
      s'.(w := Set(s'.w, p, Pinning(things[p].ctx, things[p].id)))
    case PinFail(p) =>
      var s' := ContextPut(s, things[p].ctx);
      s'.(w := Set(s'.w, p, Building(things[p].ctx, things[p].id)))
    case Make(p) =>
      var s' := ContextGet(s, things[p].ctx);
      s'.(w := ShmNew(s'.w, p, things[p].ctx, things[p].id))
    case MakePinned(p) => Deref(s).(w := ShmNew(w, p, things[p].ctx, things[p].id))
    case Publish(p) => s.(w := Remove(w, p).(idr := w.idr[things[p].id := Entry(things[p].shm)]))
    case Lookup(c, id) =>
      if id !in w.idr || w.idr[id].Reserved? then s
      else if IsShm(w, w.idr[id].shm) && things[w.idr[id].shm].ctx != c then s
      else ShmGet(s, w.idr[id].shm)
    case GetFd(h) =>
      if IsShm(w, things[h].shm) && things[things[h].shm].id < 0 then s else ShmGet(s, things[h].shm)
    case Put(h) => ShmPut(s, h, things[h].shm)
    case ReleaseCtx(m) =>
      ContextPut(Deref(s).(w := Set(w, m, things[m].(stage := CtxDropped))), things[m].ctx)
    case ReleaseDev(m) => DevicePut(s).(w := Remove(w, m).(released := w.released + {m}))
    case Unregister => DevicePut(s).(basePut := true)
  }

  // ---- the invariant: what refers to what ----

  /** What a thing refers to is still there. */
  predicate Anchored(w: World, t: Thing) {
    && (t.Shm? && t.stage != CtxDropped ==> IsContext(w, t.ctx))
    && (t.Handle? ==> IsShm(w, t.shm))
    && (Working(t) ==> IsOpen(w, t.ctx))
    && (t.Publishing? ==>
          && t.id >= 0 && IsShm(w, t.shm) && w.things[t.shm].id == t.id
          && t.handle in w.things && w.things[t.handle] == Handle(t.shm))
  }

  predicate PublishedBy(w: World, m: nat, p: nat) {
    p in w.things && w.things[p].Publishing? && w.things[p].shm == m
  }

  /** A caller's reserved id is kept for it, and a live object with an id can be found
      under it or is about to be published. */
  predicate Listed(w: World, k: nat, t: Thing) {
    && (Working(t) && t.id >= 0 ==> t.id in w.idr && w.idr[t.id] == Reserved(k))
    && (t.Shm? && t.stage == Live && t.id >= 0 ==>
          t.id in w.idr && (w.idr[t.id] == Entry(k) || PublishedBy(w, k, t.maker)))
  }

  predicate KeyOk(w: World, k: nat)
    requires k in w.things
  {
    k < w.next && k !in w.released && Anchored(w, w.things[k]) && Listed(w, k, w.things[k])
  }

  predicate ReservedFor(w: World, k: nat, i: int) {
    k in w.things && Working(w.things[k]) && w.things[k].id == i
  }

  predicate ListedAs(w: World, m: nat, i: int) {
    IsShm(w, m) && w.things[m].id == i && w.things[m].stage == Live
  }

  /** An object found in the table is live and carries that id, and a reserved id belongs to
      a caller that is still at work with it. */
  predicate SlotOk(w: World, i: int)
    requires i in w.idr
  {
    && i >= 0
    && (w.idr[i].Entry? ==> ListedAs(w, w.idr[i].shm, i))
    && (w.idr[i].Reserved? ==> ReservedFor(w, w.idr[i].caller, i))
  }

  ghost predicate Structure(w: World) {
    && (forall k :: k in w.things ==> KeyOk(w, k))
    && (forall i :: i in w.idr ==> SlotOk(w, i))
    && (forall k :: k in w.released ==> k < w.next)
  }

  lemma At(w: World, k: nat)
    requires Structure(w) && k in w.things
    ensures KeyOk(w, k)
  {
  }

  /** Something new that needs no table entry and whose anchor exists. */
  lemma AddStructure(w: World, t: Thing)
    requires Structure(w) && Anchored(w, t)
    requires !t.Shm? && !t.Publishing? && (Working(t) ==> t.id < 0)
    ensures Structure(New(w, t))
  {
  }

  lemma ReserveStructure(w: World, c: nat, id: int)
    requires Structure(w) && IsOpen(w, c) && id >= 0 && id !in w.idr
    ensures Structure(New(w, Reserving(c, id)).(idr := w.idr[id := Reserved(w.next)]))
  {
  }

  predicate Refers(t: Thing, k: nat) {
    || (t.Shm? && t.stage != CtxDropped && t.ctx == k)
    || (t.Handle? && t.shm == k)
    || (Working(t) && t.ctx == k)
    || (t.Publishing? && (t.shm == k || t.handle == k))
  }

  predicate Unreferenced(w: World, k: nat) {
    && (forall j :: j in w.things ==> !Refers(w.things[j], k))
    && (forall i :: i in w.idr ==> w.idr[i] != Entry(k))
  }

  lemma DropStructure(w: World, k: nat)
    requires Structure(w) && k in w.things && Unreferenced(w, k)
    requires !w.things[k].Publishing? && (Working(w.things[k]) ==> w.things[k].id < 0)
    ensures Structure(Remove(w, k))
  {
  }

  /** A thing takes another shape that serves the same references. */
  predicate SameRole(t: Thing, t': Thing) {
    || (t.Context? && t'.Context? && t.open == t'.open)
    || (Working(t) && Working(t') && !t.Publishing? && !t'.Publishing? && t.ctx == t'.ctx && t.id == t'.id)
    || (t.Shm? && t'.Shm? && t'.ctx == t.ctx && t'.id == t.id && t'.stage == t.stage && t'.maker == t.maker)
    || (t.Opening? && t'.Context?)
  }

  lemma ReplaceStructure(w: World, k: nat, t: Thing)
    requires Structure(w) && k in w.things && SameRole(w.things[k], t)
    ensures Structure(Set(w, k, t))
  {
    var w' := Set(w, k, t);
    forall j | j in w'.things ensures KeyOk(w', j) {
      ReplaceKeepsKey(w, k, t, j);
    }
    forall i | i in w'.idr ensures SlotOk(w', i) {
      assert SlotOk(w, i);
    }
  }

  lemma TwoReplaced(w: World, k: nat, t: Thing, l: nat, u: Thing)
    requires Structure(w) && k in w.things && SameRole(w.things[k], t)
    requires k != l && l in w.things && SameRole(w.things[l], u)
    ensures Structure(Set(Set(w, k, t), l, u))
  {
    hide Structure, SameRole;
    ReplaceStructure(w, k, t);
    ReplaceStructure(Set(w, k, t), l, u);
  }

  lemma ReplaceKeepsKey(w: World, k: nat, t: Thing, j: nat)
    requires Structure(w) && k in w.things && SameRole(w.things[k], t) && j in w.things
    ensures KeyOk(Set(w, k, t), j)
  {
    At(w, j);
    At(w, k);
    hide Structure;
  }

  lemma ShutStructure(w: World, c: nat, t: Thing)
    requires Structure(w) && IsContext(w, c) && t.Context?
    requires forall k :: k in w.things && Working(w.things[k]) ==> w.things[k].ctx != c
    ensures Structure(Set(w, c, t))
  {
    var w' := Set(w, c, t);
    forall k | k in w'.things ensures KeyOk(w', k) {
      At(w, k);
      At(w, c);
    }
    forall i | i in w'.idr ensures SlotOk(w', i) {
      assert SlotOk(w, i);
    }
  }

  lemma UnlistStructure(w: World, m: nat)
    requires Structure(w) && IsShm(w, m) && w.things[m].stage == Live
    requires forall k :: k in w.things && w.things[k].Publishing? ==> w.things[k].shm != m
    ensures Structure(Unlist(w, m, w.things[m]))
  {
    var w' := Unlist(w, m, w.things[m]);
    At(w, m);
    forall k | k in w'.things ensures KeyOk(w', k) {
      At(w, k);
    }
    forall i | i in w'.idr ensures SlotOk(w', i) {
      assert SlotOk(w, i);
    }
  }

  lemma DropContextStructure(w: World, m: nat)
    requires Structure(w) && IsShm(w, m) && w.things[m].stage == Unpublished
    ensures Structure(Set(w, m, w.things[m].(stage := CtxDropped)))
  {
  }

  /** As `Structure`, but the object `m` that call `p` has just made is not listed yet. */
  ghost predicate Joining(w: World, p: nat, m: nat) {
    && p in w.things && (w.things[p].Building? || w.things[p].Pinning?)
    && m in w.things && w.things[m] == Shm(w.things[p].ctx, 1, w.things[p].id, Live, p)
    && m < w.next && m !in w.released
    && (forall k :: k in w.things && k != m ==> KeyOk(w, k))
    && (forall i :: i in w.idr ==> SlotOk(w, i))
    && (forall k :: k in w.released ==> k < w.next)
  }

  lemma JoinStructure(w: World, p: nat)
    requires Structure(w) && p in w.things && (w.things[p].Building? || w.things[p].Pinning?)
    ensures Joining(New(w, Shm(w.things[p].ctx, 1, w.things[p].id, Live, p)), p, w.next)
  {
  }

  lemma HandleStructure(w: World, p: nat, m: nat)
    requires Joining(w, p, m)
    ensures Joining(New(w, Handle(m)), p, m)
  {
  }

  lemma MoveOnStructure(w: World, p: nat, m: nat, h: nat)
    requires Joining(w, p, m) && w.things[p].id >= 0 && h in w.things && w.things[h] == Handle(m)
    ensures Structure(Set(w, p, Publishing(w.things[p].ctx, w.things[p].id, m, h)))
  {
    var w' := Set(w, p, Publishing(w.things[p].ctx, w.things[p].id, m, h));
    forall k | k in w'.things ensures KeyOk(w', k) {
      assert k != m ==> KeyOk(w, k);
      assert KeyOk(w, p);
    }
  }

  lemma MoveAwayStructure(w: World, p: nat, m: nat)
    requires Joining(w, p, m) && w.things[p].id < 0
    ensures Structure(Remove(w, p))
  {
    assert KeyOk(w, p);
  }

  lemma InPast(w: World, k: nat)
    requires Structure(w) && k in w.things
    ensures k < w.next
  {
    At(w, k);
  }

  lemma ShmNewStructure(w: World, p: nat)
    requires Structure(w) && p in w.things && (w.things[p].Building? || w.things[p].Pinning?)
    ensures Structure(ShmNew(w, p, w.things[p].ctx, w.things[p].id))
  {
    hide Structure, Joining;
    var t, m := w.things[p], w.next;
    InPast(w, p);
    JoinStructure(w, p);
    var w1 := New(w, Shm(t.ctx, 1, t.id, Live, p));
    var w2 := New(w1, Handle(m));
    HandleStructure(w1, p, m);
    assert p in w2.things && w2.things[p] == t && m + 1 in w2.things && w2.things[m + 1] == Handle(m);
    assert ShmNew(w, p, t.ctx, t.id) ==
      if t.id >= 0 then Set(w2, p, Publishing(t.ctx, t.id, m, m + 1)) else Remove(w2, p);
    hide New, ShmNew, Set, Remove;
    if t.id >= 0 {
      MoveOnStructure(w2, p, m, m + 1);
    } else {
      MoveAwayStructure(w2, p, m);
    }
  }

  lemma PublishStructure(w: World, p: nat)
    requires Structure(w) && p in w.things && w.things[p].Publishing?
    requires w.things[w.things[p].shm].stage == Live
    ensures Structure(Remove(w, p).(idr := w.idr[w.things[p].id := Entry(w.things[p].shm)]))
  {
  }

  lemma UndoStructure(w: World, p: nat)
    requires Structure(w) && p in w.things && w.things[p].Undoing?
    ensures Structure(Remove(w, p).(idr := w.idr - {w.things[p].id}))
  {
  }

  // ---- the invariant: how many ----

  ghost predicate UsersOk(s: State) {
    && s.numUsers == One(!s.basePut) + Count(s.w.things, Users)
    && (s.desc <==> s.numUsers > 0) && (s.completed <==> s.numUsers == 0)
  }

  ghost predicate ContextsOk(w: World) {
    forall c :: c in w.things && w.things[c].Context? ==>
      w.things[c].refcount == One(w.things[c].open) + Count(w.things, OfContext(c)) > 0
  }

  ghost predicate ShmsOk(w: World) {
    forall m :: m in w.things && w.things[m].Shm? ==>
      w.things[m].refs == Count(w.things, OfShm(m)) && (w.things[m].stage == Live <==> w.things[m].refs > 0)
  }

  /** Every counter equals the number of references it stands for, every reference leads to
      something that exists, and nothing has gone wrong yet. */
  ghost predicate Inv(s: State) {
    !s.oops && UsersOk(s) && TallyOk(s.w) && Structure(s.w)
  }

  lemma CallerUnreferenced(w: World, k: nat)
    requires Structure(w) && k in w.things
    requires w.things[k].Opening? || w.things[k].Closing? || Working(w.things[k])
    ensures Unreferenced(w, k)
  {
    forall j | j in w.things ensures !Refers(w.things[j], k) {
      At(w, j);
    }
  }

  lemma FreshKey(w: World)
    requires Structure(w)
    ensures w.next !in w.things
  {
    if w.next in w.things {
      At(w, w.next);
    }
  }

  /** A caller that holds no reference to a context or to shared memory. */
  predicate Neutral(t: Thing) {
    t.Opening? || t.Closing? || (Working(t) && !t.Pinning?)
  }

  /** Contexts and shared memory are counted right. */
  ghost predicate TallyOk(w: World) {
    ContextsOk(w) && ShmsOk(w)
  }

  lemma NeutralSet(w: World, k: nat, t: Thing)
    requires TallyOk(w) && Neutral(t) && (k in w.things ==> Neutral(w.things[k]))
    ensures TallyOk(Set(w, k, t))
    ensures Count(Set(w, k, t).things, Users)
        == Count(w.things, Users) - One(k in w.things && Matches(Users, w.things[k])) + One(Matches(Users, t))
  {
    hide Count;
    SetCounts(w.things, k, t);
  }

  lemma NeutralRemove(w: World, k: nat)
    requires TallyOk(w) && k in w.things && Neutral(w.things[k])
    ensures TallyOk(Remove(w, k))
    ensures Count(Remove(w, k).things, Users) == Count(w.things, Users) - One(Matches(Users, w.things[k]))
  {
    hide Count;
    RemoveCounts(w.things, k);
  }

  // ---- opening and closing ----

  lemma OpenStartKeeps(s: State)
    requires Inv(s) && Enabled(s, OpenStart)
    ensures Inv(Step(s, OpenStart))
  {
    AddStructure(s.w, Opening);
    FreshKey(s.w);
    hide Structure, Count, ContextsOk, ShmsOk;
    NeutralSet(s.w, s.w.next, Opening);
    SameTally(Set(s.w, s.w.next, Opening), New(s.w, Opening));
  }

  lemma OpenTally(w: World, p: nat)
    requires TallyOk(w) && p in w.things && w.things[p].Opening? && Count(w.things, OfContext(p)) == 0
    ensures TallyOk(Set(w, p, Context(1, true)))
    ensures Count(Set(w, p, Context(1, true)).things, Users) == Count(w.things, Users)
  {
    hide Count;
    SetCounts(w.things, p, Context(1, true));
  }

  lemma OpenOkKeeps(s: State, p: nat)
    requires Inv(s) && Enabled(s, OpenOk(p))
    ensures Inv(Step(s, OpenOk(p)))
  {
    ReplaceStructure(s.w, p, Context(1, true));
    CallerUnreferenced(s.w, p);
    CountZero(s.w.things, OfContext(p));
    hide Structure, Count, Unreferenced, ContextsOk, ShmsOk;
    Positive(s.w.things, p, Users);
    OpenTally(s.w, p);
  }

  lemma DropCallerKeeps(s: State, p: nat)
    requires Inv(s) && p in s.w.things && (s.w.things[p].Opening? || s.w.things[p].Closing?)
    ensures Inv(DevicePut(s).(w := Remove(s.w, p)))
  {
    CallerUnreferenced(s.w, p);
    DropStructure(s.w, p);
    hide Structure, Count, ContextsOk, ShmsOk, Unreferenced;
    Positive(s.w.things, p, Users);
    NeutralRemove(s.w, p);
  }

  /** One reference to a context is given up while others remain. */
  lemma CloseMore(s: State, c: nat)
    requires Inv(s) && Enabled(s, Close(c)) && s.w.things[c].refcount > 1
    ensures Inv(Step(s, Close(c)))
  {
    hide Structure, Count, ContextsOk, ShmsOk;
    var t := Context(s.w.things[c].refcount - 1, false);
    var w := Set(s.w, c, t);
    assert s.w.things[c := s.w.things[c].(open := false)][c := t] == w.things;
    assert Step(s, Close(c)) == s.(w := New(w, Closing));
    ShutStructure(s.w, c, t);
    hide Step, Enabled;
    AddStructure(w, Closing);
    FreshKey(s.w);
    ShutTally(s.w, c);
    NeutralSet(w, w.next, Closing);
    SameTally(Set(w, w.next, Closing), New(w, Closing));
  }

  lemma ShutTally(w: World, c: nat)
    requires TallyOk(w) && IsOpen(w, c) && w.things[c].refcount > 1
    ensures var w' := Set(w, c, Context(w.things[c].refcount - 1, false));
        TallyOk(w') && Count(w'.things, Users) == Count(w.things, Users) - 1
  {
    hide Count;
    SetCounts(w.things, c, Context(w.things[c].refcount - 1, false));
  }

  lemma ContextUnreferenced(w: World, c: nat)
    requires Structure(w) && IsContext(w, c) && Count(w.things, OfContext(c)) == 0
    requires forall k :: k in w.things && Working(w.things[k]) ==> w.things[k].ctx != c
    ensures Unreferenced(w, c)
  {
    CountZero(w.things, OfContext(c));
    forall j | j in w.things ensures !Refers(w.things[j], c) {
      At(w, j);
      assert !Matches(OfContext(c), w.things[j]);
    }
  }

  /** The last reference is given up: nothing refers to the context any more. */
  lemma CloseLast(s: State, c: nat)
    requires Inv(s) && Enabled(s, Close(c)) && s.w.things[c].refcount == 1
    ensures Inv(Step(s, Close(c)))
  {
    var w := Remove(s.w, c);
    assert s.w.things[c := s.w.things[c].(open := false)] - {c} == w.things;
    ContextUnreferenced(s.w, c);
    Positive(s.w.things, c, Users);
    assert Step(s, Close(c)) == s.(w := New(w, Closing));
    DropStructure(s.w, c);
    AddStructure(w, Closing);
    FreshKey(s.w);
    hide Structure, Count, Step, Enabled, Unreferenced;
    DropContextTally(s.w, c);
    hide ContextsOk, ShmsOk;
    NeutralSet(w, w.next, Closing);
    SameTally(Set(w, w.next, Closing), New(w, Closing));
  }

  lemma DropContextTally(w: World, c: nat)
    requires TallyOk(w) && IsContext(w, c)
    ensures TallyOk(Remove(w, c))
    ensures Count(Remove(w, c).things, Users) == Count(w.things, Users) - One(w.things[c].open)
  {
    hide Count;
    RemoveCounts(w.things, c);
  }

  // ---- making shared memory ----

  lemma OpenMeansUsers(s: State, c: nat)
    requires UsersOk(s) && IsOpen(s.w, c)
    ensures s.desc
  {
    Positive(s.w.things, c, Users);
  }

  lemma ReserveKeeps(s: State, c: nat, id: int)
    requires Inv(s) && Enabled(s, Reserve(c, id))
    ensures Inv(Step(s, Reserve(c, id)))
  {
    ReserveStructure(s.w, c, id);
    FreshKey(s.w);
    hide Structure, Count, ContextsOk, ShmsOk;
    NeutralSet(s.w, s.w.next, Reserving(c, id));
    SameTally(Set(s.w, s.w.next, Reserving(c, id)), Step(s, Reserve(c, id)).w);
  }

  lemma SameTally(w: World, w': World)
    requires TallyOk(w) && w'.things == w.things
    ensures TallyOk(w')
  {
  }

  lemma GetDeviceKeeps(s: State, p: nat)
    requires Inv(s) && Enabled(s, GetDevice(p))
    ensures Inv(Step(s, GetDevice(p))) && s.desc
  {
    At(s.w, p);
    var t := Building(s.w.things[p].ctx, s.w.things[p].id);
    OpenMeansUsers(s, t.ctx);
    ReplaceStructure(s.w, p, t);
    hide Structure, Count, ContextsOk, ShmsOk;
    NeutralSet(s.w, p, t);
  }

  lemma BuildKernelKeeps(s: State, c: nat)
    requires Inv(s) && Enabled(s, BuildKernel(c))
    ensures Inv(Step(s, BuildKernel(c)))
  {
    AddStructure(s.w, Building(c, -1));
    FreshKey(s.w);
    hide Structure, Count, ContextsOk, ShmsOk;
    NeutralSet(s.w, s.w.next, Building(c, -1));
    SameTally(Set(s.w, s.w.next, Building(c, -1)), New(s.w, Building(c, -1)));
  }

  lemma BuildFailKeeps(s: State, p: nat)
    requires Inv(s) && Enabled(s, BuildFail(p))
    ensures Inv(Step(s, BuildFail(p)))
  {
    var t := s.w.things[p];
    Positive(s.w.things, p, Users);
    if t.id >= 0 {
      ReplaceStructure(s.w, p, Undoing(t.ctx, t.id));
      hide Structure, Count, ContextsOk, ShmsOk;
      NeutralSet(s.w, p, Undoing(t.ctx, t.id));
    } else {
      CallerUnreferenced(s.w, p);
      DropStructure(s.w, p);
      hide Structure, Count, Unreferenced, ContextsOk, ShmsOk;
      NeutralRemove(s.w, p);
    }
  }

  lemma NoIdWithoutCaller(w: World, p: nat)
    requires Structure(w) && p !in w.things
    ensures forall i :: i in w.idr ==> w.idr[i] != Reserved(p)
  {
    forall i | i in w.idr ensures w.idr[i] != Reserved(p) {
      assert SlotOk(w, i);
    }
  }

  lemma UndoKeeps(s: State, p: nat)
    requires Inv(s) && Enabled(s, Undo(p))
    ensures Inv(Step(s, Undo(p)))
    ensures forall i :: i in Step(s, Undo(p)).w.idr ==> Step(s, Undo(p)).w.idr[i] != Reserved(p)
  {
    UndoStructure(s.w, p);
    NoIdWithoutCaller(Step(s, Undo(p)).w, p);
    hide Structure, Count, ContextsOk, ShmsOk;
    NeutralRemove(s.w, p);
    SameTally(Remove(s.w, p), Step(s, Undo(p)).w);
  }

  lemma PinTally(w: World, p: nat, c: nat, id: int)
    requires TallyOk(w) && p in w.things && w.things[p] == Building(c, id) && IsContext(w, c)
    ensures var w' := Set(Set(w, c, w.things[c].(refcount := w.things[c].refcount + 1)), p, Pinning(c, id));
        TallyOk(w') && Count(w'.things, Users) == Count(w.things, Users)
  {
    hide Count;
    var t := w.things[c].(refcount := w.things[c].refcount + 1);
    SetCounts(w.things, c, t);
    SetCounts(w.things[c := t], p, Pinning(c, id));
  }

  lemma PinKeeps(s: State, p: nat)
    requires Inv(s) && Enabled(s, Pin(p))
    ensures Inv(Step(s, Pin(p)))
  {
    var c, id := s.w.things[p].ctx, s.w.things[p].id;
    At(s.w, p);
    OpenMeansUsers(s, c);
    assert s.w.things[c].refcount > 0;
    hide Structure, Count, ContextsOk, ShmsOk, Anchored, Listed;
    var t := s.w.things[c].(refcount := s.w.things[c].refcount + 1);
    TwoReplaced(s.w, c, t, p, Pinning(c, id));
    PinTally(s.w, p, c, id);
  }

  lemma UnpinTally(w: World, p: nat, c: nat, id: int)
    requires TallyOk(w) && p in w.things && w.things[p] == Pinning(c, id) && IsOpen(w, c)
    ensures w.things[c].refcount > 1
    ensures var w' := Set(Set(w, c, w.things[c].(refcount := w.things[c].refcount - 1)), p, Building(c, id));
        TallyOk(w') && Count(w'.things, Users) == Count(w.things, Users)
  {
    hide Count;
    Positive(w.things, p, OfContext(c));
    var t := w.things[c].(refcount := w.things[c].refcount - 1);
    SetCounts(w.things, c, t);
    SetCounts(w.things[c := t], p, Building(c, id));
  }

  lemma PinFailKeeps(s: State, p: nat)
    requires Inv(s) && Enabled(s, PinFail(p))
    ensures Inv(Step(s, PinFail(p)))
  {
    var c, id := s.w.things[p].ctx, s.w.things[p].id;
    hide Structure, Count, ContextsOk, ShmsOk, Listed;
    At(s.w, p);
    UnpinTally(s.w, p, c, id);
    var t := s.w.things[c].(refcount := s.w.things[c].refcount - 1);
    TwoReplaced(s.w, c, t, p, Building(c, id));
  }

  lemma ShmNewCounts(w: World, p: nat, c: nat, id: int)
    requires p in w.things && w.things[p] == Pinning(c, id)
    requires w.next !in w.things && w.next + 1 !in w.things
    ensures forall q {:trigger Count(ShmNew(w, p, c, id).things, q)} ::
        Count(ShmNew(w, p, c, id).things, q) == Count(w.things, q) + One(q == OfShm(w.next))
  {
    hide Count;
    var m, h := w.next, w.next + 1;
    var a := w.things[m := Shm(c, 1, id, Live, p)];
    var b := a[h := Handle(m)];
    SetCounts(w.things, m, Shm(c, 1, id, Live, p));
    SetCounts(a, h, Handle(m));
    if id >= 0 {
      SetCounts(b, p, Publishing(c, id, m, h));
    } else {
      RemoveCounts(b, p);
    }
  }

  lemma ShmNewTally(w: World, p: nat, c: nat, id: int)
    requires TallyOk(w) && p in w.things && w.things[p] == Pinning(c, id)
    requires w.next !in w.things && w.next + 1 !in w.things && Count(w.things, OfShm(w.next)) == 0
    ensures TallyOk(ShmNew(w, p, c, id))
    ensures Count(ShmNew(w, p, c, id).things, Users) == Count(w.things, Users)
  {
    hide Count;
    ShmNewCounts(w, p, c, id);
  }

  lemma FreshShm(w: World)
    requires Structure(w)
    ensures w.next !in w.things && w.next + 1 !in w.things && Count(w.things, OfShm(w.next)) == 0
  {
    forall k | k in w.things ensures k < w.next && !Matches(OfShm(w.next), w.things[k]) {
      At(w, k);
    }
    CountZero(w.things, OfShm(w.next));
  }

  lemma MakePinnedKeeps(s: State, p: nat)
    requires Inv(s) && Enabled(s, MakePinned(p))
    ensures Inv(Step(s, MakePinned(p)))
  {
    hide Structure, Count, ContextsOk, ShmsOk, ShmNew;
    var c, id := s.w.things[p].ctx, s.w.things[p].id;
    At(s.w, p);
    OpenMeansUsers(s, c);
    FreshShm(s.w);
    ShmNewStructure(s.w, p);
    hide KeyOk;
    ShmNewTally(s.w, p, c, id);
  }

  lemma OverwritesCaller(w: World, p: nat, c: nat, id: int)
    requires p < w.next
    ensures ShmNew(Set(w, p, Pinning(c, id)), p, c, id) == ShmNew(w, p, c, id)
  {
    var m, h := w.next, w.next + 1;
    var x := w.things[m := Shm(c, 1, id, Live, p)][h := Handle(m)];
    var y := w.things[p := Pinning(c, id)][m := Shm(c, 1, id, Live, p)][h := Handle(m)];
    if id >= 0 {
      assert x[p := Publishing(c, id, m, h)] == y[p := Publishing(c, id, m, h)];
    } else {
      assert x - {p} == y - {p};
    }
  }

  /** Making a pool object is pinning and making in one go. */
  lemma MakeIsPinThenMake(s: State, p: nat)
    requires Enabled(s, Make(p)) && s.desc && p < s.w.next && s.w.things[p].ctx != p
    requires IsContext(s.w, s.w.things[p].ctx) && s.w.things[s.w.things[p].ctx].refcount > 0
    ensures Enabled(Step(s, Pin(p)), MakePinned(p))
    ensures Step(s, Make(p)) == Step(Step(s, Pin(p)), MakePinned(p))
  {
    var c, id := s.w.things[p].ctx, s.w.things[p].id;
    var w := Set(s.w, c, s.w.things[c].(refcount := s.w.things[c].refcount + 1));
    assert ContextGet(s, c) == s.(w := w) && Deref(s) == s;
    hide ShmNew, ContextGet, Deref, ContextPut, ShmGet, ShmPut, DevicePut;
    assert Step(s, Make(p)) == s.(w := ShmNew(w, p, c, id));
    var s1 := s.(w := Set(w, p, Pinning(c, id)));
    assert Step(s, Pin(p)) == s1;
    assert Step(s1, MakePinned(p)) == s1.(w := ShmNew(s1.w, p, c, id));
    hide Step;
    OverwritesCaller(w, p, c, id);
  }

  lemma MakeKeeps(s: State, p: nat)
    requires Inv(s) && Enabled(s, Make(p))
    ensures Inv(Step(s, Make(p)))
  {
    At(s.w, p);
    OpenMeansUsers(s, s.w.things[p].ctx);
    MakeIsPinThenMake(s, p);
    PinKeeps(s, p);
    hide Inv, Step;
    MakePinnedKeeps(Step(s, Pin(p)), p);
  }

  lemma PublishKeeps(s: State, p: nat)
    requires Inv(s) && Enabled(s, Publish(p))
    ensures Inv(Step(s, Publish(p)))
  {
    At(s.w, p);
    Positive(s.w.things, s.w.things[p].handle, OfShm(s.w.things[p].shm));
    PublishStructure(s.w, p);
    hide Structure, Count, ContextsOk, ShmsOk;
    NeutralRemove(s.w, p);
    SameTally(Remove(s.w, p), Step(s, Publish(p)).w);
  }

  // ---- using and releasing shared memory ----

  lemma GetTally(w: World, m: nat)
    requires TallyOk(w) && IsShm(w, m) && w.things[m].refs > 0 && w.next !in w.things
    ensures var w' := New(Set(w, m, w.things[m].(refs := w.things[m].refs + 1)), Handle(m));
        TallyOk(w') && Count(w'.things, Users) == Count(w.things, Users)
  {
    hide Count;
    var t := w.things[m].(refs := w.things[m].refs + 1);
    SetCounts(w.things, m, t);
    SetCounts(w.things[m := t], w.next, Handle(m));
  }

  lemma GetStructure(w: World, m: nat, t: Thing)
    requires Structure(w) && IsShm(w, m) && SameRole(w.things[m], t) && t.Shm?
    ensures Structure(New(Set(w, m, t), Handle(m))) && w.next !in w.things
  {
    FreshKey(w);
    ReplaceStructure(w, m, t);
    hide Structure;
    AddStructure(Set(w, m, t), Handle(m));
  }

  lemma ShmGetKeeps(s: State, m: nat)
    requires Inv(s) && IsShm(s.w, m) && s.w.things[m].stage == Live
    ensures Inv(ShmGet(s, m))
  {
    assert s.w.things[m].refs > 0;
    hide Count, ContextsOk, ShmsOk, Structure;
    GetStructure(s.w, m, s.w.things[m].(refs := s.w.things[m].refs + 1));
    GetTally(s.w, m);
  }

  lemma HandleIsLive(w: World, h: nat)
    requires Structure(w) && TallyOk(w) && h in w.things && w.things[h].Handle?
    ensures IsShm(w, w.things[h].shm) && w.things[w.things[h].shm].stage == Live && w.things[w.things[h].shm].refs > 0
  {
    At(w, h);
    Positive(w.things, h, OfShm(w.things[h].shm));
  }

  lemma PutTally(w: World, h: nat, t: Thing)
    requires TallyOk(w) && h in w.things && w.things[h].Handle? && IsShm(w, w.things[h].shm)
    requires var o := w.things[w.things[h].shm];
        o.stage == Live && t == o.(refs := o.refs - 1, stage := if o.refs == 1 then Unpublished else Live)
    ensures var w' := Set(Remove(w, h), w.things[h].shm, t);
        TallyOk(w') && Count(w'.things, Users) == Count(w.things, Users)
  {
    hide Count;
    RemoveCounts(w.things, h);
    SetCounts(w.things - {h}, w.things[h].shm, t);
  }

  lemma HandleUnreferenced(w: World, h: nat)
    requires Structure(w) && h in w.things && w.things[h].Handle?
    requires forall k :: k in w.things && w.things[k].Publishing? ==> w.things[k].handle != h
    ensures Unreferenced(w, h)
  {
    forall j | j in w.things ensures !Refers(w.things[j], h) {
      At(w, j);
    }
  }

  lemma PutStructure(w: World, h: nat, m: nat)
    requires Structure(w) && TallyOk(w) && h in w.things && w.things[h] == Handle(m)
    requires forall k :: k in w.things && w.things[k].Publishing? ==> w.things[k].handle != h
    ensures IsShm(w, m) && w.things[m].stage == Live && w.things[m].refs > 0
    ensures w.things[m].refs > 1 ==> Structure(Set(Remove(w, h), m, w.things[m].(refs := w.things[m].refs - 1)))
    ensures w.things[m].refs == 1 ==> Structure(Unlist(Remove(w, h), m, w.things[m]))
  {
    HandleIsLive(w, h);
    HandleUnreferenced(w, h);
    hide Count, ContextsOk, ShmsOk, Structure;
    DropStructure(w, h);
    if w.things[m].refs > 1 {
      ReplaceStructure(Remove(w, h), m, w.things[m].(refs := w.things[m].refs - 1));
    } else {
      NoPublisher(w, h);
      UnlistStructure(Remove(w, h), m);
    }
  }

  lemma PutKeeps(s: State, h: nat)
    requires Inv(s) && Enabled(s, Put(h))
    ensures Inv(Step(s, Put(h)))
  {
    hide Structure, Count, ContextsOk, ShmsOk;
    var m := s.w.things[h].shm;
    PutStructure(s.w, h, m);
    var o := s.w.things[m];
    var t := o.(refs := o.refs - 1, stage := if o.refs == 1 then Unpublished else Live);
    PutTally(s.w, h, t);
    SameTally(Set(Remove(s.w, h), m, t), Step(s, Put(h)).w);
  }

  /** The last handle cannot be put while its object is still being published. */
  lemma NoPublisher(w: World, h: nat)
    requires Structure(w) && TallyOk(w) && h in w.things && w.things[h].Handle? && IsShm(w, w.things[h].shm)
    requires w.things[w.things[h].shm].refs == 1
    requires forall k :: k in w.things && w.things[k].Publishing? ==> w.things[k].handle != h
    ensures forall k :: k in w.things && w.things[k].Publishing? ==> w.things[k].shm != w.things[h].shm
  {
    forall k | k in w.things && w.things[k].Publishing? ensures w.things[k].shm != w.things[h].shm {
      At(w, k);
      if w.things[k].shm == w.things[h].shm {
        TwoMatches(w.things, h, w.things[k].handle, OfShm(w.things[h].shm));
      }
    }
  }

  lemma ReleaseMoreTally(w: World, m: nat, c: nat)
    requires TallyOk(w) && IsShm(w, m) && w.things[m].stage == Unpublished && w.things[m].ctx == c
    requires IsContext(w, c) && w.things[c].refcount > 1
    ensures var w' := Set(Set(w, m, w.things[m].(stage := CtxDropped)), c,
                          w.things[c].(refcount := w.things[c].refcount - 1));
        TallyOk(w') && Count(w'.things, Users) == Count(w.things, Users)
  {
    hide Count;
    var t := w.things[m].(stage := CtxDropped);
    SetCounts(w.things, m, t);
    SetCounts(w.things[m := t], c, w.things[c].(refcount := w.things[c].refcount - 1));
  }

  lemma ReleaseLastTally(w: World, m: nat, c: nat)
    requires TallyOk(w) && IsShm(w, m) && w.things[m].stage == Unpublished && w.things[m].ctx == c
    requires IsContext(w, c) && w.things[c].refcount == 1
    ensures !w.things[c].open
    ensures var w' := Set(w, m, w.things[m].(stage := CtxDropped));
        Count(w'.things, OfContext(c)) == 0 && TallyOk(Remove(w', c))
        && Count(Remove(w', c).things, Users) == Count(w.things, Users)
  {
    hide Count;
    Positive(w.things, m, OfContext(c));
    var t := w.things[m].(stage := CtxDropped);
    SetCounts(w.things, m, t);
    RemoveCounts(w.things[m := t], c);
  }

  lemma ReleaseCtxMore(s: State, m: nat)
    requires Inv(s) && Enabled(s, ReleaseCtx(m)) && s.desc
    requires IsContext(s.w, s.w.things[m].ctx) && s.w.things[s.w.things[m].ctx].refcount > 1
    ensures Inv(Step(s, ReleaseCtx(m)))
  {
    hide Count, ContextsOk, ShmsOk, Structure;
    var c := s.w.things[m].ctx;
    DropContextStructure(s.w, m);
    var w := Set(s.w, m, s.w.things[m].(stage := CtxDropped));
    ReplaceStructure(w, c, w.things[c].(refcount := w.things[c].refcount - 1));
    ReleaseMoreTally(s.w, m, c);
  }

  lemma ReleaseCtxLast(s: State, m: nat)
    requires Inv(s) && Enabled(s, ReleaseCtx(m)) && s.desc
    requires IsContext(s.w, s.w.things[m].ctx) && s.w.things[s.w.things[m].ctx].refcount == 1
    ensures Inv(Step(s, ReleaseCtx(m)))
  {
    var c := s.w.things[m].ctx;
    DropContextStructure(s.w, m);
    var w := Set(s.w, m, s.w.things[m].(stage := CtxDropped));
    ReleaseLastTally(s.w, m, c);
    hide Count, ContextsOk, ShmsOk, Structure;
    NoWorkOnClosed(w, c);
    ContextUnreferenced(w, c);
    hide Unreferenced;
    DropStructure(w, c);
  }

  /** The driver is still there when an object is released and when that releases its
      context. */
  lemma ReleaseCtxKeeps(s: State, m: nat)
    requires Inv(s) && Enabled(s, ReleaseCtx(m))
    ensures Inv(Step(s, ReleaseCtx(m))) && s.desc
  {
    At(s.w, m);
    Positive(s.w.things, m, Users);
    assert s.w.things[s.w.things[m].ctx].refcount > 0;
    hide Inv, Step, Enabled;
    if s.w.things[s.w.things[m].ctx].refcount > 1 {
      ReleaseCtxMore(s, m);
    } else {
      ReleaseCtxLast(s, m);
    }
  }

  lemma NoWorkOnClosed(w: World, c: nat)
    requires Structure(w) && IsContext(w, c) && !w.things[c].open
    ensures forall k :: k in w.things && Working(w.things[k]) ==> w.things[k].ctx != c
  {
    forall k | k in w.things && Working(w.things[k]) ensures w.things[k].ctx != c {
      At(w, k);
    }
  }

  lemma ReleaseDevKeeps(s: State, m: nat)
    requires Inv(s) && Enabled(s, ReleaseDev(m))
    ensures Inv(Step(s, ReleaseDev(m)))
  {
    At(s.w, m);
    Positive(s.w.things, m, Users);
    ShmUnreferenced(s.w, m);
    DropStructure(s.w, m);
    GoneStructure(Remove(s.w, m), m);
    hide Structure, Count, ContextsOk, ShmsOk, Unreferenced;
    DropShmTally(s.w, m);
    SameTally(Remove(s.w, m), Step(s, ReleaseDev(m)).w);
  }

  lemma ShmUnreferenced(w: World, m: nat)
    requires Structure(w) && TallyOk(w) && IsShm(w, m) && w.things[m].stage == CtxDropped
    ensures Unreferenced(w, m)
  {
    CountZero(w.things, OfShm(m));
    forall j | j in w.things ensures !Refers(w.things[j], m) {
      At(w, j);
      assert !Matches(OfShm(m), w.things[j]);
      if w.things[j].Publishing? {
        assert !Matches(OfShm(m), w.things[w.things[j].handle]);
      }
    }
  }

  lemma GoneStructure(w: World, m: nat)
    requires Structure(w) && m !in w.things && m < w.next
    ensures Structure(w.(released := w.released + {m}))
  {
  }

  lemma DropShmTally(w: World, m: nat)
    requires TallyOk(w) && IsShm(w, m) && w.things[m].stage == CtxDropped
    ensures TallyOk(Remove(w, m)) && Count(Remove(w, m).things, Users) == Count(w.things, Users) - 1
  {
    hide Count;
    RemoveCounts(w.things, m);
  }

  // ---- every step, every run ----

  lemma StepKeepsInv(s: State, ev: Event)
    requires Inv(s) && Enabled(s, ev)
    ensures Inv(Step(s, ev))
  {
    match ev
    case OpenStart => OpenStartKeeps(s);
    case OpenOk(p) => OpenOkKeeps(s, p);
    case OpenFail(p) => DropCallerKeeps(s, p);
    case Close(c) => CloseKeeps(s, c);
    case CloseDone(p) => DropCallerKeeps(s, p);
    case Reserve(c, id) => ReserveKeeps(s, c, id);
    case GetDevice(p) => GetDeviceKeeps(s, p);
    case BuildKernel(c) => BuildKernelKeeps(s, c);
    case BuildFail(p) => BuildFailKeeps(s, p);
    case Undo(p) => UndoKeeps(s, p);
    case Pin(p) => PinKeeps(s, p);
    case PinFail(p) => PinFailKeeps(s, p);
    case Make(p) => MakeKeeps(s, p);
    case MakePinned(p) => MakePinnedKeeps(s, p);
    case Publish(p) => PublishKeeps(s, p);
    case Lookup(c, id) => LookupKeeps(s, c, id);
    case GetFd(h) => GetFdKeeps(s, h);
    case Put(h) => PutKeeps(s, h);
    case ReleaseCtx(m) => ReleaseCtxKeeps(s, m);
    case ReleaseDev(m) => ReleaseDevKeeps(s, m);
    case Unregister => UnregisterKeeps(s);
  }

  lemma CloseKeeps(s: State, c: nat)
    requires Inv(s) && Enabled(s, Close(c))
    ensures Inv(Step(s, Close(c)))
  {
    assert s.w.things[c].refcount > 0;
    hide Inv, Step;
    if s.w.things[c].refcount > 1 {
      CloseMore(s, c);
    } else {
      CloseLast(s, c);
    }
  }

  lemma LookupKeeps(s: State, c: nat, id: int)
    requires Inv(s)
    ensures Inv(Step(s, Lookup(c, id)))
  {
    if id in s.w.idr && s.w.idr[id].Entry? {
      assert SlotOk(s.w, id);
      ShmGetKeeps(s, s.w.idr[id].shm);
    }
  }

  lemma GetFdKeeps(s: State, h: nat)
    requires Inv(s) && Enabled(s, GetFd(h))
    ensures Inv(Step(s, GetFd(h)))
  {
    HandleIsLive(s.w, h);
    ShmGetKeeps(s, s.w.things[h].shm);
  }

  lemma UnregisterKeeps(s: State)
    requires Inv(s) && Enabled(s, Unregister)
    ensures Inv(Step(s, Unregister))
  {
    hide Structure, ContextsOk, ShmsOk, Count;
  }

  function Registered(): State {
    State(World(map[], map[], 0, {}), true, 1, false, false, false)
  }

  ghost predicate IsRun(states: seq<State>, events: seq<Event>) {
    && |states| == |events| + 1
    && states[0] == Registered()
    && forall i :: 0 <= i < |events| ==> Enabled(states[i], events[i]) && states[i + 1] == Step(states[i], events[i])
  }

  /** In every state of every interleaving all counters are exact and nothing freed has been
      touched. */
  lemma {:induction false} RunsKeepInv(states: seq<State>, events: seq<Event>, n: nat)
    requires IsRun(states, events) && n < |states|
    ensures Inv(states[n])
  {
    if n == 0 {
      CountZero(map[], Users);
    } else {
      RunsKeepInv(states, events, n - 1);
      StepKeepsInv(states[n - 1], events[n - 1]);
    }
  }

  /** An object that the table still lists has a reference, so a lookup never raises a count
      from zero. */
  lemma ListedMeansReferenced(s: State, id: int)
    requires Inv(s) && id in s.w.idr && s.w.idr[id].Entry?
    ensures IsShm(s.w, s.w.idr[id].shm) && s.w.things[s.w.idr[id].shm].refs > 0
  {
    assert SlotOk(s.w, id);
  }

  lemma SlotHasThing(w: World, i: int)
    requires Structure(w) && i in w.idr
    ensures w.things != map[]
  {
    assert SlotOk(w, i);
  }

  /** When unregister's wait is over there is no context, no object, no reference, no caller
      and no id left. */
  lemma WaitEndsWhenNothingIsLeft(s: State)
    requires Inv(s) && s.completed
    ensures s.w.things == map[] && s.w.idr == map[]
  {
    forall i | i in s.w.idr ensures s.w.things != map[] {
      SlotHasThing(s.w, i);
    }
    CountZero(s.w.things, Users);
    forall k | k in s.w.things ensures !s.w.things[k].Context? {
      CountZero(s.w.things, OfContext(k));
    }
    forall k ensures k !in s.w.things {
      if k in s.w.things {
        At(s.w, k);
      }
    }
  }

  lemma PartsKeepReleased(s: State, k: nat, m: nat, id: int)
    ensures ContextPut(s, k).w.released == ContextGet(s, k).w.released == s.w.released
    ensures ShmGet(s, m).w.released == ShmPut(s, k, m).w.released == s.w.released
    ensures ShmNew(s.w, k, m, id).released == s.w.released
  {
  }

  lemma ReleasedGrows(s: State, ev: Event)
    requires Enabled(s, ev)
    ensures s.w.released <= Step(s, ev).w.released
  {
    hide ContextPut, ContextGet, ShmGet, ShmPut, ShmNew;
    match ev
    case OpenStart =>
    case OpenOk(p) =>
    case OpenFail(p) =>
    case Close(c) =>
      PartsKeepReleased(s.(w := Set(s.w, c, s.w.things[c].(open := false))), c, 0, 0);
    case CloseDone(p) =>
    case Reserve(c, id) =>
    case GetDevice(p) =>
    case BuildKernel(c) =>
    case BuildFail(p) =>
    case Undo(p) =>
    case Pin(p) =>
      PartsKeepReleased(Deref(s), s.w.things[p].ctx, 0, 0);
    case PinFail(p) =>
      PartsKeepReleased(s, s.w.things[p].ctx, 0, 0);
    case Make(p) =>
      PartsKeepReleased(s, s.w.things[p].ctx, 0, 0);
      PartsKeepReleased(ContextGet(s, s.w.things[p].ctx), p, s.w.things[p].ctx, s.w.things[p].id);
    case MakePinned(p) =>
      PartsKeepReleased(s, p, s.w.things[p].ctx, s.w.things[p].id);
    case Publish(p) =>
    case Lookup(c, id) =>
      if id in s.w.idr && s.w.idr[id].Entry? {
        PartsKeepReleased(s, 0, s.w.idr[id].shm, 0);
      }
    case GetFd(h) =>
      PartsKeepReleased(s, h, s.w.things[h].shm, 0);
    case Put(h) =>
      PartsKeepReleased(s, h, s.w.things[h].shm, 0);
    case ReleaseCtx(m) =>
      PartsKeepReleased(Deref(s).(w := Set(s.w, m, s.w.things[m].(stage := CtxDropped))), s.w.things[m].ctx, 0, 0);
    case ReleaseDev(m) =>
    case Unregister =>
  }

  lemma ReleasedIsGone(s: State, m: nat)
    requires Inv(s) && m in s.w.released
    ensures m !in s.w.things && !Enabled(s, ReleaseCtx(m)) && !Enabled(s, ReleaseDev(m))
    ensures forall i :: i in s.w.idr ==> s.w.idr[i] != Entry(m)
  {
    if m in s.w.things {
      At(s.w, m);
    }
    forall i | i in s.w.idr ensures s.w.idr[i] != Entry(m) {
      assert SlotOk(s.w, i);
    }
  }

  /** Once released, an object is never there again: not in the table, not to be looked up
      and not to be released a second time. */
  lemma {:induction false} ReleasedForGood(states: seq<State>, events: seq<Event>, n: nat, k: nat, m: nat)
    requires IsRun(states, events) && n <= k < |states| && m in states[n].w.released
    ensures m in states[k].w.released && m !in states[k].w.things
    ensures forall i :: i in states[k].w.idr ==> states[k].w.idr[i] != Entry(m)
    ensures !Enabled(states[k], ReleaseCtx(m)) && !Enabled(states[k], ReleaseDev(m))
    decreases k - n
  {
    hide Step, Enabled, Inv;
    RunsKeepInv(states, events, k);
    if n == k {
    } else {
      ReleasedForGood(states, events, n, k - 1, m);
      ReleasedGrows(states[k - 1], events[k - 1]);
    }
    ReleasedIsGone(states[k], m);
  }

  // ---- nothing is lost on the way to its release ----

  lemma ContextPutKeepsShm(s: State, c: nat, x: nat)
    requires IsShm(s.w, x)
    ensures IsShm(ContextPut(s, c).w, x) && ContextPut(s, c).w.next == s.w.next
  {
  }

  lemma ContextGetKeepsShm(s: State, c: nat, x: nat)
    requires IsShm(s.w, x)
    ensures IsShm(ContextGet(s, c).w, x) && ContextGet(s, c).w.next == s.w.next
  {
  }

  lemma ShmGetKeepsShm(s: State, m: nat, x: nat)
    requires IsShm(s.w, x) && x < s.w.next
    ensures IsShm(ShmGet(s, m).w, x)
  {
  }

  lemma ShmPutKeepsShm(s: State, h: nat, m: nat, x: nat)
    requires IsShm(s.w, x) && h != x
    ensures IsShm(ShmPut(s, h, m).w, x)
  {
  }

  lemma ShmNewKeepsShm(w: World, p: nat, c: nat, id: int, x: nat)
    requires IsShm(w, x) && x < w.next && p != x
    ensures IsShm(ShmNew(w, p, c, id), x)
  {
  }

  /** Something of object `x` is left in a world: the object, or the record of its release. */
  predicate Remains(w: World, x: nat) {
    IsShm(w, x) || x in w.released
  }

  /** The steps that touch one thing, which is a new one, a caller or the object itself. */
  lemma CallerStepsKeepShm(s: State, ev: Event, x: nat)
    requires Enabled(s, ev) && IsShm(s.w, x) && x < s.w.next
    requires ev.OpenStart? || ev.OpenOk? || ev.OpenFail? || ev.CloseDone? || ev.Reserve? || ev.GetDevice?
      || ev.BuildKernel? || ev.BuildFail? || ev.Undo? || ev.Publish? || ev.Unregister?
    ensures IsShm(Step(s, ev).w, x)
  {
    hide ContextPut, ContextGet, ShmGet, ShmPut, ShmNew;
  }

  lemma ContextStepsKeepShm(s: State, ev: Event, x: nat)
    requires Enabled(s, ev) && IsShm(s.w, x) && x < s.w.next
    requires ev.Close? || ev.Pin? || ev.PinFail? || ev.ReleaseCtx?
    ensures IsShm(Step(s, ev).w, x)
  {
    hide ContextPut, ContextGet, ShmGet, ShmPut, ShmNew;
    var things := s.w.things;
    match ev
    case Close(c) => ContextPutKeepsShm(s.(w := Set(s.w, c, things[c].(open := false))), c, x);
    case Pin(p) => ContextGetKeepsShm(Deref(s), things[p].ctx, x);
    case PinFail(p) => ContextPutKeepsShm(s, things[p].ctx, x);
    case ReleaseCtx(m) =>
      ContextPutKeepsShm(Deref(s).(w := Set(s.w, m, things[m].(stage := CtxDropped))), things[m].ctx, x);
  }

  lemma ShmStepsKeepShm(s: State, ev: Event, x: nat)
    requires Enabled(s, ev) && IsShm(s.w, x) && x < s.w.next
    requires ev.Make? || ev.MakePinned? || ev.Lookup? || ev.GetFd? || ev.Put?
    ensures IsShm(Step(s, ev).w, x)
  {
    hide ContextPut, ContextGet, ShmGet, ShmPut, ShmNew;
    var things := s.w.things;
    match ev
    case Make(p) =>
      ContextGetKeepsShm(s, things[p].ctx, x);
      ShmNewKeepsShm(ContextGet(s, things[p].ctx).w, p, things[p].ctx, things[p].id, x);
    case MakePinned(p) => ShmNewKeepsShm(s.w, p, things[p].ctx, things[p].id, x);
    case Lookup(c, id) =>
      if id in s.w.idr && s.w.idr[id].Entry? {
        ShmGetKeepsShm(s, s.w.idr[id].shm, x);
      }
    case GetFd(h) => ShmGetKeepsShm(s, things[h].shm, x);
    case Put(h) => ShmPutKeepsShm(s, h, things[h].shm, x);
  }

  /** Every step but the end of its own release leaves an object in place, and that step
      records it as released. */
  lemma StaysOrReleased(s: State, ev: Event, x: nat)
    requires Inv(s) && Enabled(s, ev) && IsShm(s.w, x)
    ensures if ev == ReleaseDev(x) then x in Step(s, ev).w.released else IsShm(Step(s, ev).w, x)
  {
    InPast(s.w, x);
    hide Inv;
    if ev.ReleaseDev? {
    } else {
      hide Step, Enabled, IsShm;
      if ev.Close? || ev.Pin? || ev.PinFail? || ev.ReleaseCtx? {
        ContextStepsKeepShm(s, ev, x);
      } else if ev.Make? || ev.MakePinned? || ev.Lookup? || ev.GetFd? || ev.Put? {
        ShmStepsKeepShm(s, ev, x);
      } else {
        CallerStepsKeepShm(s, ev, x);
      }
    }
  }

  lemma StepRemains(s: State, ev: Event, x: nat)
    requires Inv(s) && Enabled(s, ev) && Remains(s.w, x)
    ensures Remains(Step(s, ev).w, x)
  {
    hide Inv, Step, Enabled, IsShm;
    ReleasedGrows(s, ev);
    if IsShm(s.w, x) {
      StaysOrReleased(s, ev, x);
    }
  }

  /** An object that once existed either still exists or has been released. */
  lemma {:induction false} GoneMeansReleased(states: seq<State>, events: seq<Event>, n: nat, k: nat, m: nat)
    requires IsRun(states, events) && n <= k < |states| && IsShm(states[n].w, m)
    ensures IsShm(states[k].w, m) || m in states[k].w.released
    decreases k - n
  {
    hide Step, Enabled, Inv, IsShm;
    if n == k {
    } else {
      GoneMeansReleased(states, events, n, k - 1, m);
      RunsKeepInv(states, events, k - 1);
      StepRemains(states[k - 1], events[k - 1], m);
    }
  }
}
