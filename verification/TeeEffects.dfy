/** What each step of the TEE core does, said without the step function, and that everything taken
    can always be given back. */
module TeeEffects {
  import opened TeeRefs

  predicate Has(s: State, k: nat, t: Thing) {
    k in s.w.things && s.w.things[k] == t
  }

  /** Nothing but the things `ks` and the ids `ids` may have changed, and nothing went wrong. */
  ghost predicate Only(s: State, s': State, ks: set<nat>, ids: set<int>) {
    && !s'.oops
    && (forall k :: k !in ks ==> (k in s'.w.things <==> k in s.w.things))
    && (forall k :: k !in ks && k in s.w.things ==> s'.w.things[k] == s.w.things[k])
    && (forall i :: i !in ids ==> (i in s'.w.idr <==> i in s.w.idr))
    && (forall i :: i !in ids && i in s.w.idr ==> s'.w.idr[i] == s.w.idr[i])
  }

  /** The bookkeeping besides things and ids: `made` new identities, `users` more device users. */
  predicate Books(s: State, s': State, made: nat, users: int) {
    && s'.w.next == s.w.next + made && s'.numUsers == s.numUsers + users
    && s'.w.released == s.w.released && s'.basePut == s.basePut
  }

  /** `t` is new and has the next identity. */
  ghost predicate Added(s: State, s': State, t: Thing, users: int) {
    Only(s, s', {s.w.next}, {}) && Books(s, s', 1, users) && Has(s', s.w.next, t)
  }

  /** `k` has become `t`. */
  ghost predicate Became(s: State, s': State, k: nat, t: Thing, users: int) {
    Only(s, s', {k}, {}) && Books(s, s', 0, users) && Has(s', k, t)
  }

  ghost predicate Left(s: State, s': State, k: nat, users: int) {
    Only(s, s', {k}, {}) && Books(s, s', 0, users) && k !in s'.w.things
  }

  /** Context `c` has `d` references more, and goes with the last one. */
  predicate ContextBy(s: State, s': State, c: nat, d: int) {
    && IsContext(s.w, c)
    && if s.w.things[c].refcount + d == 0 then c !in s'.w.things
       else && IsContext(s'.w, c) && s'.w.things[c].refcount == s.w.things[c].refcount + d
            && s'.w.things[c].open == s.w.things[c].open
  }

  /** The file's reference is dropped and its caller still holds the device. */
  ghost predicate Closes(s: State, s': State, c: nat) {
    && IsContext(s.w, c) && Only(s, s', {c, s.w.next}, {}) && Books(s, s', 1, 0) && Has(s', s.w.next, Closing)
    && if s.w.things[c].refcount == 1 then c !in s'.w.things
       else IsContext(s'.w, c) && s'.w.things[c].refcount == s.w.things[c].refcount - 1 && !s'.w.things[c].open
  }

  ghost predicate Reserves(s: State, s': State, c: nat, id: int) {
    && Only(s, s', {s.w.next}, {id}) && Books(s, s', 1, 0) && Has(s', s.w.next, Reserving(c, id))
    && id !in s.w.idr && id in s'.w.idr && s'.w.idr[id] == Reserved(s.w.next)
  }

  ghost predicate GivesIdBack(s: State, s': State, p: nat) {
    && p in s.w.things && s.w.things[p].Undoing? && p !in s'.w.things && s.w.things[p].id !in s'.w.idr
    && Only(s, s', {p}, {s.w.things[p].id}) && Books(s, s', 0, 0)
  }

  ghost predicate Pins(s: State, s': State, p: nat, t: Thing, d: int) {
    && p in s.w.things && Working(s.w.things[p]) && Has(s', p, t)
    && Only(s, s', {p, s.w.things[p].ctx}, {}) && Books(s, s', 0, 0) && ContextBy(s, s', s.w.things[p].ctx, d)
  }

  /** A new object with one reference, held by its maker, which goes on to publish it if it has
      an id and is done otherwise; its context has `d` references more. */
  ghost predicate Makes(s: State, s': State, p: nat, d: int) {
    && p in s.w.things && Working(s.w.things[p])
    && var c, id, m := s.w.things[p].ctx, s.w.things[p].id, s.w.next;
       && Only(s, s', {p, c, m, m + 1}, {}) && Books(s, s', 2, 0) && ContextBy(s, s', c, d)
       && Has(s', m, Shm(c, 1, id, Live, p)) && Has(s', m + 1, Handle(m))
       && if id >= 0 then Has(s', p, Publishing(c, id, m, m + 1)) else p !in s'.w.things
  }

  ghost predicate Publishes(s: State, s': State, p: nat) {
    && p in s.w.things && s.w.things[p].Publishing? && p !in s'.w.things
    && var id := s.w.things[p].id;
       && Only(s, s', {p}, {id}) && Books(s, s', 0, 0)
       && id in s'.w.idr && s'.w.idr[id] == Entry(s.w.things[p].shm)
  }

  /** One more reference to object `m`, under a new handle. */
  ghost predicate Gets(s: State, s': State, m: nat) {
    && IsShm(s.w, m) && Only(s, s', {m, s.w.next}, {}) && Books(s, s', 1, 0)
    && Has(s', m, s.w.things[m].(refs := s.w.things[m].refs + 1)) && Has(s', s.w.next, Handle(m))
  }

  /** An id leads to its object for the context the object belongs to, and to nothing for any
      other. */
  ghost predicate LooksUp(s: State, s': State, c: nat, id: int) {
    if id in s.w.idr && s.w.idr[id].Entry? && IsShm(s.w, s.w.idr[id].shm) && s.w.things[s.w.idr[id].shm].ctx == c
    then Gets(s, s', s.w.idr[id].shm) else s' == s
  }

  ghost predicate GetsFd(s: State, s': State, h: nat) {
    && h in s.w.things && s.w.things[h].Handle? && IsShm(s.w, s.w.things[h].shm)
    && if s.w.things[s.w.things[h].shm].id >= 0 then Gets(s, s', s.w.things[h].shm) else s' == s
  }

  /** The handle is gone and its object has one reference less; with the last one it is off the
      table and about to be released. */
  ghost predicate Puts(s: State, s': State, h: nat) {
    && h in s.w.things && s.w.things[h].Handle? && h !in s'.w.things && Books(s, s', 0, 0)
    && var m := s.w.things[h].shm;
       && IsShm(s.w, m) && IsShm(s'.w, m)
       && s'.w.things[m] == s.w.things[m].(refs := s'.w.things[m].refs, stage := s'.w.things[m].stage)
       && s'.w.things[m].refs == s.w.things[m].refs - 1
       && if s.w.things[m].refs > 1 then s'.w.things[m].stage == Live && Only(s, s', {h, m}, {})
          else && s'.w.things[m].stage == Unpublished && Enabled(s', ReleaseCtx(m))
               && Only(s, s', {h, m}, {s.w.things[m].id}) && (s.w.things[m].id >= 0 ==> s.w.things[m].id !in s'.w.idr)
               && (s.w.things[m].id < 0 ==> s'.w.idr == s.w.idr)
  }

  ghost predicate ReleasesCtx(s: State, s': State, m: nat) {
    && IsShm(s.w, m) && Has(s', m, s.w.things[m].(stage := CtxDropped)) && Enabled(s', ReleaseDev(m))
    && Only(s, s', {m, s.w.things[m].ctx}, {}) && Books(s, s', 0, 0) && ContextBy(s, s', s.w.things[m].ctx, -1)
  }

  ghost predicate ReleasesDev(s: State, s': State, m: nat) {
    && Only(s, s', {m}, {}) && m !in s'.w.things && s'.w.released == s.w.released + {m}
    && s'.w.next == s.w.next && s'.numUsers == s.numUsers - 1 && s'.basePut == s.basePut
  }

  ghost predicate Effect(s: State, ev: Event, s': State) {
    var things := s.w.things;
    match ev
    case OpenStart => Added(s, s', Opening, 1)
    case OpenOk(p) => Became(s, s', p, Context(1, true), 0)
    case OpenFail(p) => Left(s, s', p, -1)
    case Close(c) => Closes(s, s', c)
    case CloseDone(p) => Left(s, s', p, -1)
    case Reserve(c, id) => Reserves(s, s', c, id)
    case GetDevice(p) =>
      p in things && Working(things[p]) && Became(s, s', p, Building(things[p].ctx, things[p].id), 1)
    case BuildKernel(c) => Added(s, s', Building(c, -1), 1)
    case BuildFail(p) =>
      && p in things && Working(things[p])
      && if things[p].id >= 0 then Became(s, s', p, Undoing(things[p].ctx, things[p].id), -1) else Left(s, s', p, -1)
    case Undo(p) => GivesIdBack(s, s', p)
    case Pin(p) => p in things && Working(things[p]) && Pins(s, s', p, Pinning(things[p].ctx, things[p].id), 1)
    case PinFail(p) => p in things && Working(things[p]) && Pins(s, s', p, Building(things[p].ctx, things[p].id), -1)
    case Make(p) => Makes(s, s', p, 1)
    case MakePinned(p) => Makes(s, s', p, 0)
    case Publish(p) => Publishes(s, s', p)
    case Lookup(c, id) => LooksUp(s, s', c, id)
    case GetFd(h) => GetsFd(s, s', h)
    case Put(h) => Puts(s, s', h)
    case ReleaseCtx(m) => ReleasesCtx(s, s', m)
    case ReleaseDev(m) => ReleasesDev(s, s', m)
    case Unregister => s' == s.(basePut := true, numUsers := s.numUsers - 1, desc := s'.desc, completed := s'.completed)
  }

  // ---- every step has its effect ----

  lemma CallerFacts(s: State, p: nat)
    requires Inv(s) && p in s.w.things && Working(s.w.things[p])
    ensures s.desc && IsOpen(s.w, s.w.things[p].ctx) && s.w.things[p].ctx != p && p < s.w.next
    ensures s.w.things[s.w.things[p].ctx].refcount > 0
    ensures s.w.things[p].Pinning? ==> s.w.things[s.w.things[p].ctx].refcount > 1
  {
    At(s.w, p);
    OpenMeansUsers(s, s.w.things[p].ctx);
    if s.w.things[p].Pinning? {
      UnpinTally(s.w, p, s.w.things[p].ctx, s.w.things[p].id);
    }
  }

  lemma UserFacts(s: State, k: nat)
    requires Inv(s) && k in s.w.things && Matches(Users, s.w.things[k])
    ensures s.desc && s.numUsers > 0
  {
    Positive(s.w.things, k, Users);
  }

  /** Opening, closing, reserving and failing. */
  lemma CallerEffect(s: State, ev: Event)
    requires Inv(s) && Enabled(s, ev)
    requires ev.OpenStart? || ev.OpenOk? || ev.OpenFail? || ev.CloseDone? || ev.Reserve? || ev.GetDevice?
      || ev.BuildKernel? || ev.BuildFail? || ev.Undo? || ev.Publish? || ev.Unregister?
    ensures Effect(s, ev, Step(s, ev))
  {
    FreshKey(s.w);
    match ev
    case OpenOk(p) => UserFacts(s, p);
    case OpenFail(p) => UserFacts(s, p);
    case CloseDone(p) => UserFacts(s, p);
    case GetDevice(p) => CallerFacts(s, p);
    case BuildKernel(c) => OpenMeansUsers(s, c);
    case BuildFail(p) => UserFacts(s, p);
    case _ =>
  }

  lemma CloseEffect(s: State, c: nat)
    requires Inv(s) && Enabled(s, Close(c))
    ensures Closes(s, Step(s, Close(c)), c)
  {
    FreshKey(s.w);
    OpenMeansUsers(s, c);
    assert s.w.things[c].refcount > 0;
    hide Inv;
  }

  lemma PinEffect(s: State, ev: Event)
    requires Inv(s) && Enabled(s, ev) && (ev.Pin? || ev.PinFail?)
    ensures Effect(s, ev, Step(s, ev))
  {
    hide Structure, UsersOk, TallyOk;
    CallerFacts(s, ev.p);
  }

  lemma ShmNewEffect(w: World, w': World, p: nat, c: nat, id: int)
    requires p in w.things && p < w.next && w' == ShmNew(w, p, c, id)
    ensures w'.next == w.next + 2 && w'.idr == w.idr && w'.released == w.released
    ensures forall k :: k !in {p, w.next, w.next + 1} ==> (k in w'.things <==> k in w.things)
    ensures forall k :: k !in {p, w.next, w.next + 1} && k in w.things ==> w'.things[k] == w.things[k]
    ensures w.next in w'.things && w'.things[w.next] == Shm(c, 1, id, Live, p)
    ensures w.next + 1 in w'.things && w'.things[w.next + 1] == Handle(w.next)
    ensures if id >= 0 then p in w'.things && w'.things[p] == Publishing(c, id, w.next, w.next + 1) else p !in w'.things
  {
  }

  lemma MakePinnedEffect(s: State, p: nat)
    requires Inv(s) && Enabled(s, MakePinned(p))
    ensures Makes(s, Step(s, MakePinned(p)), p, 0)
  {
    hide Structure, TallyOk, UsersOk, ShmNew;
    CallerFacts(s, p);
    InPast(s.w, s.w.things[p].ctx);
    ShmNewEffect(s.w, Step(s, MakePinned(p)).w, p, s.w.things[p].ctx, s.w.things[p].id);
  }

  lemma PinThenMake(s: State, s1: State, s2: State, p: nat)
    requires p in s.w.things && Working(s.w.things[p]) && IsContext(s.w, s.w.things[p].ctx)
    requires p < s.w.next && s.w.things[p].ctx < s.w.next
    requires Pins(s, s1, p, Pinning(s.w.things[p].ctx, s.w.things[p].id), 1) && Makes(s1, s2, p, 0)
    ensures Makes(s, s2, p, 1)
  {
  }

  lemma MakeEffect(s: State, p: nat)
    requires Inv(s) && Enabled(s, Make(p))
    ensures Makes(s, Step(s, Make(p)), p, 1)
  {
    hide Structure, UsersOk, TallyOk, Step, Makes, Pins;
    CallerFacts(s, p);
    InPast(s.w, s.w.things[p].ctx);
    MakeIsPinThenMake(s, p);
    hide Inv;
    PinKeeps(s, p);
    PinEffect(s, Pin(p));
    MakePinnedEffect(Step(s, Pin(p)), p);
    PinThenMake(s, Step(s, Pin(p)), Step(s, Make(p)), p);
  }

  lemma GetEffect(s: State, m: nat)
    requires Inv(s) && IsShm(s.w, m) && s.w.things[m].stage == Live
    ensures Gets(s, ShmGet(s, m), m)
  {
    InPast(s.w, m);
    assert !s.oops && s.w.things[m].refs > 0;
    hide Inv;
  }

  lemma LookupEffect(s: State, c: nat, id: int)
    requires Inv(s)
    ensures LooksUp(s, Step(s, Lookup(c, id)), c, id)
  {
    hide Inv, ShmGet, Gets;
    if id in s.w.idr && s.w.idr[id].Entry? {
      ListedIsLive(s, id);
      GetEffect(s, s.w.idr[id].shm);
    }
  }

  lemma ListedIsLive(s: State, id: int)
    requires Inv(s) && id in s.w.idr && s.w.idr[id].Entry?
    ensures IsShm(s.w, s.w.idr[id].shm) && s.w.things[s.w.idr[id].shm].stage == Live
  {
    assert SlotOk(s.w, id);
    hide Structure, UsersOk, TallyOk;
  }

  lemma GetFdEffect(s: State, h: nat)
    requires Inv(s) && Enabled(s, GetFd(h))
    ensures GetsFd(s, Step(s, GetFd(h)), h)
  {
    hide Structure, UsersOk, TallyOk, ShmGet, Gets;
    HandleIsLive(s.w, h);
    GetEffect(s, s.w.things[h].shm);
  }

  lemma PutEffect(s: State, h: nat)
    requires Inv(s) && Enabled(s, Put(h))
    ensures Puts(s, Step(s, Put(h)), h)
  {
    hide Structure, TallyOk, UsersOk;
    HandleIsLive(s.w, h);
    var m := s.w.things[h].shm;
    if s.w.things[m].refs > 1 {
      assert Step(s, Put(h)) == s.(w := Set(Remove(s.w, h), m, s.w.things[m].(refs := s.w.things[m].refs - 1)));
      hide Step, ShmPut;
    } else {
      assert Step(s, Put(h)) == s.(w := Unlist(Remove(s.w, h), m, s.w.things[m]));
      hide Step, ShmPut;
    }
  }

  lemma ReleaseCtxEffect(s: State, m: nat)
    requires Inv(s) && Enabled(s, ReleaseCtx(m))
    ensures ReleasesCtx(s, Step(s, ReleaseCtx(m)), m)
  {
    hide Structure, UsersOk, TallyOk;
    ObjectFacts(s, m);
    var c, t := s.w.things[m].ctx, s.w.things[m].(stage := CtxDropped);
    if s.w.things[c].refcount == 1 {
      assert Step(s, ReleaseCtx(m)) == s.(w := Remove(Set(s.w, m, t), c));
      hide Step, ContextPut;
    } else {
      assert Step(s, ReleaseCtx(m)) ==
        s.(w := Set(Set(s.w, m, t), c, s.w.things[c].(refcount := s.w.things[c].refcount - 1)));
      hide Step, ContextPut;
    }
  }

  lemma ObjectFacts(s: State, m: nat)
    requires Inv(s) && IsShm(s.w, m) && s.w.things[m].stage == Unpublished
    ensures s.desc && IsContext(s.w, s.w.things[m].ctx) && s.w.things[s.w.things[m].ctx].refcount > 0
  {
    At(s.w, m);
    UserFacts(s, m);
    hide UsersOk, Count;
  }

  lemma ReleaseDevEffect(s: State, m: nat)
    requires Inv(s) && Enabled(s, ReleaseDev(m))
    ensures ReleasesDev(s, Step(s, ReleaseDev(m)), m)
  {
    UserFacts(s, m);
  }

  /** Every step has the effect its operation promises, whatever else is going on. */
  lemma StepEffect(s: State, ev: Event)
    requires Inv(s) && Enabled(s, ev)
    ensures Effect(s, ev, Step(s, ev))
  {
    match ev
    case Close(c) => CloseEffect(s, c);
    case Pin(p) => PinEffect(s, ev);
    case PinFail(p) => PinEffect(s, ev);
    case Make(p) => MakeEffect(s, p);
    case MakePinned(p) => MakePinnedEffect(s, p);
    case Lookup(c, id) => LookupEffect(s, c, id);
    case GetFd(h) => GetFdEffect(s, h);
    case Put(h) => PutEffect(s, h);
    case ReleaseCtx(m) => ReleaseCtxEffect(s, m);
    case ReleaseDev(m) => ReleaseDevEffect(s, m);
    case _ => CallerEffect(s, ev);
  }

  // ---- everything can be given back ----

  /** Taking `events` one after the other leads from `s` to `s'`. */
  ghost predicate Leads(s: State, events: seq<Event>, s': State)
    decreases |events|
  {
    if events == [] then s' == s else Enabled(s, events[0]) && Leads(Step(s, events[0]), events[1..], s')
  }

  lemma LeadsOn(s: State, ev: Event, events: seq<Event>, s': State)
    requires Enabled(s, ev) && Leads(Step(s, ev), events, s')
    ensures Leads(s, [ev] + events, s')
  {
    hide Step, Enabled;
    assert ([ev] + events)[1..] == events;
  }

  lemma {:induction false} LeadsTwice(s: State, a: seq<Event>, t: State, b: seq<Event>, u: State)
    requires Leads(s, a, t) && Leads(t, b, u)
    ensures Leads(s, a + b, u)
    decreases |a|
  {
    hide Step, Enabled;
    if a == [] {
      assert a + b == b;
    } else {
      LeadsTwice(Step(s, a[0]), a[1..], t, b, u);
      assert (a + b)[1..] == a[1..] + b;
    }
  }

  /** No call is in the middle of an operation on a context. */
  ghost predicate Quiet(s: State) {
    forall k :: k in s.w.things ==> !Working(s.w.things[k])
  }

  lemma HandleThere(s: State, m: nat) returns (h: nat)
    requires Inv(s) && IsShm(s.w, m) && s.w.things[m].stage == Live
    ensures h in s.w.things && s.w.things[h] == Handle(m)
  {
    assert Count(s.w.things, OfShm(m)) > 0;
    CountZero(s.w.things, OfShm(m));
    hide Inv;
    h :| h in s.w.things && Matches(OfShm(m), s.w.things[h]);
  }

  /** What a step towards the release of `m` keeps: only things go, none come, and none but `m`,
      its handles and its context are touched. */
  ghost predicate Towards(s: State, s': State, m: nat) {
    && s'.w.things.Keys <= s.w.things.Keys && Quiet(s')
    && (m in s'.w.things ==> IsShm(s'.w, m))
    && forall k :: k in s.w.things && k != m && k !in s'.w.things ==>
         s.w.things[k] == Handle(m) || s.w.things[k].Context?
  }

  lemma TowardsTwice(s: State, t: State, u: State, m: nat)
    requires Towards(s, t, m) && Towards(t, u, m)
    requires forall k :: k in t.w.things && k != m ==>
      k in s.w.things && (t.w.things[k] == s.w.things[k] || (t.w.things[k].Context? && s.w.things[k].Context?))
    ensures Towards(s, u, m)
  {
  }

  /** What is left is what was there, or a context with another count. */
  ghost predicate Kept(s: State, s': State, m: nat) {
    forall k :: k in s'.w.things && k != m ==>
      k in s.w.things && (s'.w.things[k] == s.w.things[k] || (s'.w.things[k].Context? && s.w.things[k].Context?))
  }

  lemma PutTowards(s: State, h: nat, m: nat)
    requires Inv(s) && Quiet(s) && h in s.w.things && s.w.things[h] == Handle(m) && IsShm(s.w, m)
    ensures Enabled(s, Put(h))
    ensures var s' := Step(s, Put(h));
      Inv(s') && Towards(s, s', m) && Kept(s, s', m) && IsShm(s'.w, m) && s'.w.things[m].refs < s.w.things[m].refs
  {
    hide Step, Inv;
    PutKeeps(s, h);
    PutEffect(s, h);
  }

  lemma ReleaseCtxTowards(s: State, m: nat)
    requires Inv(s) && Quiet(s) && Enabled(s, ReleaseCtx(m))
    ensures var s' := Step(s, ReleaseCtx(m));
      Inv(s') && Towards(s, s', m) && Kept(s, s', m) && Enabled(s', ReleaseDev(m))
  {
    At(s.w, m);
    hide Step, Inv, ReleasesCtx, Towards, Kept;
    ReleaseCtxKeeps(s, m);
    ReleaseCtxEffect(s, m);
    ReleasesTowards(s, Step(s, ReleaseCtx(m)), m);
  }

  lemma ReleasesTowards(s: State, s': State, m: nat)
    requires Quiet(s) && ReleasesCtx(s, s', m)
    ensures Towards(s, s', m) && Kept(s, s', m) && Enabled(s', ReleaseDev(m))
  {
    hide Inv, Enabled;
    assert forall k :: k in s'.w.things && k != m ==> k in s.w.things && (s'.w.things[k] == s.w.things[k] || k == s.w.things[m].ctx);
  }

  lemma ReleaseDevTowards(s: State, m: nat)
    requires Inv(s) && Quiet(s) && Enabled(s, ReleaseDev(m))
    ensures var s' := Step(s, ReleaseDev(m));
      Inv(s') && Towards(s, s', m) && Kept(s, s', m) && m !in s'.w.things && m in s'.w.released
  {
    hide Step, Inv;
    ReleaseDevKeeps(s, m);
    ReleaseDevEffect(s, m);
  }

  predicate GivesBack(ev: Event) {
    ev.Put? || ev.ReleaseCtx? || ev.ReleaseDev?
  }

  ghost predicate Drained(s: State, events: seq<Event>, s': State, m: nat) {
    && Leads(s, events, s') && Inv(s') && Towards(s, s', m) && Kept(s, s', m)
    && m !in s'.w.things && m in s'.w.released && (forall ev :: ev in events ==> GivesBack(ev))
  }

  lemma DrainedOn(s: State, ev: Event, t: State, events: seq<Event>, u: State, m: nat)
    requires Enabled(s, ev) && t == Step(s, ev) && GivesBack(ev) && Towards(s, t, m) && Kept(s, t, m)
    requires Drained(t, events, u, m)
    ensures Drained(s, [ev] + events, u, m)
  {
    hide Step, Enabled, Inv;
    LeadsOn(s, ev, events, u);
    hide Leads;
    TowardsTwice(s, t, u, m);
  }

  /** With no call in the middle of an operation, putting the handles of an object and releasing
      it leads to where it has been released. */
  lemma {:induction false} Drain(s: State, m: nat) returns (events: seq<Event>, s': State)
    requires Inv(s) && Quiet(s) && IsShm(s.w, m)
    ensures Drained(s, events, s', m)
    decreases if s.w.things[m].stage == Live then 2 + s.w.things[m].refs
              else if s.w.things[m].stage == Unpublished then 1 else 0
  {
    hide Inv, Step, Towards, Kept, Drained;
    if s.w.things[m].stage == Live {
      var h := HandleThere(s, m);
      PutTowards(s, h, m);
      var t := Step(s, Put(h));
      TowardsQuiet(s, t, m);
      events, s' := Drain(t, m);
      DrainedOn(s, Put(h), t, events, s', m);
      events := [Put(h)] + events;
    } else if s.w.things[m].stage == Unpublished {
      ReleaseCtxTowards(s, m);
      var t := Step(s, ReleaseCtx(m));
      TowardsQuiet(s, t, m);
      events, s' := Drain(t, m);
      DrainedOn(s, ReleaseCtx(m), t, events, s', m);
      events := [ReleaseCtx(m)] + events;
    } else {
      ReleaseDevTowards(s, m);
      events, s' := [ReleaseDev(m)], Step(s, ReleaseDev(m));
      OneStepDrained(s, m);
    }
  }

  lemma TowardsQuiet(s: State, s': State, m: nat)
    requires Towards(s, s', m)
    ensures Quiet(s')
  {
  }

  lemma OneStepDrained(s: State, m: nat)
    requires Enabled(s, ReleaseDev(m))
    requires var s' := Step(s, ReleaseDev(m));
      Inv(s') && Towards(s, s', m) && Kept(s, s', m) && m !in s'.w.things && m in s'.w.released
    ensures Drained(s, [ReleaseDev(m)], Step(s, ReleaseDev(m)), m)
  {
    hide Inv, Step, Towards, Kept;
    var s' := Step(s, ReleaseDev(m));
    assert Leads(s', [], s');
    LeadsOn(s, ReleaseDev(m), [], s');
    assert [ReleaseDev(m)] + [] == [ReleaseDev(m)];
  }

  /** From `s`, `events` lead to `s'`, in which some things are gone and none are new. */
  ghost predicate Shrinks(s: State, events: seq<Event>, s': State) {
    Leads(s, events, s') && Inv(s') && s'.w.things.Keys < s.w.things.Keys
  }

  predicate IsCaller(t: Thing) {
    !t.Context? && !t.Shm? && !t.Handle?
  }

  lemma OneStepShrinks(s: State, ev: Event)
    requires Inv(s) && Enabled(s, ev) && Step(s, ev).w.things.Keys < s.w.things.Keys
    ensures Shrinks(s, [ev], Step(s, ev))
  {
    hide Inv, Step, Enabled;
    StepKeepsInv(s, ev);
    assert Leads(Step(s, ev), [], Step(s, ev));
    LeadsOn(s, ev, [], Step(s, ev));
    assert [ev] + [] == [ev];
  }

  lemma StepThenShrinks(s: State, ev: Event, events: seq<Event>, s': State)
    requires Inv(s) && Enabled(s, ev) && Step(s, ev).w.things.Keys <= s.w.things.Keys && Shrinks(Step(s, ev), events, s')
    ensures Shrinks(s, [ev] + events, s')
  {
    hide Inv, Step, Enabled;
    LeadsOn(s, ev, events, s');
  }

  lemma LeftShrinks(s: State, s': State, k: nat, users: int)
    requires k in s.w.things && Left(s, s', k, users)
    ensures s'.w.things.Keys == s.w.things.Keys - {k}
  {
  }

  lemma BecameKeeps(s: State, s': State, k: nat, t: Thing, users: int)
    requires k in s.w.things && Became(s, s', k, t, users)
    ensures s'.w.things.Keys == s.w.things.Keys
  {
  }

  lemma UnpinKeeps(s: State, s': State, p: nat, t: Thing)
    requires Inv(s) && p in s.w.things && s.w.things[p].Pinning? && Pins(s, s', p, t, -1)
    ensures s'.w.things.Keys == s.w.things.Keys
  {
    CallerFacts(s, p);
    hide Inv;
  }

  predicate LastStep(s: State, p: nat, ev: Event)
    requires p in s.w.things
  {
    var t := s.w.things[p];
    || (t.Opening? && ev == OpenFail(p)) || (t.Closing? && ev == CloseDone(p)) || (t.Undoing? && ev == Undo(p))
    || (t.Publishing? && ev == Publish(p)) || (t.Building? && t.id < 0 && ev == BuildFail(p))
  }

  lemma LastStepShrinks(s: State, p: nat, ev: Event)
    requires Inv(s) && p in s.w.things && LastStep(s, p, ev)
    ensures Enabled(s, ev) && Shrinks(s, [ev], Step(s, ev))
  {
    hide Inv, Step, Effect;
    StepEffect(s, ev);
    LastStepRemoves(s, p, ev, Step(s, ev));
    OneStepShrinks(s, ev);
  }

  lemma LastStepRemoves(s: State, p: nat, ev: Event, s': State)
    requires p in s.w.things && LastStep(s, p, ev) && Effect(s, ev, s')
    ensures s'.w.things.Keys == s.w.things.Keys - {p}
  {
    if !ev.Undo? && !ev.Publish? {
      LeftShrinks(s, s', p, -1);
    }
  }

  /** Any caller can give up: it has its way out, and is gone at the end of it. */
  lemma {:induction false} CallerCanLeave(s: State, p: nat) returns (events: seq<Event>, s': State)
    requires Inv(s) && p in s.w.things && IsCaller(s.w.things[p])
    ensures Shrinks(s, events, s')
    decreases if s.w.things[p].Reserving? || s.w.things[p].Pinning? then 2 else if s.w.things[p].Building? then 1 else 0
  {
    hide Inv, Step, Shrinks;
    var t := s.w.things[p];
    var ev :=
      if t.Opening? then OpenFail(p) else if t.Closing? then CloseDone(p) else if t.Undoing? then Undo(p)
      else if t.Publishing? then Publish(p) else if t.Building? then BuildFail(p)
      else if t.Pinning? then PinFail(p) else GetDevice(p);
    if LastStep(s, p, ev) {
      LastStepShrinks(s, p, ev);
      events, s' := [ev], Step(s, ev);
    } else {
      var s1 := Step(s, ev);
      StepEffect(s, ev);
      StepKeepsInv(s, ev);
      if t.Pinning? {
        UnpinKeeps(s, s1, p, Building(t.ctx, t.id));
      } else if t.Reserving? {
        BecameKeeps(s, s1, p, Building(t.ctx, t.id), 1);
      } else {
        BecameKeeps(s, s1, p, Undoing(t.ctx, t.id), -1);
      }
      events, s' := CallerCanLeave(s1, p);
      StepThenShrinks(s, ev, events, s');
      events := [ev] + events;
    }
  }

  lemma ObjectCanGo(s: State, m: nat) returns (events: seq<Event>, s': State)
    requires Inv(s) && Quiet(s) && IsShm(s.w, m)
    ensures Shrinks(s, events, s')
  {
    events, s' := Drain(s, m);
    hide Inv, Leads, Quiet;
    assert m in s.w.things.Keys && m !in s'.w.things.Keys;
  }

  lemma OnlyContexts(s: State, c: nat)
    requires Inv(s) && c in s.w.things
    requires forall k :: k in s.w.things ==> !IsCaller(s.w.things[k]) && !s.w.things[k].Shm?
    ensures s.w.things[c] == Context(1, true)
  {
    At(s.w, c);
    CountZero(s.w.things, OfContext(c));
  }

  lemma ContextCanGo(s: State, c: nat) returns (events: seq<Event>, s': State)
    requires Inv(s) && Quiet(s) && Has(s, c, Context(1, true))
    ensures Shrinks(s, events, s')
  {
    FreshKey(s.w);
    hide Inv, Step, Leads;
    var p := s.w.next;
    CloseEffect(s, c);
    StepKeepsInv(s, Close(c));
    var s1 := Step(s, Close(c));
    ClosedKeys(s, s1, c);
    StepEffect(s1, CloseDone(p));
    StepKeepsInv(s1, CloseDone(p));
    s' := Step(s1, CloseDone(p));
    LeftShrinks(s1, s', p, -1);
    hide Closes, Left;
    events := [Close(c)] + [CloseDone(p)];
    TwoSteps(s, Close(c), CloseDone(p));
  }

  lemma ClosedKeys(s: State, s': State, c: nat)
    requires Has(s, c, Context(1, true)) && Closes(s, s', c) && s.w.next !in s.w.things
    ensures s'.w.things.Keys == s.w.things.Keys - {c} + {s.w.next} && s'.w.things[s.w.next] == Closing
  {
  }

  lemma TwoSteps(s: State, a: Event, b: Event)
    requires Enabled(s, a) && Enabled(Step(s, a), b)
    ensures Leads(s, [a] + [b], Step(Step(s, a), b))
  {
    hide Step, Enabled;
    var t := Step(s, a);
    assert Leads(Step(t, b), [], Step(t, b));
    LeadsOn(t, b, [], Step(t, b));
    assert [b] + [] == [b];
    LeadsOn(s, a, [b], Step(t, b));
  }

  lemma SomethingCanGo(s: State) returns (events: seq<Event>, s': State)
    requires Inv(s) && s.w.things != map[]
    ensures Shrinks(s, events, s')
  {
    hide Inv, Step, Shrinks;
    if p :| p in s.w.things && IsCaller(s.w.things[p]) {
      events, s' := CallerCanLeave(s, p);
    } else if m :| m in s.w.things && s.w.things[m].Shm? {
      events, s' := ObjectCanGo(s, m);
    } else {
      var c :| c in s.w.things;
      OnlyContexts(s, c);
      events, s' := ContextCanGo(s, c);
    }
  }

  /** From every state of every run, whoever is in the middle of what, there is a way on to where
      nothing is left, no id, no reference and no user, and unregister's wait is over. */
  lemma {:induction false} WaitCanEnd(s: State) returns (events: seq<Event>, s': State)
    requires Inv(s)
    ensures Leads(s, events, s') && Inv(s') && s'.completed && s'.w.things == map[] && s'.w.idr == map[]
    decreases s.w.things.Keys
  {
    hide Inv, Step, Leads;
    if s.w.things == map[] {
      events, s' := JustUnregister(s);
    } else {
      var first, t := SomethingCanGo(s);
      var rest;
      rest, s' := WaitCanEnd(t);
      LeadsTwice(s, first, t, rest, s');
      events := first + rest;
    }
  }

  lemma JustUnregister(s: State) returns (events: seq<Event>, s': State)
    requires Inv(s) && s.w.things == map[]
    ensures Leads(s, events, s') && Inv(s') && s'.completed && s'.w.things == map[] && s'.w.idr == map[]
  {
    CountZero(s.w.things, Users);
    if s.basePut {
      events, s' := [], s;
    } else {
      UnregisterKeeps(s);
      events, s' := [Unregister], Step(s, Unregister);
      assert Leads(s', [], s');
      LeadsOn(s, Unregister, [], s');
      assert [Unregister] + [] == [Unregister];
    }
    WaitEndsWhenNothingIsLeft(s');
  }
}
