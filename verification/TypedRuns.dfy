/**
 Runs of the whole system in which every event at a Hub or a Timer meets its guard: then all tables give every device
 the type it has in the Controller's tree, every device declares that type, and every answer fits by itself.
 */
module TypedRuns {
  import opened Devices
  import opened Forest
  import opened TableOps
  import opened Topology
  import opened NextHops
  import opened Branches
  import opened Delivery
  import opened Stations
  import opened Trees
  import opened BranchTypes
  import opened TypedHubs
  import opened TypedTimers
  import opened TypedTrees
  import opened Network
  import H = HubTable
  import T = TimerTable
  import HubTypes

  /** A device's table has the types of the tree, and a Hub's declared type is in step with its children. */
  ghost predicate StationTyped(t: Table, c: DeviceId, st: Station)
    requires c in t
  {
    && TypedAs(BranchAt(c, st), t)
    && (st.AtHub? ==> IsHub(t[c].deviceType) && HubTypes.Follows(c, st.hub.view))
  }

  ghost predicate AllStationsTyped(t: Table, stations: map<DeviceId, Station>) {
    forall c | c in t && c in stations :: StationTyped(t, c, stations[c])
  }

  ghost predicate RightTypes(t: Table, stations: map<DeviceId, Station>) {
    Safe(t) && Exact(t) && AllStationsTyped(t, stations)
  }

  ghost predicate Faithful(sys: System) { Sound(sys) && RightTypes(sys.tree, sys.stations) }

  // ---------------------------------------------------------------- what devices declare

  lemma HubDeclares(t: Table, c: DeviceId, v: H.View)
    requires Compatible(t) && Exact(t) && c in t && IsHub(t[c].deviceType)
    requires HubTypes.Follows(c, v) && Covers(t, c, v.table) && TypedAs(v.table, t)
    ensures SameType(v.deviceType, t[c].deviceType)
  {
    HubTypes.HubBits(v.deviceType);
    HubTypes.HubBits(t[c].deviceType);
    SameTypeBits(t[c].deviceType, t[c].deviceType);
    BackedIsExact(t, {});
    forall d ensures HubTypes.DirectNonEmpty(c, v.table, d) <==> NonEmpty(t, d) && t[d].parent == c {
      if d in v.table {
        SameTypeBits(v.table[d].deviceType, t[d].deviceType);
      }
    }
    if NonEmpty(t, c) || !IsEmpty(v.deviceType) {
      var d :| HubTypes.DirectNonEmpty(c, v.table, d);
      assert ChildType(v.table[d].deviceType) == ChildType(v.deviceType);
      assert ChildType(t[d].deviceType) == ChildType(t[c].deviceType);
    } else {
      EmptyTypes(v.deviceType, t[c].deviceType);
    }
  }

  lemma TimerDeclares(t: Table, c: DeviceId, v: T.View, fd: int)
    requires Compatible(t) && Exact(t) && c in t && IsTimer(t[c].deviceType)
    requires TimerKnows(t, c, v, fd) && TypedAs(T.Branch(c, v, fd), t)
    ensures SameType(v.deviceType, t[c].deviceType)
  {
    var b := T.Branch(c, v, fd);
    BackedIsExact(t, {});
    SameTypeBits(t[c].deviceType, t[c].deviceType);
    TimerTypeBits(v.childType);
    if v.hasChild {
      assert b[v.childId].deviceType == v.childType;
      SameTypeBits(v.childType, t[v.childId].deviceType);
      if NonEmpty(t, c) {
        var d :| NonEmpty(t, d) && t[d].parent == c;
        BelowTheChild(t, c, v, fd, d);
      }
    }
    EmptyTypes(v.deviceType, t[c].deviceType);
  }

  lemma TimerTypeBits(ty: DeviceType)
    ensures ControlClass(TIMER_DEVICE | ChildType(ty)) == TIMER_DEVICE && ControlClass(TIMER_DEVICE) == TIMER_DEVICE
    ensures ChildType(TIMER_DEVICE | ChildType(ty)) == ChildType(ty) && IsEmpty(TIMER_DEVICE)
    ensures IsEmpty(TIMER_DEVICE | ChildType(ty)) <==> IsEmpty(ty)
  {
  }

  /** Every device declares the type the Controller records for it. */
  lemma DeclaredIsRecorded(t: Table, pipes: Pipes, c: DeviceId, st: Station, n: nat)
    requires Compatible(t) && Exact(t) && c in t && InStep(t, pipes, c, st, n) && StationTyped(t, c, st)
    ensures SameType(Declared(t, c, st), t[c].deviceType)
  {
    match st
    case AtHub(h) => HubDeclares(t, c, h.view);
    case AtTimer(v, fd) => TimerDeclares(t, c, v, fd);
    case AtLeaf =>
  }

  // ---------------------------------------------------------------- a link

  /** What has to hold of the events by which the devices hear of a link. */
  ghost predicate StationGuarded(t: Table, c: DeviceId, st: Station, m: Move, k: nat)
    requires m.x in t
  {
    match st
    case AtHub(h) => HubGuarded(t, c, h, m, k)
    case AtTimer(v, _) => TimerGuarded(t, c, v, m, k)
    case AtLeaf => true
  }

  ghost predicate LinkGuarded(sys: System, m: Move, turns: Turns)
    requires m.x in sys.tree
  {
    forall c | c in sys.tree && c in sys.stations ::
      StationGuarded(sys.tree, c, sys.stations[c], m, Turn(turns, c))
  }

  /** The moved device announces what the tree records. */
  lemma MoveIsTyped(t: Table, stations: map<DeviceId, Station>, pipes: Pipes, m: Move, n: nat)
    requires Safe(t) && Exact(t) && GoodMove(t, stations, pipes, m, n) && StationTyped(t, m.x, stations[m.x])
    ensures Typed(t, m)
  {
    BackedIsExact(t, {});
    DeclaredIsRecorded(t, pipes, m.x, stations[m.x], n);
  }

  lemma HubPassedIsTyped(t: Table, u: Table, c: DeviceId, h: H.HubState, m: Move, k: nat)
    requires m.x in t && HubStaysTyped(t, u, c, h, m, k) && Acyclic(u) && TreeTyped(t, u, Moved(m))
    requires c in t && c in u && IsHub(t[c].deviceType)
    ensures StationTyped(u, c, AtHub(HubLinked(t, c, h, m, k)))
  {
    TypedAgain(t, u, c, HubLinked(t, c, h, m, k).view.table, Moved(m));
    SameTypeBits(t[c].deviceType, u[c].deviceType);
  }

  lemma TimerPassedIsTyped(t: Table, u: Table, c: DeviceId, v: T.View, f: int, m: Move, k: nat)
    requires m.x in t && TimerStaysTyped(t, u, c, v, f, m, k) && Acyclic(u) && TreeTyped(t, u, Moved(m))
    requires c in u
    ensures StationTyped(u, c, AtTimer(TimerLinked(t, c, v, m, k), ChildPipe(c, m, f)))
  {
    TypedAgain(t, u, c, T.Branch(c, TimerLinked(t, c, v, m, k), ChildPipe(c, m, f)), Moved(m));
  }

  /** Every station is typed as the tree again after the link. */
  lemma StationLinked(t: Table, u: Table, pipes: Pipes, c: DeviceId, st: Station, n: nat, m: Move, k: nat)
    requires Linking(t, u, pipes, m) && Typed(t, m) && TreeTyped(t, u, Moved(m)) && LinkAllowed(t, m.x, m.p)
    requires c in t && InStep(t, pipes, c, st, n) && n + 1 < H.COUNTER_RANGE && StationTyped(t, c, st)
    requires StationGuarded(t, c, st, m, k)
    ensures StationTyped(u, c, AfterLink(t, c, st, m, k))
  {
    NotToldOfTheController(t, c, m);
    match st
    case AtHub(h) =>
      HubIsTyped(c, h, n, t, u, m, k);
      HubPassedIsTyped(t, u, c, h, m, k);
    case AtTimer(v, fd) =>
      TimerAdmits(t, u, pipes, c, v, fd, m);
      TimerIsTyped(c, v, fd, t, u, m, k);
      TimerPassedIsTyped(t, u, c, v, fd, m, k);
    case AtLeaf =>
  }

  /** When the removal has passed a Hub, it and the tree see the same below it. */
  lemma AskedSeesTheSame(t: Table, w: Table, o: DeviceId, m: Move, v: Table)
    requires m.x in t && t[m.x].parent == o && Passed(t, w, o, m, v) && Safe(w) && w.Keys == t.Keys
    requires ExactOutside(w, {o}) && TypedOn(w, t, Moved(m))
    ensures HubTypes.SameBelow(o, v, w)
  {
    var s := Moved(m) + {o};
    BackedIsExact(w, {o});
    TypesCarryOver(t, w, v, Moved(m));
    AllDetermined(w, o, v, s);
    forall d ensures HubTypes.DirectNonEmpty(o, v, d) <==> HubTypes.DirectNonEmpty(o, w, d) {
      if d in v {
        SameTypeBits(v[d].deviceType, w[d].deviceType);
      }
    }
  }

  /** So its answer is truthful. */
  lemma HubAnswerIsTruthful(t: Table, w: Table, o: DeviceId, h: H.HubState, m: Move, k: nat)
    requires m.x in t && t[m.x].parent == o && HubStaysTyped(t, w, o, h, m, k) && Safe(w) && w.Keys == t.Keys
    requires ExactOutside(w, {o}) && TypedOn(w, t, Moved(m)) && o in t && IsHub(t[o].deviceType)
    ensures Truthful(w, o, HubAsked(t, o, h, m, k).view.deviceType)
  {
    AskedSeesTheSame(t, w, o, m, HubAsked(t, o, h, m, k).view.table);
    SameTypeBits(t[o].deviceType, w[o].deviceType);
    HubTypes.FollowingIsTruthful(o, HubAsked(t, o, h, m, k).view, w);
  }

  lemma TimerAnswerIsTruthful(t: Table, w: Table, pipes: Pipes, o: DeviceId, v: T.View, fd: int, m: Move, n: nat,
                              k: nat)
    requires Linking(t, w, pipes, m) && o in t && InStep(t, pipes, o, AtTimer(v, fd), n) && t[m.x].parent == o
    requires TypedOn(w, t, Moved(m))
    ensures o in w && Truthful(w, o, DeclaredWhenAsked(t, o, AtTimer(v, fd), m, k))
  {
    NoChildLeft(t, w, pipes, o, v, fd, m, n, k);
    SameTypeBits(t[o].deviceType, w[o].deviceType);
    TimerTypeBits(0);
  }

  lemma AnswerIsTruthful(t: Table, w: Table, pipes: Pipes, o: DeviceId, st: Station, m: Move, n: nat, k: nat)
    requires Linking(t, w, pipes, m) && o in t && InStep(t, pipes, o, st, n) && t[m.x].parent == o
    requires Typed(t, m) && LinkAllowed(t, m.x, m.p) && n + 1 < H.COUNTER_RANGE
    requires StationTyped(t, o, st) && StationGuarded(t, o, st, m, k)
    requires Safe(w) && ExactOutside(w, {o}) && TypedOn(w, t, Moved(m))
    ensures o in w && IsControl(w[o].deviceType) && Truthful(w, o, DeclaredWhenAsked(t, o, st, m, k))
  {
    SameTypeBits(t[o].deviceType, w[o].deviceType);
    NotToldOfTheController(t, o, m);
    assert IsControl(t[o].deviceType);
    match st
    case AtHub(h) =>
      HubIsTyped(o, h, n, t, w, m, k);
      HubAnswerIsTruthful(t, w, o, h, m, k);
    case AtTimer(v, fd) => TimerAnswerIsTruthful(t, w, pipes, o, v, fd, m, n, k);
  }

  /** The old parent's answer is truthful, if all events meet their guards. */
  lemma OldParentIsTruthful(sys: System, m: Move, turns: Turns, w: Table)
    requires AllInStep(sys.tree, sys.stations, sys.pipes, sys.steps) && sys.steps + 1 < H.COUNTER_RANGE
    requires Linking(sys.tree, w, sys.pipes, m) && Typed(sys.tree, m) && LinkAllowed(sys.tree, m.x, m.p)
    requires AllStationsTyped(sys.tree, sys.stations) && LinkGuarded(sys, m, turns)
    requires Safe(w) && ExactOutside(w, {sys.tree[m.x].parent}) && TypedOn(w, sys.tree, Moved(m))
    ensures var o := sys.tree[m.x].parent;
            o != CONTROLLER_ID ==>
              o in w && IsControl(w[o].deviceType) && Truthful(w, o, OldParentAnswer(sys, m, turns))
  {
    var t, o := sys.tree, sys.tree[m.x].parent;
    if o != CONTROLLER_ID {
      assert InStep(t, sys.pipes, o, sys.stations[o], sys.steps);
      AnswerIsTruthful(t, w, sys.pipes, o, sys.stations[o], m, sys.steps, Turn(turns, o));
    }
  }

  /** The tree after a link all of whose events meet their guards. */
  lemma LinkedTreeIsTyped(sys: System, m: Move, turns: Turns)
    requires Faithful(sys) && sys.steps + 1 < H.COUNTER_RANGE
    requires GoodMove(sys.tree, sys.stations, sys.pipes, m, sys.steps) && LinkGuarded(sys, m, turns)
    ensures var u := TreeAfterLink(sys, m, turns); Safe(u) && Exact(u) && TreeTyped(sys.tree, u, Moved(m))
    ensures Typed(sys.tree, m)
  {
    var t, k := sys.tree, Turn(turns, CONTROLLER_ID);
    var w := MovedTree(t, m, k);
    MoveIsTyped(t, sys.stations, sys.pipes, m, sys.steps);
    MovedTreeTypes(t, m, k);
    GoodMoveIsLinking(t, sys.stations, sys.pipes, m, sys.steps, w);
    OldParentIsTruthful(sys, m, turns, w);
    LinkedTreeTypes(t, m, k, OldParentAnswer(sys, m, turns));
  }

  lemma LinkedStationsTyped(sys: System, m: Move, turns: Turns, u: Table)
    requires AllStationsTyped(sys.tree, sys.stations) && sys.steps + 1 < H.COUNTER_RANGE
    requires AllInStep(sys.tree, sys.stations, sys.pipes, sys.steps) && LinkAllowed(sys.tree, m.x, m.p)
    requires Linking(sys.tree, u, sys.pipes, m) && Typed(sys.tree, m) && TreeTyped(sys.tree, u, Moved(m))
    requires LinkGuarded(sys, m, turns)
    ensures AllStationsTyped(u, StationsAfterLink(sys, m, turns))
  {
    forall c | c in u && c in sys.stations
      ensures StationTyped(u, c, AfterLink(sys.tree, c, sys.stations[c], m, Turn(turns, c)))
    {
      assert InStep(sys.tree, sys.pipes, c, sys.stations[c], sys.steps);
      StationLinked(sys.tree, u, sys.pipes, c, sys.stations[c], sys.steps, m, Turn(turns, c));
    }
  }

  lemma LinkedIsFaithful(sys: System, m: Move, turns: Turns)
    requires Faithful(sys) && sys.steps + 1 < H.COUNTER_RANGE
    requires GoodMove(sys.tree, sys.stations, sys.pipes, m, sys.steps) && LinkGuarded(sys, m, turns)
    ensures RightTypes(TreeAfterLink(sys, m, turns), StationsAfterLink(sys, m, turns))
  {
    var u := TreeAfterLink(sys, m, turns);
    LinkedTreeIsTyped(sys, m, turns);
    LinkTreeIsRooted(sys, m, turns);
    GoodMoveIsLinking(sys.tree, sys.stations, sys.pipes, m, sys.steps, u);
    LinkedStationsTyped(sys, m, turns, u);
  }

  // ---------------------------------------------------------------- devices that go

  /** A table that loses a branch, or lists nothing of it, is typed as the tree without the branch. */
  lemma CutIsTypedAs(t: Table, u: Table, c: DeviceId, r: Table, x: DeviceId, w: Table)
    requires Safe(t) && Exact(t) && Covers(t, c, r) && TypedAs(r, t)
    requires Acyclic(u) && TreeTyped(t, u, {}) && Covers(u, c, w)
    requires if x in r then Acyclic(RemoveTree(r, x)) && w == EmptyUp(RemoveTree(r, x), t[x].parent) else w == r
    ensures TypedAs(w, u)
  {
    BackedIsExact(t, {});
    TypedIsWell(t, c, r);
    if x in r {
      CutTyped(t, c, r, x);
    }
    CoversSees(u, c, w, {});
    TypedAgain(t, u, c, w, {});
  }

  lemma HubCut(t: Table, u: Table, c: DeviceId, h: H.HubState, x: DeviceId, v: H.HubState)
    requires Safe(t) && Exact(t) && c in t && StationTyped(t, c, AtHub(h)) && Covers(t, c, h.view.table)
    requires Acyclic(u) && TreeTyped(t, u, {}) && c in u && Covers(u, c, v.view.table) && HubTypes.Follows(c, v.view)
    requires var r := h.view.table;
             if x in r then Acyclic(RemoveTree(r, x)) && v.view.table == EmptyUp(RemoveTree(r, x), t[x].parent)
             else v.view.table == r
    ensures StationTyped(u, c, AtHub(v))
  {
    CutIsTypedAs(t, u, c, h.view.table, x, v.view.table);
    SameTypeBits(t[c].deviceType, u[c].deviceType);
  }

  lemma HubAfterDeleteTyped(t: Table, u: Table, pipes: Pipes, c: DeviceId, h: H.HubState, n: nat, x: DeviceId)
    requires Safe(t) && Exact(t) && c in t && InStep(t, pipes, c, AtHub(h), n) && StationTyped(t, c, AtHub(h))
    requires Acyclic(u) && TreeTyped(t, u, {}) && c in u && n < H.COUNTER_RANGE
    requires InStep(u, pipes, c, AfterDelete(t, c, AtHub(h), x), n + 1)
    ensures StationTyped(u, c, AfterDelete(t, c, AtHub(h), x))
  {
    var v := if Below(t, x, c) then HubAfter(c, h, [H.Deleted(x)]) else h;
    BackedIsExact(t, {});
    TypedIsWell(t, c, h.view.table);
    CoversIsBranch(t, c, h.view.table);
    if Below(t, x, c) {
      BelowUnfold(t, x, c);
      var v' := HubDeletes(c, h, n, x);
      DeletionKeepsInStep(c, h, x);
      OneEvent(c, h, H.Deleted(x));
    }
    HubCut(t, u, c, h, x, v);
  }

  lemma HubAfterCrashTyped(t: Table, u: Table, pipes: Pipes, c: DeviceId, h: H.HubState, n: nat, x: DeviceId)
    requires Safe(t) && Exact(t) && c in t && InStep(t, pipes, c, AtHub(h), n) && StationTyped(t, c, AtHub(h))
    requires Acyclic(u) && TreeTyped(t, u, {}) && c in u && x in t && n < H.COUNTER_RANGE
    requires InStep(u, pipes, c, AfterCrash(t, c, AtHub(h), x), n + 1)
    ensures StationTyped(u, c, AfterCrash(t, c, AtHub(h), x))
  {
    var o := t[x].parent;
    BackedIsExact(t, {});
    TypedIsWell(t, c, h.view.table);
    WhoIsTold(t, c, x, x, h.view.table);
    if x in h.view.table {
      LosesByOneEvent(c, h, n, t, x);
      RecordedParentIsControl(t, c, h.view.table, x);
      LossKeepsInStep(c, h, o, x);
      OneEvent(c, h, LossEvent(c, o, x));
    } else {
      NoReplay(c, h);
    }
    HubCut(t, u, c, h, x, HubAfter(c, h, LossEvents(t, c, o, x)));
  }

  lemma RecordedParentIsControl(t: Table, c: DeviceId, r: Table, x: DeviceId)
    requires LeavesAreChildless(t) && Covers(t, c, r) && TypedAs(r, t) && x in r
    ensures r[x].parent == t[x].parent && (t[x].parent in r ==> IsControl(r[t[x].parent].deviceType))
  {
    if t[x].parent in r {
      SameTypeBits(r[t[x].parent].deviceType, t[t[x].parent].deviceType);
    }
  }

  lemma TimerAfterDeleteTyped(t: Table, u: Table, pipes: Pipes, c: DeviceId, v: T.View, fd: int, n: nat, x: DeviceId)
    requires Safe(t) && Exact(t) && c in t && InStep(t, pipes, c, AtTimer(v, fd), n)
    requires StationTyped(t, c, AtTimer(v, fd)) && Acyclic(u) && TreeTyped(t, u, {}) && c in u
    requires InStep(u, pipes, c, AfterDelete(t, c, AtTimer(v, fd), x), n + 1)
    ensures StationTyped(u, c, AfterDelete(t, c, AtTimer(v, fd), x))
  {
    var r := T.Branch(c, v, fd);
    BackedIsExact(t, {});
    CoversIsBranch(t, c, r);
    if Below(t, x, c) {
      BelowUnfold(t, x, c);
      CutTyped(t, c, r, x);
      TimerDeletionTable(c, v, fd, t, x);
    }
    CutIsTypedAs(t, u, c, r, x, BranchAt(c, AfterDelete(t, c, AtTimer(v, fd), x)));
  }

  lemma TimerAfterCrashTyped(t: Table, u: Table, pipes: Pipes, c: DeviceId, v: T.View, fd: int, n: nat, x: DeviceId)
    requires Safe(t) && Exact(t) && c in t && InStep(t, pipes, c, AtTimer(v, fd), n)
    requires StationTyped(t, c, AtTimer(v, fd)) && Acyclic(u) && TreeTyped(t, u, {}) && c in u && x in t
    requires InStep(u, pipes, c, AfterCrash(t, c, AtTimer(v, fd), x), n + 1)
    ensures StationTyped(u, c, AfterCrash(t, c, AtTimer(v, fd), x))
  {
    var r := T.Branch(c, v, fd);
    BackedIsExact(t, {});
    WhoIsTold(t, c, x, x, r);
    if x in r {
      CutTyped(t, c, r, x);
      TimerLossTable(c, v, fd, t, x);
    } else {
      NoTimerEvent(c, v);
    }
    CutIsTypedAs(t, u, c, r, x, BranchAt(c, AfterCrash(t, c, AtTimer(v, fd), x)));
  }

  lemma StationAfterDeleteTyped(t: Table, u: Table, pipes: Pipes, c: DeviceId, st: Station, n: nat, x: DeviceId)
    requires Safe(t) && Exact(t) && c in t && InStep(t, pipes, c, st, n) && StationTyped(t, c, st)
    requires Acyclic(u) && TreeTyped(t, u, {}) && c in u && n < H.COUNTER_RANGE
    requires InStep(u, pipes, c, AfterDelete(t, c, st, x), n + 1)
    ensures StationTyped(u, c, AfterDelete(t, c, st, x))
  {
    match st
    case AtHub(h) => HubAfterDeleteTyped(t, u, pipes, c, h, n, x);
    case AtTimer(v, fd) => TimerAfterDeleteTyped(t, u, pipes, c, v, fd, n, x);
    case AtLeaf =>
  }

  lemma StationAfterCrashTyped(t: Table, u: Table, pipes: Pipes, c: DeviceId, st: Station, n: nat, x: DeviceId)
    requires Safe(t) && Exact(t) && c in t && InStep(t, pipes, c, st, n) && StationTyped(t, c, st) && x in t
    requires Acyclic(u) && TreeTyped(t, u, {}) && c in u && n < H.COUNTER_RANGE
    requires InStep(u, pipes, c, AfterCrash(t, c, st, x), n + 1)
    ensures StationTyped(u, c, AfterCrash(t, c, st, x))
  {
    match st
    case AtHub(h) => HubAfterCrashTyped(t, u, pipes, c, h, n, x);
    case AtTimer(v, fd) => TimerAfterCrashTyped(t, u, pipes, c, v, fd, n, x);
    case AtLeaf =>
  }

  lemma DeletedIsFaithful(sys: System, x: DeviceId)
    requires Faithful(sys) && sys.steps + 1 < H.COUNTER_RANGE && x in sys.tree
    requires var u := Deleted(sys.tree, x);
             AllInStep(u, StationsAfterDelete(sys, x, u), sys.pipes, sys.steps + 1)
    ensures RightTypes(Deleted(sys.tree, x), StationsAfterDelete(sys, x, Deleted(sys.tree, x)))
  {
    var u := Deleted(sys.tree, x);
    DeletedTypes(sys.tree, x);
    forall c | c in u && c in sys.stations ensures StationTyped(u, c, AfterDelete(sys.tree, c, sys.stations[c], x)) {
      assert InStep(sys.tree, sys.pipes, c, sys.stations[c], sys.steps);
      assert InStep(u, sys.pipes, c, AfterDelete(sys.tree, c, sys.stations[c], x), sys.steps + 1);
      StationAfterDeleteTyped(sys.tree, u, sys.pipes, c, sys.stations[c], sys.steps, x);
    }
  }

  /** Nobody hears of the deletion of a device that is not there. */
  lemma NothingDeleted(sys: System, x: DeviceId)
    requires Faithful(sys) && x !in sys.tree
    ensures RightTypes(sys.tree, StationsAfterDelete(sys, x, sys.tree))
  {
    forall c | c in sys.tree && c in sys.stations
      ensures StationTyped(sys.tree, c, AfterDelete(sys.tree, c, sys.stations[c], x))
    {
      BelowUnfold(sys.tree, x, c);
    }
  }

  /** Declaring what is recorded is truthful where the record is exact. */
  lemma RecordedIsTruthful(w: Table, o: DeviceId, ty: DeviceType)
    requires Exact(w) && o in w && IsControl(w[o].deviceType) && SameType(ty, w[o].deviceType)
    ensures Truthful(w, o, ty)
  {
    SameTypeBits(ty, w[o].deviceType);
    assert ExactAt(w, o);
  }

  /** The parent of a dead device answers truthfully. */
  lemma ParentIsTruthful(sys: System, x: DeviceId, w: Table)
    requires Faithful(sys) && sys.steps + 1 < H.COUNTER_RANGE && x in sys.tree
    requires Safe(w) && Exact(w) && TreeTyped(sys.tree, w, {}) && Pruned(sys.tree, x, w)
    requires ClassesLeft(sys.tree, w, {})
    ensures var o := sys.tree[x].parent;
            o != CONTROLLER_ID ==> o in w && IsControl(w[o].deviceType) && Truthful(w, o, ParentAnswer(sys, x))
  {
    var t, o := sys.tree, sys.tree[x].parent;
    CrashAnswerKind(sys, x, w);
    if o != CONTROLLER_ID {
      var st, n := sys.stations[o], sys.steps;
      assert InStep(t, sys.pipes, o, st, n);
      KindsOfTheRest(sys, x, w, CONTROLLER_ID, 0);
      StationAfterCrash(t, x, w, sys.pipes, o, st, n);
      StationAfterCrashTyped(t, w, sys.pipes, o, st, n, x);
      DeclaredIsRecorded(w, sys.pipes, o, AfterCrash(t, o, st, x), n + 1);
      RecordedIsTruthful(w, o, ParentAnswer(sys, x));
    }
  }

  lemma CrashedTreeIsTyped(sys: System, x: DeviceId, after: Table)
    requires Faithful(sys) && Enabled(sys, Crash(x, after))
    ensures var u := Answered(after, sys.tree[x].parent, ParentAnswer(sys, x));
            Safe(u) && Exact(u) && TreeTyped(sys.tree, u, {})
  {
    ReapedTypes(sys.tree, x, after);
    ReapedTree(sys.tree, x, after);
    ParentIsTruthful(sys, x, after);
    CrashedTypes(sys.tree, x, after, sys.tree[x].parent, ParentAnswer(sys, x));
  }

  lemma CrashedStationsTyped(sys: System, x: DeviceId, u: Table)
    requires Faithful(sys) && sys.steps + 1 < H.COUNTER_RANGE && x in sys.tree
    requires Acyclic(u) && TreeTyped(sys.tree, u, {})
    requires AllInStep(u, StationsAfterCrash(sys, x, u), sys.pipes, sys.steps + 1)
    ensures AllStationsTyped(u, StationsAfterCrash(sys, x, u))
  {
    forall c | c in u && c in sys.stations ensures StationTyped(u, c, AfterCrash(sys.tree, c, sys.stations[c], x)) {
      assert InStep(sys.tree, sys.pipes, c, sys.stations[c], sys.steps);
      assert InStep(u, sys.pipes, c, AfterCrash(sys.tree, c, sys.stations[c], x), sys.steps + 1);
      StationAfterCrashTyped(sys.tree, u, sys.pipes, c, sys.stations[c], sys.steps, x);
    }
  }

  // ---------------------------------------------------------------- new devices

  lemma NewStationTyped(u: Table, id: DeviceId, ty: DeviceType)
    requires id in u && u[id].deviceType == ty && Addable(ty)
    ensures StationTyped(u, id, NewStation(ty))
  {
    HubTypes.HubBits(0);
    AddableBits(ty);
  }

  lemma OldStationTyped(t: Table, u: Table, pipes: Pipes, c: DeviceId, st: Station, n: nat)
    requires c in t && InStep(t, pipes, c, st, n) && StationTyped(t, c, st)
    requires t.Keys <= u.Keys && forall y | y in t :: u[y] == t[y]
    ensures StationTyped(u, c, st)
  {
  }

  lemma OldStationsTyped(sys: System, u: Table)
    requires AllInStep(sys.tree, sys.stations, sys.pipes, sys.steps) && AllStationsTyped(sys.tree, sys.stations)
    requires sys.tree.Keys <= u.Keys && forall y | y in sys.tree :: u[y] == sys.tree[y]
    ensures forall c | c in sys.tree && c in sys.stations :: StationTyped(u, c, sys.stations[c])
  {
    forall c | c in sys.tree && c in sys.stations ensures StationTyped(u, c, sys.stations[c]) {
      OldStationTyped(sys.tree, u, sys.pipes, c, sys.stations[c], sys.steps);
    }
  }

  lemma GrownStationsTyped(sys: System, u: Table, id: DeviceId, ty: DeviceType)
    requires AllInStep(sys.tree, sys.stations, sys.pipes, sys.steps) && AllStationsTyped(sys.tree, sys.stations)
    requires id !in sys.tree && id in u && u == sys.tree[id := u[id]] && u[id].deviceType == ty && Addable(ty)
    ensures AllStationsTyped(u, sys.stations[id := NewStation(ty)])
  {
    NewStationTyped(u, id, ty);
    OldStationsTyped(sys, u);
  }

  lemma AddedIsFaithful(sys: System, id: DeviceId, ty: DeviceType, pid: int, fd: int)
    requires Faithful(sys) && Addable(ty) && id !in sys.tree && id != CONTROLLER_ID
    ensures RightTypes(Put(sys.tree, id, pid, ty, CONTROLLER_ID, fd), sys.stations[id := NewStation(ty)])
  {
    GrownTypes(sys.tree, id, ty, pid, fd);
    GrownStationsTyped(sys, Put(sys.tree, id, pid, ty, CONTROLLER_ID, fd), id, ty);
  }

  // ---------------------------------------------------------------- runs

  /** The only guards are those of links: no other command can put a type out of step. */
  ghost predicate Guarded(sys: System, c: Command)
    requires Enabled(sys, c)
  {
    match c
    case Link(x, p, fd, turns) => LinkGuarded(sys, MoveOf(sys.tree, sys.stations, x, p, fd), turns)
    case _ => true
  }

  lemma GuardedLinkIsFaithful(sys: System, x: DeviceId, p: DeviceId, fd: int, turns: Turns)
    requires Faithful(sys) && Enabled(sys, Link(x, p, fd, turns)) && Guarded(sys, Link(x, p, fd, turns))
    ensures var u := Step(sys, Link(x, p, fd, turns)); RightTypes(u.tree, u.stations)
  {
    LinkIsGoodMove(sys, x, p, fd, turns);
    LinkedIsFaithful(sys, MoveOf(sys.tree, sys.stations, x, p, fd), turns);
  }

  lemma DeleteIsFaithful(sys: System, x: DeviceId)
    requires Faithful(sys) && sys.steps + 1 < H.COUNTER_RANGE
    ensures var u := AfterWholeDelete(sys, x); RightTypes(u.tree, u.stations)
  {
    if x in sys.tree {
      DeletedTree(sys.tree, x);
      KindsOfTheRest(sys, x, Deleted(sys.tree, x), CONTROLLER_ID, 0);
      StationsDeleted(sys, x, Deleted(sys.tree, x));
      DeletedIsFaithful(sys, x);
    } else {
      NothingDeleted(sys, x);
    }
  }

  lemma CrashedIsFaithful(sys: System, x: DeviceId, after: Table, u: Table)
    requires Faithful(sys) && Enabled(sys, Crash(x, after))
    requires u == Answered(after, sys.tree[x].parent, ParentAnswer(sys, x))
    requires AllInStep(u, StationsAfterCrash(sys, x, u), sys.pipes, sys.steps + 1)
    ensures RightTypes(u, StationsAfterCrash(sys, x, u))
  {
    CrashedTreeIsTyped(sys, x, after);
    CrashedStationsTyped(sys, x, u);
  }

  lemma CrashIsFaithful(sys: System, x: DeviceId, after: Table)
    requires Faithful(sys) && Enabled(sys, Crash(x, after))
    ensures var u := AfterWholeCrash(sys, x, after); RightTypes(u.tree, u.stations)
  {
    CrashedTree(sys, x, after);
    StationsCrashed(sys, x, AfterWholeCrash(sys, x, after).tree);
    CrashedIsFaithful(sys, x, after, AfterWholeCrash(sys, x, after).tree);
  }

  lemma StepKeepsTypes(sys: System, c: Command)
    requires Faithful(sys) && Enabled(sys, c) && Guarded(sys, c)
    ensures var u := Step(sys, c); RightTypes(u.tree, u.stations)
  {
    StepKeepsSound(sys, c);
    match c
    case Add(id, ty, pid, fd) => AddedIsFaithful(sys, id, ty, pid, fd);
    case Link(x, p, fd, turns) => GuardedLinkIsFaithful(sys, x, p, fd, turns);
    case Delete(x) => DeleteIsFaithful(sys, x);
    case Crash(x, after) => CrashIsFaithful(sys, x, after);
  }

  /** A guarded command keeps every type right, and so whatever is declared on the way fits. */
  lemma StepKeepsFaithful(sys: System, c: Command)
    requires Faithful(sys) && Enabled(sys, c) && Guarded(sys, c)
    ensures Faithful(Step(sys, c)) && Fits(sys, c)
  {
    StepKeepsSound(sys, c);
    StepIsSafeIff(sys, c);
    StepKeepsTypes(sys, c);
  }

  ghost predicate AllGuarded(sys: System, cs: seq<Command>)
    requires IsRun(sys, cs)
    decreases |cs|
  {
    cs == [] || (Guarded(sys, cs[0]) && AllGuarded(Step(sys, cs[0]), cs[1..]))
  }

  lemma {:induction false} RunKeepsFaithful(sys: System, cs: seq<Command>)
    requires Faithful(sys) && IsRun(sys, cs) && AllGuarded(sys, cs)
    ensures Faithful(Final(sys, cs)) && AllFit(sys, cs)
    decreases |cs|
  {
    if cs != [] {
      StepKeepsFaithful(sys, cs[0]);
      RunKeepsFaithful(Step(sys, cs[0]), cs[1..]);
    }
  }

  lemma InitialIsFaithful()
    ensures Faithful(INITIAL)
  {
    InitialIsSound();
  }

  /**
   After any guarded run the tree has always been safe, and it is exact: every device declares the type that the
   Controller records for it, and that is the type of the leaf devices below it.
   */
  lemma GuardedRunsAreFaithful(cs: seq<Command>, d: DeviceId)
    requires IsRun(INITIAL, cs) && AllGuarded(INITIAL, cs)
    ensures AlwaysSafe(INITIAL, cs) && Exact(Final(INITIAL, cs).tree)
    ensures var sys := Final(INITIAL, cs);
            d in sys.tree ==>
              && d in sys.stations && SameType(Declared(sys.tree, d, sys.stations[d]), sys.tree[d].deviceType)
              && TypedAs(BranchAt(d, sys.stations[d]), sys.tree)
  {
    InitialIsFaithful();
    RunKeepsFaithful(INITIAL, cs);
    RunIsSafeIff(INITIAL, cs);
    FaithfulDeclares(Final(INITIAL, cs), d);
  }

  lemma FaithfulDeclares(sys: System, d: DeviceId)
    requires Faithful(sys)
    ensures d in sys.tree ==>
              && d in sys.stations && SameType(Declared(sys.tree, d, sys.stations[d]), sys.tree[d].deviceType)
              && TypedAs(BranchAt(d, sys.stations[d]), sys.tree)
  {
    if d in sys.tree {
      assert InStep(sys.tree, sys.pipes, d, sys.stations[d], sys.steps);
      DeclaredIsRecorded(sys.tree, sys.pipes, d, sys.stations[d], sys.steps);
    }
  }
}
