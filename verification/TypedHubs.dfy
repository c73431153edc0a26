/**
 A link passes a Hub whose table has the types of the tree. It is told only what suits its table, and the table has
 the types of the tree again when the removal has passed, which is when the Hub answers, and when the link is over.
 Its declared type is in step all the while exactly when every event meets its guard.
 */
module TypedHubs {
  import opened Devices
  import opened Forest
  import opened TableOps
  import opened Topology
  import opened NextHops
  import opened Replay
  import opened Branches
  import opened Stations
  import opened BranchTypes
  import H = HubTable
  import HubTypes

  // ---------------------------------------------------------------- sequences of events

  /** Every event meets its guard. */
  ghost predicate Watched(c: DeviceId, h: H.HubState, es: seq<H.HubEvent>) {
    HubTypes.SoundRun(c, h, es) ==> HubTypes.Guarded(c, h, es)
  }

  /** The guards of everything a Hub is told during the move. */
  ghost predicate HubGuarded(t: Table, c: DeviceId, h: H.HubState, m: Move, k: nat)
    requires m.x in t
  {
    Hears(t, c, m.p) ==>
      && Watched(c, h, [FirstHeard(c, m)])
      && Watched(c, HubAfter(c, h, [FirstHeard(c, m)]), Replays(m, Upto(Listed(m), k), 0))
      && Watched(c, HubTold(t, c, h, m, k), LossEvents(t, c, t[m.x].parent, m.x))
      && Watched(c, HubAsked(t, c, h, m, k), Replays(m, Listed(m), k))
  }

  lemma OneEvent(c: DeviceId, h: H.HubState, e: H.HubEvent)
    requires H.IsRun(c, h, [e])
    ensures H.Enabled(c, h, e) && HubAfter(c, h, [e]) == H.Step(c, h, e)
    ensures HubTypes.SoundRun(c, h, [e]) <==> HubTypes.Sound(h.view.table, e)
  {
    assert H.Final(c, H.Step(c, h, e), []) == H.Step(c, h, e);
  }

  // ---------------------------------------------------------------- a Hub that hears of the move

  /** The events are accepted, and leave the table in the middle of the link. */
  ghost predicate Accepts(t: Table, c: DeviceId, v: H.HubState, es: seq<H.HubEvent>, m: Move, s: set<DeviceId>) {
    HubTypes.SoundRun(c, v, es) && Midtyped(t, c, HubAfter(c, v, es).view.table, m, s)
  }

  /** The response of the moved device itself. */
  lemma FirstTyped(c: DeviceId, h: H.HubState, t: Table, u: Table, m: Move)
    requires H.IsRun(c, h, [FirstHeard(c, m)]) && Moving(t, u, m) && Typed(t, m) && LinkAllowed(t, m.x, m.p)
    requires Covers(t, c, h.view.table) && TypedAs(h.view.table, t) && (m.p == c || m.p in h.view.table)
    ensures Accepts(t, c, h, [FirstHeard(c, m)], m, {t[m.x].parent})
  {
    var r := h.view.table;
    OneEvent(c, h, FirstHeard(c, m));
    if m.p == c {
      FirstDirect(t, u, c, r, m);
    } else {
      Accepted(t, u, c, r, m);
      FirstIndirect(t, u, c, r, m);
    }
  }

  lemma OneMoreSound(c: DeviceId, v: H.HubState, es: seq<H.HubEvent>, w: H.HubState, e: H.HubEvent)
    requires HubTypes.SoundRun(c, v, es) && H.IsRun(c, v, es) && H.Final(c, v, es) == w
    requires H.Enabled(c, w, e) && HubTypes.Sound(w.view.table, e)
    ensures HubTypes.SoundRun(c, v, es + [e]) && HubAfter(c, v, es + [e]) == H.Step(c, w, e)
  {
    HubTypes.SoundAppend(c, v, es, e);
    H.RunAppend(c, v, es, e);
  }

  /** One more device of the replay. */
  lemma LastTyped(c: DeviceId, v: H.HubState, es: seq<H.HubEvent>, w: H.HubState, t: Table, u: Table, m: Move,
                  ids: seq<DeviceId>, r: Table, s: set<DeviceId>)
    requires Accepts(t, c, v, es, m, s) && H.IsRun(c, v, es) && H.Final(c, v, es) == w
    requires Moving(t, u, m) && Typed(t, m) && ids != [] && Replaying(u, c, r, m, ids)
    requires Rerouted(r, m.branch, m.x, ids[..|ids| - 1], w.view.table)
    ensures Accepts(t, c, v, es + [ReplayOf(m, ids[|ids| - 1])], m, s)
  {
    var e := ReplayOf(m, ids[|ids| - 1]);
    HubHearsNext(c, w, u, m, r, ids);
    NextTyped(t, u, c, r, m, ids, w.view.table, s);
    OneMoreSound(c, v, es, w, e);
  }

  /** The replay is accepted, and changes no type. */
  lemma {:induction false} ReplaysTyped(c: DeviceId, v: H.HubState, n: nat, t: Table, u: Table, m: Move,
                                        ids: seq<DeviceId>, k: nat, r: Table, s: set<DeviceId>)
    requires Starts(c, v, n) && n < H.COUNTER_RANGE && Moving(t, u, m) && Typed(t, m)
    requires Replaying(u, c, r, m, ids) && Rerouted(r, m.branch, m.x, Upto(ids, k), v.view.table)
    requires Midtyped(t, c, v.view.table, m, s)
    ensures Accepts(t, c, v, Replays(m, ids, k), m, s)
    decreases |ids|
  {
    if |ids| > k {
      var before := ids[..|ids| - 1];
      ReplayingBefore(u, c, r, m, ids);
      UptoBefore(ids, k);
      ReplaysTyped(c, v, n, t, u, m, before, k, r, s);
      var w := HubReplays(c, v, n, u, m, before, k, r);
      LastTyped(c, v, Replays(m, before, k), w, t, u, m, ids, r, s);
    } else {
      NoReplay(c, v);
    }
  }

  lemma NoReplay(c: DeviceId, v: H.HubState)
    ensures HubTypes.SoundRun(c, v, []) && HubAfter(c, v, []) == v
  {
  }

  /** The old and the new parent are control devices, in any table that gives them their class. */
  lemma ParentsAreControl(t: Table, m: Move, w: Table)
    requires Typed(t, m) && LinkAllowed(t, m.x, m.p) && TypedOn(w, t, Moved(m))
    ensures m.p in w ==> IsControl(w[m.p].deviceType)
    ensures t[m.x].parent in w ==> IsControl(w[t[m.x].parent].deviceType)
  {
    forall z | z in w ensures IsControl(w[z].deviceType) <==> !IsLeaf(t[z].deviceType) {
      SameTypeBits(w[z].deviceType, t[z].deviceType);
    }
  }

  /** Who passes no removal on records nothing of the old parent. */
  lemma NotConcerned(t: Table, u: Table, c: DeviceId, r: Table, w: Table, m: Move)
    requires Moving(t, u, m) && Covers(t, c, r) && c !in w && w.Keys <= r.Keys + Moved(m)
    requires t[m.x].parent == c || !Below(t, t[m.x].parent, c)
    ensures t[m.x].parent !in w
  {
    CoversIsBranch(t, c, r);
    BranchStaysCovered(t, u, m);
  }

  lemma LessExcepted(w: Table, s: set<DeviceId>, o: DeviceId, z: set<DeviceId>)
    requires Backed(w, s + {o}) && o !in w
    ensures Backed(w, s + z)
  {
  }

  /** What the removal makes of the table of a device that has recorded where `x` is now. */
  ghost function RemovalTable(t: Table, c: DeviceId, w: H.HubState, m: Move): Table
    requires m.x in t && Acyclic(w.view.table)
  {
    var o := t[m.x].parent;
    if o == c then if w.view.hasChildren then EmptyUp(w.view.table, m.p) else w.view.table
    else if Below(t, o, c) then EmptyUp(w.view.table, o)
    else w.view.table
  }

  lemma RemovalEvent(c: DeviceId, w: H.HubState, t: Table, m: Move)
    requires m.x in t && t[m.x].parent != m.p && Acyclic(w.view.table)
    requires H.IsRun(c, w, LossEvents(t, c, t[m.x].parent, m.x))
    requires m.x in w.view.table && w.view.table[m.x].parent == m.p
    requires t[m.x].parent in w.view.table ==> IsControl(w.view.table[t[m.x].parent].deviceType)
    ensures HubTypes.SoundRun(c, w, LossEvents(t, c, t[m.x].parent, m.x))
    ensures HubAfter(c, w, LossEvents(t, c, t[m.x].parent, m.x)).view.table == RemovalTable(t, c, w, m)
  {
    var o := t[m.x].parent;
    if o == c {
      OneEvent(c, w, H.Requested(m.x));
    } else if Below(t, o, c) {
      OneEvent(c, w, H.RemovedFrom(o, m.x));
    } else {
      NoReplay(c, w);
    }
  }

  lemma RemovalIsTyped(c: DeviceId, w: H.HubState, t: Table, u: Table, m: Move, r: Table)
    requires Moving(t, u, m) && Typed(t, m) && LinkAllowed(t, m.x, m.p) && Covers(t, c, r)
    requires Midtyped(t, c, w.view.table, m, {t[m.x].parent}) && Mirrors(w.view.table, u)
    requires w.view.table.Keys <= r.Keys + Moved(m)
    ensures Acyclic(w.view.table) && Midtyped(t, c, RemovalTable(t, c, w, m), m, {})
  {
    var o := t[m.x].parent;
    BranchStaysCovered(t, u, m);
    ParentsAreControl(t, m, w.view.table);
    if o != c && Below(t, o, c) {
      EmptiedMidtyped(t, u, c, w.view.table, m, o);
    } else {
      NotConcerned(t, u, c, r, w.view.table, m);
      LessExcepted(w.view.table, Moved(m), o, {});
      if o == c && w.view.hasChildren {
        LessExcepted(w.view.table, Moved(m), o, {m.p});
        EmptiedMidtyped(t, u, c, w.view.table, m, m.p);
      }
    }
  }

  /** The table of a device once the removal has passed: typed as the tree after the link as far as it is known. */
  ghost predicate Passed(t: Table, u: Table, c: DeviceId, m: Move, w: Table) {
    Midtyped(t, c, w, m, {}) && Sees(u, c, w, Moved(m))
  }

  lemma ReplayFromFirst(c: DeviceId, first: H.HubState, n: nat, t: Table, u: Table, m: Move, k: nat, s: set<DeviceId>)
    requires Starts(c, first, n) && n < H.COUNTER_RANGE && Moving(t, u, m) && Typed(t, m)
    requires Replaying(u, c, first.view.table, m, Listed(m)) && Midtyped(t, c, first.view.table, m, s)
    ensures Accepts(t, c, first, Replays(m, Upto(Listed(m), k), 0), m, s)
  {
    var ids := Upto(Listed(m), k);
    ReplayingUpto(u, c, first.view.table, m, Listed(m), k);
    RerouteNothing(first.view.table, m.branch, m.x, Upto(ids, 0));
    ReplaysTyped(c, first, n, t, u, m, ids, 0, first.view.table, s);
  }

  /** From the response of the moved device through the replay of `k` devices. */
  lemma ToldIsTyped(c: DeviceId, h: H.HubState, n: nat, t: Table, u: Table, m: Move, k: nat)
    requires Starts(c, h, n) && n + 1 < H.COUNTER_RANGE && Moving(t, u, m) && Hears(t, c, m.p)
    requires Covers(t, c, h.view.table) && (m.p == c || m.p in h.view.table)
    requires Typed(t, m) && LinkAllowed(t, m.x, m.p) && TypedAs(h.view.table, t)
    ensures Accepts(t, c, h, [FirstHeard(c, m)], m, {t[m.x].parent})
    ensures Accepts(t, c, HubAfter(c, h, [FirstHeard(c, m)]), Replays(m, Upto(Listed(m), k), 0), m, {t[m.x].parent})
    ensures Midtyped(t, c, HubTold(t, c, h, m, k).view.table, m, {t[m.x].parent})
  {
    HubRecords(c, h, n, t, u, m);
    FirstTyped(c, h, t, u, m);
    ReplayFromFirst(c, HubAfter(c, h, [FirstHeard(c, m)]), n + 1, t, u, m, k, {t[m.x].parent});
  }

  lemma MidwayKeys(u: Table, c: DeviceId, m: Move, k: nat, r: Table, first: Table, w: Table)
    requires Midway(u, c, m, k, r, first, w)
    ensures w.Keys <= r.Keys + Moved(m)
  {
    assert Elements(Upto(Listed(m), k)) <= m.branch.Keys;
  }

  /** Through the removal. */
  lemma AskedIsTyped(c: DeviceId, w: H.HubState, t: Table, u: Table, m: Move, k: nat, r: Table, first: Table)
    requires Moving(t, u, m) && Typed(t, m) && LinkAllowed(t, m.x, m.p) && Covers(t, c, r)
    requires Midtyped(t, c, w.view.table, m, {t[m.x].parent}) && Midway(u, c, m, k, r, first, w.view.table)
    requires H.IsRun(c, w, LossEvents(t, c, t[m.x].parent, m.x))
    ensures Accepts(t, c, w, LossEvents(t, c, t[m.x].parent, m.x), m, {})
  {
    MidwayKeys(u, c, m, k, r, first, w.view.table);
    MidwaySees(t, u, c, m, k, r, first, w.view.table);
    ParentsAreControl(t, m, w.view.table);
    RemovalIsTyped(c, w, t, u, m, r);
    RemovalEvent(c, w, t, m);
  }

  /** Whatever a Hub is told suits the table it finds. */
  ghost predicate HubAccepts(t: Table, c: DeviceId, h: H.HubState, m: Move, k: nat)
    requires m.x in t
  {
    var first, w, v := HubAfter(c, h, [FirstHeard(c, m)]), HubTold(t, c, h, m, k), HubAsked(t, c, h, m, k);
    && HubTypes.WellTyped(c, h.view.table) && HubTypes.SoundRun(c, h, [FirstHeard(c, m)])
    && HubTypes.WellTyped(c, first.view.table) && HubTypes.SoundRun(c, first, Replays(m, Upto(Listed(m), k), 0))
    && HubTypes.WellTyped(c, w.view.table) && HubTypes.SoundRun(c, w, LossEvents(t, c, t[m.x].parent, m.x))
    && HubTypes.WellTyped(c, v.view.table) && HubTypes.SoundRun(c, v, Replays(m, Listed(m), k))
  }

  lemma AskedFromTold(c: DeviceId, h: H.HubState, n: nat, t: Table, u: Table, m: Move, k: nat, first: Table)
    requires Moving(t, u, m) && Typed(t, m) && LinkAllowed(t, m.x, m.p)
    requires Covers(t, c, h.view.table) && n < H.COUNTER_RANGE
    requires Starts(c, HubTold(t, c, h, m, k), n) && HubTold(t, c, h, m, k).owed == NewDebt(h.view.table, c, m)
    requires Midway(u, c, m, k, h.view.table, first, HubTold(t, c, h, m, k).view.table)
    requires Midtyped(t, c, HubTold(t, c, h, m, k).view.table, m, {t[m.x].parent})
    ensures Accepts(t, c, HubTold(t, c, h, m, k), LossEvents(t, c, t[m.x].parent, m.x), m, {})
    ensures var v := HubAsked(t, c, h, m, k);
            && Starts(c, v, n) && Sees(u, c, v.view.table, Moved(m))
            && Midway(u, c, m, k, h.view.table, first, v.view.table)
  {
    HubHearsLoss(c, h, n, t, u, m, k, first);
    AskedIsTyped(c, HubTold(t, c, h, m, k), t, u, m, k, h.view.table, first);
    MidwaySees(t, u, c, m, k, h.view.table, first, HubAsked(t, c, h, m, k).view.table);
  }

  lemma HearerIsTold(c: DeviceId, h: H.HubState, n: nat, t: Table, u: Table, m: Move, k: nat)
    requires Starts(c, h, n) && n + 1 < H.COUNTER_RANGE && h.owed == {} && Moving(t, u, m) && Hears(t, c, m.p)
    requires Covers(t, c, h.view.table) && (m.p == c || m.p in h.view.table)
    requires Typed(t, m) && LinkAllowed(t, m.x, m.p) && TypedAs(h.view.table, t)
    ensures var first, w := HubAfter(c, h, [FirstHeard(c, m)]).view.table, HubTold(t, c, h, m, k);
            && Starts(c, w, n + 1) && w.owed == NewDebt(h.view.table, c, m)
            && Midway(u, c, m, k, h.view.table, first, w.view.table) && Replaying(u, c, first, m, Listed(m))
            && Midtyped(t, c, w.view.table, m, {t[m.x].parent})
  {
    HubHearsSome(c, h, n, t, u, m, k);
    ToldIsTyped(c, h, n, t, u, m, k);
  }

  lemma HearerIsAsked(c: DeviceId, h: H.HubState, n: nat, t: Table, u: Table, m: Move, k: nat)
    requires Starts(c, h, n) && n + 1 < H.COUNTER_RANGE && h.owed == {} && Moving(t, u, m) && Hears(t, c, m.p)
    requires Covers(t, c, h.view.table) && (m.p == c || m.p in h.view.table)
    requires Typed(t, m) && LinkAllowed(t, m.x, m.p) && TypedAs(h.view.table, t)
    ensures Accepts(t, c, HubTold(t, c, h, m, k), LossEvents(t, c, t[m.x].parent, m.x), m, {})
    ensures var v, first := HubAsked(t, c, h, m, k), HubAfter(c, h, [FirstHeard(c, m)]).view.table;
            && Starts(c, v, n + 1) && Sees(u, c, v.view.table, Moved(m))
            && Midway(u, c, m, k, h.view.table, first, v.view.table) && Replaying(u, c, first, m, Listed(m))
  {
    var first := HubAfter(c, h, [FirstHeard(c, m)]).view.table;
    HearerIsTold(c, h, n, t, u, m, k);
    AskedFromTold(c, h, n + 1, t, u, m, k, first);
  }

  /** The tables a Hub has when it answers, and when the link is over. */
  ghost predicate HubTablesTyped(t: Table, u: Table, c: DeviceId, h: H.HubState, m: Move, k: nat)
    requires m.x in t
  {
    && Passed(t, u, c, m, HubAsked(t, c, h, m, k).view.table)
    && Passed(t, u, c, m, HubLinked(t, c, h, m, k).view.table)
  }

  lemma LinkedSees(c: DeviceId, h: H.HubState, n: nat, t: Table, u: Table, m: Move, k: nat)
    requires Starts(c, h, n) && n + 1 < H.COUNTER_RANGE && h.owed == {} && Moving(t, u, m) && Hears(t, c, m.p)
    requires Covers(t, c, h.view.table) && HopsOk(h.view.table) && (m.p == c || m.p in h.view.table)
    ensures Sees(u, c, HubLinked(t, c, h, m, k).view.table, Moved(m))
  {
    HubHearsAll(c, h, n, t, u, m, k);
    CoversSees(u, c, HubLinked(t, c, h, m, k).view.table, Moved(m));
  }

  lemma HearerTables(c: DeviceId, h: H.HubState, n: nat, t: Table, u: Table, m: Move, k: nat)
    requires Starts(c, h, n) && n + 1 < H.COUNTER_RANGE && h.owed == {} && Moving(t, u, m) && Hears(t, c, m.p)
    requires Covers(t, c, h.view.table) && HopsOk(h.view.table) && (m.p == c || m.p in h.view.table)
    requires Typed(t, m) && LinkAllowed(t, m.x, m.p) && TypedAs(h.view.table, t)
    ensures HubTypes.SoundRun(c, HubAsked(t, c, h, m, k), Replays(m, Listed(m), k))
    ensures HubTablesTyped(t, u, c, h, m, k)
  {
    var v, first := HubAsked(t, c, h, m, k), HubAfter(c, h, [FirstHeard(c, m)]).view.table;
    HearerIsAsked(c, h, n, t, u, m, k);
    ReplaysTyped(c, v, n + 1, t, u, m, Listed(m), k, first, {});
    LinkedSees(c, h, n, t, u, m, k);
  }

  /**
   The Controller's check is enough for the types too: whatever a Hub hears of an allowed link suits its table, and
   its table has the types of the tree when it answers and when the link is over, even if its declared type has not.
   */
  lemma HearerAccepts(c: DeviceId, h: H.HubState, n: nat, t: Table, u: Table, m: Move, k: nat)
    requires Starts(c, h, n) && n + 1 < H.COUNTER_RANGE && h.owed == {} && Moving(t, u, m) && Hears(t, c, m.p)
    requires Covers(t, c, h.view.table) && HopsOk(h.view.table) && (m.p in t || m.p == c)
    requires Typed(t, m) && LinkAllowed(t, m.x, m.p) && TypedAs(h.view.table, t)
    ensures HubAccepts(t, c, h, m, k) && HubTablesTyped(t, u, c, h, m, k)
  {
    WhoIsTold(t, c, m.x, m.p, h.view.table);
    TypedIsWell(t, c, h.view.table);
    ToldIsTyped(c, h, n, t, u, m, k);
    HearerIsAsked(c, h, n, t, u, m, k);
    HearerTables(c, h, n, t, u, m, k);
  }

  // ---------------------------------------------------------------- the declared type meanwhile

  /** The declared type is in step before, between and after all the events. */
  ghost predicate HubAlwaysFollows(t: Table, c: DeviceId, h: H.HubState, m: Move, k: nat)
    requires m.x in t && HubAccepts(t, c, h, m, k)
  {
    && HubTypes.AlwaysFollows(c, h, [FirstHeard(c, m)])
    && HubTypes.AlwaysFollows(c, HubAfter(c, h, [FirstHeard(c, m)]), Replays(m, Upto(Listed(m), k), 0))
    && HubTypes.AlwaysFollows(c, HubTold(t, c, h, m, k), LossEvents(t, c, t[m.x].parent, m.x))
    && HubTypes.AlwaysFollows(c, HubAsked(t, c, h, m, k), Replays(m, Listed(m), k))
  }

  lemma PhaseFollowsIff(c: DeviceId, h: H.HubState, es: seq<H.HubEvent>)
    requires HubTypes.WellTyped(c, h.view.table) && HubTypes.Follows(c, h.view) && HubTypes.SoundRun(c, h, es)
    ensures HubTypes.AlwaysFollows(c, h, es) <==> Watched(c, h, es)
    ensures Watched(c, h, es) ==> HubTypes.Follows(c, HubAfter(c, h, es).view)
  {
    HubTypes.RunFollowsIff(c, h, es);
  }

  /** It is so exactly when every event meets its guard. */
  lemma HubFollowsIff(t: Table, c: DeviceId, h: H.HubState, m: Move, k: nat)
    requires m.x in t && HubAccepts(t, c, h, m, k) && HubTypes.Follows(c, h.view) && Hears(t, c, m.p)
    ensures HubAlwaysFollows(t, c, h, m, k) <==> HubGuarded(t, c, h, m, k)
    ensures HubGuarded(t, c, h, m, k) ==>
              HubTypes.Follows(c, HubAsked(t, c, h, m, k).view) && HubTypes.Follows(c, HubLinked(t, c, h, m, k).view)
  {
    PhaseFollowsIff(c, h, [FirstHeard(c, m)]);
    if Watched(c, h, [FirstHeard(c, m)]) {
      var first := HubAfter(c, h, [FirstHeard(c, m)]);
      PhaseFollowsIff(c, first, Replays(m, Upto(Listed(m), k), 0));
      if Watched(c, first, Replays(m, Upto(Listed(m), k), 0)) {
        LaterPhases(t, c, h, m, k);
      }
    }
  }

  lemma LaterPhases(t: Table, c: DeviceId, h: H.HubState, m: Move, k: nat)
    requires m.x in t && HubAccepts(t, c, h, m, k) && HubTypes.Follows(c, HubTold(t, c, h, m, k).view)
    ensures var w, v := HubTold(t, c, h, m, k), HubAsked(t, c, h, m, k);
            var loss, rest := LossEvents(t, c, t[m.x].parent, m.x), Replays(m, Listed(m), k);
            && (HubTypes.AlwaysFollows(c, w, loss) <==> Watched(c, w, loss))
            && (Watched(c, w, loss) ==>
                  && HubTypes.Follows(c, v.view)
                  && (HubTypes.AlwaysFollows(c, v, rest) <==> Watched(c, v, rest))
                  && (Watched(c, v, rest) ==> HubTypes.Follows(c, HubAfter(c, v, rest).view)))
  {
    PhaseFollowsIff(c, HubTold(t, c, h, m, k), LossEvents(t, c, t[m.x].parent, m.x));
    if Watched(c, HubTold(t, c, h, m, k), LossEvents(t, c, t[m.x].parent, m.x)) {
      PhaseFollowsIff(c, HubAsked(t, c, h, m, k), Replays(m, Listed(m), k));
    }
  }

  /** What a Hub has when it answers, and when the link is over. */
  ghost predicate HubStaysTyped(t: Table, u: Table, c: DeviceId, h: H.HubState, m: Move, k: nat)
    requires m.x in t
  {
    var v, z := HubAsked(t, c, h, m, k), HubLinked(t, c, h, m, k);
    && HubTypes.Follows(c, v.view) && Passed(t, u, c, m, v.view.table)
    && HubTypes.Follows(c, z.view) && Passed(t, u, c, m, z.view.table)
  }

  // ---------------------------------------------------------------- a Hub that does not

  /** Nothing of the moved branch is left. */
  lemma CutIsDisjoint(t: Table, c: DeviceId, r: Table, m: Move, w: Table)
    requires Acyclic(t) && Covers(t, c, r) && Covers(t, m.x, m.branch) && m.x in r
    requires w.Keys == RemoveTree(r, m.x).Keys
    ensures w.Keys !! Moved(m)
  {
    CoversIsBranch(t, c, r);
    CoversIsBranch(t, m.x, m.branch);
    if Below(t, c, m.x) {
      BelowTransitive(t, c, m.x, c);
      BelowTransitive(t, m.x, c, m.x);
    }
    forall y | y in w ensures y !in Moved(m) {
      if y in m.branch {
        BelowInside(t, c, r, y, m.x);
      }
    }
  }

  lemma CutIsMidtyped(t: Table, c: DeviceId, m: Move, w: Table)
    requires HubTypes.WellTyped(c, w) && Backed(w, {}) && TypedOn(w, t, {}) && w.Keys !! Moved(m)
    ensures Midtyped(t, c, w, m, {})
  {
  }

  lemma CutSees(t: Table, u: Table, c: DeviceId, r: Table, m: Move, w: Table)
    requires Covers(t, c, r) && Rehung(t, u, m.x, m.p) && m.x in r && m.p != c && m.p !in r && Cut(r, m.x, w)
    ensures Sees(u, c, w, Moved(m))
  {
    LostCovers(t, u, c, m.x, m.p, r, w);
    CoversSees(u, c, w, Moved(m));
  }

  lemma CutIsPassed(t: Table, u: Table, c: DeviceId, r: Table, m: Move)
    requires Moving(t, u, m) && Typed(t, m) && Covers(t, c, r) && TypedAs(r, t) && m.x in r
    requires m.p != c && m.p !in r
    ensures Acyclic(RemoveTree(r, m.x)) && Passed(t, u, c, m, EmptyUp(RemoveTree(r, m.x), t[m.x].parent))
  {
    var o := t[m.x].parent;
    CutTyped(t, c, r, m.x);
    var w := EmptyUp(RemoveTree(r, m.x), o);
    CutKeys(t, c, r, m.x, o);
    CutIsDisjoint(t, c, r, m, w);
    CutIsMidtyped(t, c, m, w);
    CutSees(t, u, c, r, m, w);
  }

  lemma CutKeys(t: Table, c: DeviceId, r: Table, x: DeviceId, o: DeviceId)
    requires Acyclic(t) && Covers(t, c, r) && Acyclic(RemoveTree(r, x))
    ensures Cut(r, x, EmptyUp(RemoveTree(r, x), o))
  {
    CoversIsBranch(t, c, r);
    CutKeeps(r, x, RemoveTree(r, x));
  }

  /** The one event by which a Hub hears of a loss. */
  ghost function LossEvent(c: DeviceId, o: DeviceId, x: DeviceId): H.HubEvent {
    if o == c then H.Requested(x) else H.RemovedFrom(o, x)
  }

  lemma LossMeetsGuard(c: DeviceId, h: H.HubState, o: DeviceId, x: DeviceId)
    requires Acyclic(h.view.table) && x in h.view.table && h.view.table[x].parent == o
    requires o in h.view.table ==> IsControl(h.view.table[o].deviceType)
    requires o == c ==> h.view.hasChildren
    ensures H.Enabled(c, h, LossEvent(c, o, x))
    ensures HubTypes.Sound(h.view.table, LossEvent(c, o, x)) && HubTypes.Guard(c, h.view, LossEvent(c, o, x))
    ensures Acyclic(RemoveTree(h.view.table, x))
    ensures H.Step(c, h, LossEvent(c, o, x)).view.table == EmptyUp(RemoveTree(h.view.table, x), o)
  {
    SubTableAcyclic(RemoveTree(h.view.table, x), h.view.table);
  }

  lemma LossKeepsInStep(c: DeviceId, h: H.HubState, o: DeviceId, x: DeviceId)
    requires HubTypes.WellTyped(c, h.view.table) && HubTypes.Follows(c, h.view)
    requires x in h.view.table && h.view.table[x].parent == o
    requires o in h.view.table ==> IsControl(h.view.table[o].deviceType)
    requires o == c ==> h.view.hasChildren
    ensures Acyclic(RemoveTree(h.view.table, x)) && H.Enabled(c, h, LossEvent(c, o, x))
    ensures var v := H.Step(c, h, LossEvent(c, o, x)).view;
            HubTypes.Follows(c, v) && v.table == EmptyUp(RemoveTree(h.view.table, x), o)
  {
    LossMeetsGuard(c, h, o, x);
    HubTypes.StepFollowsIff(c, h, LossEvent(c, o, x));
  }

  /** Nor can a deletion. */
  lemma DeletionKeepsInStep(c: DeviceId, h: H.HubState, x: DeviceId)
    requires HubTypes.WellTyped(c, h.view.table) && HubTypes.Follows(c, h.view) && x in h.view.table
    ensures Acyclic(RemoveTree(h.view.table, x)) && H.Enabled(c, h, H.Deleted(x))
    ensures var v := H.Step(c, h, H.Deleted(x)).view;
            HubTypes.Follows(c, v) && v.table == EmptyUp(RemoveTree(h.view.table, x), h.view.table[x].parent)
  {
    SubTableAcyclic(RemoveTree(h.view.table, x), h.view.table);
    HubTypes.StepFollowsIff(c, h, H.Deleted(x));
  }

  lemma LosesByOneEvent(c: DeviceId, h: H.HubState, n: nat, t: Table, x: DeviceId)
    requires Starts(c, h, n) && n < H.COUNTER_RANGE && Acyclic(t) && Covers(t, c, h.view.table) && x in h.view.table
    ensures var o := t[x].parent;
            && h.view.table[x].parent == o && LossEvents(t, c, o, x) == [LossEvent(c, o, x)]
            && (o == c ==> h.view.hasChildren) && H.IsRun(c, h, [LossEvent(c, o, x)])
  {
    var o := t[x].parent;
    WhoIsTold(t, c, x, x, h.view.table);
    assert o == c ==> x in DirectChildren(h.view.table, c);
    var v := HubForgets(c, h, n, t, o, x);
  }

  /** It forgets the branch, and no event can put its declared type out of step. */
  lemma LossIsFollowed(c: DeviceId, h: H.HubState, n: nat, t: Table, u: Table, m: Move)
    requires Starts(c, h, n) && n < H.COUNTER_RANGE && Moving(t, u, m) && Typed(t, m)
    requires Covers(t, c, h.view.table) && TypedAs(h.view.table, t) && HubTypes.Follows(c, h.view)
    requires m.x in h.view.table && m.p != c && m.p !in h.view.table
    ensures var v := HubAfter(c, h, LossEvents(t, c, t[m.x].parent, m.x));
            HubTypes.Follows(c, v.view) && Passed(t, u, c, m, v.view.table)
  {
    var r, o := h.view.table, t[m.x].parent;
    TypedIsWell(t, c, r);
    OldParentIsControl(t, m, r);
    LosesByOneEvent(c, h, n, t, m.x);
    LossKeepsInStep(c, h, o, m.x);
    CutIsPassed(t, u, c, r, m);
    OneEvent(c, h, LossEvent(c, o, m.x));
  }

  lemma OldParentIsControl(t: Table, m: Move, r: Table)
    requires Typed(t, m) && TypedAs(r, t)
    ensures t[m.x].parent in r ==> IsControl(r[t[m.x].parent].deviceType)
  {
    if t[m.x].parent in r {
      SameTypeBits(r[t[m.x].parent].deviceType, t[t[m.x].parent].deviceType);
    }
  }

  lemma UntouchedIsPassed(t: Table, u: Table, c: DeviceId, r: Table, m: Move)
    requires Moving(t, u, m) && Typed(t, m) && Covers(t, c, r) && TypedAs(r, t) && m.x !in r
    requires m.p != c && m.p !in r
    ensures Passed(t, u, c, m, r)
  {
    TypedIsWell(t, c, r);
    UnheardCovers(t, u, c, m.x, m.p, r);
    CoversSees(u, c, r, Moved(m));
  }

  lemma LoserStaysTyped(c: DeviceId, h: H.HubState, n: nat, t: Table, u: Table, m: Move, k: nat)
    requires Starts(c, h, n) && n < H.COUNTER_RANGE && Moving(t, u, m) && Typed(t, m)
    requires Covers(t, c, h.view.table) && TypedAs(h.view.table, t) && HubTypes.Follows(c, h.view)
    requires !Hears(t, c, m.p) && m.p !in h.view.table
    ensures HubStaysTyped(t, u, c, h, m, k)
  {
    WhoIsTold(t, c, m.x, m.x, h.view.table);
    if m.x in h.view.table {
      LossIsFollowed(c, h, n, t, u, m);
    } else {
      NoReplay(c, h);
      UntouchedIsPassed(t, u, c, h.view.table, m);
    }
  }

  /**
   A link passes a Hub: if every event meets its guard, the declared type is in step, and the table typed as the tree,
   when the Hub answers and when the link is over.
   */
  lemma HubIsTyped(c: DeviceId, h: H.HubState, n: nat, t: Table, u: Table, m: Move, k: nat)
    requires Starts(c, h, n) && n + 1 < H.COUNTER_RANGE && h.owed == {} && Moving(t, u, m)
    requires Covers(t, c, h.view.table) && HopsOk(h.view.table) && (m.p in t || !Hears(t, c, m.p))
    requires Typed(t, m) && LinkAllowed(t, m.x, m.p) && HubGuarded(t, c, h, m, k)
    requires TypedAs(h.view.table, t) && HubTypes.Follows(c, h.view)
    ensures HubStaysTyped(t, u, c, h, m, k)
  {
    WhoIsTold(t, c, m.x, m.p, h.view.table);
    if Hears(t, c, m.p) {
      HearerAccepts(c, h, n, t, u, m, k);
      HubFollowsIff(t, c, h, m, k);
    } else {
      LoserStaysTyped(c, h, n, t, u, m, k);
    }
  }
}
