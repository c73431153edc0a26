/** What one Hub or one Timer makes of the responses that pass it while a command is carried out. */
module Stations {
  import opened Devices
  import opened Forest
  import opened TableOps
  import opened Topology
  import opened NextHops
  import opened Replay
  import opened Branches
  import H = HubTable
  import T = TimerTable
  import HubTypes

  /** `x`, which declares the type `ty` and has `branch` below it, goes to `p`, where its pipe is opened as `fd`. */
  datatype Move = Move(x: DeviceId, p: DeviceId, ty: DeviceType, fd: int, branch: Table)

  /** The move is one from the tree `t` to the tree `u`. */
  ghost predicate Moving(t: Table, u: Table, m: Move) {
    && Acyclic(t) && Acyclic(u) && Rehung(t, u, m.x, m.p) && m.p != m.x && !Below(t, m.p, m.x)
    && Covers(t, m.x, m.branch) && HangsFrom(m.branch, m.x)
  }

  /** The devices of the branch in the order in which `x` announces them. */
  ghost function Listed(m: Move): (ids: seq<DeviceId>)
    ensures forall d | d in ids :: d in m.branch
  {
    if !HangsFrom(m.branch, m.x) then []
    else
      PreorderOfBranch(m.branch, m.x);
      Preorder(m.branch, m.x)
  }

  // ---------------------------------------------------------------- tables

  /** What a device that hears of the move ends with, if it had the table `r`. */
  ghost predicate Heard(r: Table, u: Table, m: Move, hop: int, w: Table) {
    && w.Keys == r.Keys + {m.x} + m.branch.Keys && Mirrors(w, u)
    && forall y | y in w :: w[y].hop == if y == m.x || y in m.branch then hop else if y in r then r[y].hop else hop
  }

  /** The same after the response of `x` itself, before the replay. */
  ghost predicate Recorded(r: Table, u: Table, x: DeviceId, hop: int, w: Table) {
    w.Keys == r.Keys + {x} && Mirrors(w, u) && forall y | y in w :: w[y].hop == if y == x then hop else r[y].hop
  }

  /** The pipe towards the new parent, or to the moved device itself. */
  ghost function NewHop(r: Table, c: DeviceId, m: Move): int
    requires m.p == c || m.p in r
  {
    if m.p == c then m.fd else r[m.p].hop
  }

  /** `x` goes with everything below it, the rest keeps parents and hops. */
  ghost predicate Cut(r: Table, x: DeviceId, w: Table) {
    w.Keys == RemoveTree(r, x).Keys && forall y | y in w :: w[y].parent == r[y].parent && w[y].hop == r[y].hop
  }

  ghost predicate SameRoutes(r: Table, w: Table) {
    w.Keys == r.Keys && forall y | y in w :: w[y].parent == r[y].parent && w[y].hop == r[y].hop
  }

  /** A device that hears of the move is not in the moved branch. */
  lemma HearerIsOutside(t: Table, u: Table, m: Move, c: DeviceId, r: Table)
    requires Moving(t, u, m) && Covers(t, c, r) && (m.p == c || m.p in r)
    ensures c != m.x && c !in m.branch && m.p !in m.branch
  {
    CoversIsBranch(t, c, r);
    CoversIsBranch(t, m.x, m.branch);
    assert m.p == c || Below(t, m.p, c);
    if c in m.branch && m.p != c {
      BelowTransitive(t, m.p, c, m.x);
    }
  }

  /** Recording `x` under its new parent closes no cycle at a device above that parent. */
  lemma MayBeRecorded(t: Table, u: Table, m: Move, c: DeviceId, r: Table)
    requires Moving(t, u, m) && Covers(t, c, r) && m.p in r
    ensures m.x != c && m.p != c && !Below(r, m.p, m.x)
  {
    HearerIsOutside(t, u, m, c, r);
    if Below(r, m.p, m.x) {
      BelowMirrored(r, t, m.p, m.x);
    }
  }

  lemma LearnRecords(r: Table, t: Table, u: Table, x: DeviceId, p: DeviceId, ty: DeviceType)
    requires Mirrors(r, t) && Rehung(t, u, x, p) && p in r && p != x
    ensures Recorded(r, u, x, r[p].hop, Learn(r, x, p, ty))
  {
    LearnShape(r, x, p, ty);
  }

  /** Announcing a device of the branch under its parent cannot close a cycle in a table that mirrors the tree. */
  lemma NoCycle(u: Table, w: Table, d: DeviceId, q: DeviceId)
    requires Acyclic(u) && Mirrors(w, u) && d in u && u[d].parent == q
    ensures q != d && !Below(w, q, d)
  {
    BelowUnfold(u, d, d);
    if Below(w, q, d) {
      BelowMirrored(w, u, q, d);
    }
  }

  /** The devices `ids` of the branch can be announced to `c`, which has recorded `x` in `r`. */
  ghost predicate Replaying(u: Table, c: DeviceId, r: Table, m: Move, ids: seq<DeviceId>) {
    && Acyclic(u) && Mirrors(r, u) && Mirrors(m.branch, u) && c !in m.branch && c != m.x && m.x in r
    && m.x !in ids && ParentsFirst(m.branch, m.x, ids) && forall d | d in ids :: d in m.branch
  }

  lemma ReplayingBefore(u: Table, c: DeviceId, r: Table, m: Move, ids: seq<DeviceId>)
    requires ids != [] && Replaying(u, c, r, m, ids)
    ensures Replaying(u, c, r, m, ids[..|ids| - 1])
  {
    var before := ids[..|ids| - 1];
    forall i | 0 <= i < |before| ensures ids[..i] == before[..i] && ids[i] == before[i] {
    }
  }

  lemma ReplayingAll(t: Table, u: Table, c: DeviceId, r: Table, m: Move)
    requires Moving(t, u, m) && Mirrors(r, u) && c !in m.branch && c != m.x && m.x in r
    ensures Replaying(u, c, r, m, Listed(m))
  {
    PreorderOfBranch(m.branch, m.x);
  }

  /** One more device of the branch is announced: nothing hangs below itself, and nothing comes to hang from `c`. */
  lemma NextReplay(u: Table, c: DeviceId, r: Table, m: Move, ids: seq<DeviceId>, w: Table)
    requires ids != [] && Replaying(u, c, r, m, ids) && Rerouted(r, m.branch, m.x, ids[..|ids| - 1], w)
    ensures var d := ids[|ids| - 1];
            var q := m.branch[d].parent;
            && q in w && q != c && d != c && q != d && !Below(w, q, d) && (d in w ==> w[d].parent == q)
            && Rerouted(r, m.branch, m.x, ids, Learn(w, d, q, m.branch[d].deviceType))
  {
    var d := ids[|ids| - 1];
    var q := m.branch[d].parent;
    assert Mirrors(w, u);
    NoCycle(u, w, d, q);
    RerouteLast(r, m.branch, m.x, ids, w, m.branch[d].deviceType);
    assert q == m.x || q in m.branch;
  }

  lemma RerouteNothing(r: Table, s: Table, x: DeviceId, ids: seq<DeviceId>)
    requires ids == [] && x in r && x !in ids
    ensures Rerouted(r, s, x, ids, r)
  {
    assert Elements(ids) == {};
  }

  /** The first `k` devices of the list, or all. */
  ghost function Upto(ids: seq<DeviceId>, k: nat): seq<DeviceId> { if k < |ids| then ids[..k] else ids }

  lemma UptoBefore(ids: seq<DeviceId>, k: nat)
    requires k < |ids|
    ensures Upto(ids[..|ids| - 1], k) == Upto(ids, k)
  {
  }

  lemma ReplayingUpto(u: Table, c: DeviceId, r: Table, m: Move, ids: seq<DeviceId>, k: nat)
    requires Replaying(u, c, r, m, ids)
    ensures Replaying(u, c, r, m, Upto(ids, k))
  {
    var first := Upto(ids, k);
    forall i | 0 <= i < |first| ensures ids[..i] == first[..i] && ids[i] == first[i] {
    }
  }

  lemma ReroutedSameRoutes(r: Table, m: Move, ids: seq<DeviceId>, w: Table, w': Table)
    requires Rerouted(r, m.branch, m.x, ids, w) && SameRoutes(w, w')
    ensures Rerouted(r, m.branch, m.x, ids, w')
  {
  }

  lemma ReroutedIsHeard(r: Table, u: Table, m: Move, first: Table, hop: int, w: Table)
    requires Recorded(r, u, m.x, hop, first) && Mirrors(m.branch, u) && HangsFrom(m.branch, m.x)
    requires Rerouted(first, m.branch, m.x, Listed(m), w)
    ensures Heard(r, u, m, hop, w)
  {
    PreorderOfBranch(m.branch, m.x);
  }

  lemma CutKeeps(r: Table, x: DeviceId, w: Table)
    requires Acyclic(r) && w == RemoveTree(r, x)
    ensures Acyclic(w) && forall y :: Cut(r, x, EmptyUp(w, y))
  {
    SubTableAcyclic(w, r);
    forall y ensures Cut(r, x, EmptyUp(w, y)) {
      EmptyUpKeepsTree(w, y);
    }
  }

  lemma EmptyingKeepsRoutes(r: Table)
    requires Acyclic(r)
    ensures forall y :: SameRoutes(r, EmptyUp(r, y))
  {
    forall y ensures SameRoutes(r, EmptyUp(r, y)) {
      EmptyUpKeepsTree(r, y);
    }
  }

  /** After a move the table covers the new tree, and its hops are right. */
  ghost predicate Relinked(u: Table, c: DeviceId, m: Move, r: Table, w: Table) {
    && Covers(u, c, w) && HopsOk(w)
    && forall y | y in w && u[y].parent == c :: if y == m.x then w[y].hop == m.fd else y in r && w[y].hop == r[y].hop
  }

  lemma HeardDirect(t: Table, u: Table, m: Move, c: DeviceId, r: Table, w: Table)
    requires Covers(t, c, r) && Covers(t, m.x, m.branch) && Rehung(t, u, m.x, m.p) && (m.p == c || m.p in r)
    requires c != m.x && c !in m.branch && c !in r && Heard(r, u, m, NewHop(r, c, m), w)
    ensures forall y | y in w && u[y].parent == c ::
              if y == m.x then w[y].hop == m.fd else y in r && w[y].hop == r[y].hop
  {
    forall y | y in w && u[y].parent == c && y != m.x ensures y in r && y !in m.branch {
      assert t[y].parent == c;
    }
  }

  lemma HeardTables(t: Table, u: Table, m: Move, c: DeviceId, r: Table, w: Table)
    requires Covers(t, c, r) && HopsOk(r) && Covers(t, m.x, m.branch) && Rehung(t, u, m.x, m.p) && m.p != m.x
    requires (m.p == c || m.p in r) && c != m.x && c !in m.branch && m.p !in m.branch
    requires Heard(r, u, m, NewHop(r, c, m), w)
    ensures Relinked(u, c, m, r, w)
  {
    HeardCovers(t, u, c, m.x, m.p, r, m.branch, w);
    HeardHops(t, c, m.x, m.p, r, m.branch, w, NewHop(r, c, m));
    HeardDirect(t, u, m, c, r, w);
  }

  lemma HeardRelinks(t: Table, u: Table, m: Move, c: DeviceId, r: Table, w: Table)
    requires Moving(t, u, m) && Covers(t, c, r) && HopsOk(r) && (m.p == c || m.p in r)
    requires Heard(r, u, m, NewHop(r, c, m), w)
    ensures Relinked(u, c, m, r, w) && m.x in w
  {
    HearerIsOutside(t, u, m, c, r);
    HeardTables(t, u, m, c, r, w);
  }

  lemma CutRelinks(t: Table, u: Table, m: Move, c: DeviceId, r: Table, w: Table)
    requires Covers(t, c, r) && HopsOk(r) && Rehung(t, u, m.x, m.p) && m.x in r && m.p != c && m.p !in r
    requires Cut(r, m.x, w)
    ensures Relinked(u, c, m, r, w)
  {
    LostCovers(t, u, c, m.x, m.p, r, w);
  }

  lemma UntouchedRelinks(t: Table, u: Table, m: Move, c: DeviceId, r: Table)
    requires Covers(t, c, r) && HopsOk(r) && Rehung(t, u, m.x, m.p) && m.x !in r && m.p != c && m.p !in r
    ensures Relinked(u, c, m, r, r)
  {
    UnheardCovers(t, u, c, m.x, m.p, r);
  }

  ghost predicate Hears(t: Table, c: DeviceId, p: DeviceId) { p == c || Below(t, p, c) }

  /** Who has recorded `x` is at or above its parent; who is at or above `p` has recorded `p`. */
  lemma WhoIsTold(t: Table, c: DeviceId, x: DeviceId, p: DeviceId, r: Table)
    requires Acyclic(t) && Covers(t, c, r) && x in t
    ensures x in r <==> Hears(t, c, t[x].parent)
    ensures p in t ==> (Hears(t, c, p) <==> p == c || p in r)
  {
    CoversIsBranch(t, c, r);
    BelowUnfold(t, x, c);
  }

  // ---------------------------------------------------------------- a Hub

  /** The events of `es` lead a Hub from `st` to `v`, and its invariants hold there. */
  ghost predicate Leads(c: DeviceId, st: H.HubState, es: seq<H.HubEvent>, v: H.HubState, n: nat) {
    && H.IsRun(c, st, es) && H.Final(c, st, es) == v
    && H.Invariant(c, v, n) && IsControl(v.view.deviceType)
  }

  /** A child whose removal the Controller has still to request of this Hub. */
  ghost function NewDebt(r: Table, c: DeviceId, m: Move): set<DeviceId> {
    if m.p != c && m.x in r && r[m.x].parent == c then {m.x} else {}
  }

  lemma ControlBits(ty: DeviceType)
    ensures IsControl(HUB_DEVICE | ty) && IsControl(HUB_DEVICE)
  {
  }

  lemma LeadsNext(c: DeviceId, st: H.HubState, es: seq<H.HubEvent>, v: H.HubState, n: nat, e: H.HubEvent)
    requires Leads(c, st, es, v, n) && H.Enabled(c, v, e) && (if e.Direct? then n + 1 else n) < H.COUNTER_RANGE
    ensures Leads(c, st, es + [e], H.Step(c, v, e), if e.Direct? then n + 1 else n)
  {
    H.RunAppend(c, st, es, e);
    match e
    case Direct(x, ty, fd) =>
      ControlBits(ty);
      H.DirectKeepsInvariant(c, v, n, x, ty, fd);
    case Indirect(x, p, ty) =>
      ControlBits(ty);
      H.IndirectKeepsInvariant(c, v, n, x, p, ty);
    case Requested(x) =>
      ControlBits(0);
      H.RequestedKeepsInvariant(c, v, n, x);
    case Deleted(x) =>
      ControlBits(0);
      H.DeletedKeepsInvariant(c, v, n, x);
    case RemovedFrom(o, x) =>
      ControlBits(0);
      H.RemovedFromKeepsInvariant(c, v, n, o, x);
  }

  ghost predicate Starts(c: DeviceId, st: H.HubState, n: nat) { H.Invariant(c, st, n) && IsControl(st.view.deviceType) }

  lemma LeadsOne(c: DeviceId, st: H.HubState, n: nat, e: H.HubEvent)
    requires Starts(c, st, n) && H.Enabled(c, st, e) && (if e.Direct? then n + 1 else n) < H.COUNTER_RANGE
    ensures Leads(c, st, [e], H.Step(c, st, e), if e.Direct? then n + 1 else n)
  {
    LeadsNext(c, st, [], st, n, e);
    assert [] + [e] == [e];
  }

  /** The response of the moved device itself. */
  ghost function FirstHeard(c: DeviceId, m: Move): H.HubEvent {
    if m.p == c then H.Direct(m.x, m.ty, m.fd) else H.Indirect(m.x, m.p, m.ty)
  }

  ghost function ReplayOf(m: Move, d: DeviceId): H.HubEvent
    requires d in m.branch
  {
    H.Indirect(d, m.branch[d].parent, m.branch[d].deviceType)
  }

  /** The replay of the listed devices from the `k`th on. */
  ghost function Replays(m: Move, ids: seq<DeviceId>, k: nat): seq<H.HubEvent>
    requires forall d | d in ids :: d in m.branch
    decreases |ids|
  {
    if |ids| <= k then [] else Replays(m, ids[..|ids| - 1], k) + [ReplayOf(m, ids[|ids| - 1])]
  }

  lemma HubHearsDirect(c: DeviceId, v: H.HubState, t: Table, u: Table, m: Move)
    requires Moving(t, u, m) && m.p == c && Covers(t, c, v.view.table) && HangsFrom(v.view.table, c)
    ensures var e := H.Direct(m.x, m.ty, m.fd);
            && H.Enabled(c, v, e)
            && Recorded(v.view.table, u, m.x, m.fd, H.Step(c, v, e).view.table) && H.Step(c, v, e).owed == v.owed
  {
    HearerIsOutside(t, u, m, c, v.view.table);
  }

  lemma HubHearsIndirect(c: DeviceId, v: H.HubState, t: Table, u: Table, m: Move)
    requires Moving(t, u, m) && Covers(t, c, v.view.table) && HangsFrom(v.view.table, c) && m.p in v.view.table
    ensures var e := H.Indirect(m.x, m.p, m.ty);
            && m.p != c && H.Enabled(c, v, e)
            && var r, w := v.view.table, H.Step(c, v, e);
               Recorded(r, u, m.x, r[m.p].hop, w.view.table) && w.owed == v.owed + NewDebt(r, c, m)
  {
    var r := v.view.table;
    MayBeRecorded(t, u, m, c, r);
    LearnRecords(r, t, u, m.x, m.p, m.ty);
  }

  lemma HubHearsFirst(c: DeviceId, st: H.HubState, n: nat, t: Table, u: Table, m: Move) returns (v: H.HubState)
    requires Starts(c, st, n) && n + 1 < H.COUNTER_RANGE && Moving(t, u, m)
    requires Covers(t, c, st.view.table) && (m.p == c || m.p in st.view.table)
    ensures Leads(c, st, [FirstHeard(c, m)], v, n + 1)
    ensures var r := st.view.table;
            Recorded(r, u, m.x, NewHop(r, c, m), v.view.table) && v.owed == st.owed + NewDebt(r, c, m)
  {
    if m.p == c {
      HubHearsDirect(c, st, t, u, m);
    } else {
      HubHearsIndirect(c, st, t, u, m);
    }
    LeadsOne(c, st, n, FirstHeard(c, m));
    v := H.Step(c, st, FirstHeard(c, m));
  }

  /** The replay of one more device of the branch. */
  lemma HubHearsNext(c: DeviceId, v: H.HubState, u: Table, m: Move, r: Table, ids: seq<DeviceId>)
    requires ids != [] && Replaying(u, c, r, m, ids)
    requires Rerouted(r, m.branch, m.x, ids[..|ids| - 1], v.view.table) && Acyclic(v.view.table)
    ensures var e := ReplayOf(m, ids[|ids| - 1]);
            && H.Enabled(c, v, e) && H.Step(c, v, e).owed == v.owed
            && Rerouted(r, m.branch, m.x, ids, H.Step(c, v, e).view.table)
  {
    NextReplay(u, c, r, m, ids, v.view.table);
  }

  lemma HubHearsLast(c: DeviceId, st: H.HubState, es: seq<H.HubEvent>, v: H.HubState, n: nat,
                     u: Table, r: Table, m: Move, ids: seq<DeviceId>) returns (w: H.HubState)
    requires Leads(c, st, es, v, n) && n < H.COUNTER_RANGE
    requires ids != [] && Replaying(u, c, r, m, ids) && Rerouted(r, m.branch, m.x, ids[..|ids| - 1], v.view.table)
    ensures Leads(c, st, es + [ReplayOf(m, ids[|ids| - 1])], w, n)
    ensures w.owed == v.owed && Rerouted(r, m.branch, m.x, ids, w.view.table)
  {
    var e := ReplayOf(m, ids[|ids| - 1]);
    HubHearsNext(c, v, u, m, r, ids);
    LeadsNext(c, st, es, v, n, e);
    w := H.Step(c, v, e);
  }

  lemma {:induction false} HubReplays(c: DeviceId, v: H.HubState, n: nat, u: Table, m: Move, ids: seq<DeviceId>,
                                      k: nat, r: Table) returns (w: H.HubState)
    requires Starts(c, v, n) && n < H.COUNTER_RANGE && Replaying(u, c, r, m, ids)
    requires Rerouted(r, m.branch, m.x, Upto(ids, k), v.view.table)
    ensures Leads(c, v, Replays(m, ids, k), w, n) && w.owed == v.owed && Rerouted(r, m.branch, m.x, ids, w.view.table)
    decreases |ids|
  {
    if |ids| <= k {
      w := v;
    } else {
      var before := ids[..|ids| - 1];
      ReplayingBefore(u, c, r, m, ids);
      UptoBefore(ids, k);
      var w0 := HubReplays(c, v, n, u, m, before, k, r);
      w := HubHearsLast(c, v, Replays(m, before, k), w0, n, u, r, m, ids);
    }
  }

  /** The old parent is asked to remove `x`, and the devices above it pass its answer on. */
  ghost function LossEvents(t: Table, c: DeviceId, o: DeviceId, x: DeviceId): seq<H.HubEvent> {
    if o == c then [H.Requested(x)] else if Below(t, o, c) then [H.RemovedFrom(o, x)] else []
  }

  /** A Hub that has only heard of the loss forgets the branch. */
  lemma HubForgets(c: DeviceId, st: H.HubState, n: nat, t: Table, o: DeviceId, x: DeviceId) returns (v: H.HubState)
    requires Starts(c, st, n) && n < H.COUNTER_RANGE && Acyclic(t) && Covers(t, c, st.view.table)
    requires x in st.view.table && t[x].parent == o
    ensures Leads(c, st, LossEvents(t, c, o, x), v, n) && v.owed == st.owed && Cut(st.view.table, x, v.view.table)
  {
    var r := st.view.table;
    var e := if o == c then H.Requested(x) else H.RemovedFrom(o, x);
    CoversIsBranch(t, c, r);
    assert o != c ==> o in r && Below(t, o, c);
    assert o == c ==> x in DirectChildren(r, c);
    CutKeeps(r, x, RemoveTree(r, x));
    LeadsOne(c, st, n, e);
    v := H.Step(c, st, e);
  }

  /** A Hub that has already heard where `x` is now keeps the branch. */
  lemma HubKeeps(c: DeviceId, w: H.HubState, n: nat, t: Table, p: DeviceId, o: DeviceId, x: DeviceId)
    returns (v: H.HubState)
    requires Starts(c, w, n) && n < H.COUNTER_RANGE
    requires x in w.view.table && w.view.table[x].parent == p && p != o && (o == c ==> x in w.owed)
    ensures Leads(c, w, LossEvents(t, c, o, x), v, n) && SameRoutes(w.view.table, v.view.table)
    ensures v.owed == if o == c then w.owed - {x} else w.owed
  {
    if o == c || Below(t, o, c) {
      var e := if o == c then H.Requested(x) else H.RemovedFrom(o, x);
      EmptyingKeepsRoutes(w.view.table);
      LeadsOne(c, w, n, e);
      v := H.Step(c, w, e);
    } else {
      v := w;
    }
  }

  /** A Hub above a device that deletes itself forgets its branch. */
  lemma HubDeletes(c: DeviceId, st: H.HubState, n: nat, x: DeviceId) returns (v: H.HubState)
    requires Starts(c, st, n) && n < H.COUNTER_RANGE && x in st.view.table
    ensures Leads(c, st, [H.Deleted(x)], v, n) && v.owed == st.owed && Cut(st.view.table, x, v.view.table)
  {
    var r := st.view.table;
    CutKeeps(r, x, RemoveTree(r, x));
    LeadsOne(c, st, n, H.Deleted(x));
    v := H.Step(c, st, H.Deleted(x));
  }

  /**
   Part-way through a move that `c` hears of: `first` is its table once it has recorded the moved device, `w` is
   where it is after the replay of the first `k` devices.
   */
  ghost predicate Midway(u: Table, c: DeviceId, m: Move, k: nat, r: Table, first: Table, w: Table) {
    && c != m.x && c !in m.branch && (m.p == c || m.p in r)
    && Recorded(r, u, m.x, NewHop(r, c, m), first) && Rerouted(first, m.branch, m.x, Upto(Listed(m), k), w)
  }

  lemma FirstIsMidway(t: Table, u: Table, c: DeviceId, m: Move, r: Table, first: Table)
    requires Moving(t, u, m) && Covers(t, c, r) && (m.p == c || m.p in r)
    requires Recorded(r, u, m.x, NewHop(r, c, m), first)
    ensures Midway(u, c, m, 0, r, first, first) && Replaying(u, c, first, m, Listed(m))
  {
    HearerIsOutside(t, u, m, c, r);
    ReplayingAll(t, u, c, first, m);
    RerouteNothing(first, m.branch, m.x, Upto(Listed(m), 0));
  }

  lemma EndOfReplay(t: Table, u: Table, c: DeviceId, m: Move, r: Table, first: Table, w: Table)
    requires Moving(t, u, m) && Covers(t, c, r) && HopsOk(r) && Midway(u, c, m, |Listed(m)|, r, first, w)
    ensures Relinked(u, c, m, r, w)
  {
    BranchStaysMirrored(t, u, m);
    ReroutedIsHeard(r, u, m, first, NewHop(r, c, m), w);
    HeardRelinks(t, u, m, c, r, w);
  }

  lemma BranchStaysMirrored(t: Table, u: Table, m: Move)
    requires Moving(t, u, m)
    ensures Mirrors(m.branch, u)
  {
  }

  ghost function HubAfter(c: DeviceId, h: H.HubState, es: seq<H.HubEvent>): H.HubState {
    if H.IsRun(c, h, es) then H.Final(c, h, es) else h
  }

  /** Where a Hub is when the removal has passed it, after the replay of `k` devices. */
  ghost function HubAsked(t: Table, c: DeviceId, h: H.HubState, m: Move, k: nat): H.HubState
    requires m.x in t
  {
    HubAfter(c, HubTold(t, c, h, m, k), LossEvents(t, c, t[m.x].parent, m.x))
  }

  ghost function HubTold(t: Table, c: DeviceId, h: H.HubState, m: Move, k: nat): H.HubState {
    if Hears(t, c, m.p) then HubAfter(c, HubAfter(c, h, [FirstHeard(c, m)]), Replays(m, Upto(Listed(m), k), 0)) else h
  }

  /** Where the link leaves it. */
  ghost function HubLinked(t: Table, c: DeviceId, h: H.HubState, m: Move, k: nat): H.HubState
    requires m.x in t
  {
    var v := HubAsked(t, c, h, m, k);
    if Hears(t, c, m.p) then HubAfter(c, v, Replays(m, Listed(m), k)) else v
  }

  lemma HubIsReplayed(c: DeviceId, first: H.HubState, n: nat, u: Table, m: Move, k: nat) returns (w: H.HubState)
    requires Starts(c, first, n) && n < H.COUNTER_RANGE && Replaying(u, c, first.view.table, m, Listed(m))
    ensures Leads(c, first, Replays(m, Upto(Listed(m), k), 0), w, n) && w.owed == first.owed
    ensures Rerouted(first.view.table, m.branch, m.x, Upto(Listed(m), k), w.view.table)
    ensures H.IsRun(c, first, Replays(m, Upto(Listed(m), k), 0))
    ensures HubAfter(c, first, Replays(m, Upto(Listed(m), k), 0)) == w
  {
    var r, ids := first.view.table, Upto(Listed(m), k);
    ReplayingUpto(u, c, r, m, Listed(m), k);
    RerouteNothing(r, m.branch, m.x, Upto(ids, 0));
    w := HubReplays(c, first, n, u, m, ids, 0, r);
  }

  /** Then it is asked to remove `x`, or passes the answer on, in the middle of the replay. */
  lemma HubIsAsked(c: DeviceId, w: H.HubState, n: nat, t: Table, u: Table, m: Move, k: nat, r: Table, first: Table)
    returns (v: H.HubState)
    requires Starts(c, w, n) && n < H.COUNTER_RANGE && Rehung(t, u, m.x, m.p) && Covers(t, c, r)
    requires Midway(u, c, m, k, r, first, w.view.table) && w.owed == NewDebt(r, c, m)
    ensures Leads(c, w, LossEvents(t, c, t[m.x].parent, m.x), v, n) && v.owed == {}
    ensures Midway(u, c, m, k, r, first, v.view.table)
  {
    assert m.x in w.view.table && w.view.table[m.x].parent == m.p;
    v := HubKeeps(c, w, n, t, m.p, t[m.x].parent, m.x);
    ReroutedSameRoutes(first, m, Upto(Listed(m), k), w.view.table, v.view.table);
  }

  /** And then the rest of the replay: it ends with the branch it then has, and owes nothing. */
  lemma HubIsToldTheRest(c: DeviceId, v: H.HubState, n: nat, t: Table, u: Table, m: Move, k: nat, r: Table,
                         first: Table) returns (z: H.HubState)
    requires Starts(c, v, n) && n < H.COUNTER_RANGE && Moving(t, u, m) && Covers(t, c, r) && HopsOk(r)
    requires Midway(u, c, m, k, r, first, v.view.table) && Replaying(u, c, first, m, Listed(m))
    ensures Leads(c, v, Replays(m, Listed(m), k), z, n) && z.owed == v.owed && Relinked(u, c, m, r, z.view.table)
  {
    z := HubReplays(c, v, n, u, m, Listed(m), k, first);
    EndOfReplay(t, u, c, m, r, first, z.view.table);
  }

  /** A Hub that does not hear of the move forgets the branch, if it had it. */
  lemma HubOnlyLoses(c: DeviceId, st: H.HubState, n: nat, t: Table, u: Table, m: Move) returns (v: H.HubState)
    requires Starts(c, st, n) && n < H.COUNTER_RANGE && st.owed == {} && Acyclic(t) && Rehung(t, u, m.x, m.p)
    requires Covers(t, c, st.view.table) && HopsOk(st.view.table) && m.p != c && m.p !in st.view.table
    ensures Leads(c, st, LossEvents(t, c, t[m.x].parent, m.x), v, n) && v.owed == {}
    ensures Relinked(u, c, m, st.view.table, v.view.table)
  {
    var r, o := st.view.table, t[m.x].parent;
    WhoIsTold(t, c, m.x, m.p, r);
    if m.x in r {
      v := HubForgets(c, st, n, t, o, m.x);
      CutRelinks(t, u, m, c, r, v.view.table);
    } else {
      v := st;
      UntouchedRelinks(t, u, m, c, r);
    }
  }

  /** Everything a Hub is told during the move is what its machine expects: no cycle, no removal out of the blue. */
  ghost predicate HubExpects(t: Table, c: DeviceId, h: H.HubState, m: Move, k: nat)
    requires m.x in t
  {
    && (Hears(t, c, m.p) ==>
          && H.IsRun(c, h, [FirstHeard(c, m)])
          && H.IsRun(c, HubAfter(c, h, [FirstHeard(c, m)]), Replays(m, Upto(Listed(m), k), 0))
          && H.IsRun(c, HubAsked(t, c, h, m, k), Replays(m, Listed(m), k)))
    && H.IsRun(c, HubTold(t, c, h, m, k), LossEvents(t, c, t[m.x].parent, m.x))
  }

  /** What a Hub has and promises once the link has passed it. */
  ghost predicate HubSettled(t: Table, u: Table, c: DeviceId, h: H.HubState, n: nat, m: Move, k: nat)
    requires m.x in t
  {
    var v, z := HubAsked(t, c, h, m, k), HubLinked(t, c, h, m, k);
    && IsControl(v.view.deviceType) && Starts(c, z, n) && z.owed == {}
    && Relinked(u, c, m, h.view.table, z.view.table)
  }

  /** The response of the moved device itself. */
  lemma HubRecords(c: DeviceId, h: H.HubState, n: nat, t: Table, u: Table, m: Move)
    requires Starts(c, h, n) && n + 1 < H.COUNTER_RANGE && Moving(t, u, m)
    requires Covers(t, c, h.view.table) && (m.p == c || m.p in h.view.table)
    ensures H.IsRun(c, h, [FirstHeard(c, m)])
    ensures var r, first := h.view.table, HubAfter(c, h, [FirstHeard(c, m)]);
            && Starts(c, first, n + 1) && first.owed == h.owed + NewDebt(r, c, m)
            && Midway(u, c, m, 0, r, first.view.table, first.view.table)
            && Replaying(u, c, first.view.table, m, Listed(m))
  {
    var first := HubHearsFirst(c, h, n, t, u, m);
    FirstIsMidway(t, u, c, m, h.view.table, first.view.table);
  }

  /** And the replay of `k` devices. */
  lemma HubHearsSome(c: DeviceId, h: H.HubState, n: nat, t: Table, u: Table, m: Move, k: nat)
    requires Starts(c, h, n) && n + 1 < H.COUNTER_RANGE && Moving(t, u, m) && Hears(t, c, m.p)
    requires Covers(t, c, h.view.table) && (m.p == c || m.p in h.view.table)
    ensures H.IsRun(c, h, [FirstHeard(c, m)])
    ensures H.IsRun(c, HubAfter(c, h, [FirstHeard(c, m)]), Replays(m, Upto(Listed(m), k), 0))
    ensures var r, first, w := h.view.table, HubAfter(c, h, [FirstHeard(c, m)]).view.table, HubTold(t, c, h, m, k);
            && Starts(c, w, n + 1) && w.owed == h.owed + NewDebt(r, c, m)
            && Midway(u, c, m, k, r, first, w.view.table) && Replaying(u, c, first, m, Listed(m))
  {
    HubRecords(c, h, n, t, u, m);
    var first := HubAfter(c, h, [FirstHeard(c, m)]);
    var w := HubIsReplayed(c, first, n + 1, u, m, k);
  }

  /** Then the removal. */
  lemma HubHearsLoss(c: DeviceId, h: H.HubState, n: nat, t: Table, u: Table, m: Move, k: nat, first: Table)
    requires m.x in t && Rehung(t, u, m.x, m.p) && Covers(t, c, h.view.table) && n < H.COUNTER_RANGE
    requires Starts(c, HubTold(t, c, h, m, k), n) && HubTold(t, c, h, m, k).owed == NewDebt(h.view.table, c, m)
    requires Midway(u, c, m, k, h.view.table, first, HubTold(t, c, h, m, k).view.table)
    ensures H.IsRun(c, HubTold(t, c, h, m, k), LossEvents(t, c, t[m.x].parent, m.x))
    ensures Starts(c, HubAsked(t, c, h, m, k), n) && HubAsked(t, c, h, m, k).owed == {}
    ensures Midway(u, c, m, k, h.view.table, first, HubAsked(t, c, h, m, k).view.table)
  {
    var v := HubIsAsked(c, HubTold(t, c, h, m, k), n, t, u, m, k, h.view.table, first);
  }

  /** And the rest of the replay. */
  lemma HubHearsRest(c: DeviceId, h: H.HubState, n: nat, t: Table, u: Table, m: Move, k: nat, first: Table)
    requires Moving(t, u, m) && Covers(t, c, h.view.table) && HopsOk(h.view.table) && n < H.COUNTER_RANGE
    requires Hears(t, c, m.p) && Replaying(u, c, first, m, Listed(m))
    requires Starts(c, HubAsked(t, c, h, m, k), n) && HubAsked(t, c, h, m, k).owed == {}
    requires Midway(u, c, m, k, h.view.table, first, HubAsked(t, c, h, m, k).view.table)
    ensures H.IsRun(c, HubAsked(t, c, h, m, k), Replays(m, Listed(m), k))
    ensures HubSettled(t, u, c, h, n, m, k)
  {
    var z := HubIsToldTheRest(c, HubAsked(t, c, h, m, k), n, t, u, m, k, h.view.table, first);
  }

  lemma HubHearsAll(c: DeviceId, h: H.HubState, n: nat, t: Table, u: Table, m: Move, k: nat)
    requires Starts(c, h, n) && n + 1 < H.COUNTER_RANGE && h.owed == {} && Moving(t, u, m) && Hears(t, c, m.p)
    requires Covers(t, c, h.view.table) && HopsOk(h.view.table) && (m.p == c || m.p in h.view.table)
    ensures HubExpects(t, c, h, m, k) && HubSettled(t, u, c, h, n + 1, m, k)
  {
    var first := HubAfter(c, h, [FirstHeard(c, m)]).view.table;
    HubHearsSome(c, h, n, t, u, m, k);
    HubHearsLoss(c, h, n + 1, t, u, m, k, first);
    HubHearsRest(c, h, n + 1, t, u, m, k, first);
  }

  /**
   However a link passes a Hub, and wherever in the replay the old parent is asked, the Hub is told only what it
   expects, and ends with exactly the branch it then has.
   */
  lemma HubIsLinked(c: DeviceId, h: H.HubState, n: nat, t: Table, u: Table, m: Move, k: nat)
    requires Starts(c, h, n) && n + 1 < H.COUNTER_RANGE && h.owed == {} && Moving(t, u, m)
    requires Covers(t, c, h.view.table) && HopsOk(h.view.table) && (m.p in t || !Hears(t, c, m.p))
    ensures HubExpects(t, c, h, m, k) && HubSettled(t, u, c, h, n + 1, m, k)
  {
    WhoIsTold(t, c, m.x, m.p, h.view.table);
    if Hears(t, c, m.p) {
      HubHearsAll(c, h, n, t, u, m, k);
    } else {
      var v := HubOnlyLoses(c, h, n, t, u, m);
    }
  }

  // ---------------------------------------------------------------- a Timer

  ghost predicate TimerLeads(c: DeviceId, st: T.View, es: seq<T.TimerEvent>, v: T.View) {
    T.IsRun(c, st, es) && T.Final(c, st, es) == v && T.Invariant(c, v)
  }

  lemma TimerLeadsNext(c: DeviceId, st: T.View, es: seq<T.TimerEvent>, v: T.View, e: T.TimerEvent)
    requires TimerLeads(c, st, es, v) && T.Enabled(c, v, e)
    ensures TimerLeads(c, st, es + [e], T.Step(c, v, e))
  {
    T.RunAppend(c, st, es, e);
    T.StepKeepsInvariant(c, v, e);
  }

  lemma TimerLeadsOne(c: DeviceId, st: T.View, e: T.TimerEvent)
    requires T.Invariant(c, st) && T.Enabled(c, st, e)
    ensures TimerLeads(c, st, [e], T.Step(c, st, e))
  {
    TimerLeadsNext(c, st, [], st, e);
    assert [] + [e] == [e];
  }

  /** A Timer that records anything has a control child. */
  lemma RecordsControlChild(c: DeviceId, v: T.View, y: DeviceId)
    requires T.Invariant(c, v) && y in v.table
    ensures v.hasChild && IsControl(v.childType) && v.childId in v.table && v.table[v.childId].parent == c
  {
    H.SomethingDirect(v.table, c, y);
    assert v.childId in DirectChildren(v.table, c);
  }

  /** The Timer has the child it had, and tells it from a leaf as before. */
  ghost predicate SameChild(v: T.View, w: T.View) {
    v.hasChild == w.hasChild && v.childId == w.childId && (IsControl(v.childType) <==> IsControl(w.childType))
  }

  ghost function TimerFirst(c: DeviceId, m: Move): T.TimerEvent {
    if m.p == c then T.Child(m.x, m.ty, m.fd) else T.Descendant(m.x, m.p, m.ty)
  }

  ghost function TimerReplayOf(m: Move, d: DeviceId): T.TimerEvent
    requires d in m.branch
  {
    T.Descendant(d, m.branch[d].parent, m.branch[d].deviceType)
  }

  ghost function TimerReplays(m: Move, ids: seq<DeviceId>, k: nat): seq<T.TimerEvent>
    requires forall d | d in ids :: d in m.branch
    decreases |ids|
  {
    if |ids| <= k then [] else TimerReplays(m, ids[..|ids| - 1], k) + [TimerReplayOf(m, ids[|ids| - 1])]
  }

  lemma TimerHearsNext(c: DeviceId, v: T.View, u: Table, m: Move, r: Table, ids: seq<DeviceId>)
    requires ids != [] && Replaying(u, c, r, m, ids) && T.Invariant(c, v)
    requires Rerouted(r, m.branch, m.x, ids[..|ids| - 1], v.table)
    ensures var e := TimerReplayOf(m, ids[|ids| - 1]);
            && T.Enabled(c, v, e) && T.Step(c, v, e).hasChild == v.hasChild && T.Step(c, v, e).childId == v.childId
            && Rerouted(r, m.branch, m.x, ids, T.Step(c, v, e).table)
  {
    NextReplay(u, c, r, m, ids, v.table);
  }

  lemma TimerHearsLast(c: DeviceId, st: T.View, es: seq<T.TimerEvent>, v0: T.View, v: T.View, u: Table, r: Table,
                       m: Move, ids: seq<DeviceId>) returns (w: T.View)
    requires TimerLeads(c, st, es, v) && SameChild(v0, v)
    requires ids != [] && Replaying(u, c, r, m, ids) && Rerouted(r, m.branch, m.x, ids[..|ids| - 1], v.table)
    ensures TimerLeads(c, st, es + [TimerReplayOf(m, ids[|ids| - 1])], w)
    ensures SameChild(v0, w) && Rerouted(r, m.branch, m.x, ids, w.table)
  {
    var e := TimerReplayOf(m, ids[|ids| - 1]);
    TimerHearsNext(c, v, u, m, r, ids);
    TimerLeadsNext(c, st, es, v, e);
    w := T.Step(c, v, e);
    RecordsControlChild(c, v, m.x);
    RecordsControlChild(c, w, m.x);
  }

  lemma {:induction false} TimerIsReplayed(c: DeviceId, v: T.View, u: Table, m: Move, ids: seq<DeviceId>, k: nat,
                                           r: Table) returns (w: T.View)
    requires T.Invariant(c, v) && Replaying(u, c, r, m, ids)
    requires Rerouted(r, m.branch, m.x, Upto(ids, k), v.table)
    ensures TimerLeads(c, v, TimerReplays(m, ids, k), w) && SameChild(v, w)
    ensures Rerouted(r, m.branch, m.x, ids, w.table)
    decreases |ids|
  {
    if |ids| <= k {
      w := v;
    } else {
      var before := ids[..|ids| - 1];
      ReplayingBefore(u, c, r, m, ids);
      UptoBefore(ids, k);
      var w0 := TimerIsReplayed(c, v, u, m, before, k, r);
      w := TimerHearsLast(c, v, TimerReplays(m, before, k), v, w0, u, r, m, ids);
    }
  }

  /** What a Timer knows is below it: its single child is reached through its one pipe. */
  ghost predicate TimerKnows(t: Table, c: DeviceId, v: T.View, fd: int) {
    && Acyclic(t) && T.Invariant(c, v)
    && var b := T.Branch(c, v, fd);
       Covers(t, c, b) && (v.hasChild ==> v.childId in b && b[v.childId].parent == c && b[v.childId].hop == fd)
  }

  /** Everything a Timer knows is its child or below its child. */
  lemma BelowTheChild(t: Table, c: DeviceId, v: T.View, fd: int, y: DeviceId)
    requires TimerKnows(t, c, v, fd) && y in T.Branch(c, v, fd)
    ensures v.hasChild && (y == v.childId || Below(T.Branch(c, v, fd), y, v.childId))
    ensures y != v.childId ==> IsControl(v.childType)
    ensures t[y].parent == c <==> y == v.childId
  {
    if IsControl(v.childType) {
      var top := HubTypes.DirectAbove(c, v.table, y);
      assert top in DirectChildren(v.table, c);
      assert t[y].parent == c ==> y in DirectChildren(v.table, c);
    }
  }

  /** The only child of a Timer is not linked to something below the Timer. */
  lemma ChildIsNotMoved(t: Table, u: Table, c: DeviceId, v: T.View, fd: int, m: Move)
    requires TimerKnows(t, c, v, fd) && Moving(t, u, m) && m.p in T.Branch(c, v, fd)
    ensures v.childId != m.x && v.childId !in m.branch && t[m.x].parent != c
  {
    BelowTheChild(t, c, v, fd, m.p);
    if v.childId == m.x {
      BelowMirrored(T.Branch(c, v, fd), t, m.p, m.x);
    }
    if m.x in T.Branch(c, v, fd) {
      BelowTheChild(t, c, v, fd, m.x);
    }
    HearerIsOutside(t, u, m, c, T.Branch(c, v, fd));
  }

  /** A Timer that gets a child has had none. */
  lemma NoChildBefore(t: Table, c: DeviceId, v: T.View, fd: int)
    requires TimerKnows(t, c, v, fd) && forall y | y in t :: t[y].parent != c
    ensures !v.hasChild && v.table == map[]
  {
    T.NoBranch(v.table, c);
  }

  lemma TimerAcquiresIt(c: DeviceId, st: T.View, u: Table, m: Move) returns (v: T.View)
    requires T.Invariant(c, st) && !st.hasChild && st.table == map[] && m.x != c
    requires m.p == c && m.x in u && u[m.x].parent == c
    ensures TimerLeads(c, st, [TimerFirst(c, m)], v) && v.hasChild && v.childId == m.x
    ensures IsControl(v.childType) <==> IsControl(m.ty)
    ensures IsControl(m.ty) ==> Recorded(map[], u, m.x, m.fd, v.table)
  {
    TimerLeadsOne(c, st, TimerFirst(c, m));
    v := T.Step(c, st, TimerFirst(c, m));
  }

  lemma NothingListed(m: Move)
    requires HangsFrom(m.branch, m.x) && m.branch == map[]
    ensures Listed(m) == []
  {
    assert NextChild(m.branch, m.x, -1) == None;
  }

  lemma TimerHearsFirst(c: DeviceId, st: T.View, t: Table, u: Table, m: Move) returns (v: T.View)
    requires T.Invariant(c, st) && Moving(t, u, m) && Covers(t, c, st.table) && m.p in st.table
    requires t[m.x].parent != c
    ensures TimerLeads(c, st, [TimerFirst(c, m)], v) && SameChild(st, v)
    ensures Recorded(st.table, u, m.x, st.table[m.p].hop, v.table)
  {
    MayBeRecorded(t, u, m, c, st.table);
    LearnRecords(st.table, t, u, m.x, m.p, m.ty);
    TimerLeadsOne(c, st, TimerFirst(c, m));
    v := T.Step(c, st, TimerFirst(c, m));
    RecordsControlChild(c, st, m.p);
    RecordsControlChild(c, v, m.p);
  }

  ghost function TimerLossEvents(t: Table, c: DeviceId, o: DeviceId, x: DeviceId): seq<T.TimerEvent> {
    if o == c then [T.ChildRemoved] else if Below(t, o, c) then [T.RemovedFrom(o, x)] else []
  }

  /** Without its child a Timer knows nothing. */
  lemma NothingWithoutChild(t: Table, c: DeviceId, v: T.View, fd: int)
    requires TimerKnows(t, c, v, fd) && v.hasChild
    ensures RemoveTree(T.Branch(c, v, fd), v.childId) == map[]
  {
    var b := T.Branch(c, v, fd);
    forall y | y in b ensures y == v.childId || Below(b, y, v.childId) {
      BelowTheChild(t, c, v, fd, y);
    }
  }

  lemma TimerLosesChild(c: DeviceId, st: T.View, f: int, t: Table, e: T.TimerEvent) returns (v: T.View)
    requires TimerKnows(t, c, st, f) && st.hasChild
    requires e == T.ChildRemoved || e == T.Deleted(st.childId)
    ensures TimerLeads(c, st, [e], v) && !v.hasChild
    ensures Cut(T.Branch(c, st, f), st.childId, T.Branch(c, v, f))
  {
    TimerLeadsOne(c, st, e);
    v := T.Step(c, st, e);
    NothingWithoutChild(t, c, st, f);
  }

  lemma TimerLosesDeeper(c: DeviceId, st: T.View, f: int, t: Table, x: DeviceId, e: T.TimerEvent) returns (v: T.View)
    requires TimerKnows(t, c, st, f) && x in T.Branch(c, st, f) && x != st.childId
    requires e == T.RemovedFrom(t[x].parent, x) || e == T.Deleted(x)
    ensures TimerLeads(c, st, [e], v) && SameChild(st, v)
    ensures Cut(T.Branch(c, st, f), x, T.Branch(c, v, f))
  {
    BelowTheChild(t, c, st, f, x);
    var r := st.table;
    CutKeeps(r, x, RemoveTree(r, x));
    TimerLeadsOne(c, st, e);
    v := T.Step(c, st, e);
    H.UnhookHangs(r, c, x, t[x].parent);
    RecordsControlChild(c, st, x);
    assert st.childId in DirectChildren(r, c);
    assert st.childId in DirectChildren(v.table, c);
    RecordsControlChild(c, v, st.childId);
  }

  /** A Timer that has only heard of the loss forgets the branch. */
  lemma TimerForgets(c: DeviceId, st: T.View, f: int, t: Table, o: DeviceId, x: DeviceId) returns (v: T.View)
    requires TimerKnows(t, c, st, f) && x in T.Branch(c, st, f) && t[x].parent == o
    ensures TimerLeads(c, st, TimerLossEvents(t, c, o, x), v)
    ensures Cut(T.Branch(c, st, f), x, T.Branch(c, v, f))
    ensures v.hasChild ==> SameChild(st, v) && x != v.childId
  {
    BelowTheChild(t, c, st, f, x);
    if o == c {
      v := TimerLosesChild(c, st, f, t, T.ChildRemoved);
    } else {
      CoversIsBranch(t, c, T.Branch(c, st, f));
      v := TimerLosesDeeper(c, st, f, t, x, T.RemovedFrom(o, x));
    }
  }

  /** A Timer that has already heard where `x` is now keeps the branch. */
  lemma TimerKeeps(c: DeviceId, w: T.View, t: Table, p: DeviceId, o: DeviceId, x: DeviceId)
    requires T.Invariant(c, w) && x in w.table && w.table[x].parent == p && p != o && o != c
    ensures TimerLeads(c, w, TimerLossEvents(t, c, o, x), w)
  {
    if Below(t, o, c) {
      TimerLeadsOne(c, w, T.RemovedFrom(o, x));
    }
  }

  /** A Timer above a device that deletes itself forgets its branch. */
  lemma TimerDeletes(c: DeviceId, st: T.View, f: int, t: Table, x: DeviceId) returns (v: T.View)
    requires TimerKnows(t, c, st, f) && x in T.Branch(c, st, f)
    ensures TimerLeads(c, st, [T.Deleted(x)], v)
    ensures Cut(T.Branch(c, st, f), x, T.Branch(c, v, f))
    ensures v.hasChild ==> SameChild(st, v) && x != v.childId
  {
    BelowTheChild(t, c, st, f, x);
    if x == st.childId {
      v := TimerLosesChild(c, st, f, t, T.Deleted(x));
    } else {
      v := TimerLosesDeeper(c, st, f, t, x, T.Deleted(x));
    }
  }

  /** The descriptor of the pipe to the child. */
  function ChildPipe(c: DeviceId, m: Move, f: int): int { if m.p == c then m.fd else f }

  /** The link the Controller allows: a Timer that gets a child has none, and only control devices get any. */
  ghost predicate Admits(t: Table, c: DeviceId, st: T.View, m: Move) {
    && (m.p == c ==> (forall y | y in t :: t[y].parent != c) && (IsLeaf(m.ty) ==> m.branch == map[]))
    && (st.hasChild && !IsControl(st.childType) ==> m.p != st.childId)
  }

  /** The Timer's new child is the moved device, or it has the child it had, or none. */
  ghost predicate ChildAfter(c: DeviceId, m: Move, st: T.View, v: T.View) {
    if m.p == c then v.hasChild && v.childId == m.x && (IsControl(v.childType) <==> IsControl(m.ty))
    else v.hasChild ==> SameChild(st, v) && v.childId != m.x
  }

  ghost function TimerAfter(c: DeviceId, v: T.View, es: seq<T.TimerEvent>): T.View {
    if T.IsRun(c, v, es) then T.Final(c, v, es) else v
  }

  ghost function TimerTold(t: Table, c: DeviceId, st: T.View, m: Move, k: nat): T.View {
    if Hears(t, c, m.p) then
      TimerAfter(c, TimerAfter(c, st, [TimerFirst(c, m)]), TimerReplays(m, Upto(Listed(m), k), 0))
    else st
  }

  /** Where a Timer is when the removal has passed it, after the replay of `k` devices. */
  ghost function TimerAsked(t: Table, c: DeviceId, st: T.View, m: Move, k: nat): T.View
    requires m.x in t
  {
    TimerAfter(c, TimerTold(t, c, st, m, k), TimerLossEvents(t, c, t[m.x].parent, m.x))
  }

  /** Where the link leaves it. */
  ghost function TimerLinked(t: Table, c: DeviceId, st: T.View, m: Move, k: nat): T.View
    requires m.x in t
  {
    var v := TimerAsked(t, c, st, m, k);
    if Hears(t, c, m.p) then TimerAfter(c, v, TimerReplays(m, Listed(m), k)) else v
  }

  ghost predicate TimerExpects(t: Table, c: DeviceId, st: T.View, m: Move, k: nat)
    requires m.x in t
  {
    && (Hears(t, c, m.p) ==>
          && T.IsRun(c, st, [TimerFirst(c, m)])
          && T.IsRun(c, TimerAfter(c, st, [TimerFirst(c, m)]), TimerReplays(m, Upto(Listed(m), k), 0))
          && T.IsRun(c, TimerAsked(t, c, st, m, k), TimerReplays(m, Listed(m), k)))
    && T.IsRun(c, TimerTold(t, c, st, m, k), TimerLossEvents(t, c, t[m.x].parent, m.x))
  }

  /** What a Timer has and promises once the link has passed it. */
  ghost predicate TimerSettled(t: Table, u: Table, c: DeviceId, st: T.View, f: int, m: Move, k: nat)
    requires m.x in t
  {
    var v, z := TimerAsked(t, c, st, m, k), TimerLinked(t, c, st, m, k);
    && T.Invariant(c, v) && TimerKnows(u, c, z, ChildPipe(c, m, f)) && ChildAfter(c, m, st, z)
    && Relinked(u, c, m, T.Branch(c, st, f), T.Branch(c, z, ChildPipe(c, m, f)))
  }

  /** A Timer that gets a leaf device is told of nothing else. */
  lemma TimerGetsLeaf(c: DeviceId, st: T.View, f: int, t: Table, u: Table, m: Move, k: nat)
    requires TimerKnows(t, c, st, f) && Moving(t, u, m) && m.p == c && IsLeaf(m.ty) && Admits(t, c, st, m)
    ensures TimerExpects(t, c, st, m, k) && TimerSettled(t, u, c, st, f, m, k)
  {
    var r := T.Branch(c, st, f);
    NoChildBefore(t, c, st, f);
    HearerIsOutside(t, u, m, c, r);
    NothingListed(m);
    NotAboveWithoutChild(t, c, st, f, m.x);
    var first := TimerAcquiresIt(c, st, u, m);
    HeardRelinks(t, u, m, c, r, T.Branch(c, first, m.fd));
    TimerStillKnows(c, st, f, first, t, u, m);
  }

  /** The response of the moved device, at a Timer that then records it. */
  lemma TimerRecords(c: DeviceId, st: T.View, f: int, t: Table, u: Table, m: Move) returns (first: T.View)
    requires TimerKnows(t, c, st, f) && Moving(t, u, m) && Admits(t, c, st, m)
    requires if m.p == c then IsControl(m.ty) else m.p in T.Branch(c, st, f)
    ensures TimerLeads(c, st, [TimerFirst(c, m)], first) && ChildAfter(c, m, st, first)
    ensures first.hasChild && IsControl(first.childType)
    ensures Midway(u, c, m, 0, T.Branch(c, st, f), first.table, first.table)
    ensures Replaying(u, c, first.table, m, Listed(m))
  {
    var r := T.Branch(c, st, f);
    if m.p == c {
      NoChildBefore(t, c, st, f);
      HearerIsOutside(t, u, m, c, r);
      first := TimerAcquiresIt(c, st, u, m);
    } else {
      BelowTheChild(t, c, st, f, m.p);
      ChildIsNotMoved(t, u, c, st, f, m);
      first := TimerHearsFirst(c, st, t, u, m);
    }
    FirstIsMidway(t, u, c, m, r, first.table);
  }

  /** The replay of `k` devices. */
  lemma TimerHearsSome(c: DeviceId, st: T.View, f: int, t: Table, u: Table, m: Move, k: nat) returns (first: T.View)
    requires TimerKnows(t, c, st, f) && Moving(t, u, m) && Admits(t, c, st, m) && Hears(t, c, m.p)
    requires if m.p == c then IsControl(m.ty) else m.p in T.Branch(c, st, f)
    ensures T.IsRun(c, st, [TimerFirst(c, m)]) && first == TimerAfter(c, st, [TimerFirst(c, m)])
    ensures T.IsRun(c, first, TimerReplays(m, Upto(Listed(m), k), 0)) && ChildAfter(c, m, st, first)
    ensures var w := TimerTold(t, c, st, m, k);
            && T.Invariant(c, w) && SameChild(first, w) && first.hasChild && IsControl(first.childType)
            && Midway(u, c, m, k, T.Branch(c, st, f), first.table, w.table)
            && Replaying(u, c, first.table, m, Listed(m))
  {
    first := TimerRecords(c, st, f, t, u, m);
    ReplayingUpto(u, c, first.table, m, Listed(m), k);
    RerouteNothing(first.table, m.branch, m.x, Upto(Upto(Listed(m), k), 0));
    var w := TimerIsReplayed(c, first, u, m, Upto(Listed(m), k), 0, first.table);
  }

  /** The removal does not concern it: `x` is recorded elsewhere below it already, or has become its child. */
  lemma TimerHearsLoss(c: DeviceId, st: T.View, f: int, t: Table, u: Table, m: Move, w: T.View)
    requires TimerKnows(t, c, st, f) && Moving(t, u, m) && Admits(t, c, st, m) && T.Invariant(c, w)
    requires m.p == c || (m.p in T.Branch(c, st, f) && m.x in w.table && w.table[m.x].parent == m.p)
    ensures TimerLeads(c, w, TimerLossEvents(t, c, t[m.x].parent, m.x), w)
  {
    if m.p == c {
      NotAboveWithoutChild(t, c, st, f, m.x);
    } else {
      ChildIsNotMoved(t, u, c, st, f, m);
      TimerKeeps(c, w, t, m.p, t[m.x].parent, m.x);
    }
  }

  /** The rest of the replay. */
  lemma TimerHearsRest(c: DeviceId, st: T.View, f: int, t: Table, u: Table, m: Move, k: nat, first: T.View, w: T.View)
    returns (z: T.View)
    requires TimerKnows(t, c, st, f) && HopsOk(T.Branch(c, st, f)) && Moving(t, u, m) && T.Invariant(c, w)
    requires Midway(u, c, m, k, T.Branch(c, st, f), first.table, w.table) && SameChild(first, w)
    requires ChildAfter(c, m, st, first) && first.hasChild && IsControl(first.childType)
    requires Replaying(u, c, first.table, m, Listed(m))
    ensures TimerLeads(c, w, TimerReplays(m, Listed(m), k), z) && ChildAfter(c, m, st, z)
    ensures Relinked(u, c, m, T.Branch(c, st, f), T.Branch(c, z, ChildPipe(c, m, f)))
  {
    z := TimerIsReplayed(c, w, u, m, Listed(m), k, first.table);
    EndOfReplay(t, u, c, m, T.Branch(c, st, f), first.table, z.table);
  }

  lemma TimerHearsAll(c: DeviceId, st: T.View, f: int, t: Table, u: Table, m: Move, k: nat)
    requires TimerKnows(t, c, st, f) && HopsOk(T.Branch(c, st, f)) && Moving(t, u, m) && Admits(t, c, st, m)
    requires Hears(t, c, m.p) && if m.p == c then IsControl(m.ty) else m.p in T.Branch(c, st, f)
    ensures TimerExpects(t, c, st, m, k) && TimerSettled(t, u, c, st, f, m, k)
  {
    var first := TimerHearsSome(c, st, f, t, u, m, k);
    var w := TimerTold(t, c, st, m, k);
    TimerHearsLoss(c, st, f, t, u, m, w);
    var z := TimerHearsRest(c, st, f, t, u, m, k, first, w);
    TimerStillKnows(c, st, f, z, t, u, m);
  }

  /** A Timer that does not hear of the move forgets the branch, if it had it. */
  lemma TimerOnlyLoses(c: DeviceId, st: T.View, f: int, t: Table, u: Table, m: Move, k: nat)
    requires TimerKnows(t, c, st, f) && HopsOk(T.Branch(c, st, f)) && Moving(t, u, m)
    requires !Hears(t, c, m.p) && m.p !in T.Branch(c, st, f)
    ensures TimerExpects(t, c, st, m, k) && TimerSettled(t, u, c, st, f, m, k)
  {
    var r, o, v := T.Branch(c, st, f), t[m.x].parent, st;
    WhoIsTold(t, c, m.x, m.p, r);
    if m.x in r {
      v := TimerForgets(c, st, f, t, o, m.x);
      CutRelinks(t, u, m, c, r, T.Branch(c, v, f));
    } else {
      UntouchedRelinks(t, u, m, c, r);
      assert v.hasChild ==> v.childId in r;
    }
    TimerStillKnows(c, st, f, v, t, u, m);
  }

  /**
   However a link passes a Timer, and wherever in the replay the old parent is asked, the Timer is told only what it
   expects, and ends with exactly the branch it then has.
   */
  lemma TimerIsLinked(c: DeviceId, st: T.View, f: int, t: Table, u: Table, m: Move, k: nat)
    requires TimerKnows(t, c, st, f) && HopsOk(T.Branch(c, st, f)) && Moving(t, u, m)
    requires (m.p in t || !Hears(t, c, m.p)) && Admits(t, c, st, m)
    ensures TimerExpects(t, c, st, m, k) && TimerSettled(t, u, c, st, f, m, k)
  {
    WhoIsTold(t, c, m.x, m.p, T.Branch(c, st, f));
    if m.p == c && IsLeaf(m.ty) {
      TimerGetsLeaf(c, st, f, t, u, m, k);
    } else if Hears(t, c, m.p) {
      KindBits(m.ty);
      TimerHearsAll(c, st, f, t, u, m, k);
    } else {
      assert m.p in T.Branch(c, st, f) ==> m.p in t;
      TimerOnlyLoses(c, st, f, t, u, m, k);
    }
  }

  lemma KindBits(ty: DeviceType)
    ensures IsControl(ty) <==> !IsLeaf(ty)
  {
  }

  lemma NotAboveWithoutChild(t: Table, c: DeviceId, v: T.View, fd: int, x: DeviceId)
    requires TimerKnows(t, c, v, fd) && x in t && forall y | y in t :: t[y].parent != c
    ensures TimerLossEvents(t, c, t[x].parent, x) == []
  {
    NoChildBefore(t, c, v, fd);
    WhoIsTold(t, c, x, x, T.Branch(c, v, fd));
  }

  /** So the Timer still knows what is below it. */
  lemma TimerStillKnows(c: DeviceId, st: T.View, f: int, v: T.View, t: Table, u: Table, m: Move)
    requires TimerKnows(t, c, st, f) && Acyclic(u) && Rehung(t, u, m.x, m.p) && T.Invariant(c, v)
    requires ChildAfter(c, m, st, v)
    requires Relinked(u, c, m, T.Branch(c, st, f), T.Branch(c, v, ChildPipe(c, m, f)))
    ensures TimerKnows(u, c, v, ChildPipe(c, m, f))
  {
    var b := T.Branch(c, v, ChildPipe(c, m, f));
    if v.hasChild {
      if IsControl(v.childType) { assert v.childId in DirectChildren(v.table, c); }
      assert v.childId in b && b[v.childId].parent == c;
    }
  }
}
