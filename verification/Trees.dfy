/** What whole commands do to the Controller's tree, whatever types devices declare. */
module Trees {
  import opened Devices
  import opened Forest
  import opened TableOps
  import opened Topology
  import opened NextHops
  import opened Replay
  import opened Branches
  import opened Stations

  // ---------------------------------------------------------------- kinds of devices

  /** `w` has the devices of `t`, of the same classes but for those in `s`. */
  ghost predicate SameClasses(t: Table, w: Table, s: set<DeviceId>) {
    t.Keys == w.Keys && forall y | y in t && y !in s :: ControlClass(w[y].deviceType) == ControlClass(t[y].deviceType)
  }

  /** Control devices stay such. */
  ghost predicate KindsKept(t: Table, u: Table) {
    t.Keys == u.Keys && forall y | y in t :: IsControl(u[y].deviceType) <==> IsControl(t[y].deviceType)
  }

  lemma ClassDecides(a: DeviceType, b: DeviceType)
    requires ControlClass(a) == ControlClass(b)
    ensures (IsControl(a) <==> IsControl(b)) && (IsTimer(a) <==> IsTimer(b))
  {
  }

  lemma ClassKinds(t: Table, w: Table, s: set<DeviceId>)
    requires SameClasses(t, w, s)
    ensures forall y | y in t && y !in s :: IsControl(w[y].deviceType) <==> IsControl(t[y].deviceType)
    ensures forall y | y in t && y !in s :: IsTimer(w[y].deviceType) <==> IsTimer(t[y].deviceType)
  {
    forall y | y in t && y !in s
      ensures IsControl(w[y].deviceType) <==> IsControl(t[y].deviceType)
      ensures IsTimer(w[y].deviceType) <==> IsTimer(t[y].deviceType)
    {
      ClassDecides(t[y].deviceType, w[y].deviceType);
    }
  }

  /** Only the old parent's class is declared anew, as that of a control device. */
  lemma KindsAfterAnswer(t: Table, u: Table, o: DeviceId, ty: DeviceType)
    requires SameClasses(t, u, {o})
    requires o in t ==> u[o].deviceType == ty && IsControl(t[o].deviceType) && IsControl(ty)
    ensures KindsKept(t, u)
    ensures forall c | c in t && IsTimer(t[c].deviceType) && (c == o ==> IsTimer(ty)) :: IsTimer(u[c].deviceType)
  {
    ClassKinds(t, u, {o});
  }

  // ---------------------------------------------------------------- a link

  /** In a rooted tree everything hangs from the Controller. */
  lemma TreeCoversItself(t: Table)
    requires ParentsKnown(t)
    ensures Covers(t, CONTROLLER_ID, t)
  {
  }

  /** The device lists its own branch, parents first. */
  lemma ListedBranch(t: Table, m: Move)
    requires Acyclic(t) && Covers(t, m.x, m.branch)
    ensures HangsFrom(m.branch, m.x) && Distinct(Listed(m)) && m.x !in Listed(m)
    ensures ParentsFirst(m.branch, m.x, Listed(m)) && forall d :: d in Listed(m) <==> d in m.branch
  {
    CoversIsBranch(t, m.x, m.branch);
    PreorderIsExact(m.branch, m.x);
    PreorderOfBranch(m.branch, m.x);
  }

  /** So it is parents first in any tree that has the branch. */
  lemma ListedInTree(u: Table, m: Move)
    requires Mirrors(m.branch, u) && ParentsFirst(m.branch, m.x, Listed(m))
    ensures ParentsFirst(u, m.x, Listed(m))
  {
    var ids := Listed(m);
    forall i | 0 <= i < |ids| ensures ids[i] in u && (u[ids[i]].parent == m.x || u[ids[i]].parent in ids[..i]) {
      assert ids[i] in m.branch;
    }
  }

  /** The replays after the first `k`. */
  ghost function Remaining(ids: seq<DeviceId>, k: nat): seq<DeviceId> { if k < |ids| then ids[k..] else [] }

  lemma UptoRemaining(ids: seq<DeviceId>, k: nat)
    ensures Upto(ids, k) + Remaining(ids, k) == ids
  {
  }

  /** After the response of the moved device and the replay of `k` devices of its branch. */
  ghost function MovedTree(t: Table, m: Move, k: nat): Table {
    ReplayAll(ParentChanged(t, m.x, m.p, m.fd), Upto(Listed(m), k))
  }

  /** After the answer of the old parent too. */
  ghost function Answered(t: Table, o: DeviceId, ty: DeviceType): Table {
    if o == CONTROLLER_ID || !Acyclic(t) then t else ChildRemoved(t, o, ty)
  }

  /** After a whole link: the answer comes when `k` devices have been replayed. */
  ghost function LinkedTree(t: Table, m: Move, k: nat, ty: DeviceType): Table
    requires m.x in t
  {
    ReplayAll(Answered(MovedTree(t, m, k), t[m.x].parent, ty), Remaining(Listed(m), k))
  }

  ghost function TreeHop(t: Table, m: Move): int
    requires m.p == CONTROLLER_ID || m.p in t
  {
    if m.p == CONTROLLER_ID then m.fd else t[m.p].hop
  }

  /** The moved device hangs from its new parent, and it and the listed devices are reached through its pipe. */
  ghost predicate RoutedAs(t: Table, m: Move, done: seq<DeviceId>, w: Table) {
    && (m.p == CONTROLLER_ID || m.p in t) && Rehung(t, w, m.x, m.p)
    && forall y | y in t :: w[y].hop == if y == m.x || y in done then TreeHop(t, m) else t[y].hop
  }

  /** The response of the moved device. */
  lemma ResponseRoutes(t: Table, m: Move)
    requires Rooted(t) && LinkAllowed(t, m.x, m.p)
    ensures var u := ParentChanged(t, m.x, m.p, m.fd);
            && Rooted(u) && (Safe(t) ==> Safe(u)) && RoutedAs(t, m, [], u) && SameClasses(t, u, {})
  {
    LinkShape(t, m.x, m.p, m.fd);
    LinkKeepsForest(t, m.x, m.p, m.fd);
  }

  /** Replaying the next devices of the list routes them too. */
  lemma ReplayRoutes(t: Table, w: Table, m: Move, done: seq<DeviceId>, ids: seq<DeviceId>)
    requires RoutedAs(t, m, done, w) && CONTROLLER_ID !in w && done + ids == Listed(m)
    requires Distinct(Listed(m)) && m.x !in Listed(m) && ParentsFirst(w, m.x, Listed(m))
    ensures RoutedAs(t, m, Listed(m), ReplayAll(w, ids)) && SameButHops(w, ReplayAll(w, ids))
  {
    forall y | y in done ensures y in w && w[y].hop == w[m.x].hop {
      assert y in Listed(m);
    }
    ReplaySetsHops(w, m.x, done, ids);
    assert forall y :: y in Listed(m) <==> y in done || y in ids;
  }

  lemma ListedPrefix(u: Table, m: Move, k: nat)
    requires Distinct(Listed(m)) && ParentsFirst(u, m.x, Listed(m))
    ensures Distinct(Upto(Listed(m), k)) && ParentsFirst(u, m.x, Upto(Listed(m), k))
  {
    var ids, first := Listed(m), Upto(Listed(m), k);
    forall i | 0 <= i < |first| ensures first[i] == ids[i] && first[..i] == ids[..i] {
    }
  }

  /** The first `k` devices. */
  lemma ReplayRoutesSome(t: Table, u: Table, m: Move, k: nat)
    requires RoutedAs(t, m, [], u) && CONTROLLER_ID !in u
    requires Distinct(Listed(m)) && m.x !in Listed(m) && ParentsFirst(u, m.x, Listed(m))
    ensures var w := ReplayAll(u, Upto(Listed(m), k)); RoutedAs(t, m, Upto(Listed(m), k), w) && SameButHops(u, w)
  {
    var ids := Upto(Listed(m), k);
    ListedPrefix(u, m, k);
    assert [] + ids == ids;
    ReplaySetsHops(u, m.x, [], ids);
  }

  lemma MovedTreeShape(t: Table, m: Move, k: nat)
    requires Rooted(t) && LinkAllowed(t, m.x, m.p) && Covers(t, m.x, m.branch)
    ensures var w := MovedTree(t, m, k);
            && Rooted(w) && (Safe(t) ==> Safe(w))
            && RoutedAs(t, m, Upto(Listed(m), k), w) && SameClasses(t, w, {})
  {
    var u := ParentChanged(t, m.x, m.p, m.fd);
    ListedBranch(t, m);
    ResponseRoutes(t, m);
    ListedInTree(u, m);
    ReplayRoutesSome(t, u, m, k);
    SameButHopsShape(u, MovedTree(t, m, k));
  }

  /** An answer changes types only; it keeps the tree if a device that has children declares itself a control device. */
  lemma AnsweredShape(t: Table, o: DeviceId, ty: DeviceType)
    requires Rooted(t) && (o != CONTROLLER_ID ==> o in t && IsControl(ty))
    ensures var w := Answered(t, o, ty);
            && Rooted(w) && SameRoutes(t, w) && SameClasses(t, w, {o}) && (o in t ==> w[o].deviceType == ty)
  {
    if o != CONTROLLER_ID {
      ChildRemovedIsForestedIff(t, o, ty);
      ChildRemovedShape(t, o, ty);
      ChildRemovedTypes(t, o, ty);
      AnswerKeepsClasses(t, o, ty);
    }
  }

  lemma AnswerKeepsClasses(t: Table, o: DeviceId, ty: DeviceType)
    requires Rooted(t) && o in t && IsControl(ty)
    ensures SameClasses(t, ChildRemoved(t, o, ty), {o})
  {
    var u := WithType(t, o, ty);
    SameShape(t, u);
    EmptyUpShape(u, t[o].parent);
  }

  lemma RoutedSameRoutes(t: Table, m: Move, done: seq<DeviceId>, w: Table, v: Table)
    requires RoutedAs(t, m, done, w) && SameRoutes(w, v)
    ensures RoutedAs(t, m, done, v)
  {
  }

  /** The whole link, whatever the old parent declares. */
  lemma LinkedTreeShape(t: Table, m: Move, k: nat, ty: DeviceType)
    requires Rooted(t) && LinkAllowed(t, m.x, m.p) && Covers(t, m.x, m.branch)
    requires t[m.x].parent != CONTROLLER_ID ==> IsControl(ty)
    ensures var u, o := LinkedTree(t, m, k, ty), t[m.x].parent;
            && Rooted(u) && RoutedAs(t, m, Listed(m), u) && SameClasses(t, u, {o})
            && (o in t ==> u[o].deviceType == ty)
            && SameButHops(Answered(MovedTree(t, m, k), o, ty), u)
  {
    var w, o := MovedTree(t, m, k), t[m.x].parent;
    var v := Answered(w, o, ty);
    MovedTreeShape(t, m, k);
    AnsweredShape(w, o, ty);
    RoutedSameRoutes(t, m, Upto(Listed(m), k), w, v);
    RestOfReplay(t, v, m, k);
  }

  lemma RestOfReplay(t: Table, v: Table, m: Move, k: nat)
    requires Rooted(t) && Covers(t, m.x, m.branch) && Rooted(v) && RoutedAs(t, m, Upto(Listed(m), k), v)
    ensures var u := ReplayAll(v, Remaining(Listed(m), k));
            Rooted(u) && RoutedAs(t, m, Listed(m), u) && SameButHops(v, u)
  {
    ListedBranch(t, m);
    ListedInTree(v, m);
    UptoRemaining(Listed(m), k);
    ReplayRoutes(t, v, m, Upto(Listed(m), k), Remaining(Listed(m), k));
    SameButHopsShape(v, ReplayAll(v, Remaining(Listed(m), k)));
  }

  /** Its hops are right again. */
  lemma LinkedTreeHops(t: Table, m: Move, u: Table)
    requires Rooted(t) && HopsOk(t) && LinkAllowed(t, m.x, m.p) && Covers(t, m.x, m.branch)
    requires RoutedAs(t, m, Listed(m), u)
    ensures HopsOk(u)
  {
    TreeCoversItself(t);
    ListedBranch(t, m);
    NewParentIsOutside(t, m);
    HeardHops(t, CONTROLLER_ID, m.x, m.p, t, m.branch, u, TreeHop(t, m));
  }

  lemma NewParentIsOutside(t: Table, m: Move)
    requires Rooted(t) && LinkAllowed(t, m.x, m.p) && Covers(t, m.x, m.branch)
    ensures m.p !in m.branch
  {
    CoversIsBranch(t, m.x, m.branch);
  }

  /** From a safe tree a whole link ends in a safe one exactly when the old parent's answer fits. */
  lemma LinkedTreeIsSafeIff(t: Table, m: Move, k: nat, ty: DeviceType)
    requires Safe(t) && LinkAllowed(t, m.x, m.p) && Covers(t, m.x, m.branch)
    requires t[m.x].parent != CONTROLLER_ID ==> IsControl(ty)
    ensures Safe(LinkedTree(t, m, k, ty)) <==> AnswerFits(MovedTree(t, m, k), t[m.x].parent, ty)
  {
    var w, o := MovedTree(t, m, k), t[m.x].parent;
    MovedTreeShape(t, m, k);
    LinkedTreeShape(t, m, k, ty);
    SameButHopsShape(Answered(w, o, ty), LinkedTree(t, m, k, ty));
    if o != CONTROLLER_ID {
      ChildRemovedIsSafeIff(w, o, ty);
    }
  }

  ghost predicate AnswerFits(w: Table, o: DeviceId, ty: DeviceType) {
    o != CONTROLLER_ID ==> o in w && Declarable(w, o, ty)
  }

  // ---------------------------------------------------------------- devices that go, and new ones

  /** `u` is `t` without `x` and its branch; types may have changed. */
  ghost predicate Pruned(t: Table, x: DeviceId, u: Table) {
    && u.Keys == RemoveTree(t, x).Keys && u.Keys <= t.Keys
    && forall y | y in u :: u[y].parent == t[y].parent && u[y].hop == t[y].hop
  }

  /** Of the devices that are left, those outside `s` keep their class. */
  ghost predicate ClassesLeft(t: Table, u: Table, s: set<DeviceId>) {
    forall y | y in t && y in u && y !in s :: ControlClass(u[y].deviceType) == ControlClass(t[y].deviceType)
  }

  /** Control devices stay such, of those that are left. */
  ghost predicate KindsLeft(t: Table, u: Table) {
    forall y | y in t && y in u :: IsControl(u[y].deviceType) <==> IsControl(t[y].deviceType)
  }

  lemma KindsAfterPruning(t: Table, u: Table, o: DeviceId, ty: DeviceType)
    requires ClassesLeft(t, u, {o})
    requires o in t && o in u ==> u[o].deviceType == ty && IsControl(t[o].deviceType) && IsControl(ty)
    ensures KindsLeft(t, u)
    ensures forall c | c in t && c in u && IsTimer(t[c].deviceType) && (c == o ==> IsTimer(ty)) ::
              IsTimer(u[c].deviceType)
  {
    forall y | y in t && y in u && y != o
      ensures IsControl(u[y].deviceType) <==> IsControl(t[y].deviceType)
      ensures IsTimer(u[y].deviceType) <==> IsTimer(t[y].deviceType)
    {
      ClassDecides(t[y].deviceType, u[y].deviceType);
    }
  }

  lemma DeletedTree(t: Table, x: DeviceId)
    requires Rooted(t) && HopsOk(t) && x in t
    ensures Rooted(Deleted(t, x)) && HopsOk(Deleted(t, x))
    ensures Pruned(t, x, Deleted(t, x)) && ClassesLeft(t, Deleted(t, x), {})
  {
    DeletedKeepsForest(t, x);
  }

  /** `u` is `t` with a new device directly below the Controller. */
  ghost predicate Grown(t: Table, u: Table, id: DeviceId, ty: DeviceType, fd: int) {
    && id !in t && id != CONTROLLER_ID && id in u && u == t[id := u[id]]
    && u[id].parent == CONTROLLER_ID && u[id].deviceType == ty && u[id].hop == fd
  }

  lemma GrownTree(t: Table, id: DeviceId, ty: DeviceType, pid: int, fd: int)
    requires Rooted(t) && HopsOk(t) && id !in t && id != CONTROLLER_ID
    ensures var u := Put(t, id, pid, ty, CONTROLLER_ID, fd); Rooted(u) && HopsOk(u) && Grown(t, u, id, ty, fd)
  {
    AddKeepsForest(t, id, ty, pid, fd);
  }

  /** Reaping `x` and its branch leaves the rest of a rooted tree. */
  lemma ReapedTree(t: Table, x: DeviceId, u: Table)
    requires Rooted(t) && HopsOk(t) && x in t && Reaped(t, u, Lost(t, x))
    ensures Rooted(u) && HopsOk(u) && Pruned(t, x, u) && ClassesLeft(t, u, {})
  {
    ReapedKeepsRoutes(t, x, u);
  }

  /** The answer of the parent, if it is told, changes types only. */
  lemma PrunedAnswered(t: Table, x: DeviceId, w: Table, o: DeviceId, ty: DeviceType)
    requires Rooted(w) && HopsOk(w) && Pruned(t, x, w) && ClassesLeft(t, w, {})
    requires o != CONTROLLER_ID ==> o in w && IsControl(ty)
    ensures var u := Answered(w, o, ty);
            && Rooted(u) && HopsOk(u) && Pruned(t, x, u) && ClassesLeft(t, u, {o})
            && (o in w ==> u[o].deviceType == ty)
  {
    AnsweredShape(w, o, ty);
  }
}
