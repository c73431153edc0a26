/** What whole commands do to the types of the Controller's tree when the answers on the way are truthful. */
module TypedTrees {
  import opened Devices
  import opened Forest
  import opened TableOps
  import opened Topology
  import opened TopologyTypes
  import opened NextHops
  import opened Branches
  import opened Stations
  import opened Trees
  import opened BranchTypes

  // ---------------------------------------------------------------- a link

  lemma SameTypesAnyway(t: Table, u: Table, w: Table, s: set<DeviceId>)
    requires SameButHops(u, w)
    ensures (TypedOn(u, t, s) <==> TypedOn(w, t, s)) && (ExactOutside(u, s) <==> ExactOutside(w, s))
  {
    SameButHopsTypes(u, w, s);
  }

  /** The response of the moved device leaves the types of the moved branch and of the leaf devices as they are. */
  lemma ResponseTypes(t: Table, m: Move, u: Table)
    requires Safe(t) && LinkAllowed(t, m.x, m.p) && Moving(t, u, m) && u == ParentChanged(t, m.x, m.p, m.fd)
    ensures TypedOn(u, t, Moved(m))
  {
    var hop := if m.p == CONTROLLER_ID then m.fd else t[m.p].hop;
    var v := Put(t, m.x, t[m.x].pid, t[m.x].deviceType, m.p, hop);
    LinkIsPutThenFill(t, m.x, m.p, m.fd);
    PutKeepsShape(t, m.x, m.p, hop);
    BranchStaysCovered(t, u, m);
    RehungTypes(t, m, u, v);
  }

  lemma RehungTypes(t: Table, m: Move, u: Table, v: Table)
    requires Rehung(t, u, m.x, m.p) && Acyclic(u) && Covers(u, m.x, m.branch) && m.p !in Moved(m)
    requires m.x in v && v == t[m.x := v[m.x]] && v[m.x].parent == m.p && v[m.x].deviceType == t[m.x].deviceType
    requires Acyclic(v) && LeavesAreChildless(v)
    ensures TypedOn(FillAbove(v, m.x), t, Moved(m))
  {
    if m.p in v {
      LearnKeepsTypes(t, u, m, v, m.x, m.p);
    } else {
      NothingToFill(v, m.x);
    }
  }

  lemma NothingToFill(v: Table, x: DeviceId)
    requires x in v && v[x].parent !in v
    ensures FillAbove(v, x) == v
  {
    if !IsEmpty(v[x].deviceType) {
      LeafBits(v[x].deviceType);
    }
  }

  /** After the replay of `k` devices only the old parent can be inexact. */
  lemma MovedTreeTypes(t: Table, m: Move, k: nat)
    requires Safe(t) && Exact(t) && LinkAllowed(t, m.x, m.p) && Covers(t, m.x, m.branch)
    ensures var w := MovedTree(t, m, k);
            && Safe(w) && ExactOutside(w, {t[m.x].parent}) && TypedOn(w, t, Moved(m)) && Rehung(t, w, m.x, m.p)
            && (t[m.x].parent == CONTROLLER_ID ==> Exact(w))
  {
    var u := ParentChanged(t, m.x, m.p, m.fd);
    LinkKeepsSafe(t, m.x, m.p, m.fd);
    LinkIsExactOutside(t, m.x, m.p, m.fd);
    IsMoving(t, m, u);
    ResponseTypes(t, m, u);
    ReplayKeepsTypes(t, m, k);
    SameButHopsShape(u, MovedTree(t, m, k));
    SameTypesAnyway(t, u, MovedTree(t, m, k), Moved(m));
    SameTypesAnyway(t, u, MovedTree(t, m, k), {t[m.x].parent});
  }

  lemma IsMoving(t: Table, m: Move, u: Table)
    requires Acyclic(t) && Acyclic(u) && CONTROLLER_ID !in t && LinkAllowed(t, m.x, m.p) && Covers(t, m.x, m.branch)
    requires Rehung(t, u, m.x, m.p)
    ensures Moving(t, u, m)
  {
    CoversIsBranch(t, m.x, m.branch);
    BelowUnfold(t, CONTROLLER_ID, m.x);
  }

  lemma ReplayKeepsTypes(t: Table, m: Move, k: nat)
    requires Safe(t) && LinkAllowed(t, m.x, m.p) && Covers(t, m.x, m.branch)
    ensures SameButHops(ParentChanged(t, m.x, m.p, m.fd), MovedTree(t, m, k))
    ensures Rehung(t, MovedTree(t, m, k), m.x, m.p)
  {
    var u := ParentChanged(t, m.x, m.p, m.fd);
    ListedBranch(t, m);
    ResponseRoutes(t, m);
    ListedInTree(u, m);
    ReplayRoutesSome(t, u, m, k);
  }

  /** A truthful answer makes the tree safe and exact again. */
  lemma AnsweredTypes(t: Table, w: Table, o: DeviceId, ty: DeviceType, s: set<DeviceId>)
    requires Safe(w) && ExactOutside(w, {o}) && TypedOn(w, t, s)
    requires o != CONTROLLER_ID ==> o in w && IsControl(w[o].deviceType) && Truthful(w, o, ty)
    requires forall y | y in w && y in s :: o != y && !Below(w, o, y)
    ensures var u := Answered(w, o, ty); Safe(u) && Exact(u) && TypedOn(u, t, s)
  {
    if o != CONTROLLER_ID {
      TruthfulIsSincere(w, o, ty);
      ChildRemovedIsExactIff(w, o, ty);
      AnswerKeepsTypes(t, w, o, ty, s);
    } else {
      assert Exact(w);
    }
  }

  lemma AnswerKeepsTypes(t: Table, w: Table, o: DeviceId, ty: DeviceType, s: set<DeviceId>)
    requires Rooted(w) && o in w && IsControl(w[o].deviceType) && ControlClass(ty) == ControlClass(w[o].deviceType)
    requires TypedOn(w, t, s) && forall y | y in w && y in s :: o != y && !Below(w, o, y)
    ensures TypedOn(ChildRemoved(w, o, ty), t, s)
  {
    var v, q := WithType(w, o, ty), w[o].parent;
    var u := ChildRemoved(w, o, ty);
    SameTypeBits(ty, w[o].deviceType);
    SameShape(w, v);
    AnswerKeepsClasses(w, o, ty);
    ChildRemovedTypes(w, o, ty);
    EmptyUpKeepsLeaves(v, q);
    forall y | y in w && y in s ensures u[y] == w[y] {
      BelowUnfold(w, o, y);
      EmptyUpElsewhere(v, q, y);
    }
    forall y | y in w ensures IsLeaf(w[y].deviceType) <==> IsLeaf(t[y].deviceType) {
      SameTypeBits(w[y].deviceType, t[y].deviceType);
    }
  }

  /** So does a whole link, whenever the answer comes. */
  lemma LinkedTreeTypes(t: Table, m: Move, k: nat, ty: DeviceType)
    requires Safe(t) && Exact(t) && LinkAllowed(t, m.x, m.p) && Covers(t, m.x, m.branch)
    requires var w, o := MovedTree(t, m, k), t[m.x].parent;
             o != CONTROLLER_ID ==> o in w && IsControl(w[o].deviceType) && Truthful(w, o, ty)
    ensures var u := LinkedTree(t, m, k, ty); Safe(u) && Exact(u) && TreeTyped(t, u, Moved(m))
  {
    var w, o := MovedTree(t, m, k), t[m.x].parent;
    var v := Answered(w, o, ty);
    MovedTreeTypes(t, m, k);
    IsMoving(t, m, w);
    BranchStaysCovered(t, w, m);
    forall y | y in w && y in Moved(m) ensures o != y && !Below(w, o, y) {
      NotBelowMoved(w, m, w, o, y);
    }
    AnsweredTypes(t, w, o, ty, Moved(m));
    RestKeepsTypes(t, m, k, ty);
    SameButHopsShape(v, LinkedTree(t, m, k, ty));
    SameTypesAnyway(t, v, LinkedTree(t, m, k, ty), {});
    SameTypesAnyway(t, v, LinkedTree(t, m, k, ty), Moved(m));
    BackedIsExact(LinkedTree(t, m, k, ty), {});
  }

  lemma RestKeepsTypes(t: Table, m: Move, k: nat, ty: DeviceType)
    requires Safe(t) && LinkAllowed(t, m.x, m.p) && Covers(t, m.x, m.branch)
    requires var w, o := MovedTree(t, m, k), t[m.x].parent;
             o != CONTROLLER_ID ==> o in w && IsControl(w[o].deviceType) && Truthful(w, o, ty)
    ensures SameButHops(Answered(MovedTree(t, m, k), t[m.x].parent, ty), LinkedTree(t, m, k, ty))
  {
    var w, o := MovedTree(t, m, k), t[m.x].parent;
    if o != CONTROLLER_ID {
      SameTypeBits(ty, w[o].deviceType);
    }
    LinkedTreeShape(t, m, k, ty);
  }

  // ---------------------------------------------------------------- devices that go, and new ones

  lemma DeletedTypes(t: Table, x: DeviceId)
    requires Safe(t) && Exact(t) && x in t
    ensures var u := Deleted(t, x); Safe(u) && Exact(u) && TreeTyped(t, u, {})
  {
    var u := RemoveTree(t, x);
    DeletedKeepsSturdy(t, x);
    DeletedIsExact(t, x);
    RemoveTreeKeepsSturdy(t, x);
    EmptyUpShape(u, t[x].parent);
    EmptyUpKeepsLeaves(u, t[x].parent);
    BackedIsExact(Deleted(t, x), {});
  }

  /** Reaping keeps a safe and exact tree so. */
  lemma ReapedTypes(t: Table, x: DeviceId, u: Table)
    requires Safe(t) && Exact(t) && HopsOk(t) && x in t && Reaped(t, u, Lost(t, x)) && TypesKept(t, u)
    ensures Safe(u) && Exact(u) && TreeTyped(t, u, {})
  {
    ReapedIsSafe(t, x, u);
    BackedIsExact(u, {});
  }

  lemma CrashedTypes(t: Table, x: DeviceId, w: Table, o: DeviceId, ty: DeviceType)
    requires Safe(t) && Exact(t) && HopsOk(t) && x in t && Reaped(t, w, Lost(t, x)) && TypesKept(t, w)
    requires o != CONTROLLER_ID ==> o in w && IsControl(w[o].deviceType) && Truthful(w, o, ty)
    ensures var u := Answered(w, o, ty); Safe(u) && Exact(u) && TreeTyped(t, u, {})
  {
    ReapedTypes(t, x, w);
    AnsweredTypes(t, w, o, ty, {});
    BackedIsExact(Answered(w, o, ty), {});
  }

  lemma GrownTypes(t: Table, id: DeviceId, ty: DeviceType, pid: int, fd: int)
    requires Safe(t) && Exact(t) && id !in t && id != CONTROLLER_ID && Addable(ty)
    ensures var u := Put(t, id, pid, ty, CONTROLLER_ID, fd); Safe(u) && Exact(u)
  {
    AddIsSafeIff(t, id, ty, pid, fd);
    AddedIsExact(t, id, ty, pid, fd);
  }
}
