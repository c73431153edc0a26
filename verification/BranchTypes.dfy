/**
 The types recorded in the table of a Hub or a Timer, compared with those of the Controller's tree, while a link
 passes: what the responses of the moved device, the replay and the removal make of them.
 */
module BranchTypes {
  import opened Devices
  import opened Forest
  import opened TableOps
  import opened Topology
  import opened Replay
  import opened Branches
  import opened Stations
  import opened HubTypes
  import H = HubTable

  // ---------------------------------------------------------------- types that are backed by children

  /** Same class and same leaf type. */
  predicate SameType(a: DeviceType, b: DeviceType) {
    ControlClass(a) == ControlClass(b) && ChildType(a) == ChildType(b)
  }

  lemma SameTypeBits(a: DeviceType, b: DeviceType)
    requires ControlClass(a) == ControlClass(b)
    ensures (IsControl(a) <==> IsControl(b)) && (IsHub(a) <==> IsHub(b)) && (IsTimer(a) <==> IsTimer(b))
    ensures IsLeaf(a) <==> !IsControl(a)
    ensures ChildType(a) == ChildType(b) ==> (IsEmpty(a) <==> IsEmpty(b))
  {
  }

  /** Outside `s`, a control device that is not empty has a child that is not. */
  ghost predicate Backed(t: Table, s: set<DeviceId>) {
    forall y | NonEmpty(t, y) && y !in s && IsControl(t[y].deviceType) :: HasNonEmptyChild(t, y)
  }

  /** In a compatible table this is exactness. */
  lemma BackedIsExact(t: Table, s: set<DeviceId>)
    requires Compatible(t)
    ensures Backed(t, s) <==> ExactOutside(t, s)
  {
    if Backed(t, s) {
      forall y | y in t && y !in s && IsControl(t[y].deviceType) ensures ExactAt(t, y) {
      }
    } else {
      var y :| NonEmpty(t, y) && y !in s && IsControl(t[y].deviceType) && !HasNonEmptyChild(t, y);
      assert !ExactAt(t, y);
    }
  }

  /** A non-empty child other than `x` is still one when only `x` changes. */
  lemma StillHasChild(t: Table, u: Table, x: DeviceId, y: DeviceId)
    requires HasNonEmptyChild(t, y) && (x in t ==> t[x].parent != y || IsEmpty(t[x].deviceType))
    requires forall z | z in t && z != x :: z in u && u[z].parent == t[z].parent
                                            && u[z].deviceType == t[z].deviceType
    ensures HasNonEmptyChild(u, y)
  {
    var d :| NonEmpty(t, d) && t[d].parent == y;
    assert NonEmpty(u, d) && u[d].parent == y;
  }

  /** Emptying upwards from `x` repairs `x`, early exit or not. */
  lemma {:induction false} EmptyingBacks(t: Table, x: DeviceId, s: set<DeviceId>)
    requires Acyclic(t) && Backed(t, s + {x})
    ensures Backed(EmptyUp(t, x), s)
    decreases Depth(t, x)
  {
    if NonEmpty(t, x) {
      var q := t[x].parent;
      ChildIsDeeper(t, x);
      var u := if HasNonEmptyChild(t, x) then t else WithType(t, x, EmptiedType(t[x].deviceType));
      SameShape(t, u);
      EmptiedBacks(t, x, s);
      if q in t {
        EmptyingBacks(u, q, s);
      }
    }
  }

  lemma EmptiedBacks(t: Table, x: DeviceId, s: set<DeviceId>)
    requires Acyclic(t) && NonEmpty(t, x) && Backed(t, s + {x})
    ensures var u := if HasNonEmptyChild(t, x) then t else WithType(t, x, EmptiedType(t[x].deviceType));
            Backed(u, s + {t[x].parent}) && (t[x].parent !in t ==> Backed(u, s))
  {
    if !HasNonEmptyChild(t, x) {
      var u := WithType(t, x, EmptiedType(t[x].deviceType));
      EmptyAnyway(t[x].deviceType);
      forall y | NonEmpty(u, y) && y !in s && y != t[x].parent && IsControl(u[y].deviceType)
        ensures HasNonEmptyChild(u, y)
      {
        StillHasChild(t, u, x, y);
      }
    }
  }

  lemma EmptyAnyway(ty: DeviceType)
    ensures IsEmpty(EmptiedType(ty))
  {
  }

  /** Filling upwards from a device with a non-empty child backs all it fills. */
  lemma {:induction false} FillingBacks(t: Table, p: DeviceId, leaf: DeviceType, s: set<DeviceId>)
    requires leaf & LEAF_DEVICE_MASK == leaf && leaf != 0 && Backed(t, s + {p})
    requires p in t ==> HasNonEmptyChild(t, p)
    ensures Backed(FillUp(t, p, leaf), s)
    decreases EmptyEntries(t)
  {
    if p in t && IsEmpty(t[p].deviceType) {
      var u, q := WithType(t, p, FilledType(t[p].deviceType, leaf)), t[p].parent;
      FilledTypeBits(t[p].deviceType, leaf);
      assert p in EmptyEntries(t);
      forall y | HasNonEmptyChild(t, y) ensures HasNonEmptyChild(u, y) {
        StillHasChild(t, u, p, y);
      }
      assert NonEmpty(u, p) && u[p].parent == q;
      FillingBacks(u, q, leaf, s);
    }
  }

  // ---------------------------------------------------------------- types determined by the leaves

  /** The table gives its devices the types they have in the tree. */
  ghost predicate TypedAs(r: Table, t: Table) {
    forall y | y in r :: y in t && SameType(r[y].deviceType, t[y].deviceType)
  }

  /** The classes agree, and so do the whole types of leaf devices and of the devices in `s`. */
  ghost predicate TypedOn(w: Table, t: Table, s: set<DeviceId>) {
    && (forall y | y in w :: y in t && ControlClass(w[y].deviceType) == ControlClass(t[y].deviceType))
    && forall y | y in w && (y in s || IsLeaf(t[y].deviceType)) ::
         ChildType(w[y].deviceType) == ChildType(t[y].deviceType)
  }

  /** `w` lists devices of `u` with their parents, and with a device outside `s`, or its owner, all its children. */
  ghost predicate Sees(u: Table, c: DeviceId, w: Table, s: set<DeviceId>) {
    && Mirrors(w, u)
    && forall d | d in u && (u[d].parent == c || (u[d].parent in w && u[d].parent !in s)) :: d in w
  }

  /** Two tables that see the same devices, compatible and backed, agree on a type if they do below it. */
  lemma {:induction false} Determined(u: Table, c: DeviceId, w: Table, s: set<DeviceId>, y: DeviceId)
    requires Acyclic(u) && Compatible(u) && Compatible(w) && Sees(u, c, w, s) && TypedOn(w, u, s)
    requires Backed(u, s) && Backed(w, s) && y in w
    ensures ChildType(w[y].deviceType) == ChildType(u[y].deviceType)
    decreases Height(u, y)
  {
    if y !in s && IsControl(u[y].deviceType) && (NonEmpty(w, y) || NonEmpty(u, y)) {
      SameTypeBits(w[y].deviceType, u[y].deviceType);
      var d :| (NonEmpty(w, d) && w[d].parent == y) || (NonEmpty(u, d) && u[d].parent == y);
      ChildIsDeeper(u, d);
      Determined(u, c, w, s, d);
      ChildTypeNonEmpty(w[d].deviceType, u[d].deviceType);
    } else {
      SameTypeBits(u[y].deviceType, u[y].deviceType);
      EmptyTypes(w[y].deviceType, u[y].deviceType);
    }
  }

  lemma EmptyTypes(a: DeviceType, b: DeviceType)
    ensures IsEmpty(a) && IsEmpty(b) ==> ChildType(a) == ChildType(b)
  {
  }

  lemma AllDetermined(u: Table, c: DeviceId, w: Table, s: set<DeviceId>)
    requires Acyclic(u) && Compatible(u) && Compatible(w) && Sees(u, c, w, s) && TypedOn(w, u, s)
    requires Backed(u, s) && Backed(w, s)
    ensures TypedAs(w, u)
  {
    forall y | y in w ensures SameType(w[y].deviceType, u[y].deviceType) {
      Determined(u, c, w, s, y);
    }
  }

  /** A table that is typed as a safe and exact tree is itself well typed and backed. */
  lemma TypedIsWell(t: Table, c: DeviceId, r: Table)
    requires Acyclic(t) && LeavesAreChildless(t) && Compatible(t) && Backed(t, {}) && Covers(t, c, r) && TypedAs(r, t)
    ensures WellTyped(c, r) && Backed(r, {})
  {
    CoversIsBranch(t, c, r);
    forall y | y in r
      ensures (NonEmpty(r, y) <==> NonEmpty(t, y)) && (IsControl(r[y].deviceType) <==> IsControl(t[y].deviceType))
    {
      SameTypeBits(r[y].deviceType, t[y].deviceType);
    }
    forall y | NonEmpty(r, y) && IsControl(r[y].deviceType) ensures HasNonEmptyChild(r, y) {
      var d :| NonEmpty(t, d) && t[d].parent == y;
      assert NonEmpty(r, d) && r[d].parent == y;
    }
  }

  // ---------------------------------------------------------------- while a link passes

  /** The devices that the moved device announces. */
  ghost function Moved(m: Move): set<DeviceId> { {m.x} + m.branch.Keys }

  /** The moved device announces its branch with the types of the tree, which are safe and exact. */
  ghost predicate Typed(t: Table, m: Move) {
    && CONTROLLER_ID !in t && LeavesAreChildless(t) && Compatible(t) && Backed(t, {})
    && m.x in t && SameType(m.ty, t[m.x].deviceType) && TypedAs(m.branch, t)
  }

  /** A table in the middle of a link: it may not have the moved branch in full, but has the right types there. */
  ghost predicate Midtyped(t: Table, c: DeviceId, w: Table, m: Move, s: set<DeviceId>) {
    WellTyped(c, w) && Backed(w, Moved(m) + s) && TypedOn(w, t, Moved(m))
  }

  lemma BranchStaysCovered(t: Table, u: Table, m: Move)
    requires Moving(t, u, m)
    ensures Covers(u, m.x, m.branch) && m.p !in Moved(m) && t[m.x].parent !in Moved(m)
  {
    CoversIsBranch(t, m.x, m.branch);
    BelowUnfold(t, m.x, m.x);
  }

  /** Nothing outside the moved branch hangs below a device in it. */
  lemma NotBelowMoved(u: Table, m: Move, w: Table, z: DeviceId, y: DeviceId)
    requires Acyclic(u) && Covers(u, m.x, m.branch) && Mirrors(w, u) && z !in Moved(m) && y in Moved(m)
    ensures z != y && !Below(w, z, y)
  {
    CoversIsBranch(u, m.x, m.branch);
    if Below(w, z, y) {
      BelowMirrored(w, u, z, y);
      BelowUnfold(u, z, y);
      if y != m.x {
        BelowTransitive(u, z, y, m.x);
      }
    }
  }

  /** So a climb from outside the branch passes neither its devices nor leaf devices. */
  lemma ClimbPasses(t: Table, u: Table, m: Move, w: Table, z: DeviceId, y: DeviceId)
    requires Acyclic(u) && Covers(u, m.x, m.branch) && Mirrors(w, u) && z !in Moved(m)
    requires Acyclic(w) && LeavesAreChildless(w) && (z in w ==> IsControl(w[z].deviceType))
    requires y in w && y in t && ControlClass(w[y].deviceType) == ControlClass(t[y].deviceType)
    requires y in Moved(m) || IsLeaf(t[y].deviceType)
    ensures z != y && !Below(w, z, y)
  {
    SameTypeBits(w[y].deviceType, t[y].deviceType);
    if y in Moved(m) {
      NotBelowMoved(u, m, w, z, y);
    } else if Below(w, z, y) {
      AboveIsControl(w, z, y);
    }
  }

  /** Re-hanging one device can only take the last non-empty child from its old parent. */
  lemma RehangBacks(r: Table, x: DeviceId, e: Entry, o: DeviceId)
    requires Backed(r, {}) && (x in r ==> r[x].parent == o)
    ensures Backed(r[x := e], {x, o})
  {
    var w := r[x := e];
    forall y | NonEmpty(w, y) && y !in {x, o} && IsControl(w[y].deviceType) ensures HasNonEmptyChild(w, y) {
      StillHasChild(r, w, x, y);
    }
  }

  /** The response of the moved device at its new parent. */
  lemma FirstDirect(t: Table, u: Table, c: DeviceId, r: Table, m: Move)
    requires Moving(t, u, m) && Typed(t, m) && Covers(t, c, r) && TypedAs(r, t) && m.p == c
    ensures SameKind(r, m.x, m.ty)
    ensures Midtyped(t, c, Put(r, m.x, 0, m.ty, c, m.fd), m, {t[m.x].parent})
  {
    TypedIsWell(t, c, r);
    HearerIsOutside(t, u, m, c, r);
    DirectWellTyped(c, r, m.x, m.ty, m.fd);
    RehangBacks(r, m.x, Entry(0, m.ty, c, m.fd), t[m.x].parent);
  }

  /** The new parent accepts it in the table as in the tree. */
  lemma Accepted(t: Table, u: Table, c: DeviceId, r: Table, m: Move)
    requires Moving(t, u, m) && Typed(t, m) && Covers(t, c, r) && TypedAs(r, t) && m.p in r
    requires LinkAllowed(t, m.x, m.p)
    ensures SameKind(r, m.x, m.ty) && IsControl(r[m.p].deviceType)
    ensures !IsEmpty(m.ty) ==> ChainAccepts(r, m.p, ChildType(m.ty))
  {
    CoversIsBranch(t, c, r);
    SameTypeBits(r[m.p].deviceType, t[m.p].deviceType);
    SameTypeBits(m.ty, t[m.x].deviceType);
    forall a | NonEmpty(r, a) && (a == m.p || Below(r, m.p, a)) && !IsEmpty(m.ty)
      ensures ChildType(r[a].deviceType) == ChildType(m.ty)
    {
      SameTypeBits(r[a].deviceType, t[a].deviceType);
      if a != m.p {
        BelowMirrored(r, t, m.p, a);
      }
    }
  }

  /** Learning a device whose type the table accepts, with a non-empty child of its new parent for a witness. */
  lemma LearnBacks(w: Table, x: DeviceId, p: DeviceId, ty: DeviceType, s: set<DeviceId>)
    requires p in w && x != p && Backed(Put(w, x, 0, ty, p, w[p].hop), s)
    ensures Backed(Learn(w, x, p, ty), s)
  {
    var v := Put(w, x, 0, ty, p, w[p].hop);
    if !IsEmpty(ty) {
      LeafBits(ty);
      assert NonEmpty(v, x) && v[x].parent == p;
      FillingBacks(v, p, ChildType(ty), s);
    }
  }

  /** Filling above the new device leaves the moved devices and the leaf devices alone. */
  lemma LearnKeepsTypes(t: Table, u: Table, m: Move, v: Table, x: DeviceId, p: DeviceId)
    requires Acyclic(u) && Covers(u, m.x, m.branch) && Mirrors(v, u) && p !in Moved(m)
    requires Acyclic(v) && LeavesAreChildless(v) && x in v && v[x].parent == p && p in v
    requires TypedOn(v, t, Moved(m))
    ensures TypedOn(FillAbove(v, x), t, Moved(m))
  {
    var w := FillAbove(v, x);
    FillAboveShape(v, x);
    if !IsEmpty(v[x].deviceType) {
      LeafBits(v[x].deviceType);
      forall y | y in v && (y in Moved(m) || IsLeaf(t[y].deviceType)) ensures w[y] == v[y] {
        ClimbPasses(t, u, m, v, p, y);
        FillUpElsewhere(v, p, ChildType(v[x].deviceType), y);
      }
    }
  }

  lemma LearnedTypes(t: Table, u: Table, c: DeviceId, r: Table, m: Move)
    requires Moving(t, u, m) && Typed(t, m) && Covers(t, c, r) && TypedAs(r, t) && m.p in r && WellTyped(c, r)
    requires IsControl(r[m.p].deviceType) && SameKind(r, m.x, m.ty)
    ensures TypedOn(Learn(r, m.x, m.p, m.ty), t, Moved(m))
  {
    var e := Entry(0, m.ty, m.p, r[m.p].hop);
    MayBeRecorded(t, u, m, c, r);
    BranchStaysCovered(t, u, m);
    PutAcyclicIff(r, m.x, e);
    LearnKeepsTypes(t, u, m, r[m.x := e], m.x, m.p);
  }

  lemma LearnedBacks(r: Table, x: DeviceId, p: DeviceId, ty: DeviceType, o: DeviceId, s: set<DeviceId>)
    requires Backed(r, {}) && (x in r ==> r[x].parent == o) && p in r && x != p && x in s
    ensures Backed(Learn(r, x, p, ty), s + {o})
  {
    RehangBacks(r, x, Entry(0, ty, p, r[p].hop), o);
    LearnBacks(r, x, p, ty, s + {o});
  }

  /** The response of the moved device above its new parent. */
  lemma FirstIndirect(t: Table, u: Table, c: DeviceId, r: Table, m: Move)
    requires Moving(t, u, m) && Typed(t, m) && Covers(t, c, r) && TypedAs(r, t) && m.p in r
    requires LinkAllowed(t, m.x, m.p)
    ensures Midtyped(t, c, Learn(r, m.x, m.p, m.ty), m, {t[m.x].parent})
  {
    TypedIsWell(t, c, r);
    Accepted(t, u, c, r, m);
    MayBeRecorded(t, u, m, c, r);
    LearnWellTyped(c, r, m.x, m.p, m.ty);
    LearnedBacks(r, m.x, m.p, m.ty, t[m.x].parent, Moved(m));
    LearnedTypes(t, u, c, r, m);
  }

  /** The type that is announced for a device of the branch is accepted by what the table has above it. */
  lemma ReplayAccepted(t: Table, c: DeviceId, w: Table, m: Move, s: set<DeviceId>, d: DeviceId)
    requires Typed(t, m) && Covers(t, m.x, m.branch) && Midtyped(t, c, w, m, s)
    requires d in m.branch && m.branch[d].parent in w
    ensures var q, ty := m.branch[d].parent, m.branch[d].deviceType;
            && SameKind(w, d, ty) && IsControl(w[q].deviceType) && q in Moved(m) && t[d].parent == q
            && (!IsEmpty(ty) ==> NonEmpty(w, q) && ChainAccepts(w, q, ChildType(ty)))
  {
    var q, ty := m.branch[d].parent, m.branch[d].deviceType;
    assert q in Moved(m) && t[d].parent == q;
    SameTypeBits(ty, t[d].deviceType);
    SameTypeBits(w[q].deviceType, t[q].deviceType);
    if !IsEmpty(ty) {
      ChildTypeNonEmpty(t[d].deviceType, t[q].deviceType);
      forall a | NonEmpty(w, a) && (a == q || Below(w, q, a)) ensures ChildType(w[a].deviceType) == ChildType(ty) {
        if a != q {
          CompatibleChain(w, q, a);
        }
      }
    }
  }

  /** If the parent has the leaf type already, nothing is filled. */
  lemma LearnIsQuiet(w: Table, d: DeviceId, q: DeviceId, ty: DeviceType)
    requires q in w && q != d && (!IsEmpty(ty) ==> NonEmpty(w, q))
    ensures Learn(w, d, q, ty) == Put(w, d, 0, ty, q, w[q].hop)
  {
    if !IsEmpty(ty) {
      LeafBits(ty);
    }
  }

  /** Recording a device of the branch takes no child from a device outside it. */
  lemma PutInBranchBacks(w: Table, d: DeviceId, e: Entry, s: set<DeviceId>)
    requires Backed(w, s) && d in s && (d in w ==> w[d].parent in s)
    ensures Backed(w[d := e], s)
  {
    var v := w[d := e];
    forall y | NonEmpty(v, y) && y !in s && IsControl(v[y].deviceType) ensures HasNonEmptyChild(v, y) {
      StillHasChild(w, v, d, y);
    }
  }

  /** So recording it changes no other type. */
  lemma ReplayIsQuiet(t: Table, w: Table, m: Move, s: set<DeviceId>, d: DeviceId)
    requires Backed(w, Moved(m) + s) && TypedOn(w, t, Moved(m)) && TypedAs(m.branch, t)
    requires d in m.branch && m.branch[d].parent in w && m.branch[d].parent != d && m.branch[d].parent in Moved(m)
    requires d in w ==> w[d].parent == m.branch[d].parent
    requires !IsEmpty(m.branch[d].deviceType) ==> NonEmpty(w, m.branch[d].parent)
    ensures var v := Learn(w, d, m.branch[d].parent, m.branch[d].deviceType);
            Backed(v, Moved(m) + s) && TypedOn(v, t, Moved(m))
  {
    var q, ty := m.branch[d].parent, m.branch[d].deviceType;
    LearnIsQuiet(w, d, q, ty);
    PutInBranchBacks(w, d, Entry(0, ty, q, w[q].hop), Moved(m) + s);
  }

  /** Outside `s` the tables are the same. */
  ghost predicate SameOutside(w: Table, v: Table, s: set<DeviceId>) {
    forall y | y !in s :: (y in w <==> y in v) && (y in w ==> v[y] == w[y])
  }

  /** The next device of the replay. */
  lemma NextTyped(t: Table, u: Table, c: DeviceId, first: Table, m: Move, ids: seq<DeviceId>, w: Table,
                  s: set<DeviceId>)
    requires Moving(t, u, m) && Typed(t, m) && ids != [] && Replaying(u, c, first, m, ids)
    requires Rerouted(first, m.branch, m.x, ids[..|ids| - 1], w) && Midtyped(t, c, w, m, s)
    ensures var d := ids[|ids| - 1];
            var q, ty := m.branch[d].parent, m.branch[d].deviceType;
            && SameKind(w, d, ty) && q in w && IsControl(w[q].deviceType)
            && (!IsEmpty(ty) ==> ChainAccepts(w, q, ChildType(ty)))
            && Midtyped(t, c, Learn(w, d, q, ty), m, s) && SameOutside(w, Learn(w, d, q, ty), Moved(m))
  {
    var d := ids[|ids| - 1];
    NextReplay(u, c, first, m, ids, w);
    ReplayAccepted(t, c, w, m, s, d);
    LearnIsQuiet(w, d, m.branch[d].parent, m.branch[d].deviceType);
    ReplayIsQuiet(t, w, m, s, d);
    LearnWellTyped(c, w, d, m.branch[d].parent, m.branch[d].deviceType);
  }

  lemma EmptyingWellTyped(c: DeviceId, w: Table, z: DeviceId)
    requires WellTyped(c, w) && (z in w ==> IsControl(w[z].deviceType))
    ensures WellTyped(c, EmptyUp(w, z))
  {
    EmptyUpShape(w, z);
    EmptyUpKeepsCompatible(w, z);
    H.SameTreeHangs(w, EmptyUp(w, z), c);
    OnlyLeafBitsKeepsTree(w, EmptyUp(w, z));
  }

  lemma EmptyingKeepsTypes(t: Table, u: Table, w: Table, m: Move, z: DeviceId)
    requires Acyclic(u) && Covers(u, m.x, m.branch) && Mirrors(w, u) && z !in Moved(m) && TypedOn(w, t, Moved(m))
    requires Acyclic(w) && LeavesAreChildless(w) && (z in w ==> IsControl(w[z].deviceType))
    ensures TypedOn(EmptyUp(w, z), t, Moved(m))
  {
    EmptyUpShape(w, z);
    forall y | y in w && (y in Moved(m) || IsLeaf(t[y].deviceType)) ensures EmptyUp(w, z)[y] == w[y] {
      ClimbPasses(t, u, m, w, z, y);
    }
  }

  /** The removal, at a device that has recorded where `x` is now: it empties from `z` upwards. */
  lemma EmptiedMidtyped(t: Table, u: Table, c: DeviceId, w: Table, m: Move, z: DeviceId)
    requires Acyclic(u) && Covers(u, m.x, m.branch) && Mirrors(w, u) && z !in Moved(m)
    requires WellTyped(c, w) && TypedOn(w, t, Moved(m))
    requires Backed(w, Moved(m) + {z}) && (z in w ==> IsControl(w[z].deviceType))
    ensures Acyclic(w) && Midtyped(t, c, EmptyUp(w, z), m, {})
  {
    EmptyingWellTyped(c, w, z);
    EmptyingBacks(w, z, Moved(m));
    EmptyingKeepsTypes(t, u, w, m, z);
    NothingMore(EmptyUp(w, z), Moved(m));
  }

  lemma NothingMore(w: Table, s: set<DeviceId>)
    requires Backed(w, s)
    ensures Backed(w, s + {})
  {
    assert s + {} == s;
  }

  /** A table that only loses `x` with its branch is emptied from the old parent upwards. */
  lemma CutTyped(t: Table, c: DeviceId, r: Table, x: DeviceId)
    requires Acyclic(t) && LeavesAreChildless(t) && Compatible(t) && Backed(t, {}) && Covers(t, c, r) && TypedAs(r, t)
    requires x in r
    ensures Acyclic(RemoveTree(r, x))
    ensures var w := EmptyUp(RemoveTree(r, x), t[x].parent); WellTyped(c, w) && Backed(w, {}) && TypedOn(w, t, {})
  {
    var o, v := t[x].parent, RemoveTree(r, x);
    TypedIsWell(t, c, r);
    RemovalWellTyped(c, r, x, o, o);
    SubTableAcyclic(v, r);
    RemovalBacks(r, x);
    EmptyingBacks(v, o, {});
    LeavesKept(t, r, v, o);
  }

  lemma RemovalBacks(r: Table, x: DeviceId)
    requires Backed(r, {}) && x in r
    ensures Backed(RemoveTree(r, x), {r[x].parent})
  {
    var v := RemoveTree(r, x);
    forall y | NonEmpty(v, y) && y != r[x].parent && IsControl(v[y].deviceType) ensures HasNonEmptyChild(v, y) {
      var d :| NonEmpty(r, d) && r[d].parent == y;
      BelowUnfold(r, d, x);
      assert NonEmpty(v, d) && v[d].parent == y;
    }
  }

  lemma LeavesKept(t: Table, r: Table, v: Table, o: DeviceId)
    requires TypedAs(r, t) && SubTable(v, r) && Acyclic(v) && LeavesAreChildless(v)
    requires o in v ==> IsControl(v[o].deviceType)
    ensures TypedOn(EmptyUp(v, o), t, {})
  {
    EmptyUpShape(v, o);
    EmptyUpKeepsLeaves(v, o);
    forall y | y in v ensures IsLeaf(v[y].deviceType) <==> IsLeaf(t[y].deviceType) {
      SameTypeBits(v[y].deviceType, t[y].deviceType);
    }
  }

  // ---------------------------------------------------------------- after the link

  /** In the tree after the link, the moved devices, leaf devices and all classes are as before. */
  ghost predicate TreeTyped(t: Table, u: Table, s: set<DeviceId>) {
    LeavesAreChildless(u) && Compatible(u) && Backed(u, {}) && TypedOn(u, t, s)
  }

  lemma TypesCarryOver(t: Table, u: Table, w: Table, s: set<DeviceId>)
    requires TypedOn(u, t, s) && TypedOn(w, t, s) && w.Keys <= u.Keys
    ensures TypedOn(w, u, s)
  {
    forall y | y in w ensures IsLeaf(u[y].deviceType) <==> IsLeaf(t[y].deviceType) {
      SameTypeBits(u[y].deviceType, t[y].deviceType);
    }
  }

  /** Then the table of the station agrees with it on every type. */
  lemma TypedAgain(t: Table, u: Table, c: DeviceId, w: Table, s: set<DeviceId>)
    requires Acyclic(u) && TreeTyped(t, u, s) && Sees(u, c, w, s)
    requires WellTyped(c, w) && Backed(w, s) && TypedOn(w, t, s)
    ensures TypedAs(w, u)
  {
    TypesCarryOver(t, u, w, s);
    AllDetermined(u, c, w, s);
  }

  lemma CoversSees(u: Table, c: DeviceId, w: Table, s: set<DeviceId>)
    requires Covers(u, c, w)
    ensures Sees(u, c, w, s)
  {
  }

  /** Part-way through the replay too, but for the branch. */
  lemma MidwaySees(t: Table, u: Table, c: DeviceId, m: Move, k: nat, r: Table, first: Table, w: Table)
    requires Moving(t, u, m) && Covers(t, c, r) && Midway(u, c, m, k, r, first, w)
    ensures Sees(u, c, w, Moved(m)) && m.x in w
  {
    BranchStaysMirrored(t, u, m);
    assert Elements(Upto(Listed(m), k)) <= m.branch.Keys;
    forall d | d in u && (u[d].parent == c || (u[d].parent in w && u[d].parent !in Moved(m))) ensures d in w {
      if d != m.x {
        assert t[d].parent == u[d].parent;
      }
    }
  }
}
