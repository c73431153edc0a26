/** Declared device types are exact after every completed command of the Controller. */
module TopologyTypes {
  import opened Devices
  import opened Forest
  import opened TableOps
  import opened Topology

  /** A device that neither loses nor gets `x` is as exact as before. */
  lemma ExactAway(t: Table, u: Table, x: DeviceId, y: DeviceId)
    requires x in t && x in u && u == t[x := u[x]] && u[x].deviceType == t[x].deviceType
    requires y in t && y != t[x].parent && y != u[x].parent && ExactAt(t, y)
    ensures ExactAt(u, y)
  {
    if HasNonEmptyChild(t, y) {
      var c :| NonEmpty(t, c) && t[c].parent == y;
      assert NonEmpty(u, c) && u[c].parent == y;
    }
    assert forall c | NonEmpty(u, c) && u[c].parent == y :: NonEmpty(t, c) && t[c].parent == y;
  }

  /** Re-hanging `x` leaves types inexact only at the new parent and at the old one. */
  lemma PutIsExactOutside(t: Table, x: DeviceId, p: DeviceId, hop: int)
    requires Safe(t) && Exact(t) && LinkAllowed(t, x, p)
    ensures ExactOutside(Put(t, x, t[x].pid, t[x].deviceType, p, hop), {t[x].parent, p})
  {
    var u := Put(t, x, t[x].pid, t[x].deviceType, p, hop);
    forall y | y in u && y !in {t[x].parent, p} && IsControl(u[y].deviceType) ensures ExactAt(u, y) {
      ExactAway(t, u, x, y);
    }
  }

  /** If nothing non-empty moved, the new parent is as exact as it was. */
  lemma EmptyMoveIsExactOutside(t: Table, x: DeviceId, p: DeviceId, hop: int)
    requires Safe(t) && Exact(t) && LinkAllowed(t, x, p) && !NonEmpty(t, x)
    ensures Exact(Put(t, x, t[x].pid, t[x].deviceType, p, hop))
  {
    var u := Put(t, x, t[x].pid, t[x].deviceType, p, hop);
    forall y | y in u && IsControl(u[y].deviceType) ensures ExactAt(u, y) {
      assert ExactAt(t, y);
      if HasNonEmptyChild(t, y) {
        var c :| NonEmpty(t, c) && t[c].parent == y;
        assert NonEmpty(u, c) && u[c].parent == y;
      }
      assert forall c | NonEmpty(u, c) && u[c].parent == y :: NonEmpty(t, c) && t[c].parent == y;
    }
  }

  /** Once a link's response is accepted, types are exact everywhere but at the old parent. */
  lemma LinkIsExactOutside(t: Table, x: DeviceId, p: DeviceId, fd: int)
    requires Safe(t) && Exact(t) && LinkAllowed(t, x, p)
    ensures ExactOutside(ParentChanged(t, x, p, fd), {t[x].parent})
  {
    var hop := if p == CONTROLLER_ID then fd else t[p].hop;
    LinkIsPutThenFill(t, x, p, fd);
    if NonEmpty(t, x) {
      FilledIsExactOutside(t, x, p, hop);
    } else {
      EmptyMoveIsExactOutside(t, x, p, hop);
    }
  }

  lemma FilledIsExactOutside(t: Table, x: DeviceId, p: DeviceId, hop: int)
    requires Safe(t) && Exact(t) && LinkAllowed(t, x, p) && NonEmpty(t, x)
    ensures ExactOutside(FillAbove(Put(t, x, t[x].pid, t[x].deviceType, p, hop), x), {t[x].parent})
  {
    var u := Put(t, x, t[x].pid, t[x].deviceType, p, hop);
    var o := t[x].parent;
    LeafBits(t[x].deviceType);
    PutKeepsShape(t, x, p, hop);
    PutIsAccepted(t, x, p, hop);
    PutIsExactOutside(t, x, p, hop);
    if o in t {
      ChildTypeNonEmpty(t[o].deviceType, t[x].deviceType);
    }
    assert NonEmpty(u, x) && u[x].parent == p;
    assert {o} + {p} == {o, p};
    FillUpIsExact(u, p, ChildType(t[x].deviceType), {o});
  }

  /** A declared type that fits and, if it names a leaf type, has a child to name. */
  ghost predicate Sincere(t: Table, o: DeviceId, ty: DeviceType)
    requires o in t
  {
    Declarable(t, o, ty) && (IsControl(ty) && !IsEmpty(ty) ==> HasNonEmptyChild(t, o))
  }

  lemma TruthfulIsSincere(t: Table, o: DeviceId, ty: DeviceType)
    requires Sturdy(t) && o in t && Truthful(t, o, ty)
    ensures Sincere(t, o, ty)
  {
    TruthfulIsDeclarable(t, o, ty);
  }

  /** Storing a sincere declaration moves the defect from the device to its parent. */
  lemma DeclaredIsExactOutside(t: Table, o: DeviceId, ty: DeviceType)
    requires Sturdy(t) && o in t && ExactOutside(t, {o}) && Sincere(t, o, ty)
    ensures ExactOutside(WithType(t, o, ty), {t[o].parent})
  {
    var u := WithType(t, o, ty);
    BelowUnfold(t, o, o);
    forall y | y in u && y !in {t[o].parent} && IsControl(u[y].deviceType) ensures ExactAt(u, y) {
      if y == o {
        SincereIsExact(t, o, ty);
      } else {
        OtherStaysExact(t, o, ty, y);
      }
    }
  }

  lemma SincereIsExact(t: Table, o: DeviceId, ty: DeviceType)
    requires o in t && t[o].parent != o && Sincere(t, o, ty) && IsControl(ty)
    ensures ExactAt(WithType(t, o, ty), o)
  {
    var u := WithType(t, o, ty);
    forall c: DeviceId | NonEmpty(u, c) && u[c].parent == o ensures NonEmpty(t, c) && t[c].parent == o && c != o {
    }
    if NonEmpty(u, o) {
      var c: DeviceId :| NonEmpty(t, c) && t[c].parent == o;
      assert NonEmpty(u, c) && u[c].parent == o;
    }
  }

  lemma OtherStaysExact(t: Table, o: DeviceId, ty: DeviceType, y: DeviceId)
    requires o in t && y in t && y != o && y != t[o].parent && ExactAt(t, y)
    ensures ExactAt(WithType(t, o, ty), y)
  {
    var u := WithType(t, o, ty);
    assert forall c | NonEmpty(u, c) && u[c].parent == y :: NonEmpty(t, c) && t[c].parent == y;
    if c :| NonEmpty(t, c) && t[c].parent == y {
      assert NonEmpty(u, c) && u[c].parent == y;
    }
  }

  /** In an exact table that stores the declaration, whatever type it names is there. */
  lemma ExactShowsSincere(t: Table, o: DeviceId, ty: DeviceType, w: Table)
    requires o in t && w.Keys == t.Keys && w[o].deviceType == ty && Exact(w) && IsControl(ty) && !IsEmpty(ty)
    requires forall y | y in t :: w[y].parent == t[y].parent
    requires forall c | c in t && t[c].parent == o :: w[c] == t[c]
    ensures HasNonEmptyChild(t, o)
  {
    assert ExactAt(w, o) && NonEmpty(w, o);
    var c :| NonEmpty(w, c) && w[c].parent == o;
    assert NonEmpty(t, c) && t[c].parent == o;
  }

  lemma SincereKeepsExact(t: Table, o: DeviceId, ty: DeviceType)
    requires Safe(t) && o in t && ExactOutside(t, {o}) && Sincere(t, o, ty)
    ensures Exact(ChildRemoved(t, o, ty))
  {
    var u := WithType(t, o, ty);
    SameShape(t, u);
    DeclarableIsSturdy(t, o, ty);
    DeclaredIsExactOutside(t, o, ty);
    BelowUnfold(t, o, o);
    EmptyUpIsExact(u, t[o].parent);
  }

  /** The answer of the only inexact device makes the table safe and exact exactly when it is sincere. */
  lemma ChildRemovedIsExactIff(t: Table, o: DeviceId, ty: DeviceType)
    requires Safe(t) && o in t && ExactOutside(t, {o})
    ensures Safe(ChildRemoved(t, o, ty)) && Exact(ChildRemoved(t, o, ty)) <==> Sincere(t, o, ty)
  {
    ChildRemovedIsSafeIff(t, o, ty);
    if Sincere(t, o, ty) {
      SincereKeepsExact(t, o, ty);
    }
    if Exact(ChildRemoved(t, o, ty)) && IsControl(ty) && !IsEmpty(ty) {
      ChildRemovedTypes(t, o, ty);
      ChildRemovedShape(t, o, ty);
      ExactShowsSincere(t, o, ty, ChildRemoved(t, o, ty));
    }
  }

  /**
   A completed link - the change-parent response and then the old parent's remove-child response - leaves
   the table safe and the declared types exact exactly when the old parent's answer is sincere.
   */
  lemma CompletedLinkIsExactIff(t: Table, x: DeviceId, p: DeviceId, fd: int, ty: DeviceType)
    requires Safe(t) && Exact(t) && LinkAllowed(t, x, p)
    ensures var u, o := ParentChanged(t, x, p, fd), t[x].parent;
            && Safe(u) && (o == CONTROLLER_ID ==> Exact(u))
            && (o != CONTROLLER_ID ==>
                  o in u && (Safe(ChildRemoved(u, o, ty)) && Exact(ChildRemoved(u, o, ty)) <==> Sincere(u, o, ty)))
  {
    var u, o := ParentChanged(t, x, p, fd), t[x].parent;
    LinkKeepsSafe(t, x, p, fd);
    LinkIsExactOutside(t, x, p, fd);
    if o != CONTROLLER_ID {
      ChildRemovedIsExactIff(u, o, ty);
    }
  }

  /** Deleting a device leaves the declared types exact. */
  lemma DeletedIsExact(t: Table, x: DeviceId)
    requires Safe(t) && Exact(t)
    ensures Exact(Deleted(t, x))
  {
    if x in t {
      var u := RemoveTree(t, x);
      var p := t[x].parent;
      RemoveTreeKeepsSturdy(t, x);
      forall y | y in u && y !in {p} && IsControl(u[y].deviceType) ensures ExactAt(u, y) {
        assert ExactAt(t, y);
        if HasNonEmptyChild(t, y) {
          var c :| NonEmpty(t, c) && t[c].parent == y;
          BelowUnfold(t, c, x);
          assert NonEmpty(u, c) && u[c].parent == y;
        }
        assert forall c | NonEmpty(u, c) :: NonEmpty(t, c) && t[c] == u[c];
      }
      EmptyUpIsExact(u, p);
    }
  }

  /** So does a new device. */
  lemma AddedIsExact(t: Table, id: DeviceId, ty: DeviceType, pid: int, fd: int)
    requires Safe(t) && Exact(t) && id !in t && id != CONTROLLER_ID && Addable(ty)
    ensures Exact(Put(t, id, pid, ty, CONTROLLER_ID, fd))
  {
    var u := Put(t, id, pid, ty, CONTROLLER_ID, fd);
    forall y | y in u && IsControl(u[y].deviceType) ensures ExactAt(u, y) {
      if y in t {
        assert ExactAt(t, y);
        assert forall c | NonEmpty(u, c) && u[c].parent == y :: NonEmpty(t, c) && t[c].parent == y;
        if c :| NonEmpty(t, c) && t[c].parent == y {
          assert NonEmpty(u, c) && u[c].parent == y;
        }
      }
    }
  }
}
