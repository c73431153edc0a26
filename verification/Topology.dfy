/**
 The Controller's view of the whole tree: which links it allows, what each response does to its
 table, and the properties that hold in every state it can reach.
 */
module Topology {
  import opened Devices
  import opened Forest
  import opened TableOps
  import opened Protocol

  // ---------------------------------------------------------------- the link check

  /** The error after looking at one device on the way up. */
  ghost function Scanned(t: Table, x: DeviceId, p: DeviceId, e: Code): Code
    requires x in t && p in t
  {
    if NonEmpty(t, x) && NonEmpty(t, p) && ChildType(t[x].deviceType) != ChildType(t[p].deviceType)
    then DEVICE_TYPE_MISMATCH
    else if t[p].parent == x then LINKING_PARENT_TO_CHILD
    else e
  }

  /** The error the upward scan from `p` ends with, starting from `e`: later ancestors overwrite earlier ones. */
  ghost function ChainError(t: Table, x: DeviceId, p: DeviceId, e: Code): Code
    requires Acyclic(t) && x in t
    decreases Depth(t, p)
  {
    if p !in t then e
    else
      ChildIsDeeper(t, p);
      if t[p].parent in t then ChainError(t, x, t[p].parent, Scanned(t, x, p, e)) else Scanned(t, x, p, e)
  }

  lemma ScanStep(t: Table, x: DeviceId, p: DeviceId, e: Code)
    requires Acyclic(t) && x in t && p in t
    ensures ChainError(t, x, p, e) == ChainError(t, x, t[p].parent, Scanned(t, x, p, e))
    ensures Depth(t, t[p].parent) < Depth(t, p) || t[p].parent !in t
  {
    ChildIsDeeper(t, p);
  }

  /** The outcome of checking a request to link `x` to `p`. */
  ghost function LinkCheck(t: Table, x: DeviceId, p: DeviceId): Code
    requires Acyclic(t)
  {
    if x !in t then DEVICE_NOT_FOUND
    else if x == p then LINKING_PARENT_TO_CHILD
    else if t[x].parent == p then CANNOT_ADD_TO_PARENT
    else if p == CONTROLLER_ID then OK
    else if p !in t then DEVICE_NOT_FOUND
    else if IsLeaf(t[p].deviceType) then DEVICE_TYPE_MISMATCH
    else if IsTimer(t[p].deviceType) && NextChild(t, p, -1).Some? then CANNOT_ADD_TO_PARENT
    else ChainError(t, x, p, OK)
  }

  /** Nothing at or above `p` disagrees with `x` on the leaf type. */
  ghost predicate ChainAgrees(t: Table, x: DeviceId, p: DeviceId) {
    NonEmpty(t, x) ==> ChainAccepts(t, p, ChildType(t[x].deviceType))
  }

  /** The scan reports no error exactly when `x` is not an ancestor and no ancestor disagrees with its type. */
  lemma {:induction false} ChainErrorIff(t: Table, x: DeviceId, p: DeviceId, e: Code)
    requires Acyclic(t) && x in t
    ensures ChainError(t, x, p, e) == OK <==> e == OK && !Below(t, p, x) && (p in t ==> ChainAgrees(t, x, p))
    decreases Depth(t, p)
  {
    if p in t {
      var q := t[p].parent;
      var e2 := Scanned(t, x, p, e);
      ChildIsDeeper(t, p);
      BelowUnfold(t, p, x);
      if q in t {
        ChainErrorIff(t, x, q, e2);
        ChainAgreesUnfold(t, x, p);
      } else {
        BelowUnfold(t, q, x);
        forall a | a in t ensures !Below(t, p, a) {
          BelowUnfold(t, p, a);
          BelowUnfold(t, q, a);
        }
      }
    } else {
      BelowUnfold(t, p, x);
    }
  }

  lemma ChainAgreesUnfold(t: Table, x: DeviceId, p: DeviceId)
    requires p in t && t[p].parent in t
    ensures ChainAgrees(t, x, p) <==>
            ChainAgrees(t, x, t[p].parent) &&
            (NonEmpty(t, x) && NonEmpty(t, p) ==> ChildType(t[p].deviceType) == ChildType(t[x].deviceType))
  {
    forall a: DeviceId ensures Below(t, p, a) <==> t[p].parent == a || Below(t, t[p].parent, a) {
      BelowUnfold(t, p, a);
    }
  }

  /** What speaks against linking `x` below `a`, where `a` is the new parent or above it; the type comes first. */
  ghost predicate Objects(t: Table, x: DeviceId, a: DeviceId, e: Code) {
    a in t && x in t &&
    if NonEmpty(t, x) && NonEmpty(t, a) && ChildType(t[a].deviceType) != ChildType(t[x].deviceType)
    then e == DEVICE_TYPE_MISMATCH
    else t[a].parent == x && e == LINKING_PARENT_TO_CHILD
  }

  ghost predicate AtOrAbove(t: Table, p: DeviceId, a: DeviceId) { a == p || Below(t, p, a) }

  ghost predicate SomebodyObjects(t: Table, x: DeviceId, p: DeviceId) {
    exists a, c :: AtOrAbove(t, p, a) && Objects(t, x, a, c)
  }

  /** `b` objects with `e`, and nobody above it objects. */
  ghost predicate ObjectsLast(t: Table, x: DeviceId, b: DeviceId, e: Code) {
    Objects(t, x, b, e) && forall d, f | Below(t, b, d) :: !Objects(t, x, d, f)
  }

  /** The error of the scan is that of the topmost device that objects, and there is none if nobody does. */
  lemma {:induction false} ScanReportsTopmost(t: Table, x: DeviceId, p: DeviceId, e: Code) returns (b: DeviceId)
    requires Acyclic(t) && x in t
    ensures SomebodyObjects(t, x, p) ==> AtOrAbove(t, p, b) && ObjectsLast(t, x, b, ChainError(t, x, p, e))
    ensures !SomebodyObjects(t, x, p) ==> ChainError(t, x, p, e) == e
    decreases Depth(t, p)
  {
    b := p;
    forall a: DeviceId ensures Below(t, p, a) <==> p in t && AtOrAbove(t, t[p].parent, a) {
      BelowUnfold(t, p, a);
    }
    if p in t {
      var q, own := t[p].parent, Scanned(t, x, p, e);
      assert own != e ==> Objects(t, x, p, own);
      ChildIsDeeper(t, p);
      if q in t {
        var above := ScanReportsTopmost(t, x, q, own);
        if SomebodyObjects(t, x, q) {
          b := above;
        }
      } else {
        forall a: DeviceId ensures !Below(t, q, a) {
          BelowUnfold(t, q, a);
        }
      }
    }
  }

  /** Which error a refused link is answered with. */
  lemma RefusalIs(t: Table, x: DeviceId, p: DeviceId)
    requires Acyclic(t)
    ensures var r := LinkCheck(t, x, p);
            if x !in t then r == DEVICE_NOT_FOUND
            else if x == p then r == LINKING_PARENT_TO_CHILD
            else if t[x].parent == p then r == CANNOT_ADD_TO_PARENT
            else if p == CONTROLLER_ID then r == OK
            else if p !in t then r == DEVICE_NOT_FOUND
            else if IsLeaf(t[p].deviceType) then r == DEVICE_TYPE_MISMATCH
            else if IsTimer(t[p].deviceType) && exists c :: c in t && t[c].parent == p then r == CANNOT_ADD_TO_PARENT
            else if SomebodyObjects(t, x, p) then exists b :: AtOrAbove(t, p, b) && ObjectsLast(t, x, b, r)
            else r == OK
  {
    if x in t && p in t {
      var b := ScanReportsTopmost(t, x, p, OK);
      assert NextChild(t, p, -1).None? ==> forall c | c in t && t[c].parent == p :: IsChildAfter(t, p, -1, c);
    }
  }

  // ---------------------------------------------------------------- what responses do to the table

  ghost function FillAbove(t: Table, x: DeviceId): Table
    requires x in t
  {
    if IsEmpty(t[x].deviceType) then t
    else
      LeafBits(t[x].deviceType);
      FillUp(t, t[x].parent, ChildType(t[x].deviceType))
  }

  lemma LeafBits(ty: DeviceType)
    ensures ChildType(ty) & LEAF_DEVICE_MASK == ChildType(ty)
    ensures ChildType(ty) == 0 <==> IsEmpty(ty)
  {
  }

  /** A change-parent response of `x` naming parent `p`; `fd` is the pipe opened when `p` is the Controller. */
  ghost function ParentChanged(t: Table, x: DeviceId, p: DeviceId, fd: int): Table {
    if x !in t then t
    else if t[x].parent == p then
      if p != CONTROLLER_ID && p in t then t[x := t[x].(hop := t[p].hop)] else t
    else if t[x].parent == CONTROLLER_ID then
      FillAbove(if p in t then Put(t, x, t[x].pid, t[x].deviceType, p, t[p].hop) else t, x)
    else if t[x].parent !in t then t
    else if p == CONTROLLER_ID then
      FillAbove(Put(t, x, t[x].pid, t[x].deviceType, CONTROLLER_ID, fd), x)
    else
      FillAbove(if p in t then Put(t, x, t[x].pid, t[x].deviceType, p, t[p].hop) else t, x)
  }

  /** A remove-child response of the old parent `o`, declaring its new type. */
  ghost function ChildRemoved(t: Table, o: DeviceId, ty: DeviceType): Table
    requires Acyclic(t)
  {
    if o !in t then t
    else
      var u := WithType(t, o, ty);
      SameShape(t, u);
      EmptyUp(u, t[o].parent)
  }

  /** A delete response of `x`. */
  ghost function Deleted(t: Table, x: DeviceId): Table
    requires Acyclic(t)
  {
    if x !in t then t
    else
      var u := RemoveTree(t, x);
      SubTableAcyclic(u, t);
      EmptyUp(u, t[x].parent)
  }

  // ---------------------------------------------------------------- safety of every reachable table

  /** Every parent is the Controller or an entry; the Controller is not an entry. */
  ghost predicate ParentsKnown(t: Table) {
    CONTROLLER_ID !in t && forall x | x in t :: t[x].parent == CONTROLLER_ID || t[x].parent in t
  }

  ghost predicate TimersHaveOneChild(t: Table) {
    forall c, d | c in t && d in t && c != d && t[c].parent == t[d].parent && t[c].parent in t ::
      !IsTimer(t[t[c].parent].deviceType)
  }

  /** What holds of the table even while devices that have died leave others without a recorded parent. */
  ghost predicate Sturdy(t: Table) {
    CONTROLLER_ID !in t && Acyclic(t) && LeavesAreChildless(t) && TimersHaveOneChild(t) && Compatible(t)
  }

  ghost predicate Safe(t: Table) { ParentsKnown(t) && Sturdy(t) }

  /** What routing needs: a forest in which leaves have no children, whatever else the devices declare. */
  ghost predicate Forested(t: Table) { CONTROLLER_ID !in t && Acyclic(t) && LeavesAreChildless(t) }

  /** And a tree below the Controller. */
  ghost predicate Rooted(t: Table) { ParentsKnown(t) && Acyclic(t) && LeavesAreChildless(t) }

  /** In a rooted table every device hangs from the Controller. */
  lemma {:induction false} HangsFromController(t: Table, x: DeviceId)
    requires Rooted(t) && x in t
    ensures Below(t, x, CONTROLLER_ID)
    decreases Depth(t, x)
  {
    BelowUnfold(t, x, CONTROLLER_ID);
    if t[x].parent != CONTROLLER_ID {
      ChildIsDeeper(t, x);
      HangsFromController(t, t[x].parent);
    }
  }

  ghost predicate LinkAllowed(t: Table, x: DeviceId, p: DeviceId) {
    && x in t && x != p && t[x].parent != p
    && (p != CONTROLLER_ID ==>
          && p in t && !IsLeaf(t[p].deviceType)
          && (IsTimer(t[p].deviceType) ==> forall c | c in t :: t[c].parent != p)
          && !Below(t, p, x) && ChainAgrees(t, x, p))
  }

  /** The check succeeds exactly on the links that keep the tree well formed. */
  lemma LinkCheckIff(t: Table, x: DeviceId, p: DeviceId)
    requires Acyclic(t)
    ensures LinkCheck(t, x, p) == OK <==> LinkAllowed(t, x, p)
  {
    if x in t && p in t {
      ChainErrorIff(t, x, p, OK);
      assert NextChild(t, p, -1).None? ==> forall c | c in t && t[c].parent == p :: IsChildAfter(t, p, -1, c);
    }
  }

  lemma OnlyLeafBitsKeepsTree(t: Table, u: Table)
    requires OnlyLeafBits(t, u)
    ensures ParentsKnown(t) ==> ParentsKnown(u)
    ensures Acyclic(t) ==> Acyclic(u)
    ensures LeavesAreChildless(t) ==> LeavesAreChildless(u)
    ensures TimersHaveOneChild(t) ==> TimersHaveOneChild(u)
  {
    SameShape(t, u);
    forall x | x in t ensures IsTimer(t[x].deviceType) <==> IsTimer(u[x].deviceType) {
      assert ControlClass(u[x].deviceType) == ControlClass(t[x].deviceType);
    }
    forall x | x in t ensures IsControl(t[x].deviceType) <==> IsControl(u[x].deviceType) {
      assert ControlClass(u[x].deviceType) == ControlClass(t[x].deviceType);
    }
  }

  /** What is not at or below `x` keeps its ancestors when `x` is re-hung. */
  lemma BelowUnmoved(t: Table, x: DeviceId, e: Entry, y: DeviceId, a: DeviceId)
    requires y != x && !Below(t, y, x)
    ensures Below(t[x := e], y, a) <==> Below(t, y, a)
    ensures a == x ==> !Below(t, y, a)
  {
    if Below(t[x := e], y, a) {
      var n: nat :| n > 0 && Up(t[x := e], y, n) == Some(a);
      PathWithoutMoved(t, x, e, y, n);
    }
    if Below(t, y, a) {
      var n: nat :| n > 0 && Up(t, y, n) == Some(a);
      PathWithoutMoved(t, x, e, y, n);
    }
  }

  lemma PutKeepsTimers(t: Table, x: DeviceId, p: DeviceId, hop: int)
    requires TimersHaveOneChild(t) && x in t
    requires p in t && IsTimer(t[p].deviceType) ==> forall c | c in t :: t[c].parent != p
    ensures TimersHaveOneChild(Put(t, x, t[x].pid, t[x].deviceType, p, hop))
  {
    var u := Put(t, x, t[x].pid, t[x].deviceType, p, hop);
    assert forall y | y in t :: u[y].deviceType == t[y].deviceType && (y != x ==> u[y].parent == t[y].parent);
  }

  lemma PutKeepsShape(t: Table, x: DeviceId, p: DeviceId, hop: int)
    requires Sturdy(t) && LinkAllowed(t, x, p)
    ensures var u := Put(t, x, t[x].pid, t[x].deviceType, p, hop);
            && CONTROLLER_ID !in u && Acyclic(u) && LeavesAreChildless(u) && TimersHaveOneChild(u)
            && (ParentsKnown(t) ==> ParentsKnown(u))
  {
    if p == CONTROLLER_ID {
      BelowUnfold(t, p, x);
    }
    PutAcyclicIff(t, x, Entry(t[x].pid, t[x].deviceType, p, hop));
    PutKeepsTimers(t, x, p, hop);
  }

  /** After re-hanging `x`, types can only disagree right below the new parent. */
  lemma PutKeepsCompatible(t: Table, x: DeviceId, p: DeviceId, hop: int)
    requires Sturdy(t) && LinkAllowed(t, x, p)
    ensures var u := Put(t, x, t[x].pid, t[x].deviceType, p, hop);
            CompatibleExcept(u, p) && (!NonEmpty(t, x) ==> Compatible(u))
  {
    var u := Put(t, x, t[x].pid, t[x].deviceType, p, hop);
    assert forall y | y in t :: u[y].deviceType == t[y].deviceType && (y != x ==> u[y].parent == t[y].parent);
  }

  /** The ancestors of the new parent accept the leaf type of `x`, and so do its children. */
  lemma PutIsAccepted(t: Table, x: DeviceId, p: DeviceId, hop: int)
    requires Sturdy(t) && LinkAllowed(t, x, p) && NonEmpty(t, x)
    ensures var u := Put(t, x, t[x].pid, t[x].deviceType, p, hop);
            var leaf := ChildType(t[x].deviceType);
            ChainAccepts(u, p, leaf) && (p in u ==> ChildrenHave(u, p, leaf))
  {
    var e := Entry(t[x].pid, t[x].deviceType, p, hop);
    var u := t[x := e];
    var leaf := ChildType(t[x].deviceType);
    forall a | NonEmpty(u, a) && (a == p || Below(u, p, a)) ensures ChildType(u[a].deviceType) == leaf {
      if p !in t {
        BelowUnfold(u, p, a);
      } else if a != p {
        BelowUnmoved(t, x, e, p, a);
      }
    }
    if p in t {
      forall c | NonEmpty(u, c) && u[c].parent == p ensures ChildType(u[c].deviceType) == leaf {
        if c != x {
          ChildTypeNonEmpty(t[c].deviceType, t[p].deviceType);
        }
      }
    }
  }

  /** Filling above `x` completes a table that was safe except for the types right above `x`. */
  lemma FillAboveIsSturdy(u: Table, x: DeviceId)
    requires x in u && CONTROLLER_ID !in u && Acyclic(u) && LeavesAreChildless(u) && TimersHaveOneChild(u)
    requires CompatibleExcept(u, u[x].parent) && (!NonEmpty(u, x) ==> Compatible(u))
    requires NonEmpty(u, x) ==>
               ChainAccepts(u, u[x].parent, ChildType(u[x].deviceType)) &&
               (u[x].parent in u ==> ChildrenHave(u, u[x].parent, ChildType(u[x].deviceType)))
    ensures Sturdy(FillAbove(u, x)) && OnlyLeafBits(u, FillAbove(u, x))
    ensures ParentsKnown(u) ==> ParentsKnown(FillAbove(u, x))
  {
    if NonEmpty(u, x) {
      var leaf := ChildType(u[x].deviceType);
      LeafBits(u[x].deviceType);
      FillUpShape(u, u[x].parent, leaf);
      FillUpIsCompatible(u, u[x].parent, leaf);
      OnlyLeafBitsKeepsTree(u, FillUp(u, u[x].parent, leaf));
    }
  }

  /** What accepting the response to an allowed link amounts to: re-hang, then fill. */
  lemma LinkIsPutThenFill(t: Table, x: DeviceId, p: DeviceId, fd: int)
    requires LinkAllowed(t, x, p) && (t[x].parent == CONTROLLER_ID || t[x].parent in t)
    ensures ParentChanged(t, x, p, fd) ==
            FillAbove(Put(t, x, t[x].pid, t[x].deviceType, p, if p == CONTROLLER_ID then fd else t[p].hop), x)
  {
  }

  lemma LinkKeepsSturdy(t: Table, x: DeviceId, p: DeviceId, fd: int)
    requires Sturdy(t) && LinkAllowed(t, x, p) && (t[x].parent == CONTROLLER_ID || t[x].parent in t)
    ensures var u := ParentChanged(t, x, p, fd);
            && Sturdy(u) && (ParentsKnown(t) ==> ParentsKnown(u)) && u.Keys == t.Keys
            && forall y | y in t :: u[y].parent == if y == x then p else t[y].parent
  {
    var hop := if p == CONTROLLER_ID then fd else t[p].hop;
    MovedThenFilled(t, x, p, hop);
    LinkIsPutThenFill(t, x, p, fd);
  }

  lemma MovedThenFilled(t: Table, x: DeviceId, p: DeviceId, hop: int)
    requires Sturdy(t) && LinkAllowed(t, x, p)
    ensures var u := Put(t, x, t[x].pid, t[x].deviceType, p, hop);
            && Sturdy(FillAbove(u, x)) && OnlyLeafBits(u, FillAbove(u, x))
            && (ParentsKnown(t) ==> ParentsKnown(FillAbove(u, x)))
  {
    PutKeepsShape(t, x, p, hop);
    PutKeepsCompatible(t, x, p, hop);
    if NonEmpty(t, x) {
      PutIsAccepted(t, x, p, hop);
    }
    FillAboveIsSturdy(Put(t, x, t[x].pid, t[x].deviceType, p, hop), x);
  }

  /** Accepting the response to an allowed link keeps the table safe and moves exactly `x`. */
  lemma LinkKeepsSafe(t: Table, x: DeviceId, p: DeviceId, fd: int)
    requires Safe(t) && LinkAllowed(t, x, p)
    ensures Safe(ParentChanged(t, x, p, fd))
    ensures ParentChanged(t, x, p, fd).Keys == t.Keys
    ensures forall y | y in t ::
              ParentChanged(t, x, p, fd)[y].parent == if y == x then p else t[y].parent
  {
    LinkKeepsSturdy(t, x, p, fd);
  }

  /** Re-hanging and filling keep the forest, whatever the types are. */
  lemma LinkKeepsForest(t: Table, x: DeviceId, p: DeviceId, fd: int)
    requires Forested(t) && LinkAllowed(t, x, p) && (t[x].parent == CONTROLLER_ID || t[x].parent in t)
    ensures var u := ParentChanged(t, x, p, fd);
            && Forested(u) && (ParentsKnown(t) ==> ParentsKnown(u)) && u.Keys == t.Keys
            && OnlyLeafBits(Put(t, x, t[x].pid, t[x].deviceType, p, if p == CONTROLLER_ID then fd else t[p].hop), u)
  {
    PutKeepsForest(t, x, p, if p == CONTROLLER_ID then fd else t[p].hop);
    LinkIsPutThenFill(t, x, p, fd);
  }

  lemma PutKeepsForest(t: Table, x: DeviceId, p: DeviceId, hop: int)
    requires Forested(t) && LinkAllowed(t, x, p)
    ensures var u := Put(t, x, t[x].pid, t[x].deviceType, p, hop);
            && Forested(FillAbove(u, x)) && (ParentsKnown(t) ==> ParentsKnown(FillAbove(u, x)))
            && OnlyLeafBits(u, FillAbove(u, x))
  {
    var u := Put(t, x, t[x].pid, t[x].deviceType, p, hop);
    if p == CONTROLLER_ID {
      BelowUnfold(t, p, x);
    }
    PutAcyclicIff(t, x, Entry(t[x].pid, t[x].deviceType, p, hop));
    FilledIsForested(u, x);
  }

  lemma FilledIsForested(u: Table, x: DeviceId)
    requires x in u && Forested(u)
    ensures Forested(FillAbove(u, x)) && OnlyLeafBits(u, FillAbove(u, x))
    ensures ParentsKnown(u) ==> ParentsKnown(FillAbove(u, x))
  {
    FillAboveShape(u, x);
    OnlyLeafBitsKeepsTree(u, FillAbove(u, x));
  }

  /** A declared type is truthful when it keeps the device class and names what is left below the device. */
  ghost predicate Truthful(t: Table, o: DeviceId, ty: DeviceType)
    requires o in t
  {
    && ControlClass(ty) == ControlClass(t[o].deviceType)
    && (if HasNonEmptyChild(t, o) then ChildType(ty) == ChildType(t[o].deviceType) else IsEmpty(ty))
  }

  /** A declared type fits the device's children, and the device's parent. */
  ghost predicate Declarable(t: Table, o: DeviceId, ty: DeviceType)
    requires o in t
  {
    && (forall c | c in t && t[c].parent == o ::
          IsControl(ty) && (NonEmpty(t, c) ==> ChildType(t[c].deviceType) == ChildType(ty)))
    && (IsTimer(ty) ==> forall c, d | c in t && d in t && t[c].parent == o && t[d].parent == o :: c == d)
    && (!IsEmpty(ty) && t[o].parent in t ==> ChildType(t[t[o].parent].deviceType) == ChildType(ty))
  }

  lemma TruthfulIsDeclarable(t: Table, o: DeviceId, ty: DeviceType)
    requires Sturdy(t) && o in t && Truthful(t, o, ty)
    ensures Declarable(t, o, ty)
  {
    forall c | NonEmpty(t, c) && t[c].parent == o ensures HasNonEmptyChild(t, o) {
    }
    if !IsEmpty(ty) {
      ChildTypeNonEmpty(ty, t[o].deviceType);
    }
  }

  /** Storing a declared type that fits keeps the table sturdy. */
  lemma DeclarableIsSturdy(t: Table, o: DeviceId, ty: DeviceType)
    requires Sturdy(t) && o in t && Declarable(t, o, ty)
    ensures Sturdy(WithType(t, o, ty))
  {
    SameShape(t, WithType(t, o, ty));
    BelowUnfold(t, o, o);
    DeclarableFits(t, o, ty);
  }

  lemma DeclarableFits(t: Table, o: DeviceId, ty: DeviceType)
    requires Sturdy(t) && o in t && t[o].parent != o && Declarable(t, o, ty)
    ensures var u := WithType(t, o, ty); LeavesAreChildless(u) && TimersHaveOneChild(u) && Compatible(u)
  {
    var u := WithType(t, o, ty);
    forall c: DeviceId | NonEmpty(u, c) && u[c].parent in u
      ensures ChildType(u[u[c].parent].deviceType) == ChildType(u[c].deviceType)
    {
      assert c != o ==> NonEmpty(t, c);
    }
  }

  /** A sturdy table where `o` has the type `ty`, and its children and parent are as before or empty: then it fits. */
  lemma FitsWhereDeclared(t: Table, o: DeviceId, ty: DeviceType, w: Table)
    requires Sturdy(t) && o in t && t[o].parent != o && Sturdy(w) && w.Keys == t.Keys
    requires forall y | y in t :: w[y].parent == t[y].parent
    requires w[o].deviceType == ty && forall c | c in t && t[c].parent == o :: w[c] == t[c]
    requires forall y | NonEmpty(w, y) && y != o :: w[y] == t[y]
    ensures Declarable(t, o, ty)
  {
    forall c | c in t && t[c].parent == o
      ensures IsControl(ty) && (NonEmpty(t, c) ==> ChildType(t[c].deviceType) == ChildType(ty))
    {
      assert w[c].parent in w;
      assert NonEmpty(t, c) ==> NonEmpty(w, c);
    }
    var q := t[o].parent;
    if !IsEmpty(ty) && q in t {
      assert NonEmpty(w, o);
      ChildTypeNonEmpty(ty, w[q].deviceType);
    }
  }

  /** Emptying upwards from a control device keeps a table sturdy. */
  lemma EmptyingIsSturdy(u: Table, p: DeviceId)
    requires Sturdy(u) && (p in u ==> IsControl(u[p].deviceType))
    ensures Sturdy(EmptyUp(u, p)) && OnlyLeafBits(u, EmptyUp(u, p))
    ensures ParentsKnown(u) ==> ParentsKnown(EmptyUp(u, p))
  {
    EmptyUpShape(u, p);
    EmptyUpKeepsCompatible(u, p);
    OnlyLeafBitsKeepsTree(u, EmptyUp(u, p));
  }

  /** A remove-child answer changes types only, whatever it declares. */
  lemma ChildRemovedShape(t: Table, o: DeviceId, ty: DeviceType)
    requires Acyclic(t)
    ensures var w := ChildRemoved(t, o, ty);
            w.Keys == t.Keys && Acyclic(w) && forall y | y in t :: w[y] == t[y].(deviceType := w[y].deviceType)
  {
    if o in t {
      SameShape(t, WithType(t, o, ty));
      EmptyUpKeepsTree(WithType(t, o, ty), t[o].parent);
    }
  }

  /** The device has the declared type, its children keep theirs, and whatever stays non-empty stays as it was. */
  lemma ChildRemovedTypes(t: Table, o: DeviceId, ty: DeviceType)
    requires Acyclic(t) && o in t
    ensures var w := ChildRemoved(t, o, ty);
            && w.Keys == t.Keys && w[o].deviceType == ty
            && (forall c | c in t && t[c].parent == o :: w[c] == t[c])
            && forall y | NonEmpty(w, y) && y != o :: w[y] == t[y]
  {
    var u, q := WithType(t, o, ty), t[o].parent;
    SameShape(t, u);
    BelowUnfold(t, o, o);
    EmptyUpOnlyEmpties(u, q);
    EmptyUpElsewhere(u, q, o);
    forall c | c in t && t[c].parent == o ensures ChildRemoved(t, o, ty)[c] == t[c] {
      BelowUnfold(t, c, o);
      if q == c || Below(t, q, c) {
        BelowUnfold(t, o, c);
        BelowTransitive(t, o, c, o);
      }
      EmptyUpElsewhere(u, q, c);
    }
  }

  /** A remove-child answer keeps the table sturdy, and safe, exactly when the declared type fits. */
  lemma ChildRemovedIsSturdyIff(t: Table, o: DeviceId, ty: DeviceType)
    requires Sturdy(t) && o in t
    ensures Sturdy(ChildRemoved(t, o, ty)) <==> Declarable(t, o, ty)
    ensures ParentsKnown(t) ==> ParentsKnown(ChildRemoved(t, o, ty))
  {
    var u := WithType(t, o, ty);
    ChildRemovedShape(t, o, ty);
    BelowUnfold(t, o, o);
    if Declarable(t, o, ty) {
      DeclarableIsSturdy(t, o, ty);
      EmptyingIsSturdy(u, t[o].parent);
    } else if Sturdy(ChildRemoved(t, o, ty)) {
      ChildRemovedTypes(t, o, ty);
      FitsWhereDeclared(t, o, ty, ChildRemoved(t, o, ty));
    }
  }

  /** It keeps the forest exactly when a device with children declares a control type. */
  lemma ChildRemovedIsForestedIff(t: Table, o: DeviceId, ty: DeviceType)
    requires Forested(t) && o in t
    ensures Forested(ChildRemoved(t, o, ty)) <==> IsControl(ty) || forall c | c in t :: t[c].parent != o
    ensures ParentsKnown(t) ==> ParentsKnown(ChildRemoved(t, o, ty))
  {
    var u, w := WithType(t, o, ty), ChildRemoved(t, o, ty);
    ChildRemovedShape(t, o, ty);
    ChildRemovedTypes(t, o, ty);
    BelowUnfold(t, o, o);
    SameShape(t, u);
    if IsControl(ty) || forall c | c in t :: t[c].parent != o {
      EmptyUpShape(u, t[o].parent);
      OnlyLeafBitsKeepsTree(u, w);
    }
  }

  lemma ChildRemovedIsSafeIff(t: Table, o: DeviceId, ty: DeviceType)
    requires Safe(t) && o in t
    ensures Safe(ChildRemoved(t, o, ty)) <==> Declarable(t, o, ty)
  {
    ChildRemovedIsSturdyIff(t, o, ty);
  }

  lemma RemoveTreeKeepsSturdy(t: Table, x: DeviceId)
    requires Sturdy(t)
    ensures Sturdy(RemoveTree(t, x)) && (ParentsKnown(t) ==> ParentsKnown(RemoveTree(t, x)))
  {
    var u := RemoveTree(t, x);
    SubTableAcyclic(u, t);
    forall y | y in u && t[y].parent in t ensures t[y].parent in u {
      BelowUnfold(t, y, x);
    }
  }

  lemma DeletedKeepsSturdy(t: Table, x: DeviceId)
    requires Sturdy(t)
    ensures Sturdy(Deleted(t, x)) && (ParentsKnown(t) ==> ParentsKnown(Deleted(t, x)))
    ensures Deleted(t, x).Keys == t.Keys - (if x in t then {x} + Descendants(t, x) else {})
    ensures forall y | y in Deleted(t, x) :: Deleted(t, x)[y] == t[y].(deviceType := Deleted(t, x)[y].deviceType)
  {
    if x in t {
      RemoveTreeKeepsSturdy(t, x);
      EmptyingIsSturdy(RemoveTree(t, x), t[x].parent);
    }
  }

  /** So does a deletion. */
  lemma DeletedKeepsForest(t: Table, x: DeviceId)
    requires Forested(t)
    ensures Forested(Deleted(t, x)) && (ParentsKnown(t) ==> ParentsKnown(Deleted(t, x)))
    ensures x in t ==> OnlyLeafBits(RemoveTree(t, x), Deleted(t, x))
  {
    if x in t {
      var u := RemoveTree(t, x);
      SubTableAcyclic(u, t);
      forall y | y in u && t[y].parent in t ensures t[y].parent in u {
        BelowUnfold(t, y, x);
      }
      EmptyUpShape(u, t[x].parent);
      OnlyLeafBitsKeepsTree(u, Deleted(t, x));
    }
  }

  /** The ancestors of a non-empty device are non-empty and agree with it. */
  lemma {:induction false} CompatibleChain(t: Table, x: DeviceId, a: DeviceId)
    requires Acyclic(t) && Compatible(t) && NonEmpty(t, x) && a in t && Below(t, x, a)
    ensures NonEmpty(t, a) && ChildType(t[a].deviceType) == ChildType(t[x].deviceType)
    decreases Depth(t, x)
  {
    BelowUnfold(t, x, a);
    var q := t[x].parent;
    if q !in t { BelowUnfold(t, q, a); }
    ChildTypeNonEmpty(t[q].deviceType, t[x].deviceType);
    if q != a {
      ChildIsDeeper(t, x);
      CompatibleChain(t, q, a);
    }
  }

  /** The new parent named by a response has been deleted in the meantime. */
  ghost predicate Vanished(t: Table, p: DeviceId) { p != CONTROLLER_ID && p !in t }

  lemma VanishedParentChangesNothing(t: Table, x: DeviceId, p: DeviceId, fd: int)
    requires Sturdy(t) && Vanished(t, p)
    ensures ParentChanged(t, x, p, fd) == t
  {
    if NonEmpty(t, x) && t[x].parent in t {
      LeafBits(t[x].deviceType);
      ChildTypeNonEmpty(t[x].deviceType, t[t[x].parent].deviceType);
    }
  }

  /** Without trust in the types, at most leaf bits change. */
  lemma VanishedParentKeepsForest(t: Table, x: DeviceId, p: DeviceId, fd: int)
    requires Forested(t) && Vanished(t, p)
    ensures Forested(ParentChanged(t, x, p, fd)) && OnlyLeafBits(t, ParentChanged(t, x, p, fd))
    ensures ParentsKnown(t) ==> ParentsKnown(ParentChanged(t, x, p, fd))
  {
    if x in t {
      FilledIsForested(t, x);
    }
  }

  /**
   The check is not repeated when the response arrives. Accepting a response is safe exactly when the link
   would still be allowed at that moment, or the new parent is gone and nothing happens.
   */
  lemma ResponseIsSafeIff(t: Table, x: DeviceId, p: DeviceId, fd: int)
    requires Safe(t) && x in t && t[x].parent != p
    ensures Safe(ParentChanged(t, x, p, fd)) <==> LinkAllowed(t, x, p) || Vanished(t, p)
  {
    if LinkAllowed(t, x, p) {
      LinkKeepsSafe(t, x, p, fd);
    } else if Vanished(t, p) {
      VanishedParentChangesNothing(t, x, p, fd);
    } else {
      var hop := if p == CONTROLLER_ID then fd else t[p].hop;
      var u := Put(t, x, t[x].pid, t[x].deviceType, p, hop);
      assert ParentChanged(t, x, p, fd) == FillAbove(u, x);
      if p == x || Below(t, p, x) {
        CyclicStaysCyclic(t, x, p, hop);
      } else {
        PutAcyclicIff(t, x, Entry(t[x].pid, t[x].deviceType, p, hop));
        if Safe(FillAbove(u, x)) {
          UnsafeTypesStayUnsafe(t, x, p, hop);
        }
      }
    }
  }

  lemma {:induction false} FillUpTouchesTypesOnly(t: Table, p: DeviceId, leaf: DeviceType)
    requires leaf & LEAF_DEVICE_MASK == leaf && leaf != 0
    ensures OnlyLeafBits(t, FillUp(t, p, leaf))
    decreases EmptyEntries(t)
  {
    if p in t && IsEmpty(t[p].deviceType) {
      FilledTypeBits(t[p].deviceType, leaf);
      assert p in EmptyEntries(t);
      FillUpTouchesTypesOnly(WithType(t, p, FilledType(t[p].deviceType, leaf)), t[p].parent, leaf);
    }
  }

  lemma FillAboveKeepsTree(t: Table, x: DeviceId)
    requires x in t
    ensures FillAbove(t, x).Keys == t.Keys
    ensures forall y | y in t :: FillAbove(t, x)[y] == t[y].(deviceType := FillAbove(t, x)[y].deviceType)
  {
    if !IsEmpty(t[x].deviceType) {
      LeafBits(t[x].deviceType);
      FillUpTouchesTypesOnly(t, t[x].parent, ChildType(t[x].deviceType));
    }
  }

  lemma CyclicStaysCyclic(t: Table, x: DeviceId, p: DeviceId, hop: int)
    requires Acyclic(t) && x in t && (p == x || Below(t, p, x))
    ensures !Acyclic(FillAbove(Put(t, x, t[x].pid, t[x].deviceType, p, hop), x))
  {
    var u := Put(t, x, t[x].pid, t[x].deviceType, p, hop);
    PutAcyclicIff(t, x, Entry(t[x].pid, t[x].deviceType, p, hop));
    if NonEmpty(u, x) {
      LeafBits(u[x].deviceType);
      FillUpTouchesTypesOnly(u, p, ChildType(u[x].deviceType));
    }
    SameShape(u, FillAbove(u, x));
  }

  /** Filling above `x` changes neither parents nor classes, nor any non-empty type. */
  lemma FillAboveShape(u: Table, x: DeviceId)
    requires x in u && Acyclic(u)
    ensures OnlyLeafBits(u, FillAbove(u, x))
    ensures forall a | NonEmpty(u, a) :: FillAbove(u, x)[a] == u[a]
    ensures forall y: DeviceId, a: DeviceId :: Below(u, y, a) <==> Below(FillAbove(u, x), y, a)
  {
    if NonEmpty(u, x) {
      LeafBits(u[x].deviceType);
      FillUpShape(u, u[x].parent, ChildType(u[x].deviceType));
    }
    SameShape(u, FillAbove(u, x));
  }

  /** If the result is safe, the ancestors of the new parent agreed with `x` beforehand. */
  lemma SafeResultAgrees(t: Table, x: DeviceId, p: DeviceId, hop: int, a: DeviceId)
    requires Safe(t) && NonEmpty(t, x) && p in t && x != p && !Below(t, p, x)
    requires Acyclic(Put(t, x, t[x].pid, t[x].deviceType, p, hop))
    requires Safe(FillAbove(Put(t, x, t[x].pid, t[x].deviceType, p, hop), x))
    requires NonEmpty(t, a) && (a == p || Below(t, p, a))
    ensures ChildType(t[a].deviceType) == ChildType(t[x].deviceType)
  {
    var e := Entry(t[x].pid, t[x].deviceType, p, hop);
    var u := t[x := e];
    FillAboveShape(u, x);
    BelowUnfold(u, x, a);
    BelowUnmoved(t, x, e, p, a);
    CompatibleChain(FillAbove(u, x), x, a);
  }

  lemma UnsafeTypesStayUnsafe(t: Table, x: DeviceId, p: DeviceId, hop: int)
    requires Safe(t) && x in t && t[x].parent != p && p in t && x != p && !Below(t, p, x)
    requires Acyclic(Put(t, x, t[x].pid, t[x].deviceType, p, hop))
    requires Safe(FillAbove(Put(t, x, t[x].pid, t[x].deviceType, p, hop), x))
    ensures LinkAllowed(t, x, p)
  {
    var u := Put(t, x, t[x].pid, t[x].deviceType, p, hop);
    var w := FillAbove(u, x);
    FillAboveShape(u, x);
    assert w[x].parent == p && ControlClass(w[p].deviceType) == ControlClass(t[p].deviceType);
    forall c | c in t && IsTimer(t[p].deviceType) ensures t[c].parent != p {
      assert IsTimer(w[p].deviceType) && w[c].parent == u[c].parent;
    }
    assert IsControl(w[p].deviceType);
    if NonEmpty(t, x) {
      forall a | NonEmpty(t, a) && (a == p || Below(t, p, a))
        ensures ChildType(t[a].deviceType) == ChildType(t[x].deviceType)
      {
        SafeResultAgrees(t, x, p, hop, a);
      }
    }
  }

  // ---------------------------------------------------------------- new and dead devices

  predicate Addable(ty: DeviceType) {
    ty in {BULB_DEVICE, WINDOW_DEVICE, FRIDGE_DEVICE, HUB_DEVICE, TIMER_DEVICE}
  }

  /** What already hangs from an id could also hang from a new device of this type. */
  ghost predicate CanTakeOver(t: Table, id: DeviceId, ty: DeviceType) {
    && (forall c | c in t && t[c].parent == id :: IsControl(ty) && IsEmpty(t[c].deviceType))
    && (IsTimer(ty) ==> forall c, d | c in t && d in t && t[c].parent == id && t[d].parent == id :: c == d)
  }

  lemma AddIsSturdyIff(t: Table, id: DeviceId, ty: DeviceType, pid: int, fd: int)
    requires Sturdy(t) && Addable(ty)
    ensures var u := Put(t, id, pid, ty, CONTROLLER_ID, fd);
            && (Sturdy(u) <==> id != CONTROLLER_ID && CanTakeOver(t, id, ty))
            && (ParentsKnown(t) && id != CONTROLLER_ID ==> ParentsKnown(u))
  {
    if id != CONTROLLER_ID {
      var u := Put(t, id, pid, ty, CONTROLLER_ID, fd);
      BelowUnfold(t, CONTROLLER_ID, id);
      BelowUnfold(t, id, id);
      PutAcyclicIff(t, id, Entry(pid, ty, CONTROLLER_ID, fd));
      assert forall c | c in t && c != id :: u[c] == t[c];
      if CanTakeOver(t, id, ty) {
        NewTypeFits(t, u, id, ty);
      } else if Sturdy(u) {
        NewTypeMisfits(t, u, id, ty);
      }
    }
  }

  lemma AddKeepsForest(t: Table, id: DeviceId, ty: DeviceType, pid: int, fd: int)
    requires Forested(t) && id !in t && id != CONTROLLER_ID && forall c | c in t :: t[c].parent != id
    ensures var u := Put(t, id, pid, ty, CONTROLLER_ID, fd); Forested(u) && (ParentsKnown(t) ==> ParentsKnown(u))
  {
    BelowUnfold(t, CONTROLLER_ID, id);
    PutAcyclicIff(t, id, Entry(pid, ty, CONTROLLER_ID, fd));
  }

  /**
   Recording a device under any id is safe exactly when it is not the Controller's own and what hangs from
   the id already - nothing, for an id that is free - suits the new device.
   */
  lemma AddIsSafeIff(t: Table, id: DeviceId, ty: DeviceType, pid: int, fd: int)
    requires Safe(t) && Addable(ty)
    ensures Safe(Put(t, id, pid, ty, CONTROLLER_ID, fd)) <==> id != CONTROLLER_ID && CanTakeOver(t, id, ty)
    ensures id !in t && id != CONTROLLER_ID ==> CanTakeOver(t, id, ty)
  {
    AddIsSturdyIff(t, id, ty, pid, fd);
  }

  /** `u` is `t` with `id` recorded directly below the Controller under a new type. */
  ghost predicate Renewed(t: Table, u: Table, id: DeviceId, ty: DeviceType) {
    && Sturdy(t) && Addable(ty) && id in u && u[id].deviceType == ty && u[id].parent == CONTROLLER_ID
    && id != CONTROLLER_ID && u.Keys == t.Keys + {id} && (forall c | c in t && c != id :: u[c] == t[c])
    && (id in t ==> t[id].parent != id)
  }

  lemma NewTypeFits(t: Table, u: Table, id: DeviceId, ty: DeviceType)
    requires Renewed(t, u, id, ty) && CanTakeOver(t, id, ty)
    ensures LeavesAreChildless(u) && TimersHaveOneChild(u) && Compatible(u)
  {
    forall c | c in u && u[c].parent in u ensures c in t && c != id && u[c] == t[c] {
    }
    forall c, d | c in u && d in u && c != d && u[c].parent == u[d].parent && u[c].parent in u
      ensures !IsTimer(u[u[c].parent].deviceType)
    {
      assert u[c] == t[c] && u[d] == t[d];
    }
  }

  lemma NewTypeMisfits(t: Table, u: Table, id: DeviceId, ty: DeviceType)
    requires Renewed(t, u, id, ty) && LeavesAreChildless(u) && TimersHaveOneChild(u) && Compatible(u)
    ensures CanTakeOver(t, id, ty)
  {
    forall c | c in t && t[c].parent == id ensures u[c] == t[c] && IsControl(ty) && IsEmpty(t[c].deviceType) {
      assert c in u && u[c].parent in u;
      if NonEmpty(u, c) {
        ChildTypeNonEmpty(u[c].deviceType, ty);
      }
    }
  }

  /**
   Exactly the ids in `gone` are missing from `s`, which is as well formed as `t`; leaf bits of control devices may
   have changed.
   */
  ghost predicate Reaped(t: Table, s: Table, gone: set<DeviceId>) {
    && OnlyLeafBits(t - gone, s) && Acyclic(s) && LeavesAreChildless(s)
    && forall x | x in s && IsLeaf(t[x].deviceType) :: s[x] == t[x]
  }

  /** Compatible tables stay compatible, and exact ones exact. */
  ghost predicate TypesKept(t: Table, s: Table) {
    Compatible(t) ==> Compatible(s) && (Exact(t) ==> Exact(s))
  }

  /** Forgetting dead devices keeps a table sturdy. */
  lemma ReapedIsSturdy(t: Table, s: Table, dead: set<DeviceId>)
    requires Sturdy(t) && Reaped(t, s, dead) && Compatible(s)
    ensures Sturdy(s) && s.Keys == t.Keys - dead && forall x | x in s :: s[x].parent == t[x].parent
  {
    OnlyLeafBitsKeepsTree(t - dead, s);
  }

  /** It keeps a table safe exactly when no survivor hangs from a dead device. */
  lemma ReapedIsSafeIff(t: Table, s: Table, dead: set<DeviceId>)
    requires Safe(t) && dead <= t.Keys && Reaped(t, s, dead) && Compatible(s)
    ensures Safe(s) <==> forall x | x in s :: t[x].parent !in dead
  {
    ReapedIsSturdy(t, s, dead);
  }
}
