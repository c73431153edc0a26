/**
 What the table operations do to the abstract table, and the two type propagations along
 ancestor chains. The loops over the heap in `Routing` are proved against these functions.
 */
module TableOps {
  import opened Devices
  import opened Forest

  // ---------------------------------------------------------------- insertion and removal

  function Put(t: Table, id: DeviceId, pid: int, ty: DeviceType, parent: DeviceId, hop: int): Table {
    t[id := Entry(pid, ty, parent, hop)]
  }

  /** Removal of `id` with everything below it. */
  ghost function RemoveTree(t: Table, id: DeviceId): Table {
    map x | x in t && x != id && !Below(t, x, id) :: t[x]
  }

  /** Removal that is ignored unless the recorded parent is the expected one. */
  ghost function Remove(t: Table, id: DeviceId, parent: DeviceId): Table {
    if id in t && t[id].parent == parent then RemoveTree(t, id) else t
  }

  ghost predicate SubTable(s: Table, t: Table) {
    s.Keys <= t.Keys && forall x | x in s :: s[x] == t[x]
  }

  lemma {:induction false} UpInSubTable(s: Table, t: Table, x: DeviceId, n: nat)
    requires SubTable(s, t) && Up(s, x, n).Some?
    ensures Up(t, x, n) == Up(s, x, n)
    decreases n
  {
    if n > 0 {
      UpInSubTable(s, t, s[x].parent, n - 1);
    }
  }

  lemma BelowInSubTable(s: Table, t: Table, x: DeviceId, a: DeviceId)
    requires SubTable(s, t) && Below(s, x, a)
    ensures Below(t, x, a)
  {
    var n: nat :| n > 0 && Up(s, x, n) == Some(a);
    UpInSubTable(s, t, x, n);
  }

  lemma SubTableAcyclic(s: Table, t: Table)
    requires SubTable(s, t) && Acyclic(t)
    ensures Acyclic(s)
  {
    forall x | x in s ensures !Below(s, x, x) {
      if Below(s, x, x) {
        BelowInSubTable(s, t, x, x);
      }
    }
  }

  /** What is left after a removal hangs from where it hung before. */
  lemma {:induction false} UpAfterRemove(t: Table, id: DeviceId, x: DeviceId, n: nat)
    requires x !in t || (x != id && !Below(t, x, id))
    ensures Up(RemoveTree(t, id), x, n) == Up(t, x, n)
    decreases n
  {
    if n > 0 && x in t {
      BelowUnfold(t, x, id);
      UpAfterRemove(t, id, t[x].parent, n - 1);
    }
  }

  lemma BelowAfterRemove(t: Table, id: DeviceId, x: DeviceId, a: DeviceId)
    requires x !in t || (x != id && !Below(t, x, id))
    ensures Below(RemoveTree(t, id), x, a) <==> Below(t, x, a)
  {
    if Below(t, x, a) {
      var n: nat :| n > 0 && Up(t, x, n) == Some(a);
      UpAfterRemove(t, id, x, n);
    }
    if Below(RemoveTree(t, id), x, a) {
      var n: nat :| n > 0 && Up(RemoveTree(t, id), x, n) == Some(a);
      UpAfterRemove(t, id, x, n);
    }
  }

  /** `s` is `t` while the branch of `id` is being removed child by child. */
  ghost predicate PartlyRemoved(t: Table, s: Table, id: DeviceId) {
    && SubTable(s, t) && id in s
    && (forall x | x in t && x !in s :: Below(t, x, id))
    && (forall x | x in s && t[x].parent in t :: t[x].parent in s)
  }

  lemma SubTableHeight(s: Table, t: Table, a: DeviceId)
    requires SubTable(s, t)
    ensures Height(s, a) <= Height(t, a)
  {
    forall x | x in Descendants(s, a) ensures x in Descendants(t, a) {
      BelowInSubTable(s, t, x, a);
    }
    if Descendants(s, a) != Descendants(t, a) {
      ProperSubsetIsSmaller(Descendants(s, a), Descendants(t, a));
    }
  }

  lemma PartlyRemovedStep(t: Table, s: Table, id: DeviceId, c: DeviceId)
    requires Acyclic(t) && PartlyRemoved(t, s, id) && c in s && s[c].parent == id
    ensures Acyclic(s) && Height(s, c) < Height(t, id)
    ensures PartlyRemoved(t, RemoveTree(s, c), id)
    ensures |RemoveTree(s, c)| < |s|
  {
    SubTableAcyclic(s, t);
    ChildIsDeeper(s, c);
    SubTableHeight(s, t, id);
    var u := RemoveTree(s, c);
    BelowUnfold(s, c, id);
    forall x | x in t && x !in u ensures Below(t, x, id) {
      if x in s {
        if x != c { BelowTransitive(s, x, c, id); }
        BelowInSubTable(s, t, x, id);
      }
    }
    assert id in u by {
      BelowUnfold(s, id, c);
      if Below(s, id, c) { BelowTransitive(s, c, id, c); }
    }
    forall x | x in u && t[x].parent in t ensures t[x].parent in u {
      BelowUnfold(s, x, c);
    }
    assert u.Keys < s.Keys;
    ProperSubsetIsSmaller(u.Keys, s.Keys);
  }

  lemma {:induction false} StillBelow(t: Table, s: Table, id: DeviceId, x: DeviceId, n: nat)
    requires PartlyRemoved(t, s, id) && x in s && n > 0 && Up(t, x, n) == Some(id)
    ensures Below(s, x, id)
    decreases n
  {
    BelowUnfold(s, x, id);
    if t[x].parent != id {
      StillBelow(t, s, id, t[x].parent, n - 1);
    }
  }

  /** Once no child is left, only `id` itself remains to be removed. */
  lemma PartlyRemovedEnd(t: Table, s: Table, id: DeviceId)
    requires Acyclic(t) && PartlyRemoved(t, s, id) && NextChild(s, id, -1) == None
    ensures s - {id} == RemoveTree(t, id)
  {
    forall x | x in s && Below(t, x, id) ensures false {
      var n: nat :| n > 0 && Up(t, x, n) == Some(id);
      StillBelow(t, s, id, x, n);
      BelowIsInPart(s, id, x);
    }
    assert forall x | x in t && !Below(t, x, id) :: x in s;
  }

  /** `s` keeps, with every entry, the ancestors it has in `t`. */
  ghost predicate UpClosed(s: Table, t: Table) {
    SubTable(s, t) && forall x | x in s && t[x].parent in t :: t[x].parent in s
  }

  lemma {:induction false} UpInUpClosed(s: Table, t: Table, x: DeviceId, n: nat)
    requires UpClosed(s, t) && (x in s || x !in t)
    ensures Up(s, x, n) == Up(t, x, n)
    decreases n
  {
    if n > 0 && x in s {
      UpInUpClosed(s, t, t[x].parent, n - 1);
    }
  }

  lemma BelowInUpClosed(s: Table, t: Table, x: DeviceId, a: DeviceId)
    requires UpClosed(s, t) && x in s
    ensures Below(s, x, a) <==> Below(t, x, a)
  {
    if Below(t, x, a) {
      var n: nat :| n > 0 && Up(t, x, n) == Some(a);
      UpInUpClosed(s, t, x, n);
    }
    if Below(s, x, a) {
      BelowInSubTable(s, t, x, a);
    }
  }

  /** In the branch of a child of `p` at or before position `k`. */
  ghost predicate InEarlierBranch(t: Table, p: DeviceId, k: int, x: DeviceId) {
    exists c :: IsChildAfter(t, p, -1, c) && Key(c) <= k && (x == c || Below(t, x, c))
  }

  ghost function WithoutBranches(t: Table, p: DeviceId, k: int): Table {
    map x | x in t && !InEarlierBranch(t, p, k, x) :: t[x]
  }

  lemma WithoutBranchesUpClosed(t: Table, p: DeviceId, k: int)
    ensures UpClosed(WithoutBranches(t, p, k), t)
  {
    forall x | x in t && !InEarlierBranch(t, p, k, x) && t[x].parent in t
      ensures !InEarlierBranch(t, p, k, t[x].parent)
    {
      if InEarlierBranch(t, p, k, t[x].parent) {
        var c :| IsChildAfter(t, p, -1, c) && Key(c) <= k && (t[x].parent == c || Below(t, t[x].parent, c));
        BelowUnfold(t, x, c);
      }
    }
  }

  lemma InEarlierBranchStep(t: Table, p: DeviceId, k: int, c: DeviceId, x: DeviceId)
    requires NextChild(t, p, k) == Some(c)
    ensures InEarlierBranch(t, p, Key(c), x) <==> InEarlierBranch(t, p, k, x) || x == c || Below(t, x, c)
  {
    if InEarlierBranch(t, p, Key(c), x) {
      var d :| IsChildAfter(t, p, -1, d) && Key(d) <= Key(c) && (x == d || Below(t, x, d));
      KeyInjective(c, d);
      assert Key(d) <= k || IsChildAfter(t, p, k, d);
    }
    if x == c || Below(t, x, c) {
      assert IsChildAfter(t, p, -1, c);
    }
  }

  lemma LaterSiblingsStay(t: Table, p: DeviceId, k: int)
    requires Acyclic(t)
    ensures forall x | x in t && t[x].parent == p && Key(x) > k :: x in WithoutBranches(t, p, k)
  {
    forall x | x in t && t[x].parent == p && Key(x) > k ensures !InEarlierBranch(t, p, k, x) {
      if InEarlierBranch(t, p, k, x) {
        var d :| IsChildAfter(t, p, -1, d) && Key(d) <= k && (x == d || Below(t, x, d));
        SiblingsNotNested(t, x, d);
      }
    }
  }

  lemma RemoveNextBranch(t: Table, p: DeviceId, k: int, c: DeviceId)
    requires Acyclic(t) && NextChild(t, p, k) == Some(c)
    ensures RemoveTree(WithoutBranches(t, p, k), c) == WithoutBranches(t, p, Key(c))
  {
    var s := WithoutBranches(t, p, k);
    WithoutBranchesUpClosed(t, p, k);
    forall x | x in s ensures Below(s, x, c) <==> Below(t, x, c) {
      BelowInUpClosed(s, t, x, c);
    }
    forall x | x in t ensures x in RemoveTree(s, c) <==> !InEarlierBranch(t, p, Key(c), x) {
      InEarlierBranchStep(t, p, k, c, x);
    }
  }

  /** Removing the next child leaves its later siblings in place. */
  lemma WithoutBranchesStep(t: Table, p: DeviceId, k: int, c: DeviceId)
    requires Acyclic(t) && NextChild(t, p, k) == Some(c) && k >= -1
    ensures var s := WithoutBranches(t, p, k);
            && Acyclic(s) && c in s && s[c].parent == p
            && RemoveTree(s, c) == WithoutBranches(t, p, Key(c))
            && NextChild(s, p, Key(c)) == NextChild(t, p, Key(c))
            && (NextChild(t, p, Key(c)).Some? ==> NextChild(t, p, Key(c)).value in RemoveTree(s, c))
  {
    var s := WithoutBranches(t, p, k);
    SubTableAcyclic(s, t);
    LaterSiblingsStay(t, p, k);
    RemoveNextBranch(t, p, k, c);
    assert forall d :: IsChildAfter(s, p, Key(c), d) <==> IsChildAfter(t, p, Key(c), d);
    NextChildUnique(s, p, Key(c), NextChild(t, p, Key(c)));
    LaterSiblingsStay(t, p, Key(c));
  }

  lemma BranchesFromStart(t: Table, p: DeviceId)
    ensures WithoutBranches(t, p, -1) == t
  {
  }

  /** After the last child nothing below `p` is left. */
  lemma BranchesToEnd(t: Table, p: DeviceId, k: int)
    requires NextChild(t, p, k) == None
    ensures WithoutBranches(t, p, k) == map x | x in t && !Below(t, x, p) :: t[x]
  {
    forall x | x in t ensures InEarlierBranch(t, p, k, x) <==> Below(t, x, p) {
      BelowIsInPart(t, p, x);
      if InPart(t, p, -1, x) {
        var c :| IsChildAfter(t, p, -1, c) && (x == c || Below(t, x, c));
        assert !IsChildAfter(t, p, k, c);
      }
      if InEarlierBranch(t, p, k, x) {
        var c :| IsChildAfter(t, p, -1, c) && Key(c) <= k && (x == c || Below(t, x, c));
        assert InPart(t, p, -1, x);
      }
    }
  }

  // ---------------------------------------------------------------- moving a branch

  /** If re-hanging `x` gives a path to `x`, the part before the first visit to `x` was already there. */
  lemma {:induction false} PathBeforeMove(t: Table, x: DeviceId, e: Entry, y: DeviceId, n: nat)
    requires Up(t[x := e], y, n) == Some(x)
    ensures y == x || Below(t, y, x)
    decreases n
  {
    if y != x {
      PathBeforeMove(t, x, e, t[y].parent, n - 1);
      BelowUnfold(t, y, x);
    }
  }

  /** A path that never visits `x` is not affected by re-hanging `x`. */
  lemma {:induction false} PathWithoutMoved(t: Table, x: DeviceId, e: Entry, y: DeviceId, n: nat)
    requires y != x && !Below(t, y, x)
    ensures Up(t[x := e], y, n) == Up(t, y, n)
    decreases n
  {
    if n > 0 && y in t {
      BelowUnfold(t, y, x);
      PathWithoutMoved(t, x, e, t[y].parent, n - 1);
    }
  }

  /** Recording `x` under a parent keeps the table acyclic exactly when the parent is not `x` or below it. */
  lemma PutAcyclicIff(t: Table, x: DeviceId, e: Entry)
    requires Acyclic(t)
    ensures Acyclic(t[x := e]) <==> e.parent != x && !Below(t, e.parent, x)
  {
    var u := t[x := e];
    BelowUnfold(u, x, x);
    if e.parent == x || Below(t, e.parent, x) {
      if e.parent != x {
        var n: nat :| n > 0 && Up(t, e.parent, n) == Some(x);
        PathIntoMoved(t, x, e, e.parent, n);
      }
      assert Below(u, x, x);
    } else {
      forall y | y in u ensures !Below(u, y, y) {
        if Below(u, y, y) {
          var n: nat :| n > 0 && Up(u, y, n) == Some(y);
          if y == x || Below(t, y, x) {
            CycleThroughMoved(t, x, e, y);
          } else {
            PathWithoutMoved(t, x, e, y, n);
            assert Below(t, y, y);
          }
        }
      }
    }
  }

  lemma {:induction false} PathIntoMoved(t: Table, x: DeviceId, e: Entry, y: DeviceId, n: nat)
    requires y != x && Up(t, y, n) == Some(x)
    ensures Below(t[x := e], y, x)
    decreases n
  {
    BelowUnfold(t[x := e], y, x);
    if t[y].parent != x {
      PathIntoMoved(t, x, e, t[y].parent, n - 1);
    }
  }

  /** Something at or below `x` can only be on a cycle of the new table if `x` is. */
  lemma CycleThroughMoved(t: Table, x: DeviceId, e: Entry, y: DeviceId)
    requires y == x || Below(t, y, x)
    requires Below(t[x := e], y, y)
    ensures e.parent == x || Below(t, e.parent, x)
  {
    var u := t[x := e];
    if y != x {
      var m: nat :| m > 0 && Up(t, y, m) == Some(x);
      PathIntoMoved(t, x, e, y, m);
      var i: nat :| i > 0 && Up(u, y, i) == Some(x);
      var j: nat :| j > 0 && Up(u, y, j) == Some(y);
      CycleReturns(u, y, j, i, x);
    }
    BelowUnfold(u, x, x);
    assert e.parent == x || Below(u, e.parent, x);
    if e.parent != x {
      var n: nat :| n > 0 && Up(u, e.parent, n) == Some(x);
      PathBeforeMove(t, x, e, e.parent, n);
    }
  }

  /** Whatever a device on a cycle reaches is on the cycle too. */
  lemma {:induction false} CycleReturns(t: Table, y: DeviceId, j: nat, i: nat, x: DeviceId)
    requires j > 0 && Up(t, y, j) == Some(y) && Up(t, y, i) == Some(x)
    ensures Below(t, x, x)
    decreases i
  {
    if i >= j {
      UpAdd(t, y, j, y, i - j);
      CycleReturns(t, y, j, i - j, x);
    } else {
      UpAdd(t, y, i, x, j - i);
      UpAdd(t, x, j - i, y, i);
      assert Up(t, x, j) == Some(x);
    }
  }

  // ---------------------------------------------------------------- device types along the tree

  predicate NonEmpty(t: Table, x: DeviceId) { x in t && !IsEmpty(t[x].deviceType) }

  ghost predicate HasNonEmptyChild(t: Table, x: DeviceId) {
    exists c :: NonEmpty(t, c) && t[c].parent == x
  }

  function WithType(t: Table, x: DeviceId, ty: DeviceType): Table
    requires x in t
  {
    t[x := t[x].(deviceType := ty)]
  }

  /** Same devices, parents, processes and hops; types may differ only in their leaf bits. */
  ghost predicate OnlyLeafBits(t: Table, u: Table) {
    t.Keys == u.Keys && forall x | x in t ::
      u[x] == t[x].(deviceType := u[x].deviceType) && ControlClass(u[x].deviceType) == ControlClass(t[x].deviceType)
  }

  lemma {:induction false} UpSameShape(t: Table, u: Table, x: DeviceId, n: nat)
    requires t.Keys == u.Keys && forall y | y in t :: t[y].parent == u[y].parent
    ensures Up(t, x, n) == Up(u, x, n)
    decreases n
  {
    if n > 0 && x in t {
      UpSameShape(t, u, t[x].parent, n - 1);
    }
  }

  lemma SameShape(t: Table, u: Table)
    requires t.Keys == u.Keys && forall y | y in t :: t[y].parent == u[y].parent
    ensures forall x, a :: Below(t, x, a) <==> Below(u, x, a)
    ensures Acyclic(t) <==> Acyclic(u)
    ensures forall x :: Descendants(t, x) == Descendants(u, x) && Ancestors(t, x) == Ancestors(u, x)
  {
    forall x: DeviceId, a: DeviceId ensures Below(t, x, a) <==> Below(u, x, a) {
      if Below(t, x, a) {
        var n: nat :| n > 0 && Up(t, x, n) == Some(a);
        UpSameShape(t, u, x, n);
      }
      if Below(u, x, a) {
        var n: nat :| n > 0 && Up(u, x, n) == Some(a);
        UpSameShape(t, u, x, n);
      }
    }
  }

  function FilledType(ty: DeviceType, leaf: DeviceType): DeviceType { (ty & CONTROL_DEVICE_MASK) | leaf }

  function EmptiedType(ty: DeviceType): DeviceType { if IsHub(ty) then HUB_DEVICE else TIMER_DEVICE }

  lemma FilledTypeBits(ty: DeviceType, leaf: DeviceType)
    requires leaf & LEAF_DEVICE_MASK == leaf
    ensures ControlClass(FilledType(ty, leaf)) == ControlClass(ty)
    ensures ChildType(FilledType(ty, leaf)) == leaf
  {
  }

  lemma EmptiedTypeBits(ty: DeviceType)
    requires IsControl(ty)
    ensures ControlClass(EmptiedType(ty)) == ControlClass(ty) && IsEmpty(EmptiedType(ty))
  {
  }

  ghost function EmptyEntries(t: Table): set<DeviceId> { set x | x in t && IsEmpty(t[x].deviceType) }

  /** `update_type_to_not_empty`: starting at `p`, every empty ancestor takes `leaf`, up to the first non-empty one. */
  ghost function FillUp(t: Table, p: DeviceId, leaf: DeviceType): Table
    requires leaf & LEAF_DEVICE_MASK == leaf && leaf != 0
    decreases EmptyEntries(t)
  {
    if p !in t || !IsEmpty(t[p].deviceType) then t
    else
      FilledTypeBits(t[p].deviceType, leaf);
      assert p in EmptyEntries(t);
      FillUp(WithType(t, p, FilledType(t[p].deviceType, leaf)), t[p].parent, leaf)
  }

  /** `update_type_to_empty`: starting at `x`, every non-empty ancestor with only empty children is emptied. */
  ghost function EmptyUp(t: Table, x: DeviceId): Table
    requires Acyclic(t)
    decreases Depth(t, x)
  {
    if x !in t || IsEmpty(t[x].deviceType) then t
    else
      var u := if HasNonEmptyChild(t, x) then t else WithType(t, x, EmptiedType(t[x].deviceType));
      ChildIsDeeper(t, x);
      SameShape(t, u);
      if t[x].parent in t then EmptyUp(u, t[x].parent) else u
  }

  /** Every parent that is an entry is a control device. */
  ghost predicate LeavesAreChildless(t: Table) {
    forall c | c in t && t[c].parent in t :: IsControl(t[t[c].parent].deviceType)
  }

  /** A control device is non-empty exactly when some direct child is, and then they agree on the leaf type. */
  ghost predicate ExactAt(t: Table, x: DeviceId)
    requires x in t
  {
    && (NonEmpty(t, x) ==> HasNonEmptyChild(t, x))
    && (forall c | NonEmpty(t, c) && t[c].parent == x ::
          ChildType(t[c].deviceType) == ChildType(t[x].deviceType))
  }

  ghost predicate ExactOutside(t: Table, s: set<DeviceId>) {
    forall x | x in t && x !in s && IsControl(t[x].deviceType) :: ExactAt(t, x)
  }

  ghost predicate Exact(t: Table) { ExactOutside(t, {}) }

  /** A non-empty child agrees with its parent: the part of exactness that has to hold at every moment. */
  ghost predicate Compatible(t: Table) {
    forall c | NonEmpty(t, c) && t[c].parent in t ::
      ChildType(t[t[c].parent].deviceType) == ChildType(t[c].deviceType)
  }

  /** Nothing at or above `p` is non-empty with another leaf type. */
  ghost predicate ChainAccepts(t: Table, p: DeviceId, leaf: DeviceType) {
    forall a | NonEmpty(t, a) && (a == p || Below(t, p, a)) :: ChildType(t[a].deviceType) == leaf
  }

  ghost predicate ChildrenHave(t: Table, p: DeviceId, leaf: DeviceType) {
    forall c | NonEmpty(t, c) && t[c].parent == p :: ChildType(t[c].deviceType) == leaf
  }

  /** One step of the upward filling changes one entry and leaves every precondition of the next step. */
  lemma FillStep(t: Table, p: DeviceId, leaf: DeviceType) returns (u: Table)
    requires leaf & LEAF_DEVICE_MASK == leaf && leaf != 0
    requires Acyclic(t) && p in t && IsEmpty(t[p].deviceType)
    requires ChainAccepts(t, p, leaf)
    ensures u == WithType(t, p, FilledType(t[p].deviceType, leaf))
    ensures NonEmpty(u, p) && ChildType(u[p].deviceType) == leaf && t[p].parent != p
    ensures OnlyLeafBits(t, u) && Acyclic(u)
    ensures forall x, a :: Below(t, x, a) <==> Below(u, x, a)
    ensures ChainAccepts(u, t[p].parent, leaf)
  {
    u := WithType(t, p, FilledType(t[p].deviceType, leaf));
    FilledTypeBits(t[p].deviceType, leaf);
    SameShape(t, u);
    BelowUnfold(t, p, p);
    var q := t[p].parent;
    forall a | NonEmpty(u, a) && (a == q || Below(u, q, a)) ensures ChildType(u[a].deviceType) == leaf {
      BelowUnfold(t, p, a);
    }
  }

  lemma {:induction false} FillUpShape(t: Table, p: DeviceId, leaf: DeviceType)
    requires leaf & LEAF_DEVICE_MASK == leaf && leaf != 0 && Acyclic(t)
    ensures OnlyLeafBits(t, FillUp(t, p, leaf)) && Acyclic(FillUp(t, p, leaf))
    ensures forall x | x in t && x != p && !Below(t, p, x) :: FillUp(t, p, leaf)[x] == t[x]
    ensures forall x | NonEmpty(t, x) :: FillUp(t, p, leaf)[x] == t[x]
    decreases EmptyEntries(t)
  {
    if p in t && IsEmpty(t[p].deviceType) {
      var u := WithType(t, p, FilledType(t[p].deviceType, leaf));
      FilledTypeBits(t[p].deviceType, leaf);
      assert p in EmptyEntries(t);
      SameShape(t, u);
      FillUpShape(u, t[p].parent, leaf);
      forall x | x in t && x != p && !Below(t, p, x) ensures FillUp(t, p, leaf)[x] == t[x] {
        BelowUnfold(t, p, x);
      }
    }
  }

  /**
   Filling restores exactness at `p` and above although it stops at the first non-empty ancestor;
   defects elsewhere (`s`, devices still marked non-empty) are left as they are.
   */
  lemma {:induction false} FillUpIsExact(t: Table, p: DeviceId, leaf: DeviceType, s: set<DeviceId>)
    requires leaf & LEAF_DEVICE_MASK == leaf && leaf != 0
    requires Acyclic(t) && LeavesAreChildless(t)
    requires ExactOutside(t, s + {p}) && ChainAccepts(t, p, leaf)
    requires forall x | x in s && x in t :: NonEmpty(t, x)
    requires p in t && p !in s ==> HasNonEmptyChild(t, p) && ChildrenHave(t, p, leaf)
    ensures ExactOutside(FillUp(t, p, leaf), s)
    decreases EmptyEntries(t)
  {
    if p in t && IsEmpty(t[p].deviceType) {
      var u := FillStep(t, p, leaf);
      var q := t[p].parent;
      assert p in EmptyEntries(t);
      FillStepMovesDefect(t, u, p, leaf, s);
      FillUpIsExact(u, q, leaf, s);
    }
  }

  /** After filling `p`, the only new defect has moved to its parent. */
  lemma FillStepMovesDefect(t: Table, u: Table, p: DeviceId, leaf: DeviceType, s: set<DeviceId>)
    requires p in t && p !in s && t[p].parent != p && IsEmpty(t[p].deviceType)
    requires u == WithType(t, p, FilledType(t[p].deviceType, leaf)) && OnlyLeafBits(t, u)
    requires NonEmpty(u, p) && ChildType(u[p].deviceType) == leaf
    requires LeavesAreChildless(t) && ExactOutside(t, s + {p})
    requires HasNonEmptyChild(t, p) && ChildrenHave(t, p, leaf)
    ensures LeavesAreChildless(u) && ExactOutside(u, s + {t[p].parent})
    ensures var q := t[p].parent; q in t && q !in s ==> HasNonEmptyChild(u, q)
    ensures var q := t[p].parent; q in t && q !in s && ChainAccepts(u, q, leaf) ==> ChildrenHave(u, q, leaf)
  {
    var q := t[p].parent;
    var d: DeviceId :| NonEmpty(t, d) && t[d].parent == p;
    assert NonEmpty(u, d) && u[d].parent == p;
    forall x | x in u && x !in s + {q} && IsControl(u[x].deviceType) ensures ExactAt(u, x) {
      if x != p {
        ChildrenUntouched(t, u, p, x);
      }
    }
    if q in t && q !in s {
      assert NonEmpty(u, p) && u[p].parent == q;
      assert IsControl(t[q].deviceType) && ExactAt(t, q);
      if ChainAccepts(u, q, leaf) {
        forall c: DeviceId | NonEmpty(u, c) && u[c].parent == q ensures ChildType(u[c].deviceType) == leaf {
          if c != p {
            assert NonEmpty(t, c) && t[c].parent == q;
            ChildTypeNonEmpty(t[c].deviceType, t[q].deviceType);
            assert NonEmpty(u, q);
          }
        }
      }
    }
  }

  /** Exactness at `x` only looks at `x` and its children. */
  lemma ChildrenUntouched(t: Table, u: Table, p: DeviceId, x: DeviceId)
    requires OnlyLeafBits(t, u) && forall y | y in t && y != p :: u[y] == t[y]
    requires x in t && x != p && (p in t ==> t[p].parent != x)
    ensures ExactAt(t, x) <==> ExactAt(u, x)
  {
    if HasNonEmptyChild(t, x) {
      var c :| NonEmpty(t, c) && t[c].parent == x;
      assert NonEmpty(u, c) && u[c].parent == x;
    }
    if HasNonEmptyChild(u, x) {
      var c :| NonEmpty(u, c) && u[c].parent == x;
      assert NonEmpty(t, c) && t[c].parent == x;
    }
  }

  lemma EmptyStep(t: Table, x: DeviceId) returns (u: Table)
    requires Acyclic(t) && NonEmpty(t, x) && !HasNonEmptyChild(t, x) && IsControl(t[x].deviceType)
    ensures u == WithType(t, x, EmptiedType(t[x].deviceType))
    ensures !NonEmpty(u, x) && t[x].parent != x
    ensures OnlyLeafBits(t, u) && Acyclic(u)
    ensures Ancestors(t, t[x].parent) == Ancestors(u, t[x].parent)
    ensures forall y, a :: Below(t, y, a) <==> Below(u, y, a)
  {
    u := WithType(t, x, EmptiedType(t[x].deviceType));
    EmptiedTypeBits(t[x].deviceType);
    SameShape(t, u);
    BelowUnfold(t, x, x);
  }

  lemma {:induction false} EmptyUpShape(t: Table, x: DeviceId)
    requires Acyclic(t) && LeavesAreChildless(t) && (x in t ==> IsControl(t[x].deviceType))
    ensures OnlyLeafBits(t, EmptyUp(t, x)) && Acyclic(EmptyUp(t, x))
    ensures forall y | y in t && y != x && !Below(t, x, y) :: EmptyUp(t, x)[y] == t[y]
    ensures forall y | y in t && !NonEmpty(t, y) :: EmptyUp(t, x)[y] == t[y]
    decreases Depth(t, x)
  {
    if NonEmpty(t, x) {
      var q := t[x].parent;
      var u := t;
      if !HasNonEmptyChild(t, x) {
        u := EmptyStep(t, x);
      }
      ChildIsDeeper(t, x);
      if q in t {
        EmptyUpShape(u, q);
        forall y: DeviceId | y in t && y != x && !Below(t, x, y) ensures EmptyUp(t, x)[y] == t[y] {
          BelowUnfold(t, x, y);
        }
      }
    }
  }

  /** Emptying touches nothing but types, whatever the devices on the way are. */
  lemma {:induction false} EmptyUpKeepsTree(t: Table, x: DeviceId)
    requires Acyclic(t)
    ensures EmptyUp(t, x).Keys == t.Keys && Acyclic(EmptyUp(t, x))
    ensures forall y | y in t :: EmptyUp(t, x)[y] == t[y].(deviceType := EmptyUp(t, x)[y].deviceType)
    decreases Depth(t, x)
  {
    if NonEmpty(t, x) {
      var u := if HasNonEmptyChild(t, x) then t else WithType(t, x, EmptiedType(t[x].deviceType));
      ChildIsDeeper(t, x);
      SameShape(t, u);
      if t[x].parent in t {
        EmptyUpKeepsTree(u, t[x].parent);
      }
    }
  }

  /** Emptying never changes what stays non-empty. */
  lemma {:induction false} EmptyUpOnlyEmpties(t: Table, x: DeviceId)
    requires Acyclic(t)
    ensures EmptyUp(t, x).Keys == t.Keys
    ensures forall y | NonEmpty(EmptyUp(t, x), y) :: EmptyUp(t, x)[y] == t[y]
    ensures forall y | y in t :: EmptyUp(t, x)[y].parent == t[y].parent
    decreases Depth(t, x)
  {
    if NonEmpty(t, x) {
      var u := if HasNonEmptyChild(t, x) then t else WithType(t, x, EmptiedType(t[x].deviceType));
      ChildIsDeeper(t, x);
      SameShape(t, u);
      if t[x].parent in t {
        EmptyUpOnlyEmpties(u, t[x].parent);
      }
    }
  }

  /** Emptying from `x` reaches only `x` and what is above it. */
  lemma {:induction false} EmptyUpElsewhere(t: Table, x: DeviceId, y: DeviceId)
    requires Acyclic(t) && y in t && y != x && !Below(t, x, y)
    ensures EmptyUp(t, x).Keys == t.Keys && EmptyUp(t, x)[y] == t[y]
    decreases Depth(t, x)
  {
    if NonEmpty(t, x) {
      var u := if HasNonEmptyChild(t, x) then t else WithType(t, x, EmptiedType(t[x].deviceType));
      ChildIsDeeper(t, x);
      SameShape(t, u);
      BelowUnfold(t, x, y);
      if t[x].parent in t {
        EmptyUpElsewhere(u, t[x].parent, y);
      }
    }
  }

  /** What is above a device is a control device. */
  lemma {:induction false} AboveIsControl(t: Table, x: DeviceId, y: DeviceId)
    requires Acyclic(t) && LeavesAreChildless(t) && y in t && Below(t, x, y)
    ensures IsControl(t[y].deviceType)
    decreases Depth(t, x)
  {
    BelowUnfold(t, x, y);
    if t[x].parent != y {
      BelowUnfold(t, t[x].parent, y);
      ChildIsDeeper(t, x);
      AboveIsControl(t, t[x].parent, y);
    }
  }

  /** So emptying from a control device leaves leaf devices alone. */
  lemma EmptyUpKeepsLeaves(t: Table, x: DeviceId)
    requires Acyclic(t) && LeavesAreChildless(t) && (x in t ==> IsControl(t[x].deviceType))
    ensures EmptyUp(t, x).Keys == t.Keys && forall y | y in t && IsLeaf(t[y].deviceType) :: EmptyUp(t, x)[y] == t[y]
  {
    EmptyUpShape(t, x);
    forall y | y in t && IsLeaf(t[y].deviceType) ensures EmptyUp(t, x)[y] == t[y] {
      if Below(t, x, y) {
        AboveIsControl(t, x, y);
      }
    }
  }

  /** At `x`, the only defect allowed is that `x` is still marked non-empty. */
  ghost predicate ExactOrStale(t: Table, x: DeviceId)
    requires x in t
  {
    forall c: DeviceId | NonEmpty(t, c) && t[c].parent == x ::
      ChildType(t[c].deviceType) == ChildType(t[x].deviceType)
  }

  /** After emptying `x`, the only possible defect has moved to its parent. */
  lemma EmptyStepMovesDefect(t: Table, x: DeviceId, u: Table)
    requires NonEmpty(t, x) && !HasNonEmptyChild(t, x) && !NonEmpty(u, x) && t[x].parent != x
    requires x in u && u == WithType(t, x, u[x].deviceType) && OnlyLeafBits(t, u) && ExactOutside(t, {x})
    requires t[x].parent in t ==> IsControl(t[t[x].parent].deviceType)
    ensures ExactOutside(u, {t[x].parent})
    ensures t[x].parent in t ==> ExactOrStale(u, t[x].parent)
  {
    var q := t[x].parent;
    forall y | y in u && y != q && IsControl(u[y].deviceType) ensures ExactAt(u, y) {
      if y == x {
        assert forall c: DeviceId | NonEmpty(u, c) :: NonEmpty(t, c) && t[c].parent == u[c].parent;
      } else {
        ChildrenUntouched(t, u, x, y);
      }
    }
    if q in t {
      assert ExactAt(t, q);
      assert forall c: DeviceId | NonEmpty(u, c) :: NonEmpty(t, c) && u[c] == t[c];
    }
  }

  /** Emptying restores exactness table-wide although it stops at the first empty ancestor. */
  lemma {:induction false} EmptyUpIsExact(t: Table, x: DeviceId)
    requires Acyclic(t) && LeavesAreChildless(t) && (x in t ==> IsControl(t[x].deviceType))
    requires ExactOutside(t, {x}) && (x in t ==> ExactOrStale(t, x))
    ensures Exact(EmptyUp(t, x))
    decreases Depth(t, x)
  {
    if NonEmpty(t, x) {
      var q := t[x].parent;
      ChildIsDeeper(t, x);
      if HasNonEmptyChild(t, x) {
        assert ExactAt(t, x) && Exact(t);
        if q in t {
          assert ExactAt(t, q);
          EmptyUpIsExact(t, q);
        }
      } else {
        var u := EmptyStep(t, x);
        EmptyStepMovesDefect(t, x, u);
        if q in t {
          EmptyUpIsExact(u, q);
        }
      }
    } else if x in t {
      assert ExactAt(t, x);
    }
  }

  /** Emptying never creates a disagreement between a non-empty child and its parent. */
  lemma {:induction false} EmptyUpKeepsCompatible(t: Table, x: DeviceId)
    requires Acyclic(t) && LeavesAreChildless(t) && (x in t ==> IsControl(t[x].deviceType))
    requires Compatible(t)
    ensures Compatible(EmptyUp(t, x))
    decreases Depth(t, x)
  {
    if NonEmpty(t, x) {
      var u := t;
      if !HasNonEmptyChild(t, x) {
        u := EmptyStep(t, x);
      }
      ChildIsDeeper(t, x);
      if t[x].parent in t {
        EmptyUpKeepsCompatible(u, t[x].parent);
      }
    }
  }

  /** A non-empty child agrees with its parent, except possibly below `p`. */
  ghost predicate CompatibleExcept(t: Table, p: DeviceId) {
    forall c: DeviceId | NonEmpty(t, c) && t[c].parent in t && t[c].parent != p ::
      ChildType(t[t[c].parent].deviceType) == ChildType(t[c].deviceType)
  }

  /** Filling upwards repairs agreement when the ancestors accept the leaf type. */
  lemma {:induction false} FillUpIsCompatible(t: Table, p: DeviceId, leaf: DeviceType)
    requires leaf & LEAF_DEVICE_MASK == leaf && leaf != 0
    requires Acyclic(t) && CompatibleExcept(t, p)
    requires (p in t ==> ChildrenHave(t, p, leaf)) && ChainAccepts(t, p, leaf)
    ensures Compatible(FillUp(t, p, leaf))
    decreases EmptyEntries(t)
  {
    if p in t && IsEmpty(t[p].deviceType) {
      var q := t[p].parent;
      forall c: DeviceId | NonEmpty(t, c) && t[c].parent == q && q in t
        ensures ChildType(t[c].deviceType) == leaf
      {
        BelowUnfold(t, p, q);
        BelowUnfold(t, p, p);
        assert ChildType(t[q].deviceType) == ChildType(t[c].deviceType);
        ChildTypeNonEmpty(t[c].deviceType, t[q].deviceType);
      }
      var u := FillStep(t, p, leaf);
      assert p in EmptyEntries(t);
      if q in t {
        FillUpIsCompatible(u, q, leaf);
      }
    }
  }

  lemma ChildTypeNonEmpty(a: DeviceType, b: DeviceType)
    requires ChildType(a) == ChildType(b)
    ensures IsEmpty(a) <==> IsEmpty(b)
  {
  }
}
