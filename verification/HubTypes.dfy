/**
 The type a Hub declares to its parent, and by which it decides whether to broadcast a switch: when does
 it follow the devices directly below the Hub?
 */
module HubTypes {
  import opened Devices
  import opened Forest
  import opened TableOps
  import opened Topology
  import opened Replay
  import opened HubTable
  import opened Protocol

  ghost predicate DirectNonEmpty(id: DeviceId, t: Table, c: DeviceId) { NonEmpty(t, c) && t[c].parent == id }

  /** The leaf bits of the declared type are those of every non-empty direct child, and there is one if they are set. */
  ghost predicate Agrees(id: DeviceId, v: View) {
    && (forall c | DirectNonEmpty(id, v.table, c) :: ChildType(v.table[c].deviceType) == ChildType(v.deviceType))
    && (!IsEmpty(v.deviceType) ==> exists c :: DirectNonEmpty(id, v.table, c))
  }

  /** The declared type is a Hub's, and in step with the direct children. */
  ghost predicate Follows(id: DeviceId, v: View) { Agrees(id, v) && ControlClass(v.deviceType) == HUB_DEVICE }

  /** A new leaf type reaches the declared type only from the plain Hub type, or when it is already there. */
  predicate Absorbs(v: View, ty: DeviceType) {
    v.deviceType == HUB_DEVICE || IsEmpty(ty) || ChildType(ty) == ChildType(v.deviceType)
  }

  /** A direct child may be announced again: an empty one must not have been the last that was not. */
  ghost predicate AbsorbsDirect(id: DeviceId, v: View, x: DeviceId, ty: DeviceType) {
    || v.deviceType == HUB_DEVICE || ChildType(ty) == ChildType(v.deviceType)
    || (IsEmpty(ty) && exists c :: DirectNonEmpty(id, v.table, c) && c != x)
  }

  const TIMER_BIT: DeviceType := 0x04

  /** The bit that tells Timers from Hubs gets into the declared type with the first child's. */
  predicate KeepsClass(v: View, ty: DeviceType) { v.deviceType == HUB_DEVICE ==> ty & TIMER_BIT == 0 }

  lemma HubBits(ty: DeviceType)
    ensures ChildType(HUB_DEVICE | ty) == ChildType(ty) && IsEmpty(HUB_DEVICE)
    ensures IsEmpty(ty) <==> ChildType(ty) == 0
    ensures ControlClass(HUB_DEVICE | ty) == HUB_DEVICE <==> ty & TIMER_BIT == 0
  {
  }

  /** Adding a direct child keeps the declared type in step exactly when the type is absorbed. */
  lemma AddDirectAgreesIff(id: DeviceId, v: View, x: DeviceId, ty: DeviceType, fd: int)
    requires Agrees(id, v)
    ensures Agrees(id, AddDirect(id, v, x, ty, fd)) <==> AbsorbsDirect(id, v, x, ty)
  {
    var w := AddDirect(id, v, x, ty, fd);
    HubBits(ty);
    HubBits(v.deviceType);
    assert forall c | c != x :: DirectNonEmpty(id, v.table, c) <==> DirectNonEmpty(id, w.table, c);
    assert DirectNonEmpty(id, w.table, x) <==> !IsEmpty(ty);
  }

  /** Everything in the table hangs from some direct child. */
  lemma {:induction false} DirectAbove(id: DeviceId, t: Table, x: DeviceId) returns (c: DeviceId)
    requires HangsFrom(t, id) && x in t
    ensures c in t && t[c].parent == id && (c == x || Below(t, x, c))
    decreases Depth(t, x)
  {
    if t[x].parent == id {
      c := x;
    } else {
      ChildIsDeeper(t, x);
      c := DirectAbove(id, t, t[x].parent);
      BelowUnfold(t, x, c);
    }
  }

  /** Recording a device whose leaf type its new ancestors accept, and filling above it, keeps the table compatible. */
  lemma LearnIsCompatible(t: Table, x: DeviceId, p: DeviceId, ty: DeviceType)
    requires Acyclic(t) && Compatible(t) && p in t && p != x && !Below(t, p, x)
    requires if x in t then ChildType(t[x].deviceType) == ChildType(ty) else forall y | y in t :: t[y].parent != x
    requires !IsEmpty(ty) ==> ChainAccepts(t, p, ChildType(ty))
    ensures Acyclic(Learn(t, x, p, ty)) && Compatible(Learn(t, x, p, ty))
    ensures OnlyLeafBits(Put(t, x, 0, ty, p, t[p].hop), Learn(t, x, p, ty))
    ensures forall y | NonEmpty(Put(t, x, 0, ty, p, t[p].hop), y) ::
              Learn(t, x, p, ty)[y] == Put(t, x, 0, ty, p, t[p].hop)[y]
    ensures forall y | y in t && y != x && !Below(Learn(t, x, p, ty), x, y) :: Learn(t, x, p, ty)[y] == t[y]
  {
    var e := Entry(0, ty, p, t[p].hop);
    var u := t[x := e];
    PutAcyclicIff(t, x, e);
    LeafBits(ty);
    assert forall y | y in u && y in t :: ChildType(u[y].deviceType) == ChildType(t[y].deviceType);
    FillAboveShape(u, x);
    if !IsEmpty(ty) {
      var leaf := ChildType(ty);
      forall a | NonEmpty(u, a) && (a == p || Below(u, p, a)) ensures ChildType(u[a].deviceType) == leaf {
        BelowUnmoved(t, x, e, p, a);
      }
      assert NonEmpty(t, p) ==> ChildType(t[p].deviceType) == leaf;
      NewChildrenHave(t, u, x, p, leaf);
      FillUpShape(u, p, leaf);
      FillUpIsCompatible(u, p, leaf);
      forall y | y in t && y != x && !Below(FillAbove(u, x), x, y) ensures FillAbove(u, x)[y] == t[y] {
        BelowUnfold(u, x, y);
      }
    }
  }

  lemma NewChildrenHave(t: Table, u: Table, x: DeviceId, p: DeviceId, leaf: DeviceType)
    requires Compatible(t) && p in t && leaf != 0 && (NonEmpty(t, p) ==> ChildType(t[p].deviceType) == leaf)
    requires x in u && u[x].parent == p && ChildType(u[x].deviceType) == leaf
    requires forall y | y in u && y != x :: y in t && u[y] == t[y]
    ensures ChildrenHave(u, p, leaf)
  {
    forall c | NonEmpty(u, c) && u[c].parent == p ensures ChildType(u[c].deviceType) == leaf {
      if c != x {
        ChildTypeNonEmpty(t[c].deviceType, t[p].deviceType);
      }
    }
  }

  /** The same for a device added deeper: filling carries its leaf type up to a direct child. */
  lemma AddIndirectAgreesIff(id: DeviceId, v: View, x: DeviceId, p: DeviceId, ty: DeviceType)
    requires HangsFrom(v.table, id) && Compatible(v.table) && Agrees(id, v)
    requires p in v.table && x != id && p != x && !Below(v.table, p, x)
    requires x in v.table ==> ChildType(v.table[x].deviceType) == ChildType(ty)
    requires !IsEmpty(ty) ==> ChainAccepts(v.table, p, ChildType(ty))
    ensures Agrees(id, AddIndirect(v, x, p, ty)) <==> Absorbs(v, ty)
  {
    var t, w := v.table, Learn(v.table, x, p, ty);
    HubBits(ty);
    LearnedDirect(id, t, x, p, ty, w);
    if IsEmpty(ty) {
      if c :| DirectNonEmpty(id, t, c) {
        assert DirectNonEmpty(id, w, c);
      }
    } else {
      var top := DirectAbove(id, w, x);
      CompatibleChain(w, x, top);
      assert DirectNonEmpty(id, w, top);
    }
  }

  lemma LearnHangs(t: Table, id: DeviceId, x: DeviceId, p: DeviceId, ty: DeviceType)
    requires HangsFrom(t, id) && p in t && x != id && p != x && !Below(t, p, x)
    ensures HangsFrom(Learn(t, x, p, ty), id) && Learn(t, x, p, ty).Keys == t.Keys + {x}
    ensures forall y | y in t && y != x :: Learn(t, x, p, ty)[y].parent == t[y].parent
    ensures Learn(t, x, p, ty)[x].parent == p
  {
    var e := Entry(0, ty, p, t[p].hop);
    var u := t[x := e];
    PutAcyclicIff(t, x, e);
    FillAboveKeepsTree(u, x);
    SameTreeHangs(u, FillAbove(u, x), id);
  }

  /** A direct child of the receiver that is not above the learned device is as it was before. */
  ghost predicate AsBefore(id: DeviceId, t: Table, w: Table, c: DeviceId)
    requires c in w
  {
    DirectNonEmpty(id, t, c) && w[c] == t[c]
  }

  /** After learning, a non-empty direct child is either above the new device, with its leaf type, or as before. */
  lemma LearnedDirect(id: DeviceId, t: Table, x: DeviceId, p: DeviceId, ty: DeviceType, w: Table)
    requires HangsFrom(t, id) && Compatible(t)
    requires p in t && x != id && p != x && !Below(t, p, x)
    requires x in t ==> ChildType(t[x].deviceType) == ChildType(ty)
    requires !IsEmpty(ty) ==> ChainAccepts(t, p, ChildType(ty))
    requires w == Learn(t, x, p, ty)
    ensures HangsFrom(w, id) && Compatible(w) && x in w && w[x].parent == p && w[x].deviceType == ty
    ensures forall c | DirectNonEmpty(id, w, c) ::
              (!IsEmpty(ty) && ChildType(w[c].deviceType) == ChildType(ty)) || AsBefore(id, t, w, c)
    ensures IsEmpty(ty) ==> forall c | DirectNonEmpty(id, t, c) :: DirectNonEmpty(id, w, c)
  {
    LearnIsCompatible(t, x, p, ty);
    LearnHangs(t, id, x, p, ty);
    BelowUnfold(w, x, x);
    forall c | DirectNonEmpty(id, w, c) && !AsBefore(id, t, w, c)
      ensures !IsEmpty(ty) && ChildType(w[c].deviceType) == ChildType(ty)
    {
      if !IsEmpty(ty) {
        assert Below(w, x, c);
        CompatibleChain(w, x, c);
      }
    }
  }

  /** Whatever is removed, the declared type goes wrong exactly when the one exempted child is the only one left. */
  lemma AfterRemovalAgreesIff(id: DeviceId, v: View, w: View, x: DeviceId)
    requires Agrees(id, v)
    requires forall c | DirectNonEmpty(id, w.table, c) :: DirectNonEmpty(id, v.table, c) && w.table[c] == v.table[c]
    requires w.deviceType == if NothingLeft(w.table, id, x) then HUB_DEVICE else v.deviceType
    ensures Agrees(id, w) <==> !(DirectNonEmpty(id, w.table, x) && NothingLeft(w.table, id, x))
  {
    HubBits(HUB_DEVICE);
    if NothingLeft(w.table, id, x) {
      if DirectNonEmpty(id, w.table, x) {
        ChildTypeNonEmpty(w.table[x].deviceType, w.table[x].deviceType);
      }
    }
  }

  lemma UnhookedDirect(id: DeviceId, t: Table, x: DeviceId, parent: DeviceId)
    requires Acyclic(t) && x in t
    ensures forall c | DirectNonEmpty(id, Unhook(t, x, parent), c) ::
              DirectNonEmpty(id, t, c) && Unhook(t, x, parent)[c] == t[c]
    ensures t[x].parent == parent ==> x !in Unhook(t, x, parent)
    ensures x in Unhook(t, x, parent) ==> Unhook(t, x, parent)[x].parent == t[x].parent
  {
    var u := TableOps.Remove(t, x, parent);
    SubTableAcyclic(u, t);
    EmptyUpOnlyEmpties(u, t[x].parent);
  }

  /** A remove-child request keeps the declared type in step. */
  lemma RequestedAgrees(id: DeviceId, v: View, x: DeviceId)
    requires Agrees(id, v) && Acyclic(v.table)
    ensures Agrees(id, RemoveRequested(id, v, x))
  {
    if v.hasChildren && x in v.table {
      UnhookedDirect(id, v.table, x, id);
      AfterRemovalAgreesIff(id, v, RemoveRequested(id, v, x), x);
    }
  }

  /** So does a delete response. */
  lemma DeletedAgrees(id: DeviceId, v: View, x: DeviceId)
    requires Agrees(id, v) && Acyclic(v.table)
    ensures Agrees(id, ChildDeleted(id, v, x))
  {
    if x in v.table {
      UnhookedDirect(id, v.table, x, v.table[x].parent);
      AfterRemovalAgreesIff(id, v, ChildDeleted(id, v, x), x);
    }
  }

  /** Emptying upwards from `o` reaches `c`: it is on the way up, and nothing non-empty below it is off that way. */
  ghost predicate Emptied(t: Table, o: DeviceId, c: DeviceId) {
    && NonEmpty(t, o) && (c == o || Below(t, o, c))
    && forall y | NonEmpty(t, y) && Below(t, y, c) :: y == o || Below(t, o, y)
  }

  /** Above a non-empty device there is a non-empty child of each of its ancestors. */
  lemma {:induction false} NonEmptyBranch(t: Table, y: DeviceId, c: DeviceId)
    requires Acyclic(t) && Compatible(t) && NonEmpty(t, y) && c in t && Below(t, y, c)
    ensures HasNonEmptyChild(t, c)
    decreases Depth(t, y)
  {
    BelowUnfold(t, y, c);
    if t[y].parent != c {
      BelowUnfold(t, t[y].parent, c);
      ChildIsDeeper(t, y);
      CompatibleChain(t, y, t[y].parent) by { BelowUnfold(t, y, t[y].parent); }
      NonEmptyBranch(t, t[y].parent, c);
    }
  }

  /** A device with a non-empty child stops the emptying below itself, and nothing above it is reached. */
  lemma NothingEmptied(t: Table, x: DeviceId, c: DeviceId)
    requires Acyclic(t) && NonEmpty(t, x) && HasNonEmptyChild(t, x) && NonEmpty(t, c)
    ensures !Emptied(t, x, c)
    ensures !Emptied(t, t[x].parent, c)
  {
    var y :| NonEmpty(t, y) && t[y].parent == x;
    BelowUnfold(t, y, c);
    BelowUnfold(t, y, x);
    BelowUnfold(t, x, c);
    NotBothWays(t, x, y);
    NotBothWays(t, t[x].parent, x);
  }

  lemma NotBothWays(t: Table, a: DeviceId, y: DeviceId)
    requires Acyclic(t) && y in t && t[y].parent == a
    ensures y != a && !Below(t, a, y)
  {
    BelowUnfold(t, y, y);
  }

  /** Once `x` itself is empty, the emptying goes on from its parent as if it had started there. */
  lemma EmptiedAbove(t: Table, x: DeviceId, u: Table, c: DeviceId)
    requires Acyclic(t) && Compatible(t) && NonEmpty(t, x) && !HasNonEmptyChild(t, x) && t[x].parent in t
    requires u == WithType(t, x, EmptiedType(t[x].deviceType))
    requires NonEmpty(t, c) && c != x
    ensures Emptied(u, t[x].parent, c) <==> Emptied(t, x, c)
  {
    SameShape(t, u);
    BelowUnfold(t, x, c);
    BelowUnfold(t, x, x);
    ChildTypeNonEmpty(t[x].deviceType, t[t[x].parent].deviceType);
    forall y: DeviceId ensures Below(t, x, y) <==> y == t[x].parent || Below(t, t[x].parent, y) {
      BelowUnfold(t, x, y);
    }
  }

  /** A non-empty device ends empty exactly when the emptying reaches it. */
  lemma {:induction false} EmptiedIff(t: Table, x: DeviceId, c: DeviceId)
    requires Acyclic(t) && Compatible(t) && NonEmpty(t, c)
    ensures !NonEmpty(EmptyUp(t, x), c) <==> Emptied(t, x, c)
    decreases Depth(t, x)
  {
    if NonEmpty(t, x) {
      var q := t[x].parent;
      ChildIsDeeper(t, x);
      if HasNonEmptyChild(t, x) {
        NothingEmptied(t, x, c);
        if q in t {
          EmptiedIff(t, q, c);
        }
      } else {
        var u := WithType(t, x, EmptiedType(t[x].deviceType));
        SameShape(t, u);
        EmptyUpOnlyEmpties(u, q);
        if c == x {
          OnlyItself(t, x);
        } else {
          BelowUnfold(t, x, c);
          BelowUnfold(t, q, c);
          if q in t {
            EmptiedAbove(t, x, u, c);
            EmptiedIff(u, q, c);
          }
        }
      }
    }
  }

  lemma OnlyItself(t: Table, x: DeviceId)
    requires Acyclic(t) && Compatible(t) && NonEmpty(t, x) && !HasNonEmptyChild(t, x)
    ensures Emptied(t, x, x)
  {
    forall y | NonEmpty(t, y) && Below(t, y, x) ensures false {
      NonEmptyBranch(t, y, x);
    }
  }

  lemma RemovedBelowAgrees(id: DeviceId, v: View, o: DeviceId, x: DeviceId)
    requires Agrees(id, v) && Acyclic(v.table)
    ensures var w := RemovedBelow(id, v, o, x);
            Agrees(id, w) <==> !(DirectNonEmpty(id, w.table, x) && NothingLeft(w.table, id, x))
  {
    if x in v.table {
      var u := TableOps.Remove(v.table, x, o);
      SubTableAcyclic(u, v.table);
      EmptyUpOnlyEmpties(u, o);
      AfterRemovalAgreesIff(id, v, RemovedBelow(id, v, o, x), x);
    }
  }

  /** The named device is a non-empty direct child that stays so, and every other one is emptied. */
  ghost predicate Overlooked(id: DeviceId, t: Table, o: DeviceId, x: DeviceId) {
    && DirectNonEmpty(id, t, x) && !Emptied(t, o, x)
    && forall c | DirectNonEmpty(id, t, c) && c != x :: Emptied(t, o, c)
  }

  /**
   A remove-child response from below does not always: the device it names is exempted from the search even
   if it has come back as a direct child of this Hub. The declared type goes wrong exactly when, in the table
   the response finds, it is the one direct child that the emptying leaves non-empty.
   */
  lemma RemovedBelowAgreesIff(id: DeviceId, v: View, o: DeviceId, x: DeviceId)
    requires Agrees(id, v) && Acyclic(v.table) && Compatible(v.table) && o != id
    ensures Agrees(id, RemovedBelow(id, v, o, x)) <==> !Overlooked(id, v.table, o, x)
  {
    RemovedBelowAgrees(id, v, o, x);
    var t, w := v.table, RemovedBelow(id, v, o, x).table;
    if x in t {
      var u := TableOps.Remove(t, x, o);
      SubTableAcyclic(u, t);
      EmptyUpOnlyEmpties(u, o);
      if DirectNonEmpty(id, t, x) {
        forall c | NonEmpty(t, c) ensures !NonEmpty(w, c) <==> Emptied(t, o, c) {
          EmptiedIff(t, o, c);
        }
        assert forall c | DirectNonEmpty(id, w, c) :: DirectNonEmpty(id, t, c);
        assert forall c | DirectNonEmpty(id, t, c) && NonEmpty(w, c) :: DirectNonEmpty(id, w, c);
      }
    }
  }

  // ---------------------------------------------------------------- runs

  ghost predicate SameKind(t: Table, x: DeviceId, ty: DeviceType) {
    x in t ==> ControlClass(t[x].deviceType) == ControlClass(ty) && ChildType(t[x].deviceType) == ChildType(ty)
  }

  /** Announcements follow links the Controller allows: to control devices, with an accepted leaf type. */
  ghost predicate Sound(t: Table, e: HubEvent) {
    match e
    case Direct(x, ty, _) => SameKind(t, x, ty)
    case Indirect(x, p, ty) =>
      SameKind(t, x, ty) &&
      (p in t ==> IsControl(t[p].deviceType) && (!IsEmpty(ty) ==> ChainAccepts(t, p, ChildType(ty))))
    case Requested(_) => true
    case Deleted(_) => true
    case RemovedFrom(o, _) => o in t ==> IsControl(t[o].deviceType)
  }

  /** What has to hold before an event for the leaf type to be right after it. */
  ghost predicate LeafGuard(id: DeviceId, v: View, e: HubEvent) {
    match e
    case Direct(x, ty, _) => AbsorbsDirect(id, v, x, ty)
    case Indirect(_, p, ty) => p in v.table ==> Absorbs(v, ty)
    case Requested(_) => true
    case Deleted(_) => true
    case RemovedFrom(o, x) => !Overlooked(id, v.table, o, x)
  }

  /** And for the declared type to stay a Hub's. */
  ghost predicate ClassGuard(v: View, e: HubEvent) {
    match e
    case Direct(_, ty, _) => KeepsClass(v, ty)
    case Indirect(_, p, ty) => p in v.table ==> KeepsClass(v, ty)
    case Requested(_) => true
    case Deleted(_) => true
    case RemovedFrom(_, _) => true
  }

  ghost predicate Guard(id: DeviceId, v: View, e: HubEvent) { LeafGuard(id, v, e) && ClassGuard(v, e) }

  ghost predicate WellTyped(id: DeviceId, t: Table) {
    HangsFrom(t, id) && LeavesAreChildless(t) && Compatible(t)
  }

  lemma DirectWellTyped(id: DeviceId, t: Table, x: DeviceId, ty: DeviceType, fd: int)
    requires WellTyped(id, t) && x != id && SameKind(t, x, ty)
    ensures WellTyped(id, Put(t, x, 0, ty, id, fd))
  {
    var u := Put(t, x, 0, ty, id, fd);
    BelowUnfold(t, id, x);
    PutAcyclicIff(t, x, Entry(0, ty, id, fd));
    assert forall y | y in t :: ChildType(u[y].deviceType) == ChildType(t[y].deviceType);
    assert forall y | y in t :: ControlClass(u[y].deviceType) == ControlClass(t[y].deviceType);
  }

  lemma LearnWellTyped(id: DeviceId, t: Table, x: DeviceId, p: DeviceId, ty: DeviceType)
    requires WellTyped(id, t) && p in t && x != id && p != x && !Below(t, p, x) && IsControl(t[p].deviceType)
    requires SameKind(t, x, ty) && (!IsEmpty(ty) ==> ChainAccepts(t, p, ChildType(ty)))
    ensures WellTyped(id, Learn(t, x, p, ty))
  {
    var u, w := Put(t, x, 0, ty, p, t[p].hop), Learn(t, x, p, ty);
    LearnedDirect(id, t, x, p, ty, w);
    LearnIsCompatible(t, x, p, ty);
  }

  /** Taking a branch away and emptying types from a control device upwards keeps a table well typed. */
  lemma RemovalWellTyped(id: DeviceId, t: Table, x: DeviceId, parent: DeviceId, from: DeviceId)
    requires WellTyped(id, t) && x in t && (from in t ==> IsControl(t[from].deviceType))
    ensures Acyclic(TableOps.Remove(t, x, parent)) && WellTyped(id, EmptyUp(TableOps.Remove(t, x, parent), from))
  {
    var u := TableOps.Remove(t, x, parent);
    if t[x].parent == parent {
      RemoveHangs(t, id, x);
    }
    EmptyUpShape(u, from);
    EmptyUpKeepsCompatible(u, from);
    SameTreeHangs(u, EmptyUp(u, from), id);
  }

  lemma StepKeepsWellTyped(id: DeviceId, s: HubState, e: HubEvent)
    requires WellTyped(id, s.view.table) && Enabled(id, s, e) && Sound(s.view.table, e)
    ensures WellTyped(id, Step(id, s, e).view.table)
  {
    var t := s.view.table;
    match e
    case Direct(x, ty, fd) =>
      DirectWellTyped(id, t, x, ty, fd);
    case Indirect(x, p, ty) =>
      if p in t {
        LearnWellTyped(id, t, x, p, ty);
      }
    case Requested(x) =>
      if x in t {
        RemovalWellTyped(id, t, x, id, t[x].parent);
      }
    case Deleted(x) =>
      if x in t {
        RemovalWellTyped(id, t, x, t[x].parent, t[x].parent);
      }
    case RemovedFrom(o, x) =>
      if x in t {
        RemovalWellTyped(id, t, x, o, o);
      }
  }

  lemma StepAgreesIff(id: DeviceId, s: HubState, e: HubEvent)
    requires WellTyped(id, s.view.table) && Enabled(id, s, e) && Sound(s.view.table, e) && Agrees(id, s.view)
    ensures Agrees(id, Step(id, s, e).view) <==> LeafGuard(id, s.view, e)
  {
    var v := s.view;
    match e
    case Direct(x, ty, fd) => AddDirectAgreesIff(id, v, x, ty, fd);
    case Indirect(x, p, ty) =>
      if p in v.table {
        AddIndirectAgreesIff(id, v, x, p, ty);
      }
    case Requested(x) => RequestedAgrees(id, v, x);
    case Deleted(x) => DeletedAgrees(id, v, x);
    case RemovedFrom(o, x) => RemovedBelowAgreesIff(id, v, o, x);
  }

  lemma StepKeepsClassIff(id: DeviceId, s: HubState, e: HubEvent)
    requires Enabled(id, s, e) && ControlClass(s.view.deviceType) == HUB_DEVICE
    ensures ControlClass(Step(id, s, e).view.deviceType) == HUB_DEVICE <==> ClassGuard(s.view, e)
  {
    HubBits(HUB_DEVICE);
    if e.Direct? || e.Indirect? {
      HubBits(e.ty);
    }
  }

  /** One event leaves the declared type in step exactly when its guard holds. */
  lemma StepFollowsIff(id: DeviceId, s: HubState, e: HubEvent)
    requires WellTyped(id, s.view.table) && Enabled(id, s, e) && Sound(s.view.table, e) && Follows(id, s.view)
    ensures Follows(id, Step(id, s, e).view) <==> Guard(id, s.view, e)
  {
    StepAgreesIff(id, s, e);
    StepKeepsClassIff(id, s, e);
  }

  ghost predicate SoundRun(id: DeviceId, s: HubState, es: seq<HubEvent>)
    decreases |es|
  {
    es == [] ||
    (Enabled(id, s, es[0]) && Sound(s.view.table, es[0]) && SoundRun(id, Step(id, s, es[0]), es[1..]))
  }

  lemma {:induction false} SoundAppend(id: DeviceId, s: HubState, es: seq<HubEvent>, e: HubEvent)
    requires SoundRun(id, s, es) && IsRun(id, s, es)
    requires Enabled(id, Final(id, s, es), e) && Sound(Final(id, s, es).view.table, e)
    ensures SoundRun(id, s, es + [e])
    decreases |es|
  {
    if es != [] {
      SoundAppend(id, Step(id, s, es[0]), es[1..], e);
      assert (es + [e])[1..] == es[1..] + [e];
    }
  }

  ghost predicate Guarded(id: DeviceId, s: HubState, es: seq<HubEvent>)
    requires SoundRun(id, s, es)
    decreases |es|
  {
    es == [] || (Guard(id, s.view, es[0]) && Guarded(id, Step(id, s, es[0]), es[1..]))
  }

  /** The declared type is in step before, between and after the events. */
  ghost predicate AlwaysFollows(id: DeviceId, s: HubState, es: seq<HubEvent>)
    requires SoundRun(id, s, es)
    decreases |es|
  {
    Follows(id, s.view) && (es == [] || AlwaysFollows(id, Step(id, s, es[0]), es[1..]))
  }

  lemma {:induction false} RunFollowsIff(id: DeviceId, s: HubState, es: seq<HubEvent>)
    requires WellTyped(id, s.view.table) && SoundRun(id, s, es) && Follows(id, s.view)
    ensures AlwaysFollows(id, s, es) <==> Guarded(id, s, es)
    ensures IsRun(id, s, es)
    ensures Guarded(id, s, es) ==> Follows(id, Final(id, s, es).view)
    decreases |es|
  {
    SoundIsRun(id, s, es);
    if es != [] {
      var u := Step(id, s, es[0]);
      StepFollowsIff(id, s, es[0]);
      StepKeepsWellTyped(id, s, es[0]);
      if Follows(id, u.view) {
        RunFollowsIff(id, u, es[1..]);
      }
    }
  }

  lemma {:induction false} SoundIsRun(id: DeviceId, s: HubState, es: seq<HubEvent>)
    requires SoundRun(id, s, es)
    ensures IsRun(id, s, es)
    decreases |es|
  {
    if es != [] {
      SoundIsRun(id, Step(id, s, es[0]), es[1..]);
    }
  }

  /**
   The Hub declares itself a Hub of the leaf type found directly below it, at every moment of a run, exactly
   when every event meets its guard. At the end of such a run a switch is broadcast exactly when some direct
   child takes it.
   */
  lemma DeclaredTypeFollowsIff(id: DeviceId, es: seq<HubEvent>, code: Code)
    requires SoundRun(id, START, es)
    ensures IsRun(id, START, es)
    ensures AlwaysFollows(id, START, es) <==> Guarded(id, START, es)
    ensures var v := Final(id, START, es).view;
            Guarded(id, START, es) ==>
              (SwitchFits(v.deviceType, code) <==>
               exists c :: DirectNonEmpty(id, v.table, c) && SwitchFits(v.table[c].deviceType, code))
  {
    StartIsSound(id);
    HubBits(HUB_DEVICE);
    RunFollowsIff(id, START, es);
    var v := Final(id, START, es).view;
    if Guarded(id, START, es) {
      TakenByChildIff(id, v, code);
    }
  }

  /** When the declared type is in step, its label is right exactly when some direct child takes the switch. */
  lemma TakenByChildIff(id: DeviceId, v: View, code: Code)
    requires Agrees(id, v)
    ensures SwitchFits(v.deviceType, code) <==>
            exists c :: DirectNonEmpty(id, v.table, c) && SwitchFits(v.table[c].deviceType, code)
  {
    if SwitchFits(v.deviceType, code) {
      FitsNonEmpty(v.deviceType, code);
      var c :| DirectNonEmpty(id, v.table, c);
      assert SwitchFits(v.table[c].deviceType, code);
    }
  }

  /** Two tables record the same non-empty devices directly below `id`, with the same leaf types. */
  ghost predicate SameBelow(id: DeviceId, t: Table, u: Table) {
    && (forall c :: DirectNonEmpty(id, t, c) <==> DirectNonEmpty(id, u, c))
    && forall c | DirectNonEmpty(id, t, c) :: ChildType(t[c].deviceType) == ChildType(u[c].deviceType)
  }

  /**
   What a Hub in step declares is what the Controller takes it to declare: if both record the same non-empty
   devices below the Hub, its remove-child answers are truthful.
   */
  lemma FollowingIsTruthful(id: DeviceId, v: View, t: Table)
    requires Follows(id, v) && Compatible(t) && SameBelow(id, v.table, t)
    requires id in t && ControlClass(t[id].deviceType) == HUB_DEVICE
    ensures Truthful(t, id, v.deviceType)
  {
    HubBits(v.deviceType);
    if HasNonEmptyChild(t, id) {
      var c :| NonEmpty(t, c) && t[c].parent == id;
      assert DirectNonEmpty(id, t, c);
    }
  }

  lemma FitsNonEmpty(ty: DeviceType, code: Code)
    requires SwitchFits(ty, code)
    ensures !IsEmpty(ty)
  {
  }

  // ---------------------------------------------------------------- where it fails

  /** A Timer's own bit stays in the declared type, which then no longer takes the leaf type of the next child. */
  lemma TimerChildHidesType(id: DeviceId, a: DeviceId, b: DeviceId, fd: int)
    requires a != b && a != id && b != id
    ensures var v := AddDirect(id, AddDirect(id, START.view, a, TIMER_DEVICE, fd), b, BULB_DEVICE, fd);
            IsEmpty(v.deviceType) && DirectNonEmpty(id, v.table, b) && !Agrees(id, v)
  {
    var v := AddDirect(id, START.view, a, TIMER_DEVICE, fd);
    HubBits(TIMER_DEVICE);
    AddDirectAgreesIff(id, START.view, a, TIMER_DEVICE, fd);
    AddDirectAgreesIff(id, v, b, BULB_DEVICE, fd);
    assert forall c | DirectNonEmpty(id, v.table, c) :: false;
  }

  /**
   A bulb linked below a child Hub `a` and then to this Hub itself: the remove-child response of `a`
   makes this Hub declare that nothing is left, with the bulb directly below it.
   */
  lemma MovedUpIsForgotten(id: DeviceId, a: DeviceId, x: DeviceId, fd: int) returns (es: seq<HubEvent>)
    requires a != x && a != id && x != id
    ensures IsRun(id, START, es)
    ensures var v := Final(id, START, es).view;
            v.deviceType == HUB_DEVICE && DirectNonEmpty(id, v.table, x) && !Agrees(id, v)
    ensures Final(id, START, es) ==
            var t := map[a := Entry(0, HUB_DEVICE, id, fd), x := Entry(0, BULB_DEVICE, id, fd)];
            HubState(View(t, 2, true, HUB_DEVICE), {})
  {
    var e1, e2 := Direct(a, HUB_DEVICE, fd), Indirect(x, a, BULB_DEVICE);
    var e3, e4 := Direct(x, BULB_DEVICE, fd), RemovedFrom(a, x);
    BitsOfThree();
    var s1 := FirstHub(id, a, fd);
    BelowUnfold(s1.view.table, a, x);
    BelowUnfold(s1.view.table, id, x);
    var s2 := BulbBelow(id, a, x, fd, s1);
    StepKeepsWellTyped(id, s2, e3);
    var s3 := Step(id, s2, e3);
    assert s3.view.table == map[a := Entry(0, HUB_DEVICE | BULB_DEVICE, id, fd), x := Entry(0, BULB_DEVICE, id, fd)];
    var s4 := Step(id, s3, e4);
    assert s4.view.table == map[a := Entry(0, HUB_DEVICE, id, fd), x := Entry(0, BULB_DEVICE, id, fd)];
    es := [e1, e2, e3, e4];
    OneStep(id, s3, e4, []);
    OneStep(id, s2, e3, [e4]);
    OneStep(id, s1, e2, [e3, e4]);
    OneStep(id, START, e1, [e2, e3, e4]);
  }

  /** A child Hub announces itself. */
  lemma FirstHub(id: DeviceId, a: DeviceId, fd: int) returns (s: HubState)
    requires a != id
    ensures Enabled(id, START, Direct(a, HUB_DEVICE, fd)) && s == Step(id, START, Direct(a, HUB_DEVICE, fd))
    ensures WellTyped(id, s.view.table)
    ensures s == HubState(View(map[a := Entry(0, HUB_DEVICE, id, fd)], 1, true, HUB_DEVICE), {})
  {
    StartIsSound(id);
    BitsOfThree();
    StepKeepsWellTyped(id, START, Direct(a, HUB_DEVICE, fd));
    s := Step(id, START, Direct(a, HUB_DEVICE, fd));
  }

  /** A bulb is linked below it. */
  lemma BulbBelow(id: DeviceId, a: DeviceId, x: DeviceId, fd: int, s1: HubState) returns (s: HubState)
    requires s1 == HubState(View(map[a := Entry(0, HUB_DEVICE, id, fd)], 1, true, HUB_DEVICE), {})
    requires a != x && a != id && x != id && WellTyped(id, s1.view.table) && !Below(s1.view.table, a, x)
    ensures Enabled(id, s1, Indirect(x, a, BULB_DEVICE)) && s == Step(id, s1, Indirect(x, a, BULB_DEVICE))
    ensures WellTyped(id, s.view.table)
    ensures s.view.table == map[a := Entry(0, HUB_DEVICE | BULB_DEVICE, id, fd), x := Entry(0, BULB_DEVICE, a, fd)]
    ensures s == HubState(View(s.view.table, 1, true, HUB_DEVICE | BULB_DEVICE), {})
  {
    BitsOfThree();
    var u := Put(s1.view.table, x, 0, BULB_DEVICE, a, fd);
    var filled := WithType(u, a, HUB_DEVICE | BULB_DEVICE);
    assert FillUp(filled, id, BULB_DEVICE) == filled;
    assert FillAbove(u, x) == filled;
    BelowUnfold(s1.view.table, id, a);
    StepKeepsWellTyped(id, s1, Indirect(x, a, BULB_DEVICE));
    s := Step(id, s1, Indirect(x, a, BULB_DEVICE));
  }

  lemma OneStep(id: DeviceId, s: HubState, e: HubEvent, rest: seq<HubEvent>)
    requires Enabled(id, s, e) && IsRun(id, Step(id, s, e), rest)
    ensures IsRun(id, s, [e] + rest)
    ensures Final(id, s, [e] + rest) == Final(id, Step(id, s, e), rest)
  {
    assert ([e] + rest)[1..] == rest;
  }

  lemma BitsOfThree()
    ensures HUB_DEVICE | HUB_DEVICE == HUB_DEVICE && IsEmpty(HUB_DEVICE) && !IsEmpty(BULB_DEVICE)
    ensures FilledType(HUB_DEVICE, ChildType(BULB_DEVICE)) == HUB_DEVICE | BULB_DEVICE
    ensures EmptiedType(HUB_DEVICE | BULB_DEVICE) == HUB_DEVICE && !IsEmpty(HUB_DEVICE | BULB_DEVICE)
    ensures IsControl(HUB_DEVICE) && ChildType(HUB_DEVICE) == 0 && ChildType(BULB_DEVICE) == BULB_DEVICE
  {
  }
}
