/** What a Timer knows of the single branch below it, and the type it declares to its parent. */
module TimerTable {
  import opened Devices
  import opened Forest
  import opened TableOps
  import opened Protocol
  import opened Topology
  import opened Replay
  import HubTable

  datatype View = View(table: Table, hasChild: bool, childId: DeviceId, childType: DeviceType, deviceType: DeviceType)

  /** The child's type is the recorded one if it is recorded, and the Timer declares its leaf bits. */
  ghost function Refreshed(v: View): View {
    var ty := if v.childId in v.table then v.table[v.childId].deviceType else v.childType;
    v.(childType := ty, deviceType := TIMER_DEVICE | ChildType(ty))
  }

  ghost function RefreshedIf(v: View): View { if v.hasChild then Refreshed(v) else v }

  /** A change-parent response of `x` naming this Timer: only a control device is recorded in the table. */
  ghost function AcquireChild(id: DeviceId, v: View, x: DeviceId, ty: DeviceType, fd: int): View {
    var t := if IsControl(ty) then Put(v.table, x, 0, ty, id, fd) else v.table;
    Refreshed(View(t, true, x, ty, v.deviceType))
  }

  /** A change-parent response naming a device below. */
  ghost function AcquireDescendant(v: View, x: DeviceId, p: DeviceId, ty: DeviceType): View {
    if p !in v.table then v else RefreshedIf(v.(table := Learn(v.table, x, p, ty)))
  }

  ghost function DropChild(id: DeviceId, v: View): View {
    v.(table := Remove(v.table, v.childId, id), hasChild := false, deviceType := TIMER_DEVICE)
  }

  /** A delete response of `x`. */
  ghost function ReleaseChild(id: DeviceId, v: View, x: DeviceId): View
    requires Acyclic(v.table)
  {
    if v.hasChild && x == v.childId then DropChild(id, v)
    else if x !in v.table then v
    else RefreshedIf(v.(table := HubTable.Unhook(v.table, x, v.table[x].parent)))
  }

  /** A remove-child response of `o`, which no longer has `x` below it. */
  ghost function ReleaseRemoved(v: View, o: DeviceId, x: DeviceId): View
    requires Acyclic(v.table)
  {
    if x !in v.table || v.table[x].parent != o then v
    else RefreshedIf(v.(table := HubTable.Unhook(v.table, x, o)))
  }

  /** What a response of the child's branch changes on its way up. */
  ghost function Followed(id: DeviceId, v: View, r: Response, fd: int): View
    requires Acyclic(v.table) && (IsLink(r.commandCode) && r.responseCode == OK ==> |r.arguments| >= 2)
  {
    if IsLink(r.commandCode) && r.responseCode == OK then
      if IsRemoveChild(r.commandCode) then ReleaseRemoved(v, r.source, r.arguments[0])
      else if r.arguments[0] == id then AcquireChild(id, v, r.source, ArgumentType(r.arguments[1]), fd)
      else AcquireDescendant(v, r.source, r.arguments[0], ArgumentType(r.arguments[1]))
    else if IsDelete(r.commandCode) then ReleaseChild(id, v, r.source)
    else v
  }

  // ---------------------------------------------------------------- runs

  datatype TimerEvent =
    | Child(x: DeviceId, ty: DeviceType, fd: int)
    | Descendant(x: DeviceId, p: DeviceId, ty: DeviceType)
    | Deleted(x: DeviceId)
    | RemovedFrom(o: DeviceId, x: DeviceId)
    | ChildRemoved

  /** A second child is never linked, a device keeps its class, and no message names the Timer as below itself. */
  ghost predicate Enabled(id: DeviceId, v: View, e: TimerEvent) {
    && Acyclic(v.table)
    && match e
       case Child(x, ty, _) =>
         x != id && (v.hasChild ==> x == v.childId && (IsControl(ty) <==> IsControl(v.childType)))
       case Descendant(x, p, ty) =>
         && x != id && p != id && p != x && !Below(v.table, p, x)
         && (x in v.table ==> v.table[x].parent != id)
       case Deleted(x) => true
       case RemovedFrom(o, x) => o != id
       case ChildRemoved => v.hasChild
  }

  ghost function Step(id: DeviceId, v: View, e: TimerEvent): View
    requires Enabled(id, v, e)
  {
    match e
    case Child(x, ty, fd) => AcquireChild(id, v, x, ty, fd)
    case Descendant(x, p, ty) => AcquireDescendant(v, x, p, ty)
    case Deleted(x) => ReleaseChild(id, v, x)
    case RemovedFrom(o, x) => ReleaseRemoved(v, o, x)
    case ChildRemoved => DropChild(id, v)
  }

  /** The one device recorded directly below the Timer is its control child. */
  ghost predicate OneBranch(id: DeviceId, v: View) {
    && HangsFrom(v.table, id)
    && DirectChildren(v.table, id) == (if v.hasChild && IsControl(v.childType) then {v.childId} else {})
    && (v.hasChild ==> v.childId != id)
  }

  /** The known type of a control child is the recorded one, and the declared type carries its leaf bits. */
  ghost predicate TypesFollow(v: View) {
    && (v.hasChild && v.childId in v.table ==> v.childType == v.table[v.childId].deviceType)
    && v.deviceType == if v.hasChild then TIMER_DEVICE | ChildType(v.childType) else TIMER_DEVICE
  }

  ghost predicate Invariant(id: DeviceId, v: View) { OneBranch(id, v) && TypesFollow(v) }

  /** Without a direct child there is no entry at all. */
  lemma NoBranch(t: Table, id: DeviceId)
    requires HangsFrom(t, id) && DirectChildren(t, id) == {}
    ensures t == map[]
  {
    if x :| x in t {
      HubTable.SomethingDirect(t, id, x);
    }
  }

  lemma ChildKeeps(id: DeviceId, v: View, x: DeviceId, ty: DeviceType, fd: int)
    requires Invariant(id, v) && Enabled(id, v, Child(x, ty, fd))
    ensures Invariant(id, AcquireChild(id, v, x, ty, fd))
  {
    var t := v.table;
    if IsControl(ty) {
      var u := Put(t, x, 0, ty, id, fd);
      BelowUnfold(t, id, x);
      PutAcyclicIff(t, x, Entry(0, ty, id, fd));
      assert DirectChildren(u, id) == DirectChildren(t, id) + {x};
    } else {
      NoBranch(t, id);
    }
  }

  /** Learning a device deeper down leaves the direct entries where they are, and control devices are still such. */
  lemma LearnedDeeper(id: DeviceId, t: Table, x: DeviceId, p: DeviceId, ty: DeviceType)
    requires HangsFrom(t, id) && p in t && x != id && p != id && p != x && !Below(t, p, x)
    requires x in t ==> t[x].parent != id
    ensures HangsFrom(Learn(t, x, p, ty), id) && DirectChildren(Learn(t, x, p, ty), id) == DirectChildren(t, id)
    ensures forall c | c in t && c != x ::
              c in Learn(t, x, p, ty)
              && ControlClass(Learn(t, x, p, ty)[c].deviceType) == ControlClass(t[c].deviceType)
  {
    var u := Put(t, x, 0, ty, p, t[p].hop);
    PutAcyclicIff(t, x, Entry(0, ty, p, t[p].hop));
    FillAboveKeepsTree(u, x);
    HubTable.SameTreeHangs(u, FillAbove(u, x), id);
    assert DirectChildren(u, id) == DirectChildren(t, id);
    FillAboveShape(u, x);
  }

  lemma DescendantKeeps(id: DeviceId, v: View, x: DeviceId, p: DeviceId, ty: DeviceType)
    requires Invariant(id, v) && Enabled(id, v, Descendant(x, p, ty))
    ensures Invariant(id, AcquireDescendant(v, x, p, ty))
  {
    var t, c := v.table, v.childId;
    if p in t {
      LearnedDeeper(id, t, x, p, ty);
      HubTable.SomethingDirect(t, id, p);
      assert c in DirectChildren(t, id);
      assert ControlClass(Learn(t, x, p, ty)[c].deviceType) == ControlClass(t[c].deviceType);
    }
  }

  /** A control device stays one when types are emptied. */
  lemma {:induction false} EmptyUpKeepsControl(t: Table, x: DeviceId)
    requires Acyclic(t)
    ensures EmptyUp(t, x).Keys == t.Keys
    ensures forall y | y in t && IsControl(t[y].deviceType) :: IsControl(EmptyUp(t, x)[y].deviceType)
    decreases Depth(t, x)
  {
    if NonEmpty(t, x) {
      var u := if HasNonEmptyChild(t, x) then t else WithType(t, x, EmptiedType(t[x].deviceType));
      ChildIsDeeper(t, x);
      SameShape(t, u);
      if t[x].parent in t {
        EmptyUpKeepsControl(u, t[x].parent);
      }
    }
  }

  /** Taking a device other than the child out of the branch. */
  lemma UnhookKeeps(id: DeviceId, v: View, x: DeviceId)
    requires Invariant(id, v) && x in v.table && v.table[x].parent != id
    ensures Invariant(id, RefreshedIf(v.(table := HubTable.Unhook(v.table, x, v.table[x].parent))))
  {
    var t := v.table;
    var p := t[x].parent;
    var u := RemoveTree(t, x);
    HubTable.SomethingDirect(t, id, x);
    HubTable.UnhookHangs(t, id, x, p);
    assert v.childId in DirectChildren(t, id);
    assert v.childId in DirectChildren(HubTable.Unhook(t, x, p), id);
    HubTable.RemoveHangs(t, id, x);
    EmptyUpKeepsControl(u, p);
  }

  /** The child with everything below it is the whole table. */
  lemma DropKeeps(id: DeviceId, v: View)
    requires Invariant(id, v) && v.hasChild
    ensures Invariant(id, DropChild(id, v)) && DropChild(id, v).table == map[]
  {
    var t := v.table;
    if v.childId in t && t[v.childId].parent == id {
      HubTable.RemoveHangs(t, id, v.childId);
    } else {
      assert v.childId !in DirectChildren(t, id);
    }
    NoBranch(Remove(t, v.childId, id), id);
  }

  lemma StepKeepsInvariant(id: DeviceId, v: View, e: TimerEvent)
    requires Invariant(id, v) && Enabled(id, v, e)
    ensures Invariant(id, Step(id, v, e))
  {
    var t := v.table;
    assert forall x | x in t && t[x].parent == id :: x in DirectChildren(t, id);
    match e
    case Child(x, ty, fd) => ChildKeeps(id, v, x, ty, fd);
    case Descendant(x, p, ty) => DescendantKeeps(id, v, x, p, ty);
    case Deleted(x) =>
      if v.hasChild && x == v.childId {
        DropKeeps(id, v);
      } else if x in t {
        UnhookKeeps(id, v, x);
      }
    case RemovedFrom(o, x) =>
      if x in t && t[x].parent == o {
        UnhookKeeps(id, v, x);
      }
    case ChildRemoved => DropKeeps(id, v);
  }

  ghost predicate IsRun(id: DeviceId, v: View, es: seq<TimerEvent>)
    decreases |es|
  {
    es == [] || (Enabled(id, v, es[0]) && IsRun(id, Step(id, v, es[0]), es[1..]))
  }

  ghost function Final(id: DeviceId, v: View, es: seq<TimerEvent>): View
    requires IsRun(id, v, es)
    decreases |es|
  {
    if es == [] then v else Final(id, Step(id, v, es[0]), es[1..])
  }

  /** One event more at the end of a run. */
  lemma {:induction false} RunAppend(id: DeviceId, v: View, es: seq<TimerEvent>, e: TimerEvent)
    requires IsRun(id, v, es) && Enabled(id, Final(id, v, es), e)
    ensures IsRun(id, v, es + [e]) && Final(id, v, es + [e]) == Step(id, Final(id, v, es), e)
    decreases |es|
  {
    if es != [] {
      RunAppend(id, Step(id, v, es[0]), es[1..], e);
      assert (es + [e])[1..] == es[1..] + [e];
    }
  }

  /**
   In every run the table is exactly the branch of the one control child, and the declared type follows the
   child's.
   */
  lemma {:induction false} RunKeepsInvariant(id: DeviceId, v: View, es: seq<TimerEvent>)
    requires Invariant(id, v) && IsRun(id, v, es)
    ensures Invariant(id, Final(id, v, es))
    decreases |es|
  {
    if es != [] {
      StepKeepsInvariant(id, v, es[0]);
      RunKeepsInvariant(id, Step(id, v, es[0]), es[1..]);
    }
  }

  const NO_CHILD := View(map[], false, 0, 0, TIMER_DEVICE)

  lemma StartIsSound(id: DeviceId)
    ensures Invariant(id, NO_CHILD)
  {
    assert DirectChildren(NO_CHILD.table, id) == {};
  }

  // ---------------------------------------------------------------- the branch a Timer re-announces

  /** What is below the Timer: the table under a control child, or a leaf child alone. */
  ghost function Branch(id: DeviceId, v: View, fd: int): Table {
    if !v.hasChild then map[]
    else if IsControl(v.childType) then v.table
    else map[v.childId := Entry(0, v.childType, id, fd)]
  }

  lemma BranchIsAcyclic(id: DeviceId, v: View, fd: int)
    requires v.hasChild ==> v.childId != id && (IsControl(v.childType) ==> Acyclic(v.table))
    ensures Acyclic(Branch(id, v, fd))
  {
    var none: Table := map[];
    assert Acyclic(none) by {
      forall x: DeviceId ensures !Below(none, x, x) { BelowUnfold(none, x, x); }
    }
    if v.hasChild && !IsControl(v.childType) {
      var e := Entry(0, v.childType, id, fd);
      BelowUnfold(none, id, v.childId);
      PutAcyclicIff(none, v.childId, e);
      assert Branch(id, v, fd) == none[v.childId := e];
    }
  }

  /** A leaf child is announced alone. */
  lemma LeafBranch(id: DeviceId, v: View, fd: int)
    requires v.hasChild ==> v.childId != id && !IsControl(v.childType)
    ensures Acyclic(Branch(id, v, fd))
    ensures var s := Branch(id, v, fd);
            && (forall x | x in Preorder(s, id) :: x in s)
            && Announcements(s, Preorder(s, id), LINK | LINK_CHANGE_PARENT, OK) ==
               if v.hasChild then [ChangeParent(v.childId, id, v.childType)] else []
  {
    var none: Table := map[];
    assert Acyclic(none) by {
      forall x: DeviceId ensures !Below(none, x, x) { BelowUnfold(none, x, x); }
    }
    BranchIsAcyclic(id, v, fd);
    var s := Branch(id, v, fd);
    PreorderIsExact(s, id);
    var ids := Preorder(s, id);
    forall x | x in ids ensures x in s { BelowUnfold(s, x, id); }
    DistinctCount(ids);
    if v.hasChild {
      BelowUnfold(s, v.childId, id);
      assert Elements(ids) == {v.childId};
      assert ids[0] in s;
    } else {
      assert Elements(ids) == {};
    }
  }

  lemma BranchHangs(id: DeviceId, v: View, fd: int)
    requires Invariant(id, v)
    ensures HangsFrom(Branch(id, v, fd), id)
  {
    BranchIsAcyclic(id, v, fd);
  }

  /**
   A Timer that moves rebuilds its branch: after any run, whoever has recorded the Timer, and no device of the branch
   above it, ends with exactly the branch below the Timer - devices, parents and types - behind the pipe of the Timer,
   even if it had recorded some of it elsewhere, and with the parents and pipes it had of everything else.
   */
  lemma MovedTimerIsRebuilt(id: DeviceId, es: seq<TimerEvent>, fd: int, r: Table)
    requires IsRun(id, NO_CHILD, es)
    requires var s := Branch(id, Final(id, NO_CHILD, es), fd);
             Compatible(s) && id in r && forall d | d in s :: !Below(r, id, d)
    ensures var s := Branch(id, Final(id, NO_CHILD, es), fd);
            && HangsFrom(s, id)
            && (forall c | c in Preorder(s, id) :: c in s)
            && var t := LearnAll(r, Announcements(s, Preorder(s, id), LINK | LINK_CHANGE_PARENT, OK));
               && t.Keys == r.Keys + s.Keys
               && (forall d | d in s ::
                     t[d].deviceType == s[d].deviceType && t[d].parent == s[d].parent && t[d].hop == r[id].hop)
               && forall y | y in r && y !in s :: t[y].parent == r[y].parent && t[y].hop == r[y].hop
  {
    StartIsSound(id);
    RunKeepsInvariant(id, NO_CHILD, es);
    BranchHangs(id, Final(id, NO_CHILD, es), fd);
    var s := Branch(id, Final(id, NO_CHILD, es), fd);
    PreorderOfBranch(s, id);
    ReplayReroutes(r, s, id, Preorder(s, id), LINK | LINK_CHANGE_PARENT);
    ReplayTypes(r, s, id, Preorder(s, id), LINK | LINK_CHANGE_PARENT);
  }
}
