/**
 The Hub's own bookkeeping: its routing table, the counter of direct children that sizes each
 broadcast array, and the type it declares to its parent.
 */
module HubTable {
  import opened Devices
  import opened Forest
  import opened TableOps
  import opened Topology
  import opened Replay

  /** `children` is an unsigned 32-bit counter. */
  const COUNTER_RANGE := 0x1_0000_0000

  datatype View = View(table: Table, children: int, hasChildren: bool, deviceType: DeviceType)

  /** A change-parent response of `x` naming this Hub, whose pipe has been opened as `fd`. */
  ghost function AddDirect(id: DeviceId, v: View, x: DeviceId, ty: DeviceType, fd: int): View {
    View(Put(v.table, x, 0, ty, id, fd),
         (v.children + 1) % COUNTER_RANGE,
         v.hasChildren || v.deviceType == HUB_DEVICE,
         if v.deviceType == HUB_DEVICE then HUB_DEVICE | ty else v.deviceType)
  }

  /** A change-parent response of `x` naming a device below this Hub. */
  ghost function AddIndirect(v: View, x: DeviceId, p: DeviceId, ty: DeviceType): View {
    if p !in v.table then v
    else v.(table := Learn(v.table, x, p, ty),
            deviceType := if v.deviceType == HUB_DEVICE then HUB_DEVICE | ty else v.deviceType)
  }

  /** `update_type`: the declared type is emptied when no direct child but `x` is non-empty. */
  ghost predicate NothingLeft(t: Table, id: DeviceId, x: DeviceId) {
    forall c | NonEmpty(t, c) && t[c].parent == id :: c == x
  }

  ghost function AfterRemoval(id: DeviceId, v: View, t: Table, counted: bool, x: DeviceId): View {
    var n := if counted then (v.children - 1) % COUNTER_RANGE else v.children;
    View(t, n, if counted && n == 0 then false else v.hasChildren,
         if NothingLeft(t, id, x) then HUB_DEVICE else v.deviceType)
  }

  ghost function Unhook(t: Table, x: DeviceId, parent: DeviceId): Table
    requires Acyclic(t) && x in t
  {
    var u := Remove(t, x, parent);
    SubTableAcyclic(u, t);
    EmptyUp(u, t[x].parent)
  }

  /**
   A remove-child request from above, refused by a Hub that knows of no children: the counter goes down
   even if `x` has moved deeper in the meantime.
   */
  ghost function RemoveRequested(id: DeviceId, v: View, x: DeviceId): View
    requires Acyclic(v.table)
  {
    if !v.hasChildren || x !in v.table then v
    else AfterRemoval(id, v, Unhook(v.table, x, id), true, x)
  }

  /** An unsolicited delete response of `x`. */
  ghost function ChildDeleted(id: DeviceId, v: View, x: DeviceId): View
    requires Acyclic(v.table)
  {
    if x !in v.table then v
    else AfterRemoval(id, v, Unhook(v.table, x, v.table[x].parent), v.table[x].parent == id, x)
  }

  /** A remove-child response passing through from a control device `s` below. */
  ghost function RemovedBelow(id: DeviceId, v: View, s: DeviceId, x: DeviceId): View
    requires Acyclic(v.table)
  {
    if x !in v.table then v
    else
      var u := Remove(v.table, x, s);
      SubTableAcyclic(u, v.table);
      var t := EmptyUp(u, s);
      v.(table := t, deviceType := if NothingLeft(t, id, x) then HUB_DEVICE else v.deviceType)
  }

  // ---------------------------------------------------------------- runs

  datatype HubEvent =
    | Direct(x: DeviceId, ty: DeviceType, fd: int)
    | Indirect(x: DeviceId, p: DeviceId, ty: DeviceType)
    | Requested(x: DeviceId)
    | Deleted(x: DeviceId)
    | RemovedFrom(s: DeviceId, x: DeviceId)

  /** `owed` are the children that moved deeper and whose removal the Controller has still to request. */
  datatype HubState = HubState(view: View, owed: set<DeviceId>)

  /**
   No message names the Hub itself as a device below it, a move never closes a cycle, and a removal is
   requested of a direct child or of a child whose removal is owed.
   */
  ghost predicate Enabled(id: DeviceId, s: HubState, e: HubEvent) {
    var t := s.view.table;
    && Acyclic(t)
    && match e
       case Direct(x, _, _) => x != id
       case Indirect(x, p, _) => x != id && p != id && p != x && !Below(t, p, x)
       case Requested(x) => x in t ==> t[x].parent == id || x in s.owed
       case Deleted(x) => true
       case RemovedFrom(o, x) => o != id
  }

  ghost function Step(id: DeviceId, s: HubState, e: HubEvent): HubState
    requires Enabled(id, s, e)
  {
    var t := s.view.table;
    match e
    case Direct(x, ty, fd) => s.(view := AddDirect(id, s.view, x, ty, fd))
    case Indirect(x, p, ty) =>
      HubState(AddIndirect(s.view, x, p, ty),
               if p in t && x in t && t[x].parent == id then s.owed + {x} else s.owed)
    case Requested(x) =>
      HubState(RemoveRequested(id, s.view, x),
               if x in t && t[x].parent == id then s.owed else s.owed - {x})
    case Deleted(x) => s.(view := ChildDeleted(id, s.view, x))
    case RemovedFrom(o, x) => s.(view := RemovedBelow(id, s.view, o, x))
  }

  /** `steps` bounds how often the counter has gone up. */
  ghost predicate Invariant(id: DeviceId, s: HubState, steps: nat) {
    var v := s.view;
    && HangsFrom(v.table, id)
    && |DirectChildren(v.table, id)| + |s.owed| <= v.children <= steps
    && (v.hasChildren || (v.deviceType == HUB_DEVICE && DirectChildren(v.table, id) == {}))
  }

  /** Same devices under the same parents. */
  ghost predicate SameTree(t: Table, u: Table) {
    t.Keys == u.Keys && forall x | x in t :: t[x].parent == u[x].parent
  }

  lemma SameTreeHangs(t: Table, u: Table, id: DeviceId)
    requires SameTree(t, u)
    ensures HangsFrom(t, id) <==> HangsFrom(u, id)
    ensures DirectChildren(t, id) == DirectChildren(u, id)
  {
    SameShape(t, u);
  }

  /** Removing a branch takes at most its root from the direct children. */
  lemma RemoveHangs(t: Table, id: DeviceId, x: DeviceId)
    requires HangsFrom(t, id) && x in t
    ensures HangsFrom(RemoveTree(t, x), id)
    ensures DirectChildren(RemoveTree(t, x), id) == DirectChildren(t, id) - {x}
  {
    var u := RemoveTree(t, x);
    SubTableAcyclic(u, t);
    forall y | y in u && t[y].parent in t ensures t[y].parent in u {
      BelowUnfold(t, y, x);
    }
    forall y | y in t && t[y].parent == id ensures !Below(t, y, x) {
      BelowUnfold(t, y, x);
      BelowUnfold(t, id, x);
    }
  }

  lemma UnhookHangs(t: Table, id: DeviceId, x: DeviceId, parent: DeviceId)
    requires HangsFrom(t, id) && x in t
    ensures HangsFrom(Unhook(t, x, parent), id)
    ensures DirectChildren(Unhook(t, x, parent), id) ==
            if t[x].parent == parent then DirectChildren(t, id) - {x} else DirectChildren(t, id)
  {
    var u := Remove(t, x, parent);
    if t[x].parent == parent {
      RemoveHangs(t, id, x);
    }
    EmptyUpKeepsTree(u, t[x].parent);
    SameTreeHangs(u, EmptyUp(u, t[x].parent), id);
  }

  lemma OneMore(s: set<DeviceId>, x: DeviceId)
    ensures |s + {x}| == if x in s then |s| else |s| + 1
  {
    assert x in s ==> s + {x} == s;
  }

  lemma OneLess(s: set<DeviceId>, x: DeviceId)
    ensures |s - {x}| == if x in s then |s| - 1 else |s|
  {
    assert x !in s ==> s - {x} == s;
  }

  lemma DirectKeepsInvariant(id: DeviceId, s: HubState, steps: nat, x: DeviceId, ty: DeviceType, fd: int)
    requires Invariant(id, s, steps) && steps + 1 < COUNTER_RANGE && x != id
    ensures Invariant(id, HubState(AddDirect(id, s.view, x, ty, fd), s.owed), steps + 1)
  {
    var t := s.view.table;
    var u := Put(t, x, 0, ty, id, fd);
    BelowUnfold(t, id, x);
    PutAcyclicIff(t, x, Entry(0, ty, id, fd));
    assert DirectChildren(u, id) == DirectChildren(t, id) + {x};
    OneMore(DirectChildren(t, id), x);
  }

  lemma IndirectKeepsInvariant(id: DeviceId, s: HubState, steps: nat, x: DeviceId, p: DeviceId, ty: DeviceType)
    requires Invariant(id, s, steps) && Enabled(id, s, Indirect(x, p, ty))
    ensures Invariant(id, Step(id, s, Indirect(x, p, ty)), steps)
  {
    var t := s.view.table;
    if p in t {
      var u := Put(t, x, 0, ty, p, t[p].hop);
      PutAcyclicIff(t, x, Entry(0, ty, p, t[p].hop));
      FillAboveKeepsTree(u, x);
      SameTreeHangs(u, FillAbove(u, x), id);
      assert DirectChildren(u, id) == DirectChildren(t, id) - {x};
      OneMore(s.owed, x);
      SomethingDirect(t, id, p);
    }
  }

  /** A non-empty table has a direct child. */
  lemma {:induction false} SomethingDirect(t: Table, id: DeviceId, x: DeviceId)
    requires HangsFrom(t, id) && x in t
    ensures DirectChildren(t, id) != {}
    decreases Depth(t, x)
  {
    if t[x].parent == id {
      assert x in DirectChildren(t, id);
    } else {
      ChildIsDeeper(t, x);
      SomethingDirect(t, id, t[x].parent);
    }
  }

  /** What is left of the counter after a counted removal. */
  lemma AfterRemovalKeepsInvariant(id: DeviceId, s: HubState, steps: nat, u: Table, counted: bool, x: DeviceId,
                                   owed: set<DeviceId>)
    requires Invariant(id, s, steps) && steps < COUNTER_RANGE && HangsFrom(u, id)
    requires |DirectChildren(u, id)| + |owed| + (if counted then 1 else 0) <= s.view.children
    requires DirectChildren(u, id) <= DirectChildren(s.view.table, id)
    ensures Invariant(id, HubState(AfterRemoval(id, s.view, u, counted, x), owed), steps)
  {
    assert forall c | c in u && u[c].parent == id :: c in DirectChildren(u, id);
  }

  lemma RequestedKeepsInvariant(id: DeviceId, s: HubState, steps: nat, x: DeviceId)
    requires Invariant(id, s, steps) && steps < COUNTER_RANGE && Enabled(id, s, Requested(x))
    ensures Invariant(id, Step(id, s, Requested(x)), steps)
  {
    var t := s.view.table;
    OneLess(s.owed, x);
    if x in t && s.view.hasChildren {
      UnhookHangs(t, id, x, id);
      OneLess(DirectChildren(t, id), x);
      assert x in DirectChildren(t, id) <==> t[x].parent == id;
      AfterRemovalKeepsInvariant(id, s, steps, Unhook(t, x, id), true, x,
                                 if t[x].parent == id then s.owed else s.owed - {x});
    }
  }

  lemma DeletedKeepsInvariant(id: DeviceId, s: HubState, steps: nat, x: DeviceId)
    requires Invariant(id, s, steps) && steps < COUNTER_RANGE
    ensures Invariant(id, Step(id, s, Deleted(x)), steps)
  {
    var t := s.view.table;
    if x in t {
      UnhookHangs(t, id, x, t[x].parent);
      OneLess(DirectChildren(t, id), x);
      assert x in DirectChildren(t, id) <==> t[x].parent == id;
      AfterRemovalKeepsInvariant(id, s, steps, Unhook(t, x, t[x].parent), t[x].parent == id, x, s.owed);
    }
  }

  lemma RemovedFromKeepsInvariant(id: DeviceId, s: HubState, steps: nat, o: DeviceId, x: DeviceId)
    requires Invariant(id, s, steps) && o != id
    ensures Invariant(id, Step(id, s, RemovedFrom(o, x)), steps)
  {
    var t := s.view.table;
    if x in t {
      var u := Remove(t, x, o);
      if t[x].parent == o {
        RemoveHangs(t, id, x);
        assert x !in DirectChildren(t, id);
      }
      EmptyUpKeepsTree(u, o);
      SameTreeHangs(u, EmptyUp(u, o), id);
    }
  }

  lemma StepKeepsInvariant(id: DeviceId, s: HubState, steps: nat, e: HubEvent)
    requires Invariant(id, s, steps) && steps + 1 < COUNTER_RANGE && Enabled(id, s, e)
    ensures Invariant(id, Step(id, s, e), steps + 1)
  {
    match e
    case Direct(x, ty, fd) => DirectKeepsInvariant(id, s, steps, x, ty, fd);
    case Indirect(x, p, ty) => IndirectKeepsInvariant(id, s, steps, x, p, ty);
    case Requested(x) => RequestedKeepsInvariant(id, s, steps, x);
    case Deleted(x) => DeletedKeepsInvariant(id, s, steps, x);
    case RemovedFrom(o, x) => RemovedFromKeepsInvariant(id, s, steps, o, x);
  }

  ghost predicate IsRun(id: DeviceId, s: HubState, es: seq<HubEvent>)
    decreases |es|
  {
    es == [] || (Enabled(id, s, es[0]) && IsRun(id, Step(id, s, es[0]), es[1..]))
  }

  ghost function Final(id: DeviceId, s: HubState, es: seq<HubEvent>): HubState
    requires IsRun(id, s, es)
    decreases |es|
  {
    if es == [] then s else Final(id, Step(id, s, es[0]), es[1..])
  }

  /** One event more at the end of a run. */
  lemma {:induction false} RunAppend(id: DeviceId, s: HubState, es: seq<HubEvent>, e: HubEvent)
    requires IsRun(id, s, es) && Enabled(id, Final(id, s, es), e)
    ensures IsRun(id, s, es + [e]) && Final(id, s, es + [e]) == Step(id, Final(id, s, es), e)
    decreases |es|
  {
    if es != [] {
      RunAppend(id, Step(id, s, es[0]), es[1..], e);
      assert (es + [e])[1..] == es[1..] + [e];
    }
  }

  const START := HubState(View(map[], 0, false, HUB_DEVICE), {})

  lemma StartIsSound(id: DeviceId)
    ensures Invariant(id, START, 0)
  {
    assert DirectChildren(START.view.table, id) == {};
  }

  lemma {:induction false} RunKeepsInvariant(id: DeviceId, s: HubState, steps: nat, es: seq<HubEvent>)
    requires Invariant(id, s, steps) && IsRun(id, s, es) && steps + |es| < COUNTER_RANGE
    ensures Invariant(id, Final(id, s, es), steps + |es|)
    decreases |es|
  {
    if es != [] {
      StepKeepsInvariant(id, s, steps, es[0]);
      RunKeepsInvariant(id, Step(id, s, es[0]), steps + 1, es[1..]);
    }
  }

  /**
   The array allocated for a broadcast has a slot for every direct child, and a Hub with a direct child
   knows that it has children, in every run that does not wrap the counter.
   */
  lemma BroadcastFits(id: DeviceId, es: seq<HubEvent>)
    requires IsRun(id, START, es) && |es| < COUNTER_RANGE
    ensures var v := Final(id, START, es).view;
            && |DirectChildren(v.table, id)| <= v.children
            && (DirectChildren(v.table, id) != {} ==> v.hasChildren)
  {
    StartIsSound(id);
    RunKeepsInvariant(id, START, 0, es);
  }

  /**
   The counter is only a bound: announcing one child twice and deleting it leaves a Hub that believes in a
   child it has not.
   */
  lemma CounterOverestimates(id: DeviceId, x: DeviceId, fd: int) returns (es: seq<HubEvent>)
    requires x != id
    ensures es == [Direct(x, BULB_DEVICE, fd), Direct(x, BULB_DEVICE, fd), Deleted(x)] && IsRun(id, START, es)
    ensures Final(id, START, es) == HubState(View(map[], 1, true, HUB_DEVICE), {})
  {
    var e := Direct(x, BULB_DEVICE, fd);
    es := [e, e, Deleted(x)];
    StartIsSound(id);
    DirectKeepsInvariant(id, START, 0, x, BULB_DEVICE, fd);
    var s1 := Step(id, START, e);
    DirectKeepsInvariant(id, s1, 1, x, BULB_DEVICE, fd);
    var s2 := Step(id, s1, e);
    var t := s2.view.table;
    assert t == map[x := Entry(0, BULB_DEVICE, id, fd)];
    assert RemoveTree(t, x) == map[];
    var s3 := Step(id, s2, Deleted(x));
    assert IsRun(id, s3, []) && Final(id, s3, []) == s3;
    assert es[1..] == [e, Deleted(x)] && es[1..][1..] == [Deleted(x)] && es[1..][1..][1..] == [];
    assert IsRun(id, s2, [Deleted(x)]) && Final(id, s2, [Deleted(x)]) == s3;
    assert IsRun(id, s1, [e, Deleted(x)]) && Final(id, s1, [e, Deleted(x)]) == s3;
  }
}
