/**
 The type a Hub declares when it is asked to remove a child, and what the Controller makes of it: runs of both
 machines, one command after the other, after which the declared type does not fit the Controller's table.
 */
module Declarations {
  import opened Devices
  import opened Forest
  import opened TableOps
  import opened Topology
  import H = HubTable
  import HubTypes
  import opened TopologyRuns

  function Device(ty: DeviceType, parent: DeviceId): Entry { Entry(0, ty, parent, 0) }

  lemma TypeBits()
    ensures HUB_DEVICE | BULB_DEVICE == 0x09 && HUB_DEVICE | TIMER_DEVICE == TIMER_DEVICE
    ensures HUB_DEVICE | (TIMER_DEVICE | BULB_DEVICE) == TIMER_DEVICE | BULB_DEVICE
    ensures ChildType(BULB_DEVICE) == BULB_DEVICE && FilledType(HUB_DEVICE, BULB_DEVICE) == HUB_DEVICE | BULB_DEVICE
    ensures IsTimer(TIMER_DEVICE) && IsTimer(TIMER_DEVICE | BULB_DEVICE)
    ensures EmptiedType(HUB_DEVICE | BULB_DEVICE) == HUB_DEVICE
  {
  }

  // ---------------------------------------------------------------- the Hub

  /** A Hub gets a Timer, a bulb and a Hub, and is then asked to remove the last: it answers with a Timer's class. */
  lemma HubBecomesTimer(ty: DeviceType) returns (es: seq<H.HubEvent>)
    requires ty in {TIMER_DEVICE, TIMER_DEVICE | BULB_DEVICE}
    ensures es == [H.Direct(2, ty, 0), H.Direct(3, BULB_DEVICE, 0), H.Direct(4, HUB_DEVICE, 0), H.Requested(4)]
    ensures HubTypes.SoundRun(1, H.START, es) && H.IsRun(1, H.START, es)
    ensures H.Final(1, H.START, es).view.deviceType == ty
    ensures H.Final(1, H.START, es).view.table == map[2 := Device(ty, 1), 3 := Device(BULB_DEVICE, 1)]
  {
    var none: seq<H.HubEvent> := [];
    TypeBits();
    H.StartIsSound(1);
    var s1 := HubAdds(none, H.START, 0, 2, ty);
    var e1 := none + [H.Direct(2, ty, 0)];
    assert s1.view.table == map[2 := Device(ty, 1)];
    var s2 := HubAdds(e1, s1, 1, 3, BULB_DEVICE);
    var e2 := e1 + [H.Direct(3, BULB_DEVICE, 0)];
    assert s2.view.table == map[2 := Device(ty, 1), 3 := Device(BULB_DEVICE, 1)];
    var s3 := HubAdds(e2, s2, 2, 4, HUB_DEVICE);
    var e3 := e2 + [H.Direct(4, HUB_DEVICE, 0)];
    assert s3.view.table == map[2 := Device(ty, 1), 3 := Device(BULB_DEVICE, 1), 4 := Device(HUB_DEVICE, 1)];
    H.RunAppend(1, H.START, e3, H.Requested(4));
    HubTypes.SoundAppend(1, H.START, e3, H.Requested(4));
    es := e3 + [H.Requested(4)];
    LastChildLeaves(s3, ty);
  }

  /** One more child announces itself. */
  lemma HubAdds(es: seq<H.HubEvent>, s: H.HubState, steps: nat, x: DeviceId, ty: DeviceType) returns (u: H.HubState)
    requires H.IsRun(1, H.START, es) && H.Final(1, H.START, es) == s && H.Invariant(1, s, steps) && steps < 10 && x != 1
    requires HubTypes.SoundRun(1, H.START, es) && x !in s.view.table
    ensures HubTypes.SoundRun(1, H.START, es + [H.Direct(x, ty, 0)])
    ensures H.IsRun(1, H.START, es + [H.Direct(x, ty, 0)]) && H.Final(1, H.START, es + [H.Direct(x, ty, 0)]) == u
    ensures H.Invariant(1, u, steps + 1) && u == H.HubState(H.AddDirect(1, s.view, x, ty, 0), s.owed)
  {
    var e := H.Direct(x, ty, 0);
    H.RunAppend(1, H.START, es, e);
    HubTypes.SoundAppend(1, H.START, es, e);
    u := H.Step(1, s, e);
    H.DirectKeepsInvariant(1, s, steps, x, ty, 0);
  }

  lemma LastChildLeaves(s: H.HubState, ty: DeviceType)
    requires Acyclic(s.view.table) && s.view.deviceType == ty && s.view.hasChildren
    requires s.view.table == map[2 := Device(ty, 1), 3 := Device(BULB_DEVICE, 1), 4 := Device(HUB_DEVICE, 1)]
    ensures var v := H.RemoveRequested(1, s.view, 4);
            v.deviceType == ty && v.table == map[2 := Device(ty, 1), 3 := Device(BULB_DEVICE, 1)]
  {
    var t := s.view.table;
    forall y: DeviceId | y in t ensures !Below(t, y, 4) {
      BelowUnfold(t, y, 4);
      BelowUnfold(t, 1, 4);
    }
    var u := RemoveTree(t, 4);
    assert u == map[2 := Device(ty, 1), 3 := Device(BULB_DEVICE, 1)];
    assert NonEmpty(u, 3) && u[3].parent == 1;
  }

  /** Then a Hub moves up: the bulb that went with it is forgotten, and removing the Hub is answered by "empty". */
  lemma HubForgetsBulb() returns (es: seq<H.HubEvent>)
    ensures H.IsRun(1, H.START, es)
    ensures var v := H.Final(1, H.START, es).view;
            v.deviceType == HUB_DEVICE && v.table == map[3 := Device(BULB_DEVICE, 1)]
  {
    var before := HubTypes.MovedUpIsForgotten(1, 2, 3, 0);
    var s := H.Final(1, H.START, before);
    var t := s.view.table;
    EntriesAreFlat(t, 1);
    H.RunAppend(1, H.START, before, H.Requested(2));
    es := before + [H.Requested(2)];
    assert RemoveTree(t, 2) == map[3 := Device(BULB_DEVICE, 1)];
    TypeBits();
  }

  /** Where every entry hangs from one device that is no entry, nothing is below an entry. */
  lemma EntriesAreFlat(t: Table, id: DeviceId)
    requires id !in t && forall y | y in t :: t[y].parent == id
    ensures Acyclic(t) && forall y: DeviceId, x: DeviceId | x in t :: !Below(t, y, x)
  {
    forall y: DeviceId, x: DeviceId | x in t ensures !Below(t, y, x) {
      BelowUnfold(t, y, x);
      BelowUnfold(t, id, x);
    }
  }

  // ---------------------------------------------------------------- the Controller

  /** A new device becomes the next direct child of the Controller. */
  lemma AddNext(es: seq<Event>, s: State, ty: DeviceType, u: State) returns (next: seq<Event>)
    requires Reached(es, s) && Addable(ty) && s.lastId < 0xFFFF
    requires u == State(s.table[s.lastId + 1 := Device(ty, CONTROLLER_ID)], s.lastId + 1)
    ensures Reached(next, u)
  {
    next := es + [Added(ty, 0, 0)];
    ReachNext(es, s, Added(ty, 0, 0), u);
  }

  /** A device is linked below a Hub that hangs from the Controller. */
  lemma LinkNext(es: seq<Event>, s: State, x: DeviceId, p: DeviceId, u: State) returns (next: seq<Event>)
    requires Reached(es, s) && x in s.table && p in s.table && x != p && s.table[x].parent != p
    requires IsHub(s.table[p].deviceType) && ChainAgrees(s.table, x, p) && !Below(s.table, p, x)
    requires u == State(ParentChanged(s.table, x, p, 0), s.lastId)
    ensures Reached(next, u)
  {
    LinkCheckIff(s.table, x, p);
    next := es + [LinkAnswered(x, p, 0)];
    ReachNext(es, s, LinkAnswered(x, p, 0), u);
  }

  /** A device is linked to the Controller itself. */
  lemma UnlinkNext(es: seq<Event>, s: State, x: DeviceId, u: State) returns (next: seq<Event>)
    requires Reached(es, s) && x in s.table && s.table[x].parent != CONTROLLER_ID
    requires u == State(ParentChanged(s.table, x, CONTROLLER_ID, 0), s.lastId)
    ensures Reached(next, u)
  {
    LinkCheckIff(s.table, x, CONTROLLER_ID);
    next := es + [LinkAnswered(x, CONTROLLER_ID, 0)];
    ReachNext(es, s, LinkAnswered(x, CONTROLLER_ID, 0), u);
  }

  /** A Hub, a second device and a bulb have been added. */
  lemma ThreeDevices(second: DeviceType) returns (es: seq<Event>)
    requires second in {HUB_DEVICE, TIMER_DEVICE}
    ensures Reached(es, State(map[1 := Device(HUB_DEVICE, 0), 2 := Device(second, 0), 3 := Device(BULB_DEVICE, 0)], 3))
  {
    var none: seq<Event> := [];
    InitialIsSafe();
    var t1: Table := map[1 := Device(HUB_DEVICE, 0)];
    var t2 := t1[2 := Device(second, 0)];
    var e1 := AddNext(none, INITIAL, HUB_DEVICE, State(t1, 1));
    var e2 := AddNext(e1, State(t1, 1), second, State(t2, 2));
    es := AddNext(e2, State(t2, 2), BULB_DEVICE, State(t2[3 := Device(BULB_DEVICE, 0)], 3));
  }

  const TIMER_ROOT := Device(TIMER_DEVICE, CONTROLLER_ID)
  const TIMER_ENTRY := Device(TIMER_DEVICE, 1)
  const BULB_ENTRY := Device(BULB_DEVICE, 1)
  const BULB_HUB := Device(HUB_DEVICE | BULB_DEVICE, CONTROLLER_ID)
  const HUB_ENTRY := Device(HUB_DEVICE, 1)
  const HUB_ROOT := Device(HUB_DEVICE, CONTROLLER_ID)
  const BULB_ROOT := Device(BULB_DEVICE, CONTROLLER_ID)

  /** There is another Hub. */
  lemma FourDevices() returns (es: seq<Event>)
    ensures Reached(es, State(map[1 := HUB_ROOT, 2 := TIMER_ROOT, 3 := BULB_ROOT, 4 := HUB_ROOT], 4))
  {
    var t3: Table := map[1 := HUB_ROOT, 2 := TIMER_ROOT, 3 := BULB_ROOT];
    var t4: Table := map[1 := HUB_ROOT, 2 := TIMER_ROOT, 3 := BULB_ROOT, 4 := HUB_ROOT];
    es := ThreeDevices(TIMER_DEVICE);
    assert t3[4 := HUB_ROOT] == t4;
    es := AddNext(es, State(t3, 3), HUB_DEVICE, State(t4, 4));
  }

  /** The first gets the Timer. */
  lemma TimerLinked() returns (es: seq<Event>)
    ensures Reached(es, State(map[1 := HUB_ROOT, 2 := TIMER_ENTRY, 3 := BULB_ROOT, 4 := HUB_ROOT], 4))
  {
    var t4: Table := map[1 := HUB_ROOT, 2 := TIMER_ROOT, 3 := BULB_ROOT, 4 := HUB_ROOT];
    es := FourDevices();
    OnlyRootsAbove(t4, 1);
    TimerMoves(t4);
    es := LinkNext(es, State(t4, 4), 2, 1, State(t4[2 := TIMER_ENTRY], 4));
    assert t4[2 := TIMER_ENTRY] == map[1 := HUB_ROOT, 2 := TIMER_ENTRY, 3 := BULB_ROOT, 4 := HUB_ROOT];
  }

  lemma TimerMoves(t: Table)
    requires 1 in t && 2 in t && t[1] == HUB_ROOT && t[2] == TIMER_ROOT
    ensures ParentChanged(t, 2, 1, 0) == t[2 := TIMER_ENTRY] && IsHub(t[1].deviceType) && ChainAgrees(t, 2, 1)
  {
    TypeBits();
  }

  /** Then the bulb. */
  lemma TimerAndBulb() returns (es: seq<Event>)
    ensures Reached(es, State(map[1 := BULB_HUB, 2 := TIMER_ENTRY, 3 := BULB_ENTRY, 4 := HUB_ROOT], 4))
  {
    TypeBits();
    var t5: Table := map[1 := HUB_ROOT, 2 := TIMER_ENTRY, 3 := BULB_ROOT, 4 := HUB_ROOT];
    var t6: Table := map[1 := BULB_HUB, 2 := TIMER_ENTRY, 3 := BULB_ENTRY, 4 := HUB_ROOT];
    es := TimerLinked();
    OnlyRootsAbove(t5, 1);
    FillOne(t5, 3, 1);
    assert t5[3 := BULB_ENTRY][1 := BULB_HUB] == t6;
    es := LinkNext(es, State(t5, 4), 3, 1, State(t6, 4));
  }

  /** That Hub comes and goes. */
  lemma HubComesAndGoes(es: seq<Event>, t: Table) returns (next: seq<Event>)
    requires Reached(es, State(t, 4)) && 1 in t && 4 in t && t[4] == HUB_ROOT
    requires t[1] == BULB_HUB && CONTROLLER_ID !in t
    ensures Reached(next, State(t, 4))
  {
    TypeBits();
    var u := t[4 := HUB_ENTRY];
    OnlyRootsAbove(t, 1);
    next := LinkNext(es, State(t, 4), 4, 1, State(u, 4));
    assert u[4 := HUB_ROOT] == t;
    next := UnlinkNext(next, State(u, 4), 4, State(t, 4));
  }

  /** Above a direct child of the Controller there is only the Controller. */
  lemma OnlyRootsAbove(t: Table, p: DeviceId)
    requires p in t && t[p].parent == CONTROLLER_ID && CONTROLLER_ID !in t
    ensures forall a: DeviceId | a in t :: !Below(t, p, a)
  {
    forall a: DeviceId | a in t ensures !Below(t, p, a) {
      BelowUnfold(t, p, a);
      BelowUnfold(t, CONTROLLER_ID, a);
    }
  }

  /** A bulb fills an empty Hub that hangs from the Controller. */
  lemma FillOne(t: Table, x: DeviceId, p: DeviceId)
    requires x in t && p in t && x != p && t[x] == Device(BULB_DEVICE, CONTROLLER_ID) && CONTROLLER_ID !in t
    requires t[p] == Device(HUB_DEVICE, CONTROLLER_ID)
    ensures ParentChanged(t, x, p, 0) ==
            t[x := Device(BULB_DEVICE, p)][p := Device(HUB_DEVICE | BULB_DEVICE, CONTROLLER_ID)]
  {
    TypeBits();
    var u := t[x := Device(BULB_DEVICE, p)];
    var filled := WithType(u, p, HUB_DEVICE | BULB_DEVICE);
    assert FillUp(filled, CONTROLLER_ID, BULB_DEVICE) == filled;
  }

  /** Two children do not fit a Timer. */
  lemma TwoChildrenRefuseTimer(t: Table, o: DeviceId, c: DeviceId, d: DeviceId, ty: DeviceType)
    requires Safe(t) && o in t && c in t && d in t && c != d && t[c].parent == o && t[d].parent == o && IsTimer(ty)
    ensures !Safe(ChildRemoved(t, o, ty))
  {
    ChildRemovedIsSafeIff(t, o, ty);
  }

  /** The Controller's table and the Hub's name the same devices, with the same types, directly below the Hub. */
  ghost predicate SameChildren(id: DeviceId, s: Table, t: Table) {
    forall c: DeviceId ::
      (c in s && s[c].parent == id <==> c in t && t[c].parent == id)
      && (c in s && s[c].parent == id && c in t ==> s[c].deviceType == t[c].deviceType)
  }

  /**
   First input. A Hub has a Timer and a bulb; another Hub is linked to it and away again. Both machines record the
   same children, and the Hub answers the Controller with the type of a Timer, which two children do not fit.
   */
  lemma TimerTypeIsUnsafe() returns (hub: seq<H.HubEvent>, es: seq<Event>, s: State)
    ensures H.IsRun(1, H.START, hub) && Reached(es, s) && Safe(s.table) && 1 in s.table
    ensures var v := H.Final(1, H.START, hub).view;
            SameChildren(1, v.table, s.table) && IsHub(s.table[1].deviceType)
            && v.deviceType == TIMER_DEVICE && !Safe(ChildRemoved(s.table, 1, v.deviceType))
  {
    hub := HubBecomesTimer(TIMER_DEVICE);
    var t: Table := map[1 := BULB_HUB, 2 := TIMER_ENTRY, 3 := BULB_ENTRY, 4 := HUB_ROOT];
    s := State(t, 4);
    es := TimerAndBulb();
    TypeBits();
    es := HubComesAndGoes(es, t);
    TwoChildrenRefuseTimer(t, 1, 2, 3, TIMER_DEVICE);
  }

  const BULB_BELOW := Device(HUB_DEVICE | BULB_DEVICE, 1)

  /** A bulb below a second Hub fills both. */
  lemma BulbTwoDeep() returns (es: seq<Event>)
    ensures Reached(es, State(map[1 := BULB_HUB, 2 := BULB_BELOW, 3 := Device(BULB_DEVICE, 2)], 3))
  {
    TypeBits();
    var hub, bulb := Device(HUB_DEVICE, 0), Device(BULB_DEVICE, 0);
    var t3: Table := map[1 := hub, 2 := hub, 3 := bulb];
    var t4 := t3[2 := HUB_ENTRY];
    var t5: Table := map[1 := BULB_HUB, 2 := BULB_BELOW, 3 := Device(BULB_DEVICE, 2)];
    es := ThreeDevices(HUB_DEVICE);
    OnlyRootsAbove(t3, 1);
    es := LinkNext(es, State(t3, 3), 2, 1, State(t4, 3));
    FillTwo(t4, t5);
    AboveTwo(t4);
    es := LinkNext(es, State(t4, 3), 3, 2, State(t5, 3));
  }

  lemma AboveTwo(t: Table)
    requires 1 in t && 2 in t && CONTROLLER_ID !in t && t[1].parent == CONTROLLER_ID && t[2].parent == 1
    ensures forall a: DeviceId | a in t :: Below(t, 2, a) <==> a == 1
  {
    OnlyRootsAbove(t, 1);
    forall a: DeviceId | a in t ensures Below(t, 2, a) <==> a == 1 {
      BelowUnfold(t, 2, a);
    }
  }

  lemma FillTwo(t: Table, u: Table)
    requires t == map[1 := Device(HUB_DEVICE, 0), 2 := HUB_ENTRY, 3 := Device(BULB_DEVICE, 0)]
    requires u == map[1 := BULB_HUB, 2 := BULB_BELOW, 3 := Device(BULB_DEVICE, 2)]
    ensures ParentChanged(t, 3, 2, 0) == u
  {
    TypeBits();
    var moved := t[3 := Device(BULB_DEVICE, 2)];
    var one := WithType(moved, 2, HUB_DEVICE | BULB_DEVICE);
    var two := WithType(one, 1, HUB_DEVICE | BULB_DEVICE);
    assert FillUp(two, CONTROLLER_ID, BULB_DEVICE) == two;
    assert FillUp(one, 1, BULB_DEVICE) == two;
    assert FillUp(moved, 2, BULB_DEVICE) == two;
  }

  /** The bulb moves up. */
  lemma BulbMovesUp(es: seq<Event>) returns (next: seq<Event>)
    requires Reached(es, State(map[1 := BULB_HUB, 2 := BULB_BELOW, 3 := Device(BULB_DEVICE, 2)], 3))
    ensures Reached(next, State(map[1 := BULB_HUB, 2 := BULB_BELOW, 3 := BULB_ENTRY], 3))
  {
    var t5: Table := map[1 := BULB_HUB, 2 := BULB_BELOW, 3 := Device(BULB_DEVICE, 2)];
    OnlyRootsAbove(t5, 1);
    BulbMoves(t5);
    next := LinkNext(es, State(t5, 3), 3, 1, State(t5[3 := BULB_ENTRY], 3));
    assert t5[3 := BULB_ENTRY] == map[1 := BULB_HUB, 2 := BULB_BELOW, 3 := BULB_ENTRY];
  }

  lemma BulbMoves(t: Table)
    requires 1 in t && 2 in t && 3 in t && t[1] == BULB_HUB && t[3] == Device(BULB_DEVICE, 2)
    requires forall a: DeviceId | a in t :: !Below(t, 1, a)
    ensures ParentChanged(t, 3, 1, 0) == t[3 := BULB_ENTRY] && IsHub(t[1].deviceType) && ChainAgrees(t, 3, 1)
  {
    TypeBits();
  }

  /** The second Hub answers that nothing is left. */
  lemma SecondAnswers(es: seq<Event>) returns (next: seq<Event>)
    requires Reached(es, State(map[1 := BULB_HUB, 2 := BULB_BELOW, 3 := BULB_ENTRY], 3))
    ensures Reached(next, State(map[1 := BULB_HUB, 2 := HUB_ENTRY, 3 := BULB_ENTRY], 3))
  {
    var t6: Table := map[1 := BULB_HUB, 2 := BULB_BELOW, 3 := BULB_ENTRY];
    var t7: Table := map[1 := BULB_HUB, 2 := HUB_ENTRY, 3 := BULB_ENTRY];
    AnswersEmpty(t6, t7);
    ReachNext(es, State(t6, 3), ChildGone(2, HUB_DEVICE), State(t7, 3));
    next := es + [ChildGone(2, HUB_DEVICE)];
  }

  /** The second Hub is linked away. */
  lemma HubLeaves(es: seq<Event>, t: Table, u: Table) returns (next: seq<Event>)
    requires Reached(es, State(t, 3)) && 2 in t && t[2] == HUB_ENTRY && 1 in t && u == t[2 := HUB_ROOT]
    ensures Reached(next, State(u, 3))
  {
    HubMovesOut(t);
    next := UnlinkNext(es, State(t, 3), 2, State(u, 3));
  }

  lemma BulbStays(es: seq<Event>) returns (next: seq<Event>)
    requires Reached(es, State(map[1 := BULB_HUB, 2 := HUB_ENTRY, 3 := BULB_ENTRY], 3))
    ensures Reached(next, State(map[1 := BULB_HUB, 2 := HUB_ROOT, 3 := BULB_ENTRY], 3))
  {
    var t7, t8 := TwoTables();
    next := HubLeaves(es, t7, t8);
  }

  lemma TwoTables() returns (t: Table, u: Table)
    ensures t == map[1 := BULB_HUB, 2 := HUB_ENTRY, 3 := BULB_ENTRY]
    ensures u == map[1 := BULB_HUB, 2 := HUB_ROOT, 3 := BULB_ENTRY]
    ensures 1 in t && 2 in t && t[2] == HUB_ENTRY && u == t[2 := HUB_ROOT]
  {
    t := map[1 := BULB_HUB, 2 := HUB_ENTRY, 3 := BULB_ENTRY];
    u := map[1 := BULB_HUB, 2 := HUB_ROOT, 3 := BULB_ENTRY];
  }

  lemma HubMovesOut(t: Table)
    requires 1 in t && 2 in t && CONTROLLER_ID !in t && t[2] == HUB_ENTRY
    ensures ParentChanged(t, 2, CONTROLLER_ID, 0) == t[2 := HUB_ROOT]
  {
    TypeBits();
  }

  lemma AnswersEmpty(t: Table, u: Table)
    requires t == map[1 := BULB_HUB, 2 := BULB_BELOW, 3 := BULB_ENTRY]
    requires u == map[1 := BULB_HUB, 2 := HUB_ENTRY, 3 := BULB_ENTRY]
    requires Acyclic(t)
    ensures Declarable(t, 2, HUB_DEVICE) && ChildRemoved(t, 2, HUB_DEVICE) == u
  {
    TypeBits();
    assert WithType(t, 2, HUB_DEVICE) == u;
    SameShape(t, u);
    assert NonEmpty(u, 3) && u[3].parent == 1;
    assert EmptyUp(u, CONTROLLER_ID) == u;
    assert EmptyUp(u, 1) == u;
  }

  /**
   Second input, without Timers. A bulb two levels down moves up one, and then the Hub it left is linked away: its
   old Hub answers that it is empty, with the bulb below it.
   */
  lemma EmptyTypeIsUnsafe() returns (hub: seq<H.HubEvent>, es: seq<Event>, s: State)
    ensures H.IsRun(1, H.START, hub) && Reached(es, s) && Safe(s.table) && 1 in s.table
    ensures var v := H.Final(1, H.START, hub).view;
            SameChildren(1, v.table, s.table) && IsHub(s.table[1].deviceType)
            && v.deviceType == HUB_DEVICE && !Safe(ChildRemoved(s.table, 1, v.deviceType))
  {
    hub := HubForgetsBulb();
    es := BulbRun();
    s := State(map[1 := BULB_HUB, 2 := HUB_ROOT, 3 := BULB_ENTRY], 3);
    TypeBits();
    BulbRefusesEmpty(s.table, 1, 3);
  }

  lemma BulbRun() returns (es: seq<Event>)
    ensures Reached(es, State(map[1 := BULB_HUB, 2 := HUB_ROOT, 3 := BULB_ENTRY], 3))
  {
    es := BulbTwoDeep();
    es := BulbMovesUp(es);
    es := SecondAnswers(es);
    es := BulbStays(es);
  }

  /** A bulb does not fit below an empty device. */
  lemma BulbRefusesEmpty(t: Table, o: DeviceId, c: DeviceId)
    requires Safe(t) && o in t && c in t && t[c].parent == o && t[c].deviceType == BULB_DEVICE
    ensures !Safe(ChildRemoved(t, o, HUB_DEVICE))
  {
    TypeBits();
    ChildRemovedIsSafeIff(t, o, HUB_DEVICE);
    assert NonEmpty(t, c);
  }

  /**
   The leaf bits alone are not enough: with a bulb below the Timer, the Hub ends with its leaf bits in step
   with its direct children and yet with the type of a Timer, which no safe table accepts.
   */
  lemma LeafBitsAreNotEnough(t: Table) returns (hub: seq<H.HubEvent>)
    requires Safe(t) && 1 in t && 2 in t && 3 in t && t[2].parent == 1 && t[3].parent == 1
    ensures HubTypes.SoundRun(1, H.START, hub) && H.IsRun(1, H.START, hub)
    ensures var v := H.Final(1, H.START, hub).view;
            HubTypes.Agrees(1, v) && IsTimer(v.deviceType) && !Safe(ChildRemoved(t, 1, v.deviceType))
  {
    hub := HubBecomesTimer(TIMER_DEVICE | BULB_DEVICE);
    var v := H.Final(1, H.START, hub).view;
    TypeBits();
    assert HubTypes.DirectNonEmpty(1, v.table, 3);
    TwoChildrenRefuseTimer(t, 1, 2, 3, v.deviceType);
  }
}
