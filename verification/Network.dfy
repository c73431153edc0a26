/**
 The whole system between commands: the Controller's tree, what every other device knows of its own branch, and the
 pipes. Adding, linking, deleting and losing devices, one completed command after the other, keeps them all in step,
 whatever types old parents declare.
 */
module Network {
  import opened Devices
  import opened Forest
  import opened TableOps
  import opened Protocol
  import opened Topology
  import opened NextHops
  import opened Forwarding
  import opened Delivery
  import opened Branches
  import opened Stations
  import opened Trees
  import H = HubTable
  import T = TimerTable
  import HubTypes

  // ---------------------------------------------------------------- the other devices

  datatype Station =
    | AtHub(hub: H.HubState)
    | AtTimer(timer: T.View, fd: int)
    | AtLeaf

  /** What a device knows is below it. */
  ghost function BranchAt(c: DeviceId, st: Station): Table {
    match st
    case AtHub(h) => h.view.table
    case AtTimer(v, fd) => T.Branch(c, v, fd)
    case AtLeaf => map[]
  }

  /** The type a device declares. */
  ghost function Declared(t: Table, c: DeviceId, st: Station): DeviceType
    requires c in t
  {
    match st
    case AtHub(h) => h.view.deviceType
    case AtTimer(v, _) => v.deviceType
    case AtLeaf => t[c].deviceType
  }

  /** The direct entries are reached by their own pipes. */
  ghost predicate Piped(pipes: Pipes, c: DeviceId, s: Table) {
    forall x | x in s && s[x].parent == c :: (c, s[x].hop) in pipes && pipes[(c, s[x].hop)] == x
  }

  /** What the Controller takes for a leaf, or for a Timer's child, is one. */
  ghost predicate SameKind(t: Table, c: DeviceId, st: Station)
    requires c in t
  {
    match st
    case AtHub(_) => IsControl(t[c].deviceType)
    case AtTimer(v, _) =>
      IsTimer(t[c].deviceType) &&
      (v.hasChild ==> v.childId in t && (IsControl(v.childType) <==> IsControl(t[v.childId].deviceType)))
    case AtLeaf => IsLeaf(t[c].deviceType)
  }

  /** The invariants of its own machine. */
  ghost predicate Runs(t: Table, c: DeviceId, st: Station, n: nat) {
    match st
    case AtHub(h) => Starts(c, h, n) && h.owed == {}
    case AtTimer(v, fd) => TimerKnows(t, c, v, fd)
    case AtLeaf => true
  }

  ghost predicate InStep(t: Table, pipes: Pipes, c: DeviceId, st: Station, n: nat)
    requires c in t
  {
    && Acyclic(t) && SameKind(t, c, st) && Runs(t, c, st, n)
    && Covers(t, c, BranchAt(c, st)) && HopsOk(BranchAt(c, st)) && Piped(pipes, c, BranchAt(c, st))
  }

  /** `steps` counts the commands carried out. */
  datatype System = System(tree: Table, stations: map<DeviceId, Station>, pipes: Pipes, steps: nat)

  ghost predicate AllInStep(t: Table, stations: map<DeviceId, Station>, pipes: Pipes, n: nat) {
    stations.Keys == t.Keys && forall c | c in t :: InStep(t, pipes, c, stations[c], n)
  }

  ghost predicate Sound(sys: System) {
    && Rooted(sys.tree) && HopsOk(sys.tree) && Piped(sys.pipes, CONTROLLER_ID, sys.tree)
    && AllInStep(sys.tree, sys.stations, sys.pipes, sys.steps)
  }

  // ---------------------------------------------------------------- commands

  /** A link passes: the responses of the moved device, with the removal after the replay of `k` devices. */
  ghost function AfterLink(t: Table, c: DeviceId, st: Station, m: Move, k: nat): Station
    requires m.x in t
  {
    match st
    case AtHub(h) => AtHub(HubLinked(t, c, h, m, k))
    case AtTimer(v, fd) => AtTimer(TimerLinked(t, c, v, m, k), ChildPipe(c, m, fd))
    case AtLeaf => AtLeaf
  }

  /** The type a device declares once the removal has passed it. */
  ghost function DeclaredWhenAsked(t: Table, c: DeviceId, st: Station, m: Move, k: nat): DeviceType
    requires m.x in t && c in t
  {
    match st
    case AtHub(h) => HubAsked(t, c, h, m, k).view.deviceType
    case AtTimer(v, _) => TimerAsked(t, c, v, m, k).deviceType
    case AtLeaf => t[c].deviceType
  }

  /** A delete response passes the devices above its sender. */
  ghost function AfterDelete(t: Table, c: DeviceId, st: Station, x: DeviceId): Station {
    if !Below(t, x, c) then st
    else
      match st
      case AtHub(h) => AtHub(HubAfter(c, h, [H.Deleted(x)]))
      case AtTimer(v, fd) => AtTimer(TimerAfter(c, v, [T.Deleted(x)]), fd)
      case AtLeaf => AtLeaf
  }

  /** The parent of a dead device is asked to remove it, and its answer passes the devices above. */
  ghost function AfterCrash(t: Table, c: DeviceId, st: Station, x: DeviceId): Station
    requires x in t
  {
    match st
    case AtHub(h) => AtHub(HubAfter(c, h, LossEvents(t, c, t[x].parent, x)))
    case AtTimer(v, fd) => AtTimer(TimerAfter(c, v, TimerLossEvents(t, c, t[x].parent, x)), fd)
    case AtLeaf => AtLeaf
  }

  ghost function NewStation(ty: DeviceType): Station {
    if IsLeaf(ty) then AtLeaf else if IsTimer(ty) then AtTimer(T.NO_CHILD, 0) else AtHub(H.START)
  }

  /** The descriptor is not one that `c` uses for a child. */
  ghost predicate Unused(t: Table, pipes: Pipes, c: DeviceId, fd: int) {
    (c, fd) in pipes ==> !(pipes[(c, fd)] in t && t[pipes[(c, fd)]].parent == c)
  }

  lemma PipedUnused(t: Table, pipes: Pipes, c: DeviceId, s: Table, p: DeviceId, fd: int, x: DeviceId)
    requires Covers(t, c, s) && Piped(pipes, c, s) && Unused(t, pipes, p, fd)
    ensures Piped(pipes[(p, fd) := x], c, s)
  {
  }

  // ---------------------------------------------------------------- a link, station by station

  ghost function MoveOf(t: Table, stations: map<DeviceId, Station>, x: DeviceId, p: DeviceId, fd: int): Move
    requires x in t && x in stations
  {
    Move(x, p, Declared(t, x, stations[x]), fd, BranchAt(x, stations[x]))
  }

  /** Control devices declare control types, leaf devices have nothing below them. */
  lemma DeclaredKind(t: Table, c: DeviceId, st: Station, n: nat)
    requires c in t && SameKind(t, c, st) && Runs(t, c, st, n)
    ensures IsControl(Declared(t, c, st)) <==> IsControl(t[c].deviceType)
    ensures IsLeaf(t[c].deviceType) ==> BranchAt(c, st) == map[]
    ensures st.AtTimer? ==> IsTimer(Declared(t, c, st))
  {
    if st.AtTimer? {
      TimerBits(st.timer.childType);
    }
  }

  lemma TimerBits(ty: DeviceType)
    ensures IsTimer(TIMER_DEVICE | ChildType(ty)) && IsTimer(TIMER_DEVICE)
    ensures forall d: DeviceType :: IsTimer(d) ==> IsControl(d)
  {
  }

  /** The link is one the Controller allows, from the tree `t` to the tree `u`. */
  ghost predicate Linking(t: Table, u: Table, pipes: Pipes, m: Move) {
    && Rooted(t) && Moving(t, u, m) && LinkAllowed(t, m.x, m.p) && Unused(t, pipes, m.p, m.fd)
    && (IsControl(m.ty) <==> IsControl(t[m.x].deviceType)) && (IsLeaf(m.ty) ==> m.branch == map[])
  }

  lemma NotToldOfTheController(t: Table, c: DeviceId, m: Move)
    requires CONTROLLER_ID !in t && c in t && (m.p == CONTROLLER_ID || m.p in t)
    ensures m.p in t || !Hears(t, c, m.p)
  {
    BelowUnfold(t, m.p, c);
  }

  lemma TimerAdmits(t: Table, u: Table, pipes: Pipes, c: DeviceId, st: T.View, fd: int, m: Move)
    requires Linking(t, u, pipes, m) && c in t && SameKind(t, c, AtTimer(st, fd))
    ensures Admits(t, c, st, m)
  {
  }

  lemma StillPiped(t: Table, u: Table, pipes: Pipes, c: DeviceId, m: Move, r: Table, w: Table)
    requires Covers(t, c, r) && Piped(pipes, c, r) && Unused(t, pipes, m.p, m.fd) && Rehung(t, u, m.x, m.p)
    requires Relinked(u, c, m, r, w)
    ensures Piped(pipes[(m.p, m.fd) := m.x], c, w)
  {
    var after := pipes[(m.p, m.fd) := m.x];
    PipedUnused(t, pipes, c, r, m.p, m.fd, m.x);
    forall y | y in w && w[y].parent == c ensures (c, w[y].hop) in after && after[(c, w[y].hop)] == y {
      assert u[y].parent == c;
      if y != m.x {
        assert r[y].parent == c;
      }
    }
  }

  lemma HubInStep(t: Table, u: Table, pipes: Pipes, c: DeviceId, h: H.HubState, n: nat, m: Move, k: nat)
    requires Linking(t, u, pipes, m) && KindsKept(t, u) && c in t && InStep(t, pipes, c, AtHub(h), n)
    requires n + 1 < H.COUNTER_RANGE
    ensures InStep(u, pipes[(m.p, m.fd) := m.x], c, AfterLink(t, c, AtHub(h), m, k), n + 1)
    ensures HubExpects(t, c, h, m, k) && IsControl(DeclaredWhenAsked(t, c, AtHub(h), m, k))
  {
    NotToldOfTheController(t, c, m);
    HubIsLinked(c, h, n, t, u, m, k);
    StillPiped(t, u, pipes, c, m, h.view.table, HubLinked(t, c, h, m, k).view.table);
  }

  lemma TimerSameKind(t: Table, u: Table, c: DeviceId, st: T.View, fd: int, m: Move, v: T.View)
    requires c in t && SameKind(t, c, AtTimer(st, fd)) && KindsKept(t, u) && IsTimer(u[c].deviceType)
    requires m.x in t && (IsControl(m.ty) <==> IsControl(t[m.x].deviceType)) && ChildAfter(c, m, st, v)
    ensures SameKind(u, c, AtTimer(v, ChildPipe(c, m, fd)))
  {
  }

  lemma TimerInStep(t: Table, u: Table, pipes: Pipes, c: DeviceId, st: T.View, fd: int, n: nat, m: Move, k: nat)
    requires Linking(t, u, pipes, m) && KindsKept(t, u) && c in t && InStep(t, pipes, c, AtTimer(st, fd), n)
    requires IsTimer(u[c].deviceType)
    ensures InStep(u, pipes[(m.p, m.fd) := m.x], c, AfterLink(t, c, AtTimer(st, fd), m, k), n + 1)
    ensures TimerExpects(t, c, st, m, k) && IsTimer(DeclaredWhenAsked(t, c, AtTimer(st, fd), m, k))
  {
    var v, f := TimerLinked(t, c, st, m, k), ChildPipe(c, m, fd);
    NotToldOfTheController(t, c, m);
    TimerAdmits(t, u, pipes, c, st, fd, m);
    TimerIsLinked(c, st, fd, t, u, m, k);
    TimerSameKind(t, u, c, st, fd, m, v);
    StillPiped(t, u, pipes, c, m, T.Branch(c, st, fd), T.Branch(c, v, f));
    TimerBits(TimerAsked(t, c, st, m, k).childType);
  }

  /** A leaf device knows nothing, rightly: it is nobody's parent. */
  lemma LeafInStep(u: Table, pipes: Pipes, c: DeviceId, n: nat)
    requires Rooted(u) && c in u && IsLeaf(u[c].deviceType)
    ensures InStep(u, pipes, c, AtLeaf, n)
  {
  }

  /** Everything a device is told during the move is what its machine expects. */
  ghost predicate Expected(t: Table, c: DeviceId, st: Station, m: Move, k: nat)
    requires m.x in t
  {
    match st
    case AtHub(h) => HubExpects(t, c, h, m, k)
    case AtTimer(v, _) => TimerExpects(t, c, v, m, k)
    case AtLeaf => true
  }

  lemma StationInStep(t: Table, u: Table, pipes: Pipes, c: DeviceId, st: Station, n: nat, m: Move, k: nat)
    requires Linking(t, u, pipes, m) && KindsKept(t, u) && c in t && InStep(t, pipes, c, st, n) && Rooted(u)
    requires n + 1 < H.COUNTER_RANGE && (st.AtTimer? ==> IsTimer(u[c].deviceType))
    ensures InStep(u, pipes[(m.p, m.fd) := m.x], c, AfterLink(t, c, st, m, k), n + 1)
    ensures Expected(t, c, st, m, k)
    ensures !st.AtLeaf? ==> IsControl(DeclaredWhenAsked(t, c, st, m, k))
    ensures st.AtTimer? ==> IsTimer(DeclaredWhenAsked(t, c, st, m, k))
  {
    match st
    case AtHub(h) => HubInStep(t, u, pipes, c, h, n, m, k);
    case AtTimer(v, fd) =>
      TimerInStep(t, u, pipes, c, v, fd, n, m, k);
      TimerBits(0);
    case AtLeaf => LeafInStep(u, pipes[(m.p, m.fd) := m.x], c, n + 1);
  }

  // ---------------------------------------------------------------- commands on the whole system

  /** After how many replays each device, and the Controller under its own id, sees the removal; 0 where not given. */
  type Turns = map<DeviceId, nat>

  function Turn(turns: Turns, c: DeviceId): nat { if c in turns then turns[c] else 0 }

  datatype Command =
    | Add(id: DeviceId, ty: DeviceType, pid: int, fd: int)
    | Link(x: DeviceId, p: DeviceId, fd: int, turns: Turns)
    | Delete(x: DeviceId)
    | Crash(x: DeviceId, after: Table)

  ghost function StationsAfterLink(sys: System, m: Move, turns: Turns): map<DeviceId, Station>
    requires m.x in sys.tree
  {
    map c | c in sys.stations :: AfterLink(sys.tree, c, sys.stations[c], m, Turn(turns, c))
  }

  /** What the old parent declares when it is asked to remove the moved device. */
  ghost function OldParentAnswer(sys: System, m: Move, turns: Turns): DeviceType
    requires m.x in sys.tree
  {
    var o := sys.tree[m.x].parent;
    if o in sys.tree && o in sys.stations then
      DeclaredWhenAsked(sys.tree, o, sys.stations[o], m, Turn(turns, o))
    else 0
  }

  ghost function TreeAfterLink(sys: System, m: Move, turns: Turns): Table
    requires m.x in sys.tree
  {
    LinkedTree(sys.tree, m, Turn(turns, CONTROLLER_ID), OldParentAnswer(sys, m, turns))
  }

  /** What the parent of a dead device declares when it is asked to remove it. */
  ghost function ParentAnswer(sys: System, x: DeviceId): DeviceType
    requires x in sys.tree
  {
    var o := sys.tree[x].parent;
    if o in sys.tree && o in sys.stations then Declared(sys.tree, o, AfterCrash(sys.tree, o, sys.stations[o], x)) else 0
  }

  /** A new device has a free id, a link has passed the check, and a new pipe gets a descriptor that is not in use. */
  ghost predicate Enabled(sys: System, c: Command) {
    && Acyclic(sys.tree) && sys.steps + 1 < H.COUNTER_RANGE
    && match c
       case Add(id, ty, _, fd) =>
         Addable(ty) && id !in sys.tree && id != CONTROLLER_ID && Unused(sys.tree, sys.pipes, CONTROLLER_ID, fd)
       case Link(x, p, fd, _) =>
         LinkCheck(sys.tree, x, p) == OK && x in sys.stations && Unused(sys.tree, sys.pipes, p, fd)
       case Delete(_) => true
       case Crash(x, after) =>
         x in sys.tree && Reaped(sys.tree, after, Lost(sys.tree, x)) && TypesKept(sys.tree, after)
  }

  ghost function AfterAdd(sys: System, id: DeviceId, ty: DeviceType, pid: int, fd: int): System {
    System(Put(sys.tree, id, pid, ty, CONTROLLER_ID, fd), sys.stations[id := NewStation(ty)],
           sys.pipes[(CONTROLLER_ID, fd) := id], sys.steps + 1)
  }

  ghost function AfterWholeLink(sys: System, m: Move, turns: Turns): System
    requires m.x in sys.tree
  {
    System(TreeAfterLink(sys, m, turns), StationsAfterLink(sys, m, turns), sys.pipes[(m.p, m.fd) := m.x], sys.steps + 1)
  }

  /** The stations of the devices that are left. */
  ghost function StationsAfterDelete(sys: System, x: DeviceId, u: Table): map<DeviceId, Station> {
    map c | c in sys.stations && c in u :: AfterDelete(sys.tree, c, sys.stations[c], x)
  }

  ghost function AfterWholeDelete(sys: System, x: DeviceId): System
    requires Acyclic(sys.tree)
  {
    var u := Deleted(sys.tree, x);
    System(u, StationsAfterDelete(sys, x, u), sys.pipes, sys.steps + 1)
  }

  ghost function StationsAfterCrash(sys: System, x: DeviceId, u: Table): map<DeviceId, Station>
    requires x in sys.tree
  {
    map c | c in sys.stations && c in u :: AfterCrash(sys.tree, c, sys.stations[c], x)
  }

  /** A device has died with its branch, the Controller has reaped them and told the parent, which has answered. */
  ghost function AfterWholeCrash(sys: System, x: DeviceId, after: Table): System
    requires x in sys.tree
  {
    var u := Answered(after, sys.tree[x].parent, ParentAnswer(sys, x));
    System(u, StationsAfterCrash(sys, x, u), sys.pipes, sys.steps + 1)
  }

  ghost function Step(sys: System, c: Command): System
    requires Enabled(sys, c)
  {
    match c
    case Add(id, ty, pid, fd) => AfterAdd(sys, id, ty, pid, fd)
    case Link(x, p, fd, turns) => AfterWholeLink(sys, MoveOf(sys.tree, sys.stations, x, p, fd), turns)
    case Delete(x) => AfterWholeDelete(sys, x)
    case Crash(x, after) => AfterWholeCrash(sys, x, after)
  }

  // ---------------------------------------------------------------- what a link keeps

  /** `m` is the move of a device that knows its branch, and the tree allows it. */
  ghost predicate GoodMove(t: Table, stations: map<DeviceId, Station>, pipes: Pipes, m: Move, n: nat) {
    && Rooted(t) && HopsOk(t) && m.x in t && m.x in stations && m == MoveOf(t, stations, m.x, m.p, m.fd)
    && LinkAllowed(t, m.x, m.p) && Unused(t, pipes, m.p, m.fd) && InStep(t, pipes, m.x, stations[m.x], n)
  }

  lemma LinkIsGoodMove(sys: System, x: DeviceId, p: DeviceId, fd: int, turns: Turns)
    requires Sound(sys) && Enabled(sys, Link(x, p, fd, turns))
    ensures x in sys.tree
    ensures GoodMove(sys.tree, sys.stations, sys.pipes, MoveOf(sys.tree, sys.stations, x, p, fd), sys.steps)
  {
    LinkCheckIff(sys.tree, x, p);
  }

  lemma GoodMoveIsLinking(t: Table, stations: map<DeviceId, Station>, pipes: Pipes, m: Move, n: nat, u: Table)
    requires GoodMove(t, stations, pipes, m, n) && Acyclic(u) && Rehung(t, u, m.x, m.p)
    ensures Linking(t, u, pipes, m)
  {
    var st := stations[m.x];
    DeclaredKind(t, m.x, st, n);
    CoversIsBranch(t, m.x, m.branch);
    BelowUnfold(t, CONTROLLER_ID, m.x);
  }

  /** The old parent declares the kind of device it is. */
  lemma AnswerKind(sys: System, m: Move, turns: Turns)
    requires GoodMove(sys.tree, sys.stations, sys.pipes, m, sys.steps) && sys.steps + 1 < H.COUNTER_RANGE
    requires AllInStep(sys.tree, sys.stations, sys.pipes, sys.steps)
    ensures var o := sys.tree[m.x].parent;
            o != CONTROLLER_ID ==>
              && o in sys.tree && IsControl(sys.tree[o].deviceType) && IsControl(OldParentAnswer(sys, m, turns))
              && (sys.stations[o].AtTimer? ==> IsTimer(OldParentAnswer(sys, m, turns)))
  {
    var t, o := sys.tree, sys.tree[m.x].parent;
    if o != CONTROLLER_ID {
      var w := MovedTree(t, m, 0);
      MovedTreeShape(t, m, 0);
      GoodMoveIsLinking(t, sys.stations, sys.pipes, m, sys.steps, w);
      ClassKinds(t, w, {});
      StationInStep(t, w, sys.pipes, o, sys.stations[o], sys.steps, m, Turn(turns, o));
    }
  }

  lemma LinkTreeIsRooted(sys: System, m: Move, turns: Turns)
    requires GoodMove(sys.tree, sys.stations, sys.pipes, m, sys.steps) && sys.steps + 1 < H.COUNTER_RANGE
    requires AllInStep(sys.tree, sys.stations, sys.pipes, sys.steps)
    ensures var u := TreeAfterLink(sys, m, turns);
            Rooted(u) && HopsOk(u) && Rehung(sys.tree, u, m.x, m.p) && RoutedAs(sys.tree, m, Listed(m), u)
  {
    var k, ty := Turn(turns, CONTROLLER_ID), OldParentAnswer(sys, m, turns);
    AnswerKind(sys, m, turns);
    LinkedTreeShape(sys.tree, m, k, ty);
    LinkedTreeHops(sys.tree, m, LinkedTree(sys.tree, m, k, ty));
  }

  lemma RootsPiped(t: Table, pipes: Pipes, m: Move, u: Table)
    requires Covers(t, CONTROLLER_ID, t) && Piped(pipes, CONTROLLER_ID, t) && Unused(t, pipes, m.p, m.fd)
    requires RoutedAs(t, m, Listed(m), u) && CONTROLLER_ID !in m.branch && m.x != CONTROLLER_ID
    requires forall y | y in m.branch :: y in u && u[y].parent != CONTROLLER_ID
    ensures Piped(pipes[(m.p, m.fd) := m.x], CONTROLLER_ID, u)
  {
    PipedUnused(t, pipes, CONTROLLER_ID, t, m.p, m.fd, m.x);
  }

  lemma BranchIsNotDirect(t: Table, m: Move, u: Table)
    requires Covers(t, m.x, m.branch) && Rehung(t, u, m.x, m.p) && CONTROLLER_ID !in t
    ensures CONTROLLER_ID !in m.branch && m.x != CONTROLLER_ID
    ensures forall y | y in m.branch :: y in u && u[y].parent != CONTROLLER_ID
  {
    forall y | y in m.branch ensures y in u && u[y].parent != CONTROLLER_ID {
      assert t[y].parent == m.x || t[y].parent in m.branch;
    }
  }

  lemma LinkTreePiped(sys: System, m: Move, turns: Turns)
    requires GoodMove(sys.tree, sys.stations, sys.pipes, m, sys.steps) && sys.steps + 1 < H.COUNTER_RANGE
    requires AllInStep(sys.tree, sys.stations, sys.pipes, sys.steps) && Piped(sys.pipes, CONTROLLER_ID, sys.tree)
    ensures Piped(sys.pipes[(m.p, m.fd) := m.x], CONTROLLER_ID, TreeAfterLink(sys, m, turns))
  {
    LinkTreeIsRooted(sys, m, turns);
    TreeCoversItself(sys.tree);
    BranchIsNotDirect(sys.tree, m, TreeAfterLink(sys, m, turns));
    RootsPiped(sys.tree, sys.pipes, m, TreeAfterLink(sys, m, turns));
  }

  lemma LinkTreeKinds(sys: System, m: Move, turns: Turns)
    requires GoodMove(sys.tree, sys.stations, sys.pipes, m, sys.steps) && sys.steps + 1 < H.COUNTER_RANGE
    requires AllInStep(sys.tree, sys.stations, sys.pipes, sys.steps)
    ensures KindsKept(sys.tree, TreeAfterLink(sys, m, turns))
    ensures forall c | c in sys.tree && sys.stations[c].AtTimer? :: IsTimer(TreeAfterLink(sys, m, turns)[c].deviceType)
  {
    var o, ty := sys.tree[m.x].parent, OldParentAnswer(sys, m, turns);
    AnswerKind(sys, m, turns);
    LinkedTreeShape(sys.tree, m, Turn(turns, CONTROLLER_ID), ty);
    KindsAfterAnswer(sys.tree, TreeAfterLink(sys, m, turns), o, ty);
    forall c | c in sys.tree && sys.stations[c].AtTimer? ensures IsTimer(sys.tree[c].deviceType) {
      assert InStep(sys.tree, sys.pipes, c, sys.stations[c], sys.steps);
    }
  }

  /** Every station is in step with the tree after the link. */
  lemma StationsInStep(sys: System, m: Move, turns: Turns, u: Table)
    requires AllInStep(sys.tree, sys.stations, sys.pipes, sys.steps) && sys.steps + 1 < H.COUNTER_RANGE
    requires Rooted(u) && Linking(sys.tree, u, sys.pipes, m) && KindsKept(sys.tree, u)
    requires forall c | c in sys.tree && sys.stations[c].AtTimer? :: IsTimer(u[c].deviceType)
    ensures AllInStep(u, StationsAfterLink(sys, m, turns), sys.pipes[(m.p, m.fd) := m.x], sys.steps + 1)
  {
    forall c | c in u {
      StationInStep(sys.tree, u, sys.pipes, c, sys.stations[c], sys.steps, m, Turn(turns, c));
    }
  }

  lemma LinkedStations(sys: System, m: Move, turns: Turns)
    requires GoodMove(sys.tree, sys.stations, sys.pipes, m, sys.steps) && sys.steps + 1 < H.COUNTER_RANGE
    requires AllInStep(sys.tree, sys.stations, sys.pipes, sys.steps)
    ensures var u := TreeAfterLink(sys, m, turns);
            AllInStep(u, StationsAfterLink(sys, m, turns), sys.pipes[(m.p, m.fd) := m.x], sys.steps + 1)
  {
    var u := TreeAfterLink(sys, m, turns);
    LinkTreeIsRooted(sys, m, turns);
    LinkTreeKinds(sys, m, turns);
    GoodMoveIsLinking(sys.tree, sys.stations, sys.pipes, m, sys.steps, u);
    StationsInStep(sys, m, turns, u);
  }

  lemma LinkTreeIsSound(sys: System, m: Move, turns: Turns)
    requires GoodMove(sys.tree, sys.stations, sys.pipes, m, sys.steps) && sys.steps + 1 < H.COUNTER_RANGE
    requires AllInStep(sys.tree, sys.stations, sys.pipes, sys.steps) && Piped(sys.pipes, CONTROLLER_ID, sys.tree)
    ensures var u := TreeAfterLink(sys, m, turns);
            Rooted(u) && HopsOk(u) && Piped(sys.pipes[(m.p, m.fd) := m.x], CONTROLLER_ID, u)
  {
    LinkTreeIsRooted(sys, m, turns);
    LinkTreePiped(sys, m, turns);
  }

  lemma LinkedIsSound(sys: System, m: Move, turns: Turns)
    requires GoodMove(sys.tree, sys.stations, sys.pipes, m, sys.steps) && sys.steps + 1 < H.COUNTER_RANGE
    requires AllInStep(sys.tree, sys.stations, sys.pipes, sys.steps) && Piped(sys.pipes, CONTROLLER_ID, sys.tree)
    ensures Sound(AfterWholeLink(sys, m, turns))
  {
    LinkTreeIsSound(sys, m, turns);
    LinkedStations(sys, m, turns);
  }

  lemma LinkKeepsSound(sys: System, x: DeviceId, p: DeviceId, fd: int, turns: Turns)
    requires Sound(sys) && Enabled(sys, Link(x, p, fd, turns))
    ensures Sound(Step(sys, Link(x, p, fd, turns)))
  {
    LinkIsGoodMove(sys, x, p, fd, turns);
    LinkedIsSound(sys, MoveOf(sys.tree, sys.stations, x, p, fd), turns);
  }

  /** The Controller's check of one link is enough for all the tables the responses pass, whenever the removal comes. */
  lemma CheckIsEnough(sys: System, x: DeviceId, p: DeviceId, fd: int, turns: Turns, c: DeviceId)
    requires Sound(sys) && Enabled(sys, Link(x, p, fd, turns)) && c in sys.stations && x in sys.tree
    ensures Expected(sys.tree, c, sys.stations[c], MoveOf(sys.tree, sys.stations, x, p, fd), Turn(turns, c))
  {
    var t, m := sys.tree, MoveOf(sys.tree, sys.stations, x, p, fd);
    var w := MovedTree(t, m, 0);
    LinkIsGoodMove(sys, x, p, fd, turns);
    MovedTreeShape(t, m, 0);
    GoodMoveIsLinking(t, sys.stations, sys.pipes, m, sys.steps, w);
    assert InStep(t, sys.pipes, c, sys.stations[c], sys.steps);
    ClassKinds(t, w, {});
    StationInStep(t, w, sys.pipes, c, sys.stations[c], sys.steps, m, Turn(turns, c));
  }

  // ---------------------------------------------------------------- when the tree also stays safe

  ghost predicate Fitting(sys: System, m: Move, turns: Turns)
    requires m.x in sys.tree
  {
    AnswerFits(MovedTree(sys.tree, m, Turn(turns, CONTROLLER_ID)), sys.tree[m.x].parent, OldParentAnswer(sys, m, turns))
  }

  /** From a safe tree, the tree after a link is safe exactly when what the old parent declares fits. */
  lemma LinkIsSafeIff(sys: System, x: DeviceId, p: DeviceId, fd: int, turns: Turns)
    requires Sound(sys) && Safe(sys.tree) && Enabled(sys, Link(x, p, fd, turns)) && x in sys.tree
    ensures Safe(Step(sys, Link(x, p, fd, turns)).tree) <==>
            Fitting(sys, MoveOf(sys.tree, sys.stations, x, p, fd), turns)
  {
    var m := MoveOf(sys.tree, sys.stations, x, p, fd);
    LinkIsGoodMove(sys, x, p, fd, turns);
    AnswerKind(sys, m, turns);
    LinkedTreeIsSafeIff(sys.tree, m, Turn(turns, CONTROLLER_ID), OldParentAnswer(sys, m, turns));
  }

  /** The answer of a Timer always fits: its only child is gone, and it declares that. */
  lemma TimerAnswerFits(sys: System, m: Move, turns: Turns)
    requires GoodMove(sys.tree, sys.stations, sys.pipes, m, sys.steps) && sys.steps + 1 < H.COUNTER_RANGE
    requires AllInStep(sys.tree, sys.stations, sys.pipes, sys.steps)
    requires var o := sys.tree[m.x].parent; o in sys.stations && sys.stations[o].AtTimer?
    ensures Fitting(sys, m, turns)
  {
    var t, o, k := sys.tree, sys.tree[m.x].parent, Turn(turns, CONTROLLER_ID);
    var w := MovedTree(t, m, k);
    MovedTreeShape(t, m, k);
    GoodMoveIsLinking(t, sys.stations, sys.pipes, m, sys.steps, w);
    assert InStep(t, sys.pipes, o, sys.stations[o], sys.steps);
    var st := sys.stations[o];
    NoChildLeft(t, w, sys.pipes, o, st.timer, st.fd, m, sys.steps, Turn(turns, o));
  }

  lemma NoChildLeft(t: Table, u: Table, pipes: Pipes, o: DeviceId, st: T.View, fd: int, m: Move, n: nat, k: nat)
    requires Linking(t, u, pipes, m) && o in t && InStep(t, pipes, o, AtTimer(st, fd), n) && t[m.x].parent == o
    ensures o in u && DeclaredWhenAsked(t, o, AtTimer(st, fd), m, k) == TIMER_DEVICE
    ensures Declarable(u, o, TIMER_DEVICE) && forall y | y in u :: u[y].parent != o
  {
    NotToldOfTheController(t, o, m);
    TimerAdmits(t, u, pipes, o, st, fd, m);
    WhoIsTold(t, o, m.x, m.p, T.Branch(o, st, fd));
    if Hears(t, o, m.p) {
      ChildIsNotMoved(t, u, o, st, fd, m);
    }
    TimerIsLinked(o, st, fd, t, u, m, k);
    ChildLeaves(t, u, o, st, fd, m, TimerLinked(t, o, st, m, k));
    EmptyTimerFits(u, o);
  }

  lemma ChildLeaves(t: Table, u: Table, o: DeviceId, st: T.View, fd: int, m: Move, v: T.View)
    requires TimerKnows(t, o, st, fd) && Rehung(t, u, m.x, m.p) && t[m.x].parent == o
    requires TimerKnows(u, o, v, ChildPipe(o, m, fd)) && ChildAfter(o, m, st, v)
    ensures v.deviceType == TIMER_DEVICE && forall y | y in u :: u[y].parent != o
  {
    BelowTheChild(t, o, st, fd, m.x);
    assert !v.hasChild;
    assert T.Branch(o, v, ChildPipe(o, m, fd)) == map[];
  }

  lemma EmptyTimerFits(u: Table, o: DeviceId)
    requires o in u && forall y | y in u :: u[y].parent != o
    ensures Declarable(u, o, TIMER_DEVICE)
  {
  }

  /** So does that of a Hub whose declared type is in step, if both see the same non-empty devices below it. */
  lemma FollowingAnswerFits(sys: System, m: Move, turns: Turns)
    requires GoodMove(sys.tree, sys.stations, sys.pipes, m, sys.steps) && Safe(sys.tree)
    requires var o, w := sys.tree[m.x].parent, MovedTree(sys.tree, m, Turn(turns, CONTROLLER_ID));
             && o in sys.stations && sys.stations[o].AtHub? && o in w && IsHub(w[o].deviceType)
             && var v := HubAsked(sys.tree, o, sys.stations[o].hub, m, Turn(turns, o)).view;
                HubTypes.Follows(o, v) && HubTypes.SameBelow(o, v.table, w)
    ensures Fitting(sys, m, turns)
  {
    var o, k := sys.tree[m.x].parent, Turn(turns, CONTROLLER_ID);
    var w := MovedTree(sys.tree, m, k);
    MovedTreeShape(sys.tree, m, k);
    HubTypes.FollowingIsTruthful(o, HubAsked(sys.tree, o, sys.stations[o].hub, m, Turn(turns, o)).view, w);
    TruthfulIsDeclarable(w, o, OldParentAnswer(sys, m, turns));
  }

  // ---------------------------------------------------------------- what a deletion or a crash keeps

  lemma CutIsRouted(t: Table, x: DeviceId, u: Table, pipes: Pipes, c: DeviceId, r: Table, w: Table)
    requires Acyclic(t) && Covers(t, c, r) && HopsOk(r) && Piped(pipes, c, r)
    requires Pruned(t, x, u) && c in u && x in t && Cut(r, x, w)
    ensures Covers(u, c, w) && HopsOk(w) && Piped(pipes, c, w)
  {
    DeletedCovers(t, u, c, x, r, w);
  }

  lemma NothingCut(t: Table, x: DeviceId, c: DeviceId, r: Table)
    requires Acyclic(t) && Covers(t, c, r) && x !in r && x != c
    ensures Cut(r, x, r)
  {
    CoversIsBranch(t, c, r);
    NothingToLose(r, c, x);
  }

  lemma HubPruned(t: Table, x: DeviceId, u: Table, pipes: Pipes, c: DeviceId, h: H.HubState, n: nat, v: H.HubState)
    requires c in t && c in u && SameKind(t, c, AtHub(h)) && Acyclic(t) && Acyclic(u) && Pruned(t, x, u)
    requires KindsLeft(t, u) && Starts(c, v, n) && v.owed == {} && x in t && Cut(h.view.table, x, v.view.table)
    requires Covers(t, c, h.view.table) && HopsOk(h.view.table) && Piped(pipes, c, h.view.table)
    ensures InStep(u, pipes, c, AtHub(v), n + 1)
  {
    CutIsRouted(t, x, u, pipes, c, h.view.table, v.view.table);
  }

  lemma HubAfterDelete(t: Table, x: DeviceId, u: Table, pipes: Pipes, c: DeviceId, h: H.HubState, n: nat)
    requires c in t && c in u && InStep(t, pipes, c, AtHub(h), n) && n < H.COUNTER_RANGE
    requires Acyclic(u) && Pruned(t, x, u) && KindsLeft(t, u) && x in t
    ensures InStep(u, pipes, c, AfterDelete(t, c, AtHub(h), x), n + 1)
  {
    CoversIsBranch(t, c, h.view.table);
    var v := h;
    if Below(t, x, c) {
      v := HubDeletes(c, h, n, x);
    } else {
      NothingCut(t, x, c, h.view.table);
    }
    HubPruned(t, x, u, pipes, c, h, n, v);
  }

  lemma HubLoses(c: DeviceId, h: H.HubState, n: nat, t: Table, x: DeviceId)
    requires Starts(c, h, n) && h.owed == {} && n < H.COUNTER_RANGE && x in t && c != x
    requires Acyclic(t) && Covers(t, c, h.view.table)
    ensures var v := HubAfter(c, h, LossEvents(t, c, t[x].parent, x));
            Starts(c, v, n) && v.owed == {} && Cut(h.view.table, x, v.view.table)
  {
    WhoIsTold(t, c, x, x, h.view.table);
    if x in h.view.table {
      var v := HubForgets(c, h, n, t, t[x].parent, x);
    } else {
      NothingCut(t, x, c, h.view.table);
    }
  }

  lemma HubAfterCrash(t: Table, x: DeviceId, u: Table, pipes: Pipes, c: DeviceId, h: H.HubState, n: nat)
    requires c in t && c in u && InStep(t, pipes, c, AtHub(h), n) && n < H.COUNTER_RANGE
    requires Acyclic(u) && Pruned(t, x, u) && KindsLeft(t, u) && x in t
    ensures InStep(u, pipes, c, AfterCrash(t, c, AtHub(h), x), n + 1)
  {
    HubLoses(c, h, n, t, x);
    HubPruned(t, x, u, pipes, c, h, n, HubAfter(c, h, LossEvents(t, c, t[x].parent, x)));
  }

  lemma TimerPruned(t: Table, x: DeviceId, u: Table, pipes: Pipes, c: DeviceId, st: T.View, fd: int, n: nat, v: T.View)
    requires c in t && c in u && InStep(t, pipes, c, AtTimer(st, fd), n) && Acyclic(u) && Pruned(t, x, u) && x in t
    requires KindsLeft(t, u) && IsTimer(u[c].deviceType) && T.Invariant(c, v)
    requires Cut(T.Branch(c, st, fd), x, T.Branch(c, v, fd)) && (v.hasChild ==> SameChild(st, v))
    ensures InStep(u, pipes, c, AtTimer(v, fd), n + 1)
  {
    CutIsRouted(t, x, u, pipes, c, T.Branch(c, st, fd), T.Branch(c, v, fd));
    TimerKnowsAfter(t, x, u, c, st, fd, v);
  }

  lemma TimerKnowsAfter(t: Table, x: DeviceId, u: Table, c: DeviceId, st: T.View, fd: int, v: T.View)
    requires TimerKnows(t, c, st, fd) && Acyclic(u) && Pruned(t, x, u) && T.Invariant(c, v)
    requires Covers(u, c, T.Branch(c, v, fd)) && Cut(T.Branch(c, st, fd), x, T.Branch(c, v, fd))
    requires v.hasChild ==> SameChild(st, v)
    requires c in t && c in u && SameKind(t, c, AtTimer(st, fd)) && KindsLeft(t, u) && IsTimer(u[c].deviceType)
    ensures TimerKnows(u, c, v, fd) && SameKind(u, c, AtTimer(v, fd))
  {
    var b := T.Branch(c, v, fd);
    if v.hasChild {
      if IsControl(v.childType) { assert v.childId in DirectChildren(v.table, c); }
      assert v.childId in b && b[v.childId].parent == c;
    }
  }

  lemma TimerAfterDelete(t: Table, x: DeviceId, u: Table, pipes: Pipes, c: DeviceId, st: T.View, fd: int, n: nat)
    requires c in t && c in u && InStep(t, pipes, c, AtTimer(st, fd), n) && Acyclic(u) && Pruned(t, x, u) && x in t
    requires KindsLeft(t, u) && IsTimer(u[c].deviceType)
    ensures InStep(u, pipes, c, AfterDelete(t, c, AtTimer(st, fd), x), n + 1)
  {
    var r, v := T.Branch(c, st, fd), st;
    CoversIsBranch(t, c, r);
    if x in r {
      v := TimerDeletes(c, st, fd, t, x);
    } else {
      NothingCut(t, x, c, r);
    }
    TimerPruned(t, x, u, pipes, c, st, fd, n, v);
  }

  lemma TimerAfterCrash(t: Table, x: DeviceId, u: Table, pipes: Pipes, c: DeviceId, st: T.View, fd: int, n: nat)
    requires c in t && c in u && InStep(t, pipes, c, AtTimer(st, fd), n) && Acyclic(u) && Pruned(t, x, u) && x in t
    requires KindsLeft(t, u) && IsTimer(u[c].deviceType)
    ensures InStep(u, pipes, c, AfterCrash(t, c, AtTimer(st, fd), x), n + 1)
  {
    var r, v := T.Branch(c, st, fd), st;
    WhoIsTold(t, c, x, x, r);
    if x in r {
      v := TimerForgets(c, st, fd, t, t[x].parent, x);
    } else {
      NothingCut(t, x, c, r);
    }
    TimerPruned(t, x, u, pipes, c, st, fd, n, v);
  }

  lemma StationAfterDelete(t: Table, x: DeviceId, u: Table, pipes: Pipes, c: DeviceId, st: Station, n: nat)
    requires c in t && c in u && InStep(t, pipes, c, st, n) && n < H.COUNTER_RANGE
    requires Rooted(u) && Pruned(t, x, u) && KindsLeft(t, u) && x in t && (st.AtTimer? ==> IsTimer(u[c].deviceType))
    ensures InStep(u, pipes, c, AfterDelete(t, c, st, x), n + 1)
  {
    match st
    case AtHub(h) => HubAfterDelete(t, x, u, pipes, c, h, n);
    case AtTimer(v, fd) => TimerAfterDelete(t, x, u, pipes, c, v, fd, n);
    case AtLeaf => LeafInStep(u, pipes, c, n + 1);
  }

  lemma StationAfterCrash(t: Table, x: DeviceId, u: Table, pipes: Pipes, c: DeviceId, st: Station, n: nat)
    requires c in t && c in u && InStep(t, pipes, c, st, n) && n < H.COUNTER_RANGE
    requires Rooted(u) && Pruned(t, x, u) && KindsLeft(t, u) && x in t && (st.AtTimer? ==> IsTimer(u[c].deviceType))
    ensures InStep(u, pipes, c, AfterCrash(t, c, st, x), n + 1)
  {
    match st
    case AtHub(h) => HubAfterCrash(t, x, u, pipes, c, h, n);
    case AtTimer(v, fd) => TimerAfterCrash(t, x, u, pipes, c, v, fd, n);
    case AtLeaf => LeafInStep(u, pipes, c, n + 1);
  }

  lemma StationsDeleted(sys: System, x: DeviceId, u: Table)
    requires AllInStep(sys.tree, sys.stations, sys.pipes, sys.steps) && sys.steps + 1 < H.COUNTER_RANGE
    requires Rooted(u) && Pruned(sys.tree, x, u) && KindsLeft(sys.tree, u) && x in sys.tree
    requires forall c | c in u && sys.stations[c].AtTimer? :: IsTimer(u[c].deviceType)
    ensures AllInStep(u, StationsAfterDelete(sys, x, u), sys.pipes, sys.steps + 1)
  {
    forall c | c in u {
      StationAfterDelete(sys.tree, x, u, sys.pipes, c, sys.stations[c], sys.steps);
    }
  }

  lemma StationsCrashed(sys: System, x: DeviceId, u: Table)
    requires AllInStep(sys.tree, sys.stations, sys.pipes, sys.steps) && sys.steps + 1 < H.COUNTER_RANGE
    requires Rooted(u) && Pruned(sys.tree, x, u) && KindsLeft(sys.tree, u) && x in sys.tree
    requires forall c | c in u && sys.stations[c].AtTimer? :: IsTimer(u[c].deviceType)
    ensures AllInStep(u, StationsAfterCrash(sys, x, u), sys.pipes, sys.steps + 1)
  {
    forall c | c in u {
      StationAfterCrash(sys.tree, x, u, sys.pipes, c, sys.stations[c], sys.steps);
    }
  }

  /** What is left of the kinds when only `o` has declared itself anew. */
  lemma KindsOfTheRest(sys: System, x: DeviceId, u: Table, o: DeviceId, ty: DeviceType)
    requires AllInStep(sys.tree, sys.stations, sys.pipes, sys.steps) && u.Keys <= sys.tree.Keys
    requires ClassesLeft(sys.tree, u, {o})
    requires o in u ==> u[o].deviceType == ty && IsControl(sys.tree[o].deviceType) && IsControl(ty)
    requires o in u && sys.stations[o].AtTimer? ==> IsTimer(ty)
    ensures KindsLeft(sys.tree, u)
    ensures forall c | c in u && sys.stations[c].AtTimer? :: IsTimer(u[c].deviceType)
  {
    KindsAfterPruning(sys.tree, u, o, ty);
    forall c | c in u && sys.stations[c].AtTimer? ensures IsTimer(sys.tree[c].deviceType) {
      assert InStep(sys.tree, sys.pipes, c, sys.stations[c], sys.steps);
    }
  }

  lemma NobodyDeleted(sys: System, x: DeviceId)
    requires AllInStep(sys.tree, sys.stations, sys.pipes, sys.steps) && x !in sys.tree
    ensures AllInStep(sys.tree, StationsAfterDelete(sys, x, sys.tree), sys.pipes, sys.steps + 1)
  {
    forall c | c in sys.tree
      ensures InStep(sys.tree, sys.pipes, c, AfterDelete(sys.tree, c, sys.stations[c], x), sys.steps + 1)
    {
      assert InStep(sys.tree, sys.pipes, c, sys.stations[c], sys.steps);
      BelowUnfold(sys.tree, x, c);
    }
  }

  lemma DeletedIsSound(sys: System, x: DeviceId)
    requires Sound(sys) && sys.steps + 1 < H.COUNTER_RANGE && x in sys.tree
    ensures Sound(AfterWholeDelete(sys, x))
  {
    DeletedTree(sys.tree, x);
    KindsOfTheRest(sys, x, Deleted(sys.tree, x), CONTROLLER_ID, 0);
    StationsDeleted(sys, x, Deleted(sys.tree, x));
  }

  lemma DeleteKeepsSound(sys: System, x: DeviceId)
    requires Sound(sys) && Enabled(sys, Delete(x))
    ensures Sound(Step(sys, Delete(x)))
  {
    if x in sys.tree {
      DeletedIsSound(sys, x);
    } else {
      NobodyDeleted(sys, x);
    }
  }

  /** The parent of a dead device declares the kind of device it is. */
  lemma CrashAnswerKind(sys: System, x: DeviceId, w: Table)
    requires AllInStep(sys.tree, sys.stations, sys.pipes, sys.steps) && sys.steps + 1 < H.COUNTER_RANGE
    requires Rooted(sys.tree) && x in sys.tree
    requires Rooted(w) && Pruned(sys.tree, x, w) && ClassesLeft(sys.tree, w, {})
    ensures var o := sys.tree[x].parent;
            o != CONTROLLER_ID ==>
              && o in w && IsControl(sys.tree[o].deviceType) && IsControl(ParentAnswer(sys, x))
              && (sys.stations[o].AtTimer? ==> IsTimer(ParentAnswer(sys, x)))
  {
    var t, o := sys.tree, sys.tree[x].parent;
    if o != CONTROLLER_ID {
      BelowUnfold(t, x, x);
      BelowUnfold(t, x, o);
      assert o in RemoveTree(t, x);
      KindsOfTheRest(sys, x, w, CONTROLLER_ID, 0);
      StationAfterCrash(t, x, w, sys.pipes, o, sys.stations[o], sys.steps);
      DeclaredKind(w, o, AfterCrash(t, o, sys.stations[o], x), sys.steps + 1);
    }
  }

  lemma CrashedTree(sys: System, x: DeviceId, after: Table)
    requires Sound(sys) && Enabled(sys, Crash(x, after))
    ensures var u := Answered(after, sys.tree[x].parent, ParentAnswer(sys, x));
            && Rooted(u) && HopsOk(u) && Pruned(sys.tree, x, u) && KindsLeft(sys.tree, u)
            && forall c | c in u && sys.stations[c].AtTimer? :: IsTimer(u[c].deviceType)
  {
    var t, o, ty := sys.tree, sys.tree[x].parent, ParentAnswer(sys, x);
    ReapedTree(t, x, after);
    CrashAnswerKind(sys, x, after);
    PrunedAnswered(t, x, after, o, ty);
    KindsOfTheRest(sys, x, Answered(after, o, ty), o, ty);
  }

  lemma CrashedIsSound(sys: System, x: DeviceId, after: Table)
    requires Sound(sys) && Enabled(sys, Crash(x, after))
    ensures Sound(AfterWholeCrash(sys, x, after))
  {
    CrashedTree(sys, x, after);
    StationsCrashed(sys, x, Answered(after, sys.tree[x].parent, ParentAnswer(sys, x)));
  }

  // ---------------------------------------------------------------- what a new device keeps

  lemma GrownCovers(t: Table, u: Table, id: DeviceId, ty: DeviceType, fd: int, c: DeviceId, r: Table)
    requires Covers(t, c, r) && c in t && Grown(t, u, id, ty, fd) && CONTROLLER_ID !in t
    ensures Covers(u, c, r)
  {
  }

  lemma OldInStep(t: Table, u: Table, id: DeviceId, ty: DeviceType, fd: int, pipes: Pipes, c: DeviceId, st: Station,
                  n: nat)
    requires c in t && InStep(t, pipes, c, st, n) && Grown(t, u, id, ty, fd) && CONTROLLER_ID !in t && Acyclic(u)
    ensures c in u && InStep(u, pipes[(CONTROLLER_ID, fd) := id], c, st, n + 1)
  {
    GrownCovers(t, u, id, ty, fd, c, BranchAt(c, st));
  }

  lemma NothingBelowNew(t: Table, u: Table, id: DeviceId, ty: DeviceType, fd: int)
    requires ParentsKnown(t) && Grown(t, u, id, ty, fd)
    ensures Covers(u, id, map[])
  {
  }

  lemma NewInStep(t: Table, u: Table, id: DeviceId, ty: DeviceType, fd: int, pipes: Pipes, n: nat)
    requires ParentsKnown(t) && Grown(t, u, id, ty, fd) && Addable(ty) && Acyclic(u)
    ensures InStep(u, pipes, id, NewStation(ty), n)
  {
    NothingBelowNew(t, u, id, ty, fd);
    H.StartIsSound(id);
    T.StartIsSound(id);
    ControlBits(0);
    AddableBits(ty);
  }

  lemma AddableBits(ty: DeviceType)
    requires Addable(ty)
    ensures IsLeaf(ty) || IsTimer(ty) || IsHub(ty)
    ensures IsControl(ty) <==> !IsLeaf(ty)
  {
  }

  lemma RootsGrown(t: Table, u: Table, id: DeviceId, ty: DeviceType, fd: int, pipes: Pipes)
    requires Covers(t, CONTROLLER_ID, t) && Piped(pipes, CONTROLLER_ID, t) && Unused(t, pipes, CONTROLLER_ID, fd)
    requires Grown(t, u, id, ty, fd)
    ensures Piped(pipes[(CONTROLLER_ID, fd) := id], CONTROLLER_ID, u)
  {
    PipedUnused(t, pipes, CONTROLLER_ID, t, CONTROLLER_ID, fd, id);
  }

  lemma StationGrown(sys: System, u: Table, id: DeviceId, ty: DeviceType, fd: int, c: DeviceId)
    requires AllInStep(sys.tree, sys.stations, sys.pipes, sys.steps) && ParentsKnown(sys.tree)
    requires Grown(sys.tree, u, id, ty, fd) && Addable(ty) && Acyclic(u) && c in u
    ensures var after := sys.stations[id := NewStation(ty)];
            c in after && InStep(u, sys.pipes[(CONTROLLER_ID, fd) := id], c, after[c], sys.steps + 1)
  {
    if c == id {
      NewInStep(sys.tree, u, id, ty, fd, sys.pipes[(CONTROLLER_ID, fd) := id], sys.steps + 1);
    } else {
      assert InStep(sys.tree, sys.pipes, c, sys.stations[c], sys.steps);
      OldInStep(sys.tree, u, id, ty, fd, sys.pipes, c, sys.stations[c], sys.steps);
    }
  }

  lemma StationsGrown(sys: System, u: Table, id: DeviceId, ty: DeviceType, fd: int)
    requires AllInStep(sys.tree, sys.stations, sys.pipes, sys.steps) && ParentsKnown(sys.tree)
    requires Grown(sys.tree, u, id, ty, fd) && Addable(ty) && Acyclic(u)
    ensures AllInStep(u, sys.stations[id := NewStation(ty)], sys.pipes[(CONTROLLER_ID, fd) := id], sys.steps + 1)
  {
    forall c | c in u {
      StationGrown(sys, u, id, ty, fd, c);
    }
  }

  lemma AddKeepsSound(sys: System, id: DeviceId, ty: DeviceType, pid: int, fd: int)
    requires Sound(sys) && Enabled(sys, Add(id, ty, pid, fd))
    ensures Sound(Step(sys, Add(id, ty, pid, fd)))
  {
    var u := Put(sys.tree, id, pid, ty, CONTROLLER_ID, fd);
    GrownTree(sys.tree, id, ty, pid, fd);
    StationsGrown(sys, u, id, ty, fd);
    TreeCoversItself(sys.tree);
    RootsGrown(sys.tree, u, id, ty, fd, sys.pipes);
  }

  // ---------------------------------------------------------------- runs

  /** Every completed command keeps every device's table in step with the Controller's tree. */
  lemma StepKeepsSound(sys: System, c: Command)
    requires Sound(sys) && Enabled(sys, c)
    ensures Sound(Step(sys, c))
  {
    match c
    case Add(id, ty, pid, fd) => AddKeepsSound(sys, id, ty, pid, fd);
    case Link(x, p, fd, turns) => LinkKeepsSound(sys, x, p, fd, turns);
    case Delete(x) => DeleteKeepsSound(sys, x);
    case Crash(x, after) => CrashedIsSound(sys, x, after);
  }

  ghost predicate IsRun(sys: System, cs: seq<Command>)
    decreases |cs|
  {
    cs == [] || (Enabled(sys, cs[0]) && IsRun(Step(sys, cs[0]), cs[1..]))
  }

  ghost function Final(sys: System, cs: seq<Command>): System
    requires IsRun(sys, cs)
    decreases |cs|
  {
    if cs == [] then sys else Final(Step(sys, cs[0]), cs[1..])
  }

  lemma {:induction false} RunKeepsSound(sys: System, cs: seq<Command>)
    requires Sound(sys) && IsRun(sys, cs)
    ensures Sound(Final(sys, cs))
    decreases |cs|
  {
    if cs != [] {
      StepKeepsSound(sys, cs[0]);
      RunKeepsSound(Step(sys, cs[0]), cs[1..]);
    }
  }

  // ---------------------------------------------------------------- when the tree stays safe as well

  /** What is declared on the way fits the tree. */
  ghost predicate Fits(sys: System, c: Command)
    requires Sound(sys) && Enabled(sys, c)
  {
    match c
    case Add(_, _, _, _) => true
    case Link(x, p, fd, turns) => Fitting(sys, MoveOf(sys.tree, sys.stations, x, p, fd), turns)
    case Delete(_) => true
    case Crash(x, after) => AnswerFits(after, sys.tree[x].parent, ParentAnswer(sys, x))
  }

  lemma CrashIsSafeIff(sys: System, x: DeviceId, after: Table)
    requires Sound(sys) && Safe(sys.tree) && Enabled(sys, Crash(x, after))
    ensures Safe(Step(sys, Crash(x, after)).tree) <==> Fits(sys, Crash(x, after))
  {
    var o := sys.tree[x].parent;
    ReapedIsSafe(sys.tree, x, after);
    if o != CONTROLLER_ID {
      ReapedTree(sys.tree, x, after);
      CrashAnswerKind(sys, x, after);
      ChildRemovedIsSafeIff(after, o, ParentAnswer(sys, x));
    }
  }

  /** A command leaves a safe tree safe exactly when what is declared on the way fits. */
  lemma StepIsSafeIff(sys: System, c: Command)
    requires Sound(sys) && Safe(sys.tree) && Enabled(sys, c)
    ensures Safe(Step(sys, c).tree) <==> Fits(sys, c)
  {
    match c
    case Add(id, ty, pid, fd) => AddIsSafeIff(sys.tree, id, ty, pid, fd);
    case Link(x, p, fd, turns) =>
      LinkIsGoodMove(sys, x, p, fd, turns);
      LinkIsSafeIff(sys, x, p, fd, turns);
    case Delete(x) => DeletedKeepsSturdy(sys.tree, x);
    case Crash(x, after) => CrashIsSafeIff(sys, x, after);
  }

  /** Everything declared in the run fits. */
  ghost predicate AllFit(sys: System, cs: seq<Command>)
    requires Sound(sys) && IsRun(sys, cs)
    decreases |cs|
  {
    cs == [] || (Fits(sys, cs[0]) && (StepKeepsSound(sys, cs[0]); AllFit(Step(sys, cs[0]), cs[1..])))
  }

  /** The tree is safe before, between and after the commands. */
  ghost predicate AlwaysSafe(sys: System, cs: seq<Command>)
    requires IsRun(sys, cs)
    decreases |cs|
  {
    Safe(sys.tree) && (cs == [] || AlwaysSafe(Step(sys, cs[0]), cs[1..]))
  }

  lemma {:induction false} RunIsSafeIff(sys: System, cs: seq<Command>)
    requires Sound(sys) && Safe(sys.tree) && IsRun(sys, cs)
    ensures AlwaysSafe(sys, cs) <==> AllFit(sys, cs)
    decreases |cs|
  {
    if cs != [] {
      StepKeepsSound(sys, cs[0]);
      StepIsSafeIff(sys, cs[0]);
      if Fits(sys, cs[0]) {
        RunIsSafeIff(Step(sys, cs[0]), cs[1..]);
      }
    }
  }

  const INITIAL := System(map[], map[], map[], 0)

  lemma InitialIsSound()
    ensures Sound(INITIAL)
  {
    forall x: DeviceId ensures !Below(INITIAL.tree, x, x) {
      BelowUnfold(INITIAL.tree, x, x);
    }
  }

  // ---------------------------------------------------------------- delivery

  ghost function PostOf(st: Station): Post {
    match st
    case AtHub(h) => ByTable(h.view.table)
    case AtTimer(v, fd) => ByChild(v.hasChild, fd)
    case AtLeaf => Nowhere
  }

  /** How requests are passed on in this system. */
  ghost function NetOf(sys: System): Net {
    Net(sys.tree,
        (map c | c in sys.stations :: PostOf(sys.stations[c]))[CONTROLLER_ID := ByTable(sys.tree)],
        sys.pipes)
  }

  lemma CoversIsKnown(t: Table, pipes: Pipes, c: DeviceId, s: Table)
    requires Acyclic(t) && Covers(t, c, s) && HopsOk(s) && Piped(pipes, c, s)
    ensures Knows(t, pipes, c, s)
  {
    CoversIsBranch(t, c, s);
  }

  lemma TimerIsInformed(net: Net, c: DeviceId, v: T.View, fd: int)
    requires TimerKnows(net.tree, c, v, fd) && Piped(net.pipes, c, T.Branch(c, v, fd))
    ensures KnowsChild(net, c, v.hasChild, fd)
  {
    forall x | x in net.tree && net.tree[x].parent == c ensures v.hasChild && net.pipes[(c, fd)] == x {
      BelowTheChild(net.tree, c, v, fd, x);
    }
  }

  lemma StationIsInformed(sys: System, c: DeviceId)
    requires Sound(sys) && c in sys.tree
    ensures Informed(NetOf(sys), c)
  {
    var net := NetOf(sys);
    assert c != CONTROLLER_ID && net.posts[c] == PostOf(sys.stations[c]);
    assert InStep(sys.tree, sys.pipes, c, sys.stations[c], sys.steps);
    match sys.stations[c]
    case AtHub(h) => CoversIsKnown(sys.tree, sys.pipes, c, h.view.table);
    case AtTimer(v, fd) => TimerIsInformed(net, c, v, fd);
    case AtLeaf =>
  }

  lemma ControllerIsInformed(sys: System)
    requires Rooted(sys.tree) && HopsOk(sys.tree) && Piped(sys.pipes, CONTROLLER_ID, sys.tree)
    ensures Informed(NetOf(sys), CONTROLLER_ID)
  {
    TreeCoversItself(sys.tree);
    CoversIsKnown(sys.tree, sys.pipes, CONTROLLER_ID, sys.tree);
  }

  lemma AnyIsInformed(sys: System, c: DeviceId)
    requires Sound(sys) && c in NetOf(sys).posts
    ensures Informed(NetOf(sys), c)
  {
    if c == CONTROLLER_ID {
      ControllerIsInformed(sys);
    } else {
      StationIsInformed(sys, c);
    }
  }

  /** A system in step is one in which requests find their way. */
  lemma SoundIsConsistent(sys: System)
    requires Sound(sys)
    ensures Consistent(NetOf(sys))
  {
    assert NetOf(sys).posts.Keys == sys.stations.Keys + {CONTROLLER_ID};
    forall c | c in NetOf(sys).posts {
      AnyIsInformed(sys, c);
    }
  }

  lemma SoundDelivers(sys: System, d: DeviceId)
    requires Sound(sys)
    ensures Consistent(NetOf(sys))
    ensures d in sys.tree ==> Below(sys.tree, d, CONTROLLER_ID) && Delivers(NetOf(sys), d)
    ensures d !in sys.tree && d != CONTROLLER_ID ==> forall n: nat :: Holder(NetOf(sys), CONTROLLER_ID, d, n) != Some(d)
  {
    SoundIsConsistent(sys);
    if d in sys.tree {
      HangsFromController(sys.tree, d);
      DeliveredFromController(NetOf(sys), d);
    } else {
      ArrivesIff(NetOf(sys), CONTROLLER_ID, d);
      BelowUnfold(sys.tree, d, CONTROLLER_ID);
    }
  }

  /** A request of the Controller reaches `d` in as many writes as `d` is deep, by way of its ancestors only. */
  ghost predicate Delivers(net: Net, d: DeviceId)
    requires Acyclic(net.tree)
  {
    var k := Depth(net.tree, d) + 1;
    && Holder(net, CONTROLLER_ID, d, k) == Some(d) && Holder(net, CONTROLLER_ID, d, k + 1) == None
    && forall i: nat | i < k :: Passing(net, CONTROLLER_ID, d, i)
  }

  /**
   After any serial run of commands from a Controller that has just started, a request from the Controller reaches
   any device in as many writes as the device is deep, passing only its ancestors, and nothing that does not exist.
   */
  lemma AlwaysDelivered(cs: seq<Command>, d: DeviceId)
    requires IsRun(INITIAL, cs)
    ensures var net := NetOf(Final(INITIAL, cs));
            && Consistent(net)
            && (d in net.tree ==> Delivers(net, d))
            && (d !in net.tree && d != CONTROLLER_ID ==> forall n: nat :: Holder(net, CONTROLLER_ID, d, n) != Some(d))
  {
    InitialIsSound();
    RunKeepsSound(INITIAL, cs);
    SoundDelivers(Final(INITIAL, cs), d);
  }
}
