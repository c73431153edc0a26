/** The Controller's table over serial runs of new devices, links, deletions and crashes. */
module TopologyRuns {
  import opened Devices
  import opened Forest
  import opened TableOps
  import opened Protocol
  import opened Topology

  datatype State = State(table: Table, lastId: DeviceId)

  datatype Event =
    | Added(ty: DeviceType, pid: int, fd: int)
    | LinkAnswered(x: DeviceId, p: DeviceId, fd: int)
    | Replayed(x: DeviceId)
    | ChildGone(o: DeviceId, ty: DeviceType)
    | DeviceDeleted(x: DeviceId)
    | Crashed(dead: set<DeviceId>, after: Table)

  /**
   A link's response is processed before the next check, or its parent is gone; only control devices are asked to
   remove a child, and declare a control type; and the 16-bit device counter has not wrapped. Any devices may crash,
   and reaping them leaves what `Controller.ReapingDone` says.
   */
  ghost predicate Enabled(s: State, e: Event) {
    Acyclic(s.table) &&
    match e
    case Added(ty, _, _) => Addable(ty) && s.lastId < 0xFFFF
    case LinkAnswered(x, p, _) => LinkCheck(s.table, x, p) == OK || (x in s.table && Vanished(s.table, p))
    case Replayed(x) => true
    case ChildGone(o, ty) => o in s.table ==> IsControl(ty)
    case DeviceDeleted(x) => true
    case Crashed(dead, after) =>
      dead <= s.table.Keys && Reaped(s.table, after, dead) && TypesKept(s.table, after)
  }

  /** The type in a remove-child answer fits the table. */
  ghost predicate Fits(s: State, e: Event) { e.ChildGone? && e.o in s.table ==> Declarable(s.table, e.o, e.ty) }

  ghost function Step(s: State, e: Event): State
    requires Enabled(s, e)
  {
    match e
    case Added(ty, pid, fd) =>
      State(Put(s.table, s.lastId + 1, pid, ty, CONTROLLER_ID, fd), s.lastId + 1)
    case LinkAnswered(x, p, fd) => s.(table := ParentChanged(s.table, x, p, fd))
    case Replayed(x) =>
      s.(table := if x in s.table then ParentChanged(s.table, x, s.table[x].parent, 0) else s.table)
    case ChildGone(o, ty) => s.(table := ChildRemoved(s.table, o, ty))
    case DeviceDeleted(x) => s.(table := Deleted(s.table, x))
    case Crashed(_, after) => s.(table := after)
  }

  ghost predicate IsRun(s: State, es: seq<Event>)
    decreases |es|
  {
    es == [] || (Enabled(s, es[0]) && IsRun(Step(s, es[0]), es[1..]))
  }

  ghost function Final(s: State, es: seq<Event>): State
    requires IsRun(s, es)
    decreases |es|
  {
    if es == [] then s else Final(Step(s, es[0]), es[1..])
  }

  ghost predicate Bounded(t: Table, n: DeviceId) { forall x | x in t :: x <= n && t[x].parent <= n }

  ghost predicate Invariant(s: State) { Forested(s.table) && Bounded(s.table, s.lastId) }

  /** A crash leaves nobody whose parent has died: the children have been signalled, and have died too. */
  ghost predicate LeavesNoOrphan(s: State, e: Event) {
    e.Crashed? ==> forall x | x in s.table && x !in e.dead :: s.table[x].parent !in e.dead
  }

  /** From `t` to `u` the table stays a bounded forest, and keeps what else it had. */
  ghost predicate Kept(t: Table, u: Table, n: DeviceId) {
    Forested(u) && Bounded(u, n) && (ParentsKnown(t) ==> ParentsKnown(u)) && (Sturdy(t) ==> Sturdy(u))
  }

  lemma AddedKeeps(t: Table, id: DeviceId, ty: DeviceType, pid: int, fd: int)
    requires Forested(t) && id > 0 && Bounded(t, id - 1) && Addable(ty)
    ensures Kept(t, Put(t, id, pid, ty, CONTROLLER_ID, fd), id)
  {
    AddKeepsForest(t, id, ty, pid, fd);
    if Sturdy(t) {
      AddIsSturdyIff(t, id, ty, pid, fd);
    }
  }

  lemma HopKeeps(t: Table, x: DeviceId, hop: int, n: DeviceId)
    requires Forested(t) && Bounded(t, n) && x in t
    ensures Kept(t, t[x := t[x].(hop := hop)], n)
  {
    SameShape(t, t[x := t[x].(hop := hop)]);
  }

  lemma ReplayedKeeps(t: Table, x: DeviceId, n: DeviceId)
    requires Forested(t) && Bounded(t, n) && x in t
    ensures Kept(t, ParentChanged(t, x, t[x].parent, 0), n)
  {
    var p := t[x].parent;
    if p != CONTROLLER_ID && p in t {
      HopKeeps(t, x, t[p].hop, n);
    }
  }

  lemma LinkKeeps(t: Table, x: DeviceId, p: DeviceId, fd: int, n: DeviceId)
    requires Forested(t) && Bounded(t, n) && LinkCheck(t, x, p) == OK
    ensures Kept(t, ParentChanged(t, x, p, fd), n)
  {
    LinkCheckIff(t, x, p);
    if t[x].parent == CONTROLLER_ID || t[x].parent in t {
      LinkKeepsForest(t, x, p, fd);
      MovedIsBounded(t, ParentChanged(t, x, p, fd), x, p, n);
      if Sturdy(t) {
        LinkKeepsSturdy(t, x, p, fd);
      }
    }
  }

  lemma MovedIsBounded(t: Table, u: Table, x: DeviceId, p: DeviceId, n: DeviceId)
    requires Bounded(t, n) && u.Keys == t.Keys && p <= n
    requires forall y | y in t :: u[y].parent == if y == x then p else t[y].parent
    ensures Bounded(u, n)
  {
  }

  lemma VanishedKeeps(t: Table, x: DeviceId, p: DeviceId, fd: int, n: DeviceId)
    requires Forested(t) && Bounded(t, n) && Vanished(t, p)
    ensures Kept(t, ParentChanged(t, x, p, fd), n)
  {
    VanishedParentKeepsForest(t, x, p, fd);
    if Sturdy(t) {
      VanishedParentChangesNothing(t, x, p, fd);
    }
  }

  lemma DeclaredKeeps(t: Table, o: DeviceId, ty: DeviceType, n: DeviceId)
    requires Forested(t) && Bounded(t, n) && o in t && IsControl(ty)
    ensures var u := ChildRemoved(t, o, ty);
            && Forested(u) && Bounded(u, n) && (ParentsKnown(t) ==> ParentsKnown(u))
            && (Sturdy(t) ==> (Sturdy(u) <==> Declarable(t, o, ty)))
  {
    ChildRemovedIsForestedIff(t, o, ty);
    ChildRemovedShape(t, o, ty);
    if Sturdy(t) {
      ChildRemovedIsSturdyIff(t, o, ty);
    }
  }

  lemma DeletedKeeps(t: Table, x: DeviceId, n: DeviceId)
    requires Forested(t) && Bounded(t, n)
    ensures Kept(t, Deleted(t, x), n)
  {
    DeletedKeepsForest(t, x);
    if Sturdy(t) {
      DeletedKeepsSturdy(t, x);
    }
  }

  lemma CrashKeeps(t: Table, u: Table, dead: set<DeviceId>, n: DeviceId)
    requires Forested(t) && Bounded(t, n) && dead <= t.Keys && Reaped(t, u, dead)
    requires Compatible(t) ==> Compatible(u)
    ensures Forested(u) && Bounded(u, n) && (Sturdy(t) ==> Sturdy(u))
    ensures ParentsKnown(t) ==> (ParentsKnown(u) <==> forall x | x in t && x !in dead :: t[x].parent !in dead)
  {
    assert u.Keys == t.Keys - dead && forall x | x in u :: u[x].parent == t[x].parent;
    if Sturdy(t) {
      ReapedIsSturdy(t, u, dead);
    }
  }

  /**
   Every event keeps a forest in which leaves have no children, whatever is declared and whatever crashes; a known
   parent is lost only by a crash that leaves an orphan; and a sturdy table stays sturdy exactly when a declared
   type fits.
   */
  lemma StepKeepsInvariant(s: State, e: Event)
    requires Invariant(s) && Enabled(s, e)
    ensures Invariant(Step(s, e))
    ensures ParentsKnown(s.table) ==> (ParentsKnown(Step(s, e).table) <==> LeavesNoOrphan(s, e))
    ensures Sturdy(s.table) ==> (Sturdy(Step(s, e).table) <==> Fits(s, e))
  {
    var t, n := s.table, s.lastId;
    match e
    case Added(ty, pid, fd) =>
      AddedKeeps(t, n + 1, ty, pid, fd);
    case LinkAnswered(x, p, fd) =>
      if LinkCheck(t, x, p) == OK {
        LinkKeeps(t, x, p, fd, n);
      } else {
        VanishedKeeps(t, x, p, fd, n);
      }
    case Replayed(x) =>
      if x in t {
        ReplayedKeeps(t, x, n);
      }
    case ChildGone(o, ty) =>
      if o in t {
        DeclaredKeeps(t, o, ty, n);
      }
    case DeviceDeleted(x) =>
      DeletedKeeps(t, x, n);
    case Crashed(dead, after) =>
      CrashKeeps(t, after, dead, n);
  }

  /** In every state of every serial run, whatever is declared and whatever crashes: no cycle, and childless leaves. */
  lemma {:induction false} RunsAreForests(s: State, es: seq<Event>)
    requires Invariant(s) && IsRun(s, es)
    ensures Invariant(Final(s, es))
    decreases |es|
  {
    if es != [] {
      StepKeepsInvariant(s, es[0]);
      RunsAreForests(Step(s, es[0]), es[1..]);
    }
  }

  /** Every declared type of the run fits. */
  ghost predicate AllFit(s: State, es: seq<Event>)
    requires IsRun(s, es)
    decreases |es|
  {
    es == [] || (Fits(s, es[0]) && AllFit(Step(s, es[0]), es[1..]))
  }

  /** The table is sturdy before, between and after the events. */
  ghost predicate AlwaysSturdy(s: State, es: seq<Event>)
    requires IsRun(s, es)
    decreases |es|
  {
    Sturdy(s.table) && (es == [] || AlwaysSturdy(Step(s, es[0]), es[1..]))
  }

  /**
   Timers with at most one child, and non-empty devices that agree with their parents: through the whole of a serial
   run, whatever crashes, exactly when every declared type fits the table it is stored in.
   */
  lemma {:induction false} RunsAreSturdyIff(s: State, es: seq<Event>)
    requires Invariant(s) && Sturdy(s.table) && IsRun(s, es)
    ensures AlwaysSturdy(s, es) <==> AllFit(s, es)
    ensures AllFit(s, es) ==> Sturdy(Final(s, es).table)
    decreases |es|
  {
    if es != [] {
      StepKeepsInvariant(s, es[0]);
      if Fits(s, es[0]) {
        RunsAreSturdyIff(Step(s, es[0]), es[1..]);
      }
    }
  }

  /** No crash of the run leaves an orphan. */
  ghost predicate NoOrphans(s: State, es: seq<Event>)
    requires IsRun(s, es)
    decreases |es|
  {
    es == [] || (LeavesNoOrphan(s, es[0]) && NoOrphans(Step(s, es[0]), es[1..]))
  }

  /** Every recorded parent is known before, between and after the events. */
  ghost predicate AlwaysKnown(s: State, es: seq<Event>)
    requires IsRun(s, es)
    decreases |es|
  {
    ParentsKnown(s.table) && (es == [] || AlwaysKnown(Step(s, es[0]), es[1..]))
  }

  /** Parents stay known through the whole of a run exactly when no crash leaves an orphan. */
  lemma {:induction false} RunsAreRootedIff(s: State, es: seq<Event>)
    requires Invariant(s) && ParentsKnown(s.table) && IsRun(s, es)
    ensures AlwaysKnown(s, es) <==> NoOrphans(s, es)
    ensures NoOrphans(s, es) ==> Rooted(Final(s, es).table)
    decreases |es|
  {
    if es != [] {
      StepKeepsInvariant(s, es[0]);
      if LeavesNoOrphan(s, es[0]) {
        RunsAreRootedIff(Step(s, es[0]), es[1..]);
      }
    }
  }

  /** A Controller that has just started. */
  const INITIAL := State(map[], CONTROLLER_ID)

  lemma InitialIsSafe()
    ensures Invariant(INITIAL) && Safe(INITIAL.table)
  {
    forall x: DeviceId ensures !Below(INITIAL.table, x, x) {
      BelowUnfold(INITIAL.table, x, x);
    }
  }

  /**
   So every table a Controller can reach is a forest; without orphans every device in it hangs from the Controller;
   and if declared types fit as well, it is safe.
   */
  lemma ReachableIsSafe(es: seq<Event>)
    requires IsRun(INITIAL, es)
    ensures var t := Final(INITIAL, es).table;
            && Forested(t) && (NoOrphans(INITIAL, es) ==> Rooted(t) && AllRooted(t))
            && (NoOrphans(INITIAL, es) && AllFit(INITIAL, es) ==> Safe(t))
  {
    InitialIsSafe();
    RunsAreForests(INITIAL, es);
    RunsAreRootedIff(INITIAL, es);
    RunsAreSturdyIff(INITIAL, es);
    if NoOrphans(INITIAL, es) {
      RootedIsAllRooted(Final(INITIAL, es).table);
    }
  }

  ghost predicate AllRooted(t: Table) { forall x | x in t :: Below(t, x, CONTROLLER_ID) }

  lemma RootedIsAllRooted(t: Table)
    requires Rooted(t)
    ensures AllRooted(t)
  {
    forall x | x in t ensures Below(t, x, CONTROLLER_ID) {
      HangsFromController(t, x);
    }
  }

  /** One event more at the end of a run. */
  lemma {:induction false} RunAppend(s: State, es: seq<Event>, e: Event)
    requires IsRun(s, es) && Enabled(Final(s, es), e)
    ensures IsRun(s, es + [e]) && Final(s, es + [e]) == Step(Final(s, es), e)
    decreases |es|
  {
    if es != [] {
      RunAppend(Step(s, es[0]), es[1..], e);
      assert (es + [e])[1..] == es[1..] + [e];
    }
  }

  ghost predicate SturdyState(s: State) { Sturdy(s.table) && Bounded(s.table, s.lastId) }

  /** A run from the beginning that has kept the table safe, and the state it has led to. */
  ghost predicate Reached(es: seq<Event>, s: State) {
    IsRun(INITIAL, es) && Final(INITIAL, es) == s && SturdyState(s) && ParentsKnown(s.table)
  }

  lemma ReachNext(es: seq<Event>, s: State, e: Event, u: State)
    requires Reached(es, s) && Enabled(s, e) && Fits(s, e) && !e.Crashed? && u == Step(s, e)
    ensures Reached(es + [e], u)
  {
    RunAppend(INITIAL, es, e);
    StepKeepsInvariant(s, e);
  }

  /** Adding one device after the other. */
  ghost function Adds(n: nat): seq<Event> { seq(n, _ => Added(BULB_DEVICE, 0, 0)) }

  /** The table is safe and bounded, and the last id given out is recorded. */
  ghost predicate Fresh(s: State) {
    SturdyState(s) && ParentsKnown(s.table) && (s.lastId > 0 ==> s.lastId in s.table)
  }

  lemma AddKeepsFresh(s: State)
    requires Fresh(s) && s.lastId < 0xFFFF
    ensures Enabled(s, Added(BULB_DEVICE, 0, 0)) && Fresh(Step(s, Added(BULB_DEVICE, 0, 0)))
    ensures Step(s, Added(BULB_DEVICE, 0, 0)).lastId == s.lastId + 1
  {
    AddedKeeps(s.table, s.lastId + 1, BULB_DEVICE, 0, 0);
  }

  lemma {:induction false} AddsRun(s: State, n: nat)
    requires Fresh(s) && s.lastId + n <= 0xFFFF
    ensures IsRun(s, Adds(n)) && Fresh(Final(s, Adds(n))) && Final(s, Adds(n)).lastId == s.lastId + n
    decreases n
  {
    if n > 0 {
      AddKeepsFresh(s);
      assert Adds(n)[1..] == Adds(n - 1);
      AddsRun(Step(s, Added(BULB_DEVICE, 0, 0)), n - 1);
    }
  }

  /** Every id is reached. */
  lemma ReachId(id: DeviceId) returns (es: seq<Event>)
    ensures IsRun(INITIAL, es) && Fresh(Final(INITIAL, es)) && Final(INITIAL, es).lastId == id
  {
    InitialIsSafe();
    es := Adds(id);
    AddsRun(INITIAL, id);
  }

  /**
   The 65535th device gets the id that marks answered slots in Hubs, and the next one the Controller's own:
   that makes the table unsafe.
   */
  lemma CounterWraps(ty: DeviceType, pid: int, fd: int) returns (es: seq<Event>)
    requires Addable(ty)
    ensures IsRun(INITIAL, es)
    ensures var s := Final(INITIAL, es);
            && s.lastId == NO_ID && NO_ID in s.table && (s.lastId + 1) % 0x1_0000 == CONTROLLER_ID
            && Safe(s.table) && !Safe(Put(s.table, CONTROLLER_ID, pid, ty, CONTROLLER_ID, fd))
  {
    es := ReachId(NO_ID);
    AddIsSafeIff(Final(INITIAL, es).table, CONTROLLER_ID, ty, pid, fd);
  }

  /** Two links checked against the same table can both be allowed and together close a cycle. */
  lemma TwoLinksInFlight() returns (t: Table)
    ensures Safe(t) && LinkCheck(t, 1, 2) == OK && LinkCheck(t, 2, 1) == OK
    ensures !Acyclic(ParentChanged(ParentChanged(t, 1, 2, 0), 2, 1, 0))
  {
    t := map[1 := Entry(0, HUB_DEVICE, 0, 0), 2 := Entry(0, HUB_DEVICE, 0, 0)];
    forall x, a | x in t && a in t ensures !Below(t, x, a) {
      BelowUnfold(t, x, a);
      BelowUnfold(t, 0, a);
    }
    LinkCheckIff(t, 1, 2);
    LinkCheckIff(t, 2, 1);
    var u := ParentChanged(ParentChanged(t, 1, 2, 0), 2, 1, 0);
    assert u == map[1 := Entry(0, HUB_DEVICE, 2, 0), 2 := Entry(0, HUB_DEVICE, 1, 0)];
    BelowUnfold(u, 1, 1);
    BelowUnfold(u, 2, 1);
  }
}
