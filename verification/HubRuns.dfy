/** The Hub as one machine: its table, its counter and its broadcasts in one run. */
module HubRuns {
  import opened Devices
  import opened Forest
  import opened Protocol
  import opened TableOps
  import opened Topology
  import opened HubTable
  import opened HubCounter
  import opened Broadcasts

  /** `pending` is the Hub's list, `ledger` everything it was ever asked, and `sent` its aggregate answers. */
  datatype Joint = Joint(hub: HubState, pending: seq<Pending>, ledger: seq<Broadcast>, sent: seq<(Code, Summary)>)

  datatype JointEvent =
    | Structure(change: HubEvent)
    | Ask(code: Code)
    | Answer(response: Response, fromHub: bool)

  /** Nobody is asked or struck out under the id that marks answered slots. */
  ghost predicate JointEnabled(id: DeviceId, s: Joint, e: JointEvent) {
    match e
    case Structure(c) => Enabled(id, s.hub, c) && (c.Direct? || c.Requested? || c.Deleted? ==> c.x != NO_ID)
    case Ask(_) => true
    case Answer(r, _) => r.source != NO_ID
  }

  /** The event of the broadcast machine that goes with it, if any. */
  ghost function Broadcasting(id: DeviceId, s: Joint, e: JointEvent): Option<BroadcastEvent> {
    var v := s.hub.view;
    match e
    case Structure(Requested(x)) => if v.hasChildren && x in v.table then Some(Gone(x)) else None
    case Structure(Deleted(x)) => Some(Gone(x))
    case Structure(_) => None
    case Ask(code) => if v.hasChildren then Some(Forward(code, Children(v.table, id))) else None
    case Answer(r, fromHub) => Some(Reply(r, fromHub))
  }

  ghost function JointStep(id: DeviceId, s: Joint, e: JointEvent): Joint
    requires JointEnabled(id, s, e)
  {
    var hub := if e.Structure? then Step(id, s.hub, e.change) else s.hub;
    match Broadcasting(id, s, e)
    case None => s.(hub := hub)
    case Some(b) =>
      var (l, done) := ListStep(s.pending, b);
      Joint(hub, l, LedgerStep(s.ledger, b), s.sent + Aggregates(done))
  }

  ghost predicate NoMarkerBelow(id: DeviceId, t: Table) { NO_ID in t ==> t[NO_ID].parent != id }

  ghost predicate JointInvariant(id: DeviceId, s: Joint, steps: nat) {
    && Invariant(id, s.hub, steps) && NoMarkerBelow(id, s.hub.view.table)
    && Refines(s.pending, s.ledger) && AllOnce(s.ledger) && InOrder(s.ledger)
  }

  /** What a broadcast relies on: a slot for everybody asked, nobody twice, and nobody who looks answered already. */
  lemma BroadcastIsPossible(id: DeviceId, s: Joint, steps: nat, code: Code)
    requires JointInvariant(id, s, steps)
    ensures |Children(s.hub.view.table, id)| <= s.hub.view.children
    ensures Asked(Children(s.hub.view.table, id)) == DirectChildren(s.hub.view.table, id)
    ensures Possible(Forward(code, Children(s.hub.view.table, id)))
  {
    var t := s.hub.view.table;
    ChildrenCount(t, id);
    ChildrenFromExact(t, id, -1);
    var ids := Children(t, id);
    forall i, j | 0 <= i < j < |ids| ensures ids[i] != ids[j] {
      assert Key(ids[i]) < Key(ids[j]);
    }
  }

  lemma NoMarkerKept(id: DeviceId, s: HubState, steps: nat, e: HubEvent)
    requires Invariant(id, s, steps) && steps + 1 < COUNTER_RANGE && Enabled(id, s, e)
            && NoMarkerBelow(id, s.view.table)
    requires e.Direct? ==> e.x != NO_ID
    ensures NoMarkerBelow(id, Step(id, s, e).view.table)
  {
    DirectOnlyBy(id, s, steps, e, NO_ID);
  }

  /** A device becomes a direct child only by announcing itself as one. */
  lemma DirectOnlyBy(id: DeviceId, s: HubState, steps: nat, e: HubEvent, x: DeviceId)
    requires Invariant(id, s, steps) && steps + 1 < COUNTER_RANGE && Enabled(id, s, e)
    requires !(e.Direct? && e.x == x)
    ensures x in DirectChildren(Step(id, s, e).view.table, id) ==> x in DirectChildren(s.view.table, id)
  {
    var t := s.view.table;
    match e
    case Direct(y, ty, fd) =>
    case Indirect(y, p, ty) =>
      if p in t {
        var u := Put(t, y, 0, ty, p, t[p].hop);
        FillAboveKeepsTree(u, y);
      }
    case Requested(y) =>
      if y in t {
        UnhookHangs(t, id, y, id);
      }
    case Deleted(y) =>
      if y in t {
        UnhookHangs(t, id, y, t[y].parent);
      }
    case RemovedFrom(o, y) =>
      if y in t {
        RemovedFromKeepsDirect(id, t, o, y);
      }
  }

  lemma BroadcastingIsPossible(id: DeviceId, s: Joint, steps: nat, e: JointEvent)
    requires JointInvariant(id, s, steps) && JointEnabled(id, s, e) && Broadcasting(id, s, e).Some?
    ensures Possible(Broadcasting(id, s, e).value)
  {
    if e.Ask? {
      BroadcastIsPossible(id, s, steps, e.code);
    }
  }

  lemma StepKeepsJoint(id: DeviceId, s: Joint, steps: nat, e: JointEvent)
    requires JointInvariant(id, s, steps) && steps + 1 < COUNTER_RANGE && JointEnabled(id, s, e)
    ensures JointInvariant(id, JointStep(id, s, e), steps + 1)
    ensures |JointStep(id, s, e).ledger| >= |s.ledger|
    ensures JointStep(id, s, e).sent == s.sent + Emitted(s.ledger, JointStep(id, s, e).ledger)
  {
    if e.Structure? {
      StepKeepsInvariant(id, s.hub, steps, e.change);
      NoMarkerKept(id, s.hub, steps, e.change);
    }
    match Broadcasting(id, s, e)
    case None =>
      EmittedNothing(s.ledger, s.ledger);
    case Some(b) =>
      BroadcastingIsPossible(id, s, steps, e);
      StepRefines(s.pending, s.ledger, b);
      StepProgresses(s.ledger, b);
      StepKeepsOnce(s.ledger, b);
      StepKeepsOrder(s.ledger, b);
  }

  ghost predicate IsJointRun(id: DeviceId, s: Joint, es: seq<JointEvent>)
    decreases |es|
  {
    es == [] || (JointEnabled(id, s, es[0]) && IsJointRun(id, JointStep(id, s, es[0]), es[1..]))
  }

  ghost function JointFinal(id: DeviceId, s: Joint, es: seq<JointEvent>): Joint
    requires IsJointRun(id, s, es)
    decreases |es|
  {
    if es == [] then s else JointFinal(id, JointStep(id, s, es[0]), es[1..])
  }

  lemma {:induction false} RunKeepsJoint(id: DeviceId, s: Joint, steps: nat, es: seq<JointEvent>)
    requires JointInvariant(id, s, steps) && IsJointRun(id, s, es) && steps + |es| < COUNTER_RANGE
    ensures JointInvariant(id, JointFinal(id, s, es), steps + |es|)
    decreases |es|
  {
    if es != [] {
      StepKeepsJoint(id, s, steps, es[0]);
      RunKeepsJoint(id, JointStep(id, s, es[0]), steps + 1, es[1..]);
    }
  }

  const IDLE := Joint(START, [], [], [])

  /**
   In every run of the whole Hub that does not wrap its counter: the next broadcast fits its array and asks
   every direct child once, the list holds exactly the broadcasts still open, and each broadcast over a
   non-empty set is answered once, when its last awaited child has answered or gone.
   */
  lemma HubIsSound(id: DeviceId, es: seq<JointEvent>, code: Code)
    requires IsJointRun(id, IDLE, es) && |es| < COUNTER_RANGE
    ensures var s := JointFinal(id, IDLE, es);
            && |Children(s.hub.view.table, id)| <= s.hub.view.children
            && Possible(Forward(code, Children(s.hub.view.table, id)))
            && Refines(s.pending, s.ledger) && AllOnce(s.ledger) && InOrder(s.ledger)
  {
    StartIsSound(id);
    RunKeepsJoint(id, IDLE, 0, es);
    BroadcastIsPossible(id, JointFinal(id, IDLE, es), |es|, code);
  }
}
