/** When the Hub's counter of direct children is exact, and what an overestimate leads to. */
module HubCounter {
  import opened Devices
  import opened Forest
  import opened TableOps
  import opened Protocol
  import opened Topology
  import opened Replay
  import opened HubTable
  import opened Broadcasts

  /** How far the counter is above the direct entries and the removals still owed. */
  ghost function Gap(id: DeviceId, s: HubState): int {
    s.view.children - |DirectChildren(s.view.table, id)| - |s.owed|
  }

  ghost predicate Exactly(id: DeviceId, s: HubState) { Gap(id, s) == 0 }

  /**
   A child is not announced to its own parent again, nor moved deeper a second time before the first removal
   has been requested, and a removal that is owed is requested while the child is still recorded.
   */
  ghost predicate KeepsCount(id: DeviceId, s: HubState, e: HubEvent) {
    var t := s.view.table;
    match e
    case Direct(x, _, _) => !(x in t && t[x].parent == id)
    case Indirect(x, p, _) => p in t && x in t && t[x].parent == id ==> x !in s.owed
    case Requested(x) => x in s.owed && !(x in t && t[x].parent == id) ==> x in t && s.view.hasChildren
    case Deleted(_) => true
    case RemovedFrom(_, _) => true
  }

  lemma DirectGap(id: DeviceId, s: HubState, steps: nat, e: HubEvent)
    requires Invariant(id, s, steps) && steps + 1 < COUNTER_RANGE && Enabled(id, s, e) && e.Direct?
    ensures Gap(id, Step(id, s, e)) == Gap(id, s) + if KeepsCount(id, s, e) then 0 else 1
  {
    var t, x := s.view.table, e.x;
    assert DirectChildren(Put(t, x, 0, e.ty, id, e.fd), id) == DirectChildren(t, id) + {x};
    OneMore(DirectChildren(t, id), x);
  }

  lemma IndirectGap(id: DeviceId, s: HubState, steps: nat, e: HubEvent)
    requires Invariant(id, s, steps) && Enabled(id, s, e) && e.Indirect?
    ensures Gap(id, Step(id, s, e)) == Gap(id, s) + if KeepsCount(id, s, e) then 0 else 1
  {
    var t, x, p := s.view.table, e.x, e.p;
    if p in t {
      var u := Put(t, x, 0, e.ty, p, t[p].hop);
      PutAcyclicIff(t, x, Entry(0, e.ty, p, t[p].hop));
      FillAboveKeepsTree(u, x);
      SameTreeHangs(u, Learn(t, x, p, e.ty), id);
      assert DirectChildren(u, id) == DirectChildren(t, id) - {x};
      assert x in DirectChildren(t, id) <==> x in t && t[x].parent == id;
      OneLess(DirectChildren(t, id), x);
      OneMore(s.owed, x);
    }
  }

  lemma CountDown(n: int)
    requires 0 < n < COUNTER_RANGE
    ensures (n - 1) % COUNTER_RANGE == n - 1
  {
  }

  lemma RequestedGap(id: DeviceId, s: HubState, steps: nat, e: HubEvent)
    requires Invariant(id, s, steps) && steps < COUNTER_RANGE && Enabled(id, s, e) && e.Requested?
    ensures Gap(id, Step(id, s, e)) == Gap(id, s) + if KeepsCount(id, s, e) then 0 else 1
  {
    var t, x := s.view.table, e.x;
    assert x in DirectChildren(t, id) <==> x in t && t[x].parent == id;
    OneLess(s.owed, x);
    if x in t && s.view.hasChildren {
      UnhookHangs(t, id, x, id);
      OneLess(DirectChildren(t, id), x);
      CountDown(s.view.children);
    }
  }

  lemma RemovalGap(id: DeviceId, s: HubState, steps: nat, e: HubEvent)
    requires Invariant(id, s, steps) && steps < COUNTER_RANGE && Enabled(id, s, e) && (e.Deleted? || e.RemovedFrom?)
    ensures Gap(id, Step(id, s, e)) == Gap(id, s)
  {
    var t, x := s.view.table, e.x;
    assert x in DirectChildren(t, id) <==> x in t && t[x].parent == id;
    if x in t {
      if e.Deleted? {
        UnhookHangs(t, id, x, t[x].parent);
        OneLess(DirectChildren(t, id), x);
      } else {
        RemovedFromKeepsDirect(id, t, e.s, x);
      }
    }
  }

  lemma RemovedFromKeepsDirect(id: DeviceId, t: Table, o: DeviceId, x: DeviceId)
    requires HangsFrom(t, id) && x in t && o != id
    ensures Acyclic(Remove(t, x, o))
    ensures DirectChildren(EmptyUp(Remove(t, x, o), o), id) == DirectChildren(t, id)
  {
    var u := Remove(t, x, o);
    if t[x].parent == o {
      RemoveHangs(t, id, x);
      assert x !in DirectChildren(t, id);
    }
    EmptyUpKeepsTree(u, o);
    SameTreeHangs(u, EmptyUp(u, o), id);
  }

  /** The gap never shrinks, and grows exactly when the guard of the event fails. */
  lemma StepGap(id: DeviceId, s: HubState, steps: nat, e: HubEvent)
    requires Invariant(id, s, steps) && steps + 1 < COUNTER_RANGE && Enabled(id, s, e)
    ensures Gap(id, Step(id, s, e)) == Gap(id, s) + if KeepsCount(id, s, e) then 0 else 1
  {
    match e
    case Direct(_, _, _) => DirectGap(id, s, steps, e);
    case Indirect(_, _, _) => IndirectGap(id, s, steps, e);
    case Requested(_) => RequestedGap(id, s, steps, e);
    case Deleted(_) => RemovalGap(id, s, steps, e);
    case RemovedFrom(_, _) => RemovalGap(id, s, steps, e);
  }

  /** From an exact counter, one event leaves it exact exactly when its guard holds. */
  lemma StepExactIff(id: DeviceId, s: HubState, steps: nat, e: HubEvent)
    requires Invariant(id, s, steps) && steps + 1 < COUNTER_RANGE && Enabled(id, s, e) && Exactly(id, s)
    ensures Exactly(id, Step(id, s, e)) <==> KeepsCount(id, s, e)
  {
    StepGap(id, s, steps, e);
  }

  /** Every event of the run meets its guard. */
  ghost predicate CountKept(id: DeviceId, s: HubState, es: seq<HubEvent>)
    requires IsRun(id, s, es)
    decreases |es|
  {
    es == [] || (KeepsCount(id, s, es[0]) && CountKept(id, Step(id, s, es[0]), es[1..]))
  }

  lemma {:induction false} RunGap(id: DeviceId, s: HubState, steps: nat, es: seq<HubEvent>)
    requires Invariant(id, s, steps) && IsRun(id, s, es) && steps + |es| < COUNTER_RANGE
    ensures Gap(id, Final(id, s, es)) >= Gap(id, s)
    ensures Gap(id, Final(id, s, es)) == Gap(id, s) <==> CountKept(id, s, es)
    decreases |es|
  {
    if es != [] {
      StepGap(id, s, steps, es[0]);
      StepKeepsInvariant(id, s, steps, es[0]);
      RunGap(id, Step(id, s, es[0]), steps + 1, es[1..]);
    }
  }

  /** After any run the counter is exact exactly when every event met its guard: one slip is never made good. */
  lemma CounterExactIff(id: DeviceId, es: seq<HubEvent>)
    requires IsRun(id, START, es) && |es| < COUNTER_RANGE
    ensures Exactly(id, Final(id, START, es)) <==> CountKept(id, START, es)
  {
    StartIsSound(id);
    assert DirectChildren(START.view.table, id) == {};
    RunGap(id, START, 0, es);
  }

  // ---------------------------------------------------------------- a Hub that believes in a child it has not

  lemma {:induction false} CreditKeepsEmpty(l: seq<Pending>, r: Response, fromHub: bool, p: Pending)
    requires p.devices == []
    ensures p in l ==> p in CreditList(l, r, fromHub).0
    ensures p !in CreditList(l, r, fromHub).1
  {
    if l != [] {
      assert l == [l[0]] + l[1..];
      CreditKeepsEmpty(l[1..], r, fromHub, p);
      if Matches(l[0], r.commandCode, r.source, false) {
        ClearedStays(l[0].devices, r.source);
      }
    }
  }

  lemma {:induction false} DepartKeepsEmpty(l: seq<Pending>, x: DeviceId, p: Pending)
    requires p.devices == []
    ensures p in l ==> p in Depart(l, x).0
    ensures p !in Depart(l, x).1
  {
    if l != [] {
      assert l == [l[0]] + l[1..];
      DepartKeepsEmpty(l[1..], x, p);
      if x in l[0].devices {
        ClearedStays(l[0].devices, x);
      }
    }
  }

  lemma ClearedStays(ds: seq<DeviceId>, x: DeviceId)
    requires ds != []
    ensures Clear(ds, x) != []
  {
  }

  /** A broadcast to nobody is never answered: it stays in the list through every later event. */
  lemma {:induction false} BroadcastToNobodyStays(es: seq<BroadcastEvent>, i: nat, code: Code)
    requires i < |es| && es[i] == Forward(code, [])
    ensures Pending(code, [], NO_ANSWERS) in ListRun(es).0
    decreases |es|
  {
    var p, e, l := Pending(code, [], NO_ANSWERS), es[|es| - 1], ListRun(es[..|es| - 1]).0;
    if i < |es| - 1 {
      BroadcastToNobodyStays(es[..|es| - 1], i, code);
      match e
      case Forward(_, _) =>
      case Reply(r, fromHub) => CreditKeepsEmpty(l, r, fromHub, p);
      case Gone(x) => DepartKeepsEmpty(l, x, p);
    }
  }

  ghost predicate Believes(v: View) { v.hasChildren <==> v.children > 0 }

  lemma StepBelieves(id: DeviceId, s: HubState, steps: nat, e: HubEvent)
    requires Invariant(id, s, steps) && steps + 1 < COUNTER_RANGE && Enabled(id, s, e) && Believes(s.view)
    ensures Believes(Step(id, s, e).view)
  {
    var v := s.view;
    match e
    case Direct(x, ty, fd) =>
      assert (v.children + 1) % COUNTER_RANGE == v.children + 1;
    case Indirect(x, p, ty) =>
    case Requested(x) =>
      if v.hasChildren && x in v.table {
        RemovalBelieves(id, v, Unhook(v.table, x, id), true, x);
      }
    case Deleted(x) =>
      if x in v.table {
        SomethingDirect(v.table, id, x);
        NonEmptySet(DirectChildren(v.table, id));
        RemovalBelieves(id, v, Unhook(v.table, x, v.table[x].parent), v.table[x].parent == id, x);
      }
    case RemovedFrom(o, x) =>
  }

  lemma NonEmptySet(s: set<DeviceId>)
    requires s != {}
    ensures |s| > 0
  {
  }

  lemma RemovalBelieves(id: DeviceId, v: View, t: Table, counted: bool, x: DeviceId)
    requires Believes(v) && 0 < v.children < COUNTER_RANGE
    ensures Believes(AfterRemoval(id, v, t, counted, x))
  {
    CountDown(v.children);
  }

  lemma {:induction false} RunBelieves(id: DeviceId, s: HubState, steps: nat, es: seq<HubEvent>)
    requires Invariant(id, s, steps) && Believes(s.view) && IsRun(id, s, es) && steps + |es| < COUNTER_RANGE
    ensures Believes(Final(id, s, es).view)
    decreases |es|
  {
    if es != [] {
      StepKeepsInvariant(id, s, steps, es[0]);
      StepBelieves(id, s, steps, es[0]);
      RunBelieves(id, Step(id, s, es[0]), steps + 1, es[1..]);
    }
  }

  /**
   A Hub believes that it has children exactly when its counter is not zero. It is right - it broadcasts exactly
   when there is somebody to ask - exactly when there is, or every event has met its guard and no removal is owed.
   */
  lemma BelievesIff(id: DeviceId, es: seq<HubEvent>)
    requires IsRun(id, START, es) && |es| < COUNTER_RANGE
    ensures var s := Final(id, START, es);
            var asked := DirectChildren(s.view.table, id) != {};
            && (s.view.hasChildren <==> s.view.children > 0)
            && ((s.view.hasChildren <==> asked) <==> asked || (CountKept(id, START, es) && s.owed == {}))
  {
    StartIsSound(id);
    RunBelieves(id, START, 0, es);
    RunKeepsInvariant(id, START, 0, es);
    CounterExactIff(id, es);
    assert DirectChildren(START.view.table, id) == {};
    RunGap(id, START, 0, es);
    if Final(id, START, es).owed != {} {
      NonEmptySet(Final(id, START, es).owed);
    }
  }

  /**
   Otherwise it can be wrong. A device that two links in flight send to the same Hub announces itself twice;
   once it is deleted, the Hub still believes in a child, so it broadcasts a request to nobody, and no later
   event answers it.
   */
  lemma SilentHub(id: DeviceId, x: DeviceId, fd: int, code: Code, later: seq<BroadcastEvent>)
    returns (es: seq<HubEvent>)
    requires x != id
    ensures IsRun(id, START, es) && es == [Direct(x, BULB_DEVICE, fd), Direct(x, BULB_DEVICE, fd), Deleted(x)]
    ensures !CountKept(id, START, es)
    ensures var v := Final(id, START, es).view; v.hasChildren && Children(v.table, id) == []
    ensures var ids := Children(Final(id, START, es).view.table, id);
            Pending(code, [], NO_ANSWERS) in ListRun([Forward(code, ids)] + later).0
  {
    es := CounterOverestimates(id, x, fd);
    var s := Final(id, START, es);
    assert DirectChildren(s.view.table, id) == {};
    CounterExactIff(id, es);
    ChildrenCount(s.view.table, id);
    BroadcastToNobodyStays([Forward(code, Children(s.view.table, id))] + later, 0, code);
  }
}
