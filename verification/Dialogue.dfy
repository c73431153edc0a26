/**
 The messages behind one command of the whole system: what the moved device announces is what the Hubs, the Timers and
 the Controller hear, and what the Controller writes is what makes the old parent forget.
 */
module Dialogue {
  import opened Devices
  import opened Forest
  import opened TableOps
  import opened Protocol
  import opened Topology
  import opened NextHops
  import opened Replay
  import opened Forwarding
  import opened Delivery
  import opened Branches
  import opened Stations
  import opened Trees
  import opened Network
  import C = Controller
  import Hub
  import H = HubTable
  import T = TimerTable

  // ---------------------------------------------------------------- messages are events

  /** What a successful link response on its way up means to a Hub. */
  function HubHears(c: DeviceId, r: Response, fd: int): H.HubEvent
    requires |r.arguments| >= 2
  {
    if IsRemoveChild(r.commandCode) then H.RemovedFrom(r.source, r.arguments[0])
    else if r.arguments[0] == c then H.Direct(r.source, ArgumentType(r.arguments[1]), fd)
    else H.Indirect(r.source, r.arguments[0], ArgumentType(r.arguments[1]))
  }

  /** A Hub that handles the response, or is asked to remove a child, makes the step of that event. */
  lemma HubMakesStep(c: DeviceId, s: H.HubState, r: Response, fd: int, q: Request)
    ensures |r.arguments| >= 2 && H.Enabled(c, s, HubHears(c, r, fd)) ==>
              Hub.AfterLink(c, s.view, r, fd) == H.Step(c, s, HubHears(c, r, fd)).view
    ensures H.Enabled(c, s, H.Requested(q.argument)) ==>
              H.RemoveRequested(c, s.view, q.argument) == H.Step(c, s, H.Requested(q.argument)).view
    ensures H.Enabled(c, s, H.Deleted(r.source)) ==>
              H.ChildDeleted(c, s.view, r.source) == H.Step(c, s, H.Deleted(r.source)).view
  {
  }

  function TimerHears(c: DeviceId, r: Response, fd: int): T.TimerEvent
    requires |r.arguments| >= 2
  {
    if IsRemoveChild(r.commandCode) then T.RemovedFrom(r.source, r.arguments[0])
    else if r.arguments[0] == c then T.Child(r.source, ArgumentType(r.arguments[1]), fd)
    else T.Descendant(r.source, r.arguments[0], ArgumentType(r.arguments[1]))
  }

  /** The same for a Timer, which removes only its one child on request. */
  lemma TimerMakesStep(c: DeviceId, v: T.View, r: Response, fd: int)
    requires Acyclic(v.table) && r.responseCode == OK
    ensures |r.arguments| >= 2 && IsLink(r.commandCode) && T.Enabled(c, v, TimerHears(c, r, fd)) ==>
              T.Followed(c, v, r, fd) == T.Step(c, v, TimerHears(c, r, fd))
    ensures IsDelete(r.commandCode) ==> T.Followed(c, v, r, fd) == T.Step(c, v, T.Deleted(r.source))
    ensures T.Enabled(c, v, T.ChildRemoved) ==> T.DropChild(c, v) == T.Step(c, v, T.ChildRemoved)
  {
    CodesOfLinks(r.commandCode);
  }

  lemma CodesOfLinks(code: Code)
    ensures IsDelete(code) ==> !IsLink(code)
    ensures IsLink(LINK | LINK_CHANGE_PARENT) && !IsRemoveChild(LINK | LINK_CHANGE_PARENT)
    ensures IsLink(LINK | LINK_REMOVE_CHILD) && IsRemoveChild(LINK | LINK_REMOVE_CHILD)
  {
  }

  // ---------------------------------------------------------------- what the moved device says

  /** Its answer, and the replay of its branch. */
  ghost function Said(m: Move): seq<Response> {
    [ChangeParent(m.x, m.p, m.ty)] + Announcements(m.branch, Listed(m), LINK | LINK_CHANGE_PARENT, OK)
  }

  lemma {:induction false} AnnouncementAt(s: Table, ids: seq<DeviceId>, code: Code, i: nat)
    requires (forall c | c in ids :: c in s) && i < |ids|
    ensures |Announcements(s, ids, code, OK)| == |ids|
    ensures var d := ids[i];
            Announcements(s, ids, code, OK)[i] == Response(d, code, OK, [s[d].parent, TypeArgument(s[d].deviceType)])
  {
    var last := |ids| - 1;
    if i < last {
      AnnouncementAt(s, ids[..last], code, i);
    } else if last > 0 {
      AnnouncementAt(s, ids[..last], code, 0);
    }
  }

  lemma {:induction false} ReplaysAre(m: Move, ids: seq<DeviceId>, k: nat)
    requires forall d | d in ids :: d in m.branch
    ensures |Replays(m, ids, k)| == |TimerReplays(m, ids, k)| == if k < |ids| then |ids| - k else 0
    ensures forall i | k <= i < |ids| ::
              Replays(m, ids, k)[i - k] == ReplayOf(m, ids[i])
              && TimerReplays(m, ids, k)[i - k] == TimerReplayOf(m, ids[i])
    decreases |ids|
  {
    if k < |ids| {
      ReplaysAre(m, ids[..|ids| - 1], k);
    }
  }

  lemma SaidAt(c: DeviceId, m: Move, i: nat)
    requires HangsFrom(m.branch, m.x) && c != m.x && c !in m.branch && i <= |Listed(m)|
    ensures |Said(m)| == |Listed(m)| + 1 && |Said(m)[i].arguments| == 2
    ensures var r := Said(m)[i];
            && HubHears(c, r, m.fd) == (if i == 0 then FirstHeard(c, m) else ReplayOf(m, Listed(m)[i - 1]))
            && TimerHears(c, r, m.fd) == (if i == 0 then TimerFirst(c, m) else TimerReplayOf(m, Listed(m)[i - 1]))
  {
    CodesOfLinks(LINK);
    PreorderOfBranch(m.branch, m.x);
    TypeTravels(m.ty);
    if i > 0 {
      var d := Listed(m)[i - 1];
      AnnouncementAt(m.branch, Listed(m), LINK | LINK_CHANGE_PARENT, i - 1);
      TypeTravels(m.branch[d].deviceType);
      assert m.branch[d].parent != c;
    } else if Listed(m) != [] {
      AnnouncementAt(m.branch, Listed(m), LINK | LINK_CHANGE_PARENT, 0);
    }
  }

  /**
   The device says of itself and of its branch what the events of the Hubs and Timers above it say: first that of its
   own move, then the replays, from whichever one they are counted.
   */
  lemma SaidIsHeard(c: DeviceId, m: Move, k: nat, i: nat)
    requires HangsFrom(m.branch, m.x) && c != m.x && c !in m.branch && i <= |Listed(m)|
    ensures |Said(m)| == |Listed(m)| + 1 && |Said(m)[i].arguments| == 2
    ensures |Replays(m, Listed(m), k)| == |TimerReplays(m, Listed(m), k)|
    ensures |Replays(m, Listed(m), k)| == if k < |Listed(m)| then |Listed(m)| - k else 0
    ensures var r := Said(m)[i];
            && (i == 0 ==> HubHears(c, r, m.fd) == FirstHeard(c, m) && TimerHears(c, r, m.fd) == TimerFirst(c, m))
            && (i > k ==>
                  && HubHears(c, r, m.fd) == Replays(m, Listed(m), k)[i - k - 1]
                  && TimerHears(c, r, m.fd) == TimerReplays(m, Listed(m), k)[i - k - 1])
  {
    SaidAt(c, m, i);
    ReplaysAre(m, Listed(m), k);
    assert i > k ==> Replays(m, Listed(m), k)[i - 1 - k] == ReplayOf(m, Listed(m)[i - 1]);
  }

  /** This is how Hubs and Timers answer a change-parent request: their declared type, and everything below them. */
  lemma AnswerToMove(m: Move)
    requires HangsFrom(m.branch, m.x)
    ensures (forall d | d in Preorder(m.branch, m.x) :: d in m.branch)
    ensures Said(m) == [Response(m.x, LINK, OK, [m.p, TypeArgument(m.ty)])]
                       + Announcements(m.branch, Preorder(m.branch, m.x), LINK, OK)
  {
    PreorderOfBranch(m.branch, m.x);
    assert LINK | LINK_CHANGE_PARENT == LINK;
  }

  // ---------------------------------------------------------------- what the Controller makes of it

  /** The Controller's table after the responses, one by one. */
  ghost function TableAfter(t: Table, rs: seq<Response>): Table
    decreases |rs|
  {
    if rs == [] || rs[0].arguments == [] then t
    else TableAfter(ParentChanged(t, rs[0].source, rs[0].arguments[0], 0), rs[1..])
  }

  lemma AnnouncementsRest(s: Table, ids: seq<DeviceId>)
    requires ids != [] && forall c | c in ids :: c in s
    ensures |Announcements(s, ids, LINK, OK)| == |ids|
    ensures Announcements(s, ids, LINK, OK)[1..] == Announcements(s, ids[1..], LINK, OK)
  {
    var rs, rest := Announcements(s, ids, LINK, OK), ids[1..];
    AnnouncementAt(s, ids, LINK, 0);
    if rest != [] {
      AnnouncementAt(s, rest, LINK, 0);
    }
    forall i | 0 <= i < |rest| ensures rs[1..][i] == Announcements(s, rest, LINK, OK)[i] {
      AnnouncementAt(s, ids, LINK, i + 1);
      AnnouncementAt(s, rest, LINK, i);
    }
  }

  /** Handling the replay brings every listed next hop up to date. */
  lemma {:induction false} ReplayIsHandled(t: Table, s: Table, ids: seq<DeviceId>)
    requires Mirrors(s, t) && forall d | d in ids :: d in s
    ensures TableAfter(t, Announcements(s, ids, LINK, OK)) == ReplayAll(t, ids)
    decreases |ids|
  {
    if ids != [] {
      var d := ids[0];
      AnnouncementsRest(s, ids);
      AnnouncementAt(s, ids, LINK, 0);
      ReplayIsHandled(ParentChanged(t, d, t[d].parent, 0), s, ids[1..]);
    }
  }

  lemma BranchIsMirrored(t: Table, m: Move, u: Table)
    requires Covers(t, m.x, m.branch) && Rehung(t, u, m.x, m.p)
    ensures Mirrors(m.branch, u)
  {
  }

  /**
   The tree after a link is what the Controller makes of these messages: the answer of the moved device, the replay of
   `k` devices, the answer of the old parent, and the rest of the replay.
   */
  lemma LinkIsHandled(t: Table, m: Move, k: nat, ty: DeviceType)
    requires Rooted(t) && LinkAllowed(t, m.x, m.p) && Covers(t, m.x, m.branch)
    requires t[m.x].parent != CONTROLLER_ID ==> IsControl(ty)
    ensures forall d | d in Upto(Listed(m), k) :: d in m.branch
    ensures forall d | d in Remaining(Listed(m), k) :: d in m.branch
    ensures var first, rest := Announcements(m.branch, Upto(Listed(m), k), LINK, OK),
                               Announcements(m.branch, Remaining(Listed(m), k), LINK, OK);
            LinkedTree(t, m, k, ty) ==
            TableAfter(Answered(TableAfter(ParentChanged(t, m.x, m.p, m.fd), first), t[m.x].parent, ty), rest)
  {
    var u, w := ParentChanged(t, m.x, m.p, m.fd), MovedTree(t, m, k);
    ResponseRoutes(t, m);
    BranchIsMirrored(t, m, u);
    ReplayIsHandled(u, m.branch, Upto(Listed(m), k));
    MovedTreeShape(t, m, k);
    AnsweredShape(w, t[m.x].parent, ty);
    RoutedSameRoutes(t, m, Upto(Listed(m), k), w, Answered(w, t[m.x].parent, ty));
    BranchIsMirrored(t, m, Answered(w, t[m.x].parent, ty));
    ReplayIsHandled(Answered(w, t[m.x].parent, ty), m.branch, Remaining(Listed(m), k));
  }

  // ---------------------------------------------------------------- what the Controller writes

  /** What a device hears of a request to `q.destination` that is answered: the request itself, or the answer. */
  ghost function HubIsTold(t: Table, c: DeviceId, q: Request, r: Response): seq<H.HubEvent>
    requires |r.arguments| >= 2
  {
    if c == q.destination then [H.Requested(q.argument)]
    else if Below(t, q.destination, c) then [HubHears(c, r, 0)]
    else []
  }

  ghost function TimerIsTold(t: Table, c: DeviceId, q: Request, r: Response): seq<T.TimerEvent>
    requires |r.arguments| >= 2
  {
    if c == q.destination then [T.ChildRemoved]
    else if Below(t, q.destination, c) then [TimerHears(c, r, 0)]
    else []
  }

  /** The answer of a Hub or a Timer that has removed the child. */
  function Removed(q: Request, ty: DeviceType): Response {
    Response(q.destination, q.commandCode, OK, [q.argument, TypeArgument(ty)])
  }

  /** A request to remove `x` makes its parent forget it, and everything above the parent hear of it. */
  lemma RemovalIsHeard(t: Table, c: DeviceId, o: DeviceId, x: DeviceId, ty: DeviceType)
    ensures var q := Request(o, LINK | LINK_REMOVE_CHILD, x);
            && LossEvents(t, c, o, x) == HubIsTold(t, c, q, Removed(q, ty))
            && TimerLossEvents(t, c, o, x) == TimerIsTold(t, c, q, Removed(q, ty))
  {
    CodesOfLinks(LINK);
  }

  /** And the Controller stores the type that is declared in the answer. */
  lemma RemovalIsStored(t: Table, o: DeviceId, x: DeviceId, ty: DeviceType)
    requires Acyclic(t) && o != CONTROLLER_ID
    ensures var r := Removed(Request(o, LINK | LINK_REMOVE_CHILD, x), ty);
            && IsLink(r.commandCode) && IsRemoveChild(r.commandCode) && |r.arguments| == 2
            && ChildRemoved(t, r.source, ArgumentType(r.arguments[1])) == Answered(t, o, ty)
  {
    CodesOfLinks(LINK);
    TypeTravels(ty);
  }

  /** A request of the Controller, written to `fd`, that is delivered to the parent of `x` and asks it to remove `x`. */
  ghost predicate ReachesParent(sys: System, x: DeviceId, s: Sent) {
    && x in sys.tree && Acyclic(sys.tree)
    && s.request.destination == sys.tree[x].parent && s.request.argument == x
    && s.request.commandCode & COMMAND_MASK == LINK && s.request.commandCode & LINK_MASK == LINK_REMOVE_CHILD
    && Forwarded(ByTable(sys.tree), s.request.destination) == Some(s.fd) && (CONTROLLER_ID, s.fd) in sys.pipes
    && s.request.destination in sys.tree && Delivers(NetOf(sys), s.request.destination)
  }

  /** And what Hubs and Timers hear of this request and its answer is what the move asks of them. */
  ghost predicate CausesRemoval(t: Table, x: DeviceId, q: Request)
    requires x in t
  {
    forall c, ty: DeviceType ::
      && HubIsTold(t, c, q, Removed(q, ty)) == LossEvents(t, c, t[x].parent, x)
      && TimerIsTold(t, c, q, Removed(q, ty)) == TimerLossEvents(t, c, t[x].parent, x)
  }

  lemma RequestCauses(t: Table, x: DeviceId, q: Request)
    requires x in t && q == Request(t[x].parent, LINK | LINK_REMOVE_CHILD, x)
    ensures CausesRemoval(t, x, q)
  {
    forall c, ty: DeviceType
      ensures HubIsTold(t, c, q, Removed(q, ty)) == LossEvents(t, c, t[x].parent, x)
      ensures TimerIsTold(t, c, q, Removed(q, ty)) == TimerLossEvents(t, c, t[x].parent, x)
    {
      RemovalIsHeard(t, c, t[x].parent, x, ty);
    }
  }

  lemma RequestReaches(sys: System, x: DeviceId, s: Sent)
    requires Sound(sys) && x in sys.tree && sys.tree[x].parent in sys.tree
    requires s == Sent(sys.tree[sys.tree[x].parent].hop, Request(sys.tree[x].parent, LINK | LINK_REMOVE_CHILD, x))
    ensures ReachesParent(sys, x, s) && CausesRemoval(sys.tree, x, s.request)
  {
    var o := sys.tree[x].parent;
    CodesOfLinks(LINK);
    SoundDelivers(sys, o);
    HopIsPipe(sys.tree, sys.pipes, o);
    RequestCauses(sys.tree, x, s.request);
  }

  lemma HopIsPipe(t: Table, pipes: Pipes, o: DeviceId)
    requires Rooted(t) && HopsOk(t) && Piped(pipes, CONTROLLER_ID, t) && o in t
    ensures (CONTROLLER_ID, t[o].hop) in pipes
  {
    HopIsTopmost(t, o);
  }

  /**
   When a device moves away from another device, the Controller writes exactly one request: it reaches the old parent,
   asks it to remove the device, and is what every Hub and Timer forgets the device by. When the device was the
   Controller's own child nothing is written, and nobody is to forget it.
   */
  lemma RemovalIsRequested(sys: System, x: DeviceId, p: DeviceId, fd: int, turns: Turns)
    requires Sound(sys) && Enabled(sys, Link(x, p, fd, turns)) && x in sys.tree
    ensures var t, r := sys.tree, ChangeParent(x, p, Declared(sys.tree, x, sys.stations[x]));
            var written := C.Notified(t, r);
            && r == Said(MoveOf(t, sys.stations, x, p, fd))[0] && C.LinkResponseCode(t, r) == OK
            && (t[x].parent == CONTROLLER_ID ==>
                  && written == []
                  && forall c | c in t ::
                       LossEvents(t, c, CONTROLLER_ID, x) == [] && TimerLossEvents(t, c, CONTROLLER_ID, x) == [])
            && (t[x].parent != CONTROLLER_ID ==>
                  |written| == 1 && ReachesParent(sys, x, written[0]) && CausesRemoval(t, x, written[0].request))
  {
    var t := sys.tree;
    LinkCheckIff(t, x, p);
    CodesOfLinks(LINK);
    if t[x].parent != CONTROLLER_ID {
      var o := t[x].parent;
      RequestReaches(sys, x, Sent(t[o].hop, Request(o, LINK | LINK_REMOVE_CHILD, x)));
    } else {
      forall c | c in t
        ensures LossEvents(t, c, CONTROLLER_ID, x) == [] && TimerLossEvents(t, c, CONTROLLER_ID, x) == []
      {
        BelowUnfold(t, CONTROLLER_ID, c);
      }
    }
  }

  /**
   When a branch dies, the one notice that goes to a device alive reaches the parent of the dead device and asks it to
   remove that one; there is none when the dead device was the Controller's own child.
   */
  lemma DeathIsReported(sys: System, x: DeviceId, visited: seq<DeviceId>, s: Sent)
    requires Sound(sys) && x in sys.tree && (forall y :: y in visited <==> y in sys.tree)
    requires s.request.destination !in Lost(sys.tree, x)
    ensures var t := sys.tree;
            && (s in C.Notices(t, Lost(t, x), visited) <==>
                  t[x].parent != CONTROLLER_ID
                  && s == Sent(t[x].hop, Request(t[x].parent, LINK | LINK_REMOVE_CHILD, x)))
            && (s in C.Notices(t, Lost(t, x), visited) ==>
                  ReachesParent(sys, x, s) && CausesRemoval(t, x, s.request))
  {
    var t := sys.tree;
    C.ToldIff(t, Lost(t, x), visited, s);
    ParentIsNotBelow(t, x);
    if t[x].parent != CONTROLLER_ID {
      assert t[x].hop == t[t[x].parent].hop;
      RequestReaches(sys, x, Sent(t[x].hop, Request(t[x].parent, LINK | LINK_REMOVE_CHILD, x)));
    }
    forall y | y in Lost(t, x) && y != x ensures t[y].parent in Lost(t, x) {
      BelowUnfold(t, y, x);
    }
  }
}
