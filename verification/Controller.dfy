/** The Controller: it owns the table of the whole tree and updates it from responses. */
module Controller {
  import opened Devices
  import opened Forest
  import opened TableOps
  import opened Protocol
  import opened Routing
  import opened Topology
  import TopologyRuns
  import opened Signalling
  import opened Forwarding

  // ---------------------------------------------------------------- specification of a link response

  /** The request that makes the old parent forget a device. */
  function RemoveChildRequest(parent: DeviceId, child: DeviceId): Request {
    Request(parent, LINK | LINK_REMOVE_CHILD, child)
  }

  /** The outcome of handling a successful link response. */
  function LinkResponseCode(t: Table, r: Response): Code
    requires |r.arguments| >= 1
  {
    if r.source !in t then CHILD_NOT_FOUND
    else if IsRemoveChild(r.commandCode) then if |r.arguments| == 2 then OK else RESPONSE_FORMAT_ERROR
    else
      var p, o := r.arguments[0], t[r.source].parent;
      if p == o then if p == CONTROLLER_ID || p in t then OK else ROUTE_NOT_FOUND
      else if o == CONTROLLER_ID then OK
      else if o !in t then ROUTE_NOT_FOUND
      else if p == CONTROLLER_ID || p in t then OK
      else ROUTE_NOT_FOUND
  }

  /**
   The answer is OK exactly when the table has taken the response over - or when the device was the Controller's own
   child and its new parent has vanished: then the insertion fails, and nobody looks at its result.
   */
  lemma MoveAcceptedIff(t: Table, r: Response, fd: int)
    requires Rooted(t) && |r.arguments| >= 1 && !IsRemoveChild(r.commandCode) && r.source in t
    requires r.arguments[0] != r.source
    ensures var p, o := r.arguments[0], t[r.source].parent;
            && ParentChanged(t, r.source, p, fd).Keys == t.Keys
            && (LinkResponseCode(t, r) == OK <==>
                  ParentChanged(t, r.source, p, fd)[r.source].parent == p || (o == CONTROLLER_ID && Vanished(t, p)))
            && LinkResponseCode(t, r) in {OK, ROUTE_NOT_FOUND}
  {
    var x, p := r.source, r.arguments[0];
    var u := if p == CONTROLLER_ID then Put(t, x, t[x].pid, t[x].deviceType, p, fd)
             else if p in t then Put(t, x, t[x].pid, t[x].deviceType, p, t[p].hop) else t;
    FillAboveKeepsTree(u, x);
  }

  /** Only a move away from another device is announced, and only to that device. */
  ghost function Notified(t: Table, r: Response): seq<Sent>
    requires |r.arguments| >= 1
  {
    var x := r.source;
    if IsRemoveChild(r.commandCode) || x !in t || t[x].parent == r.arguments[0] || t[x].parent == CONTROLLER_ID
       || t[x].parent !in t then []
    else [Sent(t[t[x].parent].hop, RemoveChildRequest(t[x].parent, x))]
  }

  // ---------------------------------------------------------------- specification of reaping dead devices

  /** The parents told about their dead child: those still recorded when the child is reached. */
  ghost function Notices(t: Table, dead: set<DeviceId>, ids: seq<DeviceId>): seq<Sent>
    requires forall x | x in ids :: x in t
  {
    if ids == [] then []
    else
      var x := ids[|ids| - 1];
      var p := t[x].parent;
      Notices(t, dead, ids[..|ids| - 1]) +
      if x in dead && p != CONTROLLER_ID && p in t && !(p in dead && Key(p) < Key(x))
      then [Sent(t[x].hop, RemoveChildRequest(p, x))] else []
  }

  /** A notice to a device that is alive is the request to remove a dead child. */
  ghost predicate Tells(t: Table, dead: set<DeviceId>, x: DeviceId, s: Sent) {
    && x in t && x in dead && t[x].parent in t && t[x].parent !in dead && t[x].parent != CONTROLLER_ID
    && s == Sent(t[x].hop, Request(t[x].parent, LINK | LINK_REMOVE_CHILD, x))
  }

  /** Of the devices that are alive exactly the parents of dead ones are told, of exactly these children. */
  lemma {:induction false} ToldIff(t: Table, dead: set<DeviceId>, ids: seq<DeviceId>, s: Sent)
    requires (forall x | x in ids :: x in t) && s.request.destination !in dead
    ensures s in Notices(t, dead, ids) <==> Tells(t, dead, s.request.argument, s) && s.request.argument in ids
  {
    if ids != [] {
      var before, x := ids[..|ids| - 1], ids[|ids| - 1];
      assert ids == before + [x];
      ToldIff(t, dead, before, s);
    }
  }

  /** And of each of them once. */
  lemma {:induction false} ToldOnce(t: Table, dead: set<DeviceId>, ids: seq<DeviceId>, i: nat, j: nat)
    requires (forall x | x in ids :: x in t) && Distinct(ids) && i < j < |Notices(t, dead, ids)|
    ensures Notices(t, dead, ids)[i].request.argument in ids
    ensures Notices(t, dead, ids)[i].request.argument != Notices(t, dead, ids)[j].request.argument
  {
    if ids != [] {
      var before, x := ids[..|ids| - 1], ids[|ids| - 1];
      NoticesAbout(t, dead, before);
      if j < |Notices(t, dead, before)| {
        ToldOnce(t, dead, before, i, j);
      }
    }
  }

  lemma {:induction false} NoticesAbout(t: Table, dead: set<DeviceId>, ids: seq<DeviceId>)
    requires forall x | x in ids :: x in t
    ensures forall s | s in Notices(t, dead, ids) :: s.request.argument in ids
  {
    if ids != [] {
      NoticesAbout(t, dead, ids[..|ids| - 1]);
    }
  }

  /** Later entries are those of the original table. */
  lemma NextEntryUnaffected(t: Table, s: Table, dead: set<DeviceId>, k: int, j: int)
    requires s.Keys == WithoutDead(t, dead, k).Keys && j >= k
    ensures NextEntry(s, j) == NextEntry(t, j)
  {
    assert forall x :: IsEntryAfter(s, j, x) <==> IsEntryAfter(t, j, x);
    NextEntryUnique(s, j, NextEntry(t, j));
  }

  /** The notice of the death of `x`, if its parent is recorded. */
  function ParentNotice(s: Table, x: DeviceId): seq<Sent>
    requires x in s
  {
    if s[x].parent != CONTROLLER_ID && s[x].parent in s
    then [Sent(s[x].hop, RemoveChildRequest(s[x].parent, x))] else []
  }

  lemma ForgetIsReaped(t: Table, id: DeviceId)
    requires Acyclic(t) && LeavesAreChildless(t) && id in t
    ensures Acyclic(t - {id}) && Reaped(t, EmptyUp(t - {id}, t[id].parent), {id})
    ensures TypesKept(t, EmptyUp(t - {id}, t[id].parent))
  {
    var u := t - {id};
    var p := t[id].parent;
    SubTableAcyclic(u, t);
    EmptyUpShape(u, p);
    if Compatible(t) {
      EmptyUpKeepsCompatible(u, p);
      if Exact(t) {
        ForgottenIsExactOutside(t, id);
        EmptyUpIsExact(u, p);
      }
    }
    OnlyLeafBitsKeepsTree(u, EmptyUp(u, p));
    EmptyUpKeepsLeaves(u, p);
  }

  lemma NothingReaped(t: Table)
    requires Acyclic(t) && LeavesAreChildless(t)
    ensures Reaped(t, t, {}) && TypesKept(t, t)
  {
    assert t - {} == t;
  }

  /** Without one device only its parent can be inexact. */
  lemma ForgottenIsExactOutside(t: Table, id: DeviceId)
    requires id in t && Exact(t) && Compatible(t)
    ensures var u, p := t - {id}, t[id].parent; ExactOutside(u, {p}) && (p in u ==> ExactOrStale(u, p))
  {
    var u, p := t - {id}, t[id].parent;
    forall y | y in u && y != p && IsControl(u[y].deviceType) ensures ExactAt(u, y) {
      assert ExactAt(t, y);
      if HasNonEmptyChild(t, y) {
        var c :| NonEmpty(t, c) && t[c].parent == y;
        assert NonEmpty(u, c) && u[c].parent == y;
      }
      assert forall c | NonEmpty(u, c) :: NonEmpty(t, c) && t[c] == u[c];
    }
  }

  /** How far the reaping loop has come: everything up to position `k` has been visited. */
  ghost predicate Reaping(t: Table, dead: set<DeviceId>, k: int, visited: seq<DeviceId>, s: Table, before: seq<Sent>,
                          sent: seq<Sent>)
  {
    && -1 <= k < 0x10_0000 && Reaped(WithoutDead(t, dead, k), s, {})
    && TypesKept(t, s)
    && EntriesFrom(t, -1) == visited + EntriesFrom(t, k)
    && (forall y | y in visited :: y in t) && sent == before + Notices(t, dead, visited)
  }

  /** What one turn of the loop can rely on. */
  lemma ReapingNext(t: Table, dead: set<DeviceId>, k: int, s: Table, x: DeviceId)
    requires NextEntry(t, k) == Some(x) && -1 <= k && Reaped(WithoutDead(t, dead, k), s, {})
    ensures x in s && s[x].parent == t[x].parent && s[x].hop == t[x].hop
    ensures NextEntry(s, Key(x)) == NextEntry(t, Key(x))
    ensures NextEntry(t, Key(x)).Some? ==> NextEntry(t, Key(x)).value != x
  {
    NextEntryUnaffected(t, s, dead, k, Key(x));
  }

  /** The notices sent in one turn are the next of the expected ones. */
  lemma ReapingNotices(t: Table, dead: set<DeviceId>, k: int, visited: seq<DeviceId>, s: Table, x: DeviceId)
    requires NextEntry(t, k) == Some(x) && -1 <= k && Reaped(WithoutDead(t, dead, k), s, {})
    requires x in s && s[x].parent == t[x].parent && s[x].hop == t[x].hop
    requires forall y | y in visited :: y in t
    ensures Notices(t, dead, visited + [x]) ==
            Notices(t, dead, visited) + (if x in dead then ParentNotice(s, x) else [])
  {
    assert (visited + [x])[..|visited|] == visited;
    var p := t[x].parent;
    BelowUnfold(s, x, x);
    if p in t {
      KeyInjective(p, x);
      assert Key(p) > k && Key(p) < Key(x) ==> IsEntryAfter(t, k, p);
    }
  }

  lemma ReapedTwice(t: Table, s: Table, s': Table, gone: set<DeviceId>)
    requires Reaped(t, s, {}) && Reaped(s, s', gone)
    ensures Reaped(t - gone, s', {})
  {
    assert t - {} == t && t - gone - {} == t - gone;
    forall x | x in s' && IsLeaf(t[x].deviceType) ensures s'[x] == t[x] {
      assert s[x] == t[x];
    }
  }

  lemma WithoutOneMore(t: Table, dead: set<DeviceId>, k: int, x: DeviceId)
    requires NextEntry(t, k) == Some(x) && -1 <= k
    ensures WithoutDead(t, dead, Key(x)) == WithoutDead(t, dead, k) - (if x in dead then {x} else {})
  {
  }

  lemma ReapedOneMore(t: Table, dead: set<DeviceId>, k: int, x: DeviceId, s: Table, s': Table)
    requires NextEntry(t, k) == Some(x) && -1 <= k && Reaped(WithoutDead(t, dead, k), s, {})
    requires Reaped(s, s', if x in dead then {x} else {})
    ensures Reaped(WithoutDead(t, dead, Key(x)), s', {})
  {
    WithoutOneMore(t, dead, k, x);
    ReapedTwice(WithoutDead(t, dead, k), s, s', if x in dead then {x} else {});
  }

  lemma ReapingTurn(t: Table, dead: set<DeviceId>, k: int, visited: seq<DeviceId>, s: Table, before: seq<Sent>,
                    sent: seq<Sent>, x: DeviceId, s': Table, sent': seq<Sent>)
    requires Reaping(t, dead, k, visited, s, before, sent) && NextEntry(t, k) == Some(x) && x in s
    requires s[x].parent == t[x].parent && s[x].hop == t[x].hop
    requires Reaped(s, s', if x in dead then {x} else {}) && TypesKept(s, s')
    requires sent' == sent + if x in dead then ParentNotice(s, x) else []
    ensures Reaping(t, dead, Key(x), visited + [x], s', before, sent')
  {
    ReapedOneMore(t, dead, k, x, s, s');
    EntriesStep(t, k, visited);
    ReapingNotices(t, dead, k, visited, s, x);
    NoticesJoin(before, Notices(t, dead, visited), if x in dead then ParentNotice(s, x) else []);
  }

  lemma NoticesJoin(a: seq<Sent>, b: seq<Sent>, c: seq<Sent>)
    ensures a + b + c == a + (b + c)
  {
  }

  lemma ReapingStarts(t: Table, dead: set<DeviceId>, sent: seq<Sent>)
    requires Acyclic(t) && LeavesAreChildless(t)
    ensures Reaping(t, dead, -1, [], t, sent, sent)
  {
    assert WithoutDead(t, dead, -1) == t;
  }

  /** The greatest position in bucket order. */
  const MAX_KEY := 0xF_FFFF

  lemma ReapingEnds(t: Table, dead: set<DeviceId>, k: int, visited: seq<DeviceId>, s: Table, before: seq<Sent>,
                    sent: seq<Sent>)
    requires NextEntry(t, k) == None && Reaping(t, dead, k, visited, s, before, sent)
    ensures Reaping(t, dead, MAX_KEY, visited, s, before, sent)
  {
    assert forall x | x in t :: Key(x) > k ==> IsEntryAfter(t, k, x);
    assert WithoutDead(t, dead, k) == WithoutDead(t, dead, MAX_KEY);
    assert forall x :: !IsEntryAfter(t, MAX_KEY, x);
    assert EntriesFrom(t, k) == [] == EntriesFrom(t, MAX_KEY);
  }

  /**
   A finished reaping visited every entry exactly once in bucket order, removed exactly the dead ones,
   kept everything about the others but leaf bits of types, and notified the parents still recorded.
   */
  lemma ReapingDone(t: Table, dead: set<DeviceId>, visited: seq<DeviceId>, s: Table, before: seq<Sent>, sent: seq<Sent>)
    requires Reaping(t, dead, MAX_KEY, visited, s, before, sent)
    ensures (forall x :: x in visited <==> x in t) && Distinct(visited)
    ensures s.Keys == t.Keys - dead
    ensures forall x | x in s :: s[x] == t[x].(deviceType := s[x].deviceType)
    ensures sent == before + Notices(t, dead, visited)
    ensures Reaped(t, s, dead) && TypesKept(t, s)
  {
    EveryEntryListed(t, visited);
    assert WithoutDead(t, dead, MAX_KEY) == t - dead;
  }

  lemma EveryEntryListed(t: Table, visited: seq<DeviceId>)
    requires EntriesFrom(t, -1) == visited + EntriesFrom(t, MAX_KEY)
    ensures (forall x :: x in visited <==> x in t) && Distinct(visited)
  {
    assert forall x :: !IsEntryAfter(t, MAX_KEY, x);
    assert EntriesFrom(t, MAX_KEY) == [];
    assert visited == EntriesFrom(t, -1);
    EntriesFromExact(t, -1);
    assert forall x :: IsEntryAfter(t, -1, x) <==> x in t;
  }

  class Controller {
    const table: RoutingTable
    var lastDeviceId: DeviceId
    var sent: seq<Sent>

    ghost predicate Valid()
      reads table, table.buckets, table.repr
    {
      table.Valid()
    }

    ghost function Table(): Table
      requires Valid()
      reads table, table.buckets, table.repr
    {
      table.Entries()
    }

    constructor ()
      ensures Valid() && Table() == map[] && lastDeviceId == CONTROLLER_ID && sent == []
      ensures fresh(table) && fresh(table.buckets)
    {
      table := new RoutingTable();
      lastDeviceId, sent := CONTROLLER_ID, [];
    }

    /**
     Records a newly forked device as a direct child under the next id of the 16-bit counter. `created` tells
     whether its pipe could be created: it cannot while a device of that id still has one.
     */
    method AddDevice(ty: DeviceType, pid: int, fd: int, created: bool) returns (code: Code)
      requires Valid()
      modifies this`lastDeviceId, table, table.buckets, table.repr
      ensures Valid()
      ensures !created ==> code == UNABLE_TO_CREATE_PIPE && Table() == old(Table()) && lastDeviceId == old(lastDeviceId)
      ensures created ==>
                && code == OK && lastDeviceId == (old(lastDeviceId) + 1) % 0x1_0000
                && Table() == Put(old(Table()), lastDeviceId, pid, ty, CONTROLLER_ID, fd)
      ensures created && old(lastDeviceId) < 0xFFFF && Addable(ty) && old(Acyclic(Table())) ==>
                TopologyRuns.State(Table(), lastDeviceId) ==
                TopologyRuns.Step(TopologyRuns.State(old(Table()), old(lastDeviceId)), TopologyRuns.Added(ty, pid, fd))
    {
      if !created {
        return UNABLE_TO_CREATE_PIPE;
      }
      var newId := (lastDeviceId + 1) % 0x1_0000;
      table.InsertDirectPid(newId, pid, ty, CONTROLLER_ID, fd);
      lastDeviceId := newId;
      return OK;
    }

    /** Sends a user's request on its way. */
    method ForwardRequest(request: Request) returns (code: Code)
      requires Valid()
      modifies this`sent
      ensures Valid() && Table() == old(Table())
      ensures match Forwarded(ByTable(Table()), request.destination)
              case Some(fd) => code == OK && sent == old(sent) + [Sent(fd, request)]
              case None => code == ROUTE_NOT_FOUND && sent == old(sent)
    {
      var target := table.Find(request.destination);
      if target == null {
        return ROUTE_NOT_FOUND;
      }
      sent := sent + [Sent(target.nextHopFd, request)];
      return OK;
    }

    /** Checks a request to link `target` to `argument` against the current table. */
    method CheckLink(target: DeviceId, argument: DeviceId) returns (errorCode: Code)
      requires Valid() && Acyclic(Table())
      ensures Valid() && Table() == old(Table())
      ensures errorCode == LinkCheck(Table(), target, argument)
    {
      ghost var t := Table();
      var t0 := table.Find(target);
      if t0 == null {
        return DEVICE_NOT_FOUND;
      }
      if target == argument {
        return LINKING_PARENT_TO_CHILD;
      }
      if t0.parentId == argument {
        return CANNOT_ADD_TO_PARENT;
      }
      if argument == CONTROLLER_ID {
        return OK;
      }
      var parent := table.Find(argument);
      if parent == null {
        return DEVICE_NOT_FOUND;
      }
      if IsLeaf(parent.deviceType) {
        return DEVICE_TYPE_MISMATCH;
      }
      if IsTimer(parent.deviceType) {
        var child := table.FindDirect(parent.id, null);
        if child != null {
          return CANNOT_ADD_TO_PARENT;
        }
      }
      errorCode := OK;
      ghost var p := argument;
      while parent != null
        invariant Valid() && Table() == t && table.IsNode(t0) && t0.id == target
        invariant parent == null <==> p !in t
        invariant parent != null ==> table.IsNode(parent) && parent.id == p
        invariant ChainError(t, target, argument, OK) == ChainError(t, target, p, errorCode)
        decreases if parent == null then 0 else 1, if parent == null then 0 else Depth(t, p)
      {
        ScanStep(t, target, p, errorCode);
        ghost var scanned := Scanned(t, target, p, errorCode);
        if parent.parentId == target {
          errorCode := LINKING_PARENT_TO_CHILD;
        }
        if !IsEmpty(t0.deviceType) && !IsEmpty(parent.deviceType)
           && ChildType(t0.deviceType) != ChildType(parent.deviceType) {
          errorCode := DEVICE_TYPE_MISMATCH;
        }
        assert errorCode == scanned;
        p := parent.parentId;
        parent := table.Find(parent.parentId);
      }
    }

    /** Gives the ancestors of a just re-hung device its leaf type. */
    method FillTypes(x: DeviceId)
      requires Valid() && x in Table()
      modifies table.repr`deviceType
      ensures Valid() && table.repr == old(table.repr)
      ensures Table() == FillAbove(old(Table()), x)
    {
      var source := table.Find(x);
      LeafBits(source.deviceType);
      table.UpdateTypeToNotEmpty(source);
    }

    /** A remove-child response declares the new type of the old parent. */
    method UpdateDeclaredType(source: RoutingData, ty: DeviceType)
      requires Valid() && Acyclic(Table()) && table.IsNode(source)
      modifies table.repr`deviceType
      ensures Valid() && Table() == ChildRemoved(old(Table()), source.id, ty)
    {
      ghost var t := Table();
      table.SetType(source, ty);
      SameShape(t, Table());
      var parent := table.Find(source.parentId);
      table.UpdateTypeToEmpty(parent);
    }

    /** A replayed response: the parent is unchanged, so only the next hop is brought up to date. */
    method RefreshNextHop(source: RoutingData) returns (code: Code)
      requires Valid() && table.IsNode(source)
      modifies table.repr`nextHopFd
      ensures Valid() && Table() == ParentChanged(old(Table()), source.id, source.parentId, 0)
      ensures code == if source.parentId == CONTROLLER_ID || source.parentId in Table() then OK else ROUTE_NOT_FOUND
    {
      if source.parentId != CONTROLLER_ID {
        var parent := table.Find(source.parentId);
        if parent == null {
          return ROUTE_NOT_FOUND;
        }
        source.nextHopFd := parent.nextHopFd;
      }
      return OK;
    }

    /** Re-hangs a device: directly when the Controller is the new parent, else under a recorded parent. */
    method Rehang(source: RoutingData, newParent: DeviceId, fd: int) returns (ok: bool)
      requires Valid() && table.IsNode(source) && source.parentId != newParent
      requires source.parentId == CONTROLLER_ID || source.parentId in Table()
      modifies table, table.buckets, table.repr
      ensures Valid() && Table() == ParentChanged(old(Table()), old(source.id), newParent, fd)
      ensures ok <==> newParent == CONTROLLER_ID || newParent in old(Table())
    {
      var id, pid, ty := source.id, source.pid, source.deviceType;
      if source.parentId != CONTROLLER_ID && newParent == CONTROLLER_ID {
        table.InsertDirectPid(id, pid, ty, CONTROLLER_ID, fd);
        ok := true;
      } else {
        ok := table.InsertIndirectPid(id, pid, ty, newParent);
      }
      FillTypes(id);
    }

    method UpdateWithLinkResponse(r: Response, fd: int) returns (code: Code)
      requires Valid() && Acyclic(Table()) && |r.arguments| >= 1
      modifies this`sent, table, table.buckets, table.repr
      ensures Valid()
      ensures Table() == if !IsRemoveChild(r.commandCode) then ParentChanged(old(Table()), r.source, r.arguments[0], fd)
                         else if |r.arguments| == 2 then
                           ChildRemoved(old(Table()), r.source, ArgumentType(r.arguments[1]))
                         else old(Table())
      ensures sent == old(sent) + Notified(old(Table()), r)
      ensures code == LinkResponseCode(old(Table()), r)
      ensures var t, x := old(Table()), r.source;
              if !IsRemoveChild(r.commandCode) && x in t && t[x].parent != r.arguments[0] && t[x].parent in t
                 && t[x].parent != CONTROLLER_ID
              then sent == old(sent) + [Sent(t[t[x].parent].hop, Request(t[x].parent, LINK | LINK_REMOVE_CHILD, x))]
              else sent == old(sent)
    {
      var source := table.Find(r.source);
      if source == null {
        return CHILD_NOT_FOUND;
      }
      if IsRemoveChild(r.commandCode) {
        if |r.arguments| != 2 {
          return RESPONSE_FORMAT_ERROR;
        }
        UpdateDeclaredType(source, ArgumentType(r.arguments[1]));
        return OK;
      }
      var newParent := r.arguments[0];
      if source.parentId == newParent {
        code := RefreshNextHop(source);
        return;
      }
      if source.parentId == CONTROLLER_ID {
        var _ := Rehang(source, newParent, fd);
        return OK;
      }
      var oldParent := table.Find(source.parentId);
      if oldParent == null {
        return ROUTE_NOT_FOUND;
      }
      var oldId, oldFd := oldParent.id, oldParent.nextHopFd;
      var ok := Rehang(source, newParent, fd);
      sent := sent + [Sent(oldFd, RemoveChildRequest(oldId, r.source))];
      code := if ok then OK else ROUTE_NOT_FOUND;
    }

    /** The table part of handling a successful delete response. */
    method UpdateWithDeleteResponse(source: DeviceId) returns (code: Code)
      requires Valid() && Acyclic(Table())
      modifies table, table.buckets, table.repr
      ensures Valid()
      ensures Table() == Deleted(old(Table()), source)
      ensures code == if source in old(Table()) then OK else CHILD_NOT_FOUND
    {
      ghost var t := Table();
      var device := table.Find(source);
      if device == null {
        return CHILD_NOT_FOUND;
      }
      var parentId := device.parentId;
      table.Remove(source, parentId);
      SubTableAcyclic(Table(), t);
      var parent := table.Find(parentId);
      table.UpdateTypeToEmpty(parent);
      return OK;
    }

    /** Signals everything below `parentId`, parents first. */
    method SignalBelow(parentId: DeviceId) returns (signalled: seq<DeviceId>)
      requires Valid() && Acyclic(Table())
      ensures Valid() && Table() == old(Table()) && signalled == Preorder(Table(), parentId)
    {
      ghost var t := Table();
      ghost var walk := Preorder(t, parentId);
      TraversalIsPreorder(t, parentId);
      signalled := [];
      var device := table.FindAll(parentId, null);
      while device != null
        invariant Valid() && Table() == t
        invariant device != null ==> table.IsNode(device)
        invariant signalled <= walk
        invariant At(walk, |signalled|, None) == if device == null then None else Some(device.id)
        decreases |walk| - |signalled|
      {
        WalkPrefix(t, parentId, signalled, device.id);
        signalled := signalled + [device.id];
        device := table.FindAll(parentId, device);
      }
    }

    /** Signals everything below `parentId` and, on a complete shutdown, forgets it. */
    method ShutdownDevices(parentId: DeviceId, complete: bool) returns (signalled: seq<DeviceId>)
      requires Valid() && Acyclic(Table())
      modifies table, table.buckets, table.repr
      ensures Valid() && signalled == Preorder(old(Table()), parentId)
      ensures Table() == if complete
                         then map x | x in old(Table()) && !Below(old(Table()), x, parentId) :: old(Table())[x]
                         else old(Table())
    {
      signalled := SignalBelow(parentId);
      if complete {
        var _ := table.RemoveChildren(parentId);
      }
    }

    /** Tells the parent of a dead device, unless it is the Controller or no longer recorded. */
    method NotifyParent(current: RoutingData)
      requires Valid() && table.IsNode(current)
      modifies this`sent
      ensures Valid() && Table() == old(Table())
      ensures sent == old(sent) + ParentNotice(Table(), current.id)
    {
      if current.parentId != CONTROLLER_ID {
        var parent := table.Find(current.parentId);
        if parent != null {
          sent := sent + [Sent(current.nextHopFd, RemoveChildRequest(current.parentId, current.id))];
        }
      }
    }

    /** Tells the parent of a dead device and signals everything below it. */
    method TakeLeave(current: RoutingData) returns (signalled: seq<DeviceId>)
      requires Valid() && Acyclic(Table()) && table.IsNode(current)
      modifies this`sent
      ensures Valid() && Table() == old(Table())
      ensures sent == old(sent) + ParentNotice(Table(), current.id) && signalled == Preorder(Table(), current.id)
    {
      NotifyParent(current);
      signalled := SignalBelow(current.id);
    }

    /** Forgets one dead device, leaving its children to be reaped on their own. */
    method Forget(id: DeviceId, parentId: DeviceId)
      requires Valid() && Acyclic(Table()) && LeavesAreChildless(Table())
      requires id in Table() && Table()[id].parent == parentId
      modifies table, table.buckets, table.repr`next, table.repr`deviceType
      ensures Valid() && table.repr == old(table.repr) && table.nodes == old(table.nodes) - {id}
      ensures Acyclic(old(Table()) - {id}) && Table() == EmptyUp(old(Table()) - {id}, parentId)
      ensures Reaped(old(Table()), Table(), {id}) && TypesKept(old(Table()), Table())
    {
      ghost var t := Table();
      ForgetIsReaped(t, id);
      table.RemoveFromBucket(id);
      SubTableAcyclic(Table(), t);
      var parent := table.Find(parentId);
      table.UpdateTypeToEmpty(parent);
    }

    /** One turn: notify, signal, find the next entry, and only then forget the current one if it is dead. */
    method ReapEntry(current: RoutingData, dead: set<DeviceId>) returns (next: RoutingData?, signalled: seq<DeviceId>)
      requires Valid() && Acyclic(Table()) && LeavesAreChildless(Table()) && table.IsNode(current)
      requires var n := NextEntry(Table(), Key(current.id)); n.Some? ==> n.value != current.id
      modifies this`sent, table, table.buckets, table.repr`next, table.repr`deviceType
      ensures Valid() && table.repr == old(table.repr)
      ensures next != null ==> table.IsNode(next)
      ensures NextEntry(old(Table()), Key(old(current.id))) == if next == null then None else Some(next.id)
      ensures sent == old(sent) + if old(current.id) in dead then ParentNotice(old(Table()), old(current.id)) else []
      ensures signalled == if old(current.id) in dead then Preorder(old(Table()), old(current.id)) else []
      ensures Reaped(old(Table()), Table(), if old(current.id) in dead then {old(current.id)} else {})
      ensures TypesKept(old(Table()), Table())
    {
      var currentId, currentParentId := current.id, current.parentId;
      signalled := [];
      if currentId in dead {
        signalled := TakeLeave(current);
      }
      next := table.FindUnreachable(current);
      if currentId in dead {
        Forget(currentId, currentParentId);
      } else {
        NothingReaped(Table());
      }
    }

    /**
     Handles SIGCHLD: `dead` are the devices whose process ended with an error. The next entry is found
     before the current one is removed. `ReapingDone` and `SignalledIff` say what the postconditions amount to.
     */
    method ReapDead(dead: set<DeviceId>) returns (visited: seq<DeviceId>, signalled: seq<DeviceId>)
      requires Valid() && Acyclic(Table()) && LeavesAreChildless(Table())
      modifies this`sent, table, table.buckets, table.repr`next, table.repr`deviceType
      ensures Valid() && Reaping(old(Table()), dead, MAX_KEY, visited, Table(), old(sent), sent)
      ensures signalled == Signals(old(Table()), dead, visited)
    {
      ghost var t := Table();
      ghost var k := -1;
      visited, signalled := [], [];
      ReapingStarts(t, dead, sent);
      var current := table.FindUnreachable(null);
      while current != null
        invariant Valid() && table.repr == old(table.repr)
        invariant Reaping(t, dead, k, visited, Table(), old(sent), sent) && signalled == Signals(t, dead, visited)
        invariant current != null ==> table.IsNode(current)
        invariant NextEntry(t, k) == if current == null then None else Some(current.id)
        decreases 0x10_0000 - k
      {
        var currentId := current.id;
        ghost var s, sent0 := Table(), sent;
        ReapingNext(t, dead, k, s, currentId);
        SignalsNext(t, dead, k, visited, s, currentId);
        var more;
        current, more := ReapEntry(current, dead);
        ReapingTurn(t, dead, k, visited, s, old(sent), sent0, currentId, Table(), sent);
        visited, signalled := visited + [currentId], signalled + more;
        k := Key(currentId);
      }
      ReapingEnds(t, dead, k, visited, Table(), old(sent), sent);
    }
  }
}
