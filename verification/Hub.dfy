/** The Hub: requests are broadcast to its children and their answers gathered into one. */
module Hub {
  import opened Devices
  import opened Forest
  import opened TableOps
  import opened Protocol
  import opened Routing
  import opened Topology
  import opened Replay
  import opened Broadcasts
  import opened HubTable
  import opened Forwarding

  /** The request as written to each direct child, in bucket order. */
  ghost function ToChildren(t: Table, ids: seq<DeviceId>, code: Code, argument: U16): seq<Sent>
    requires forall c | c in ids :: c in t
  {
    if ids == [] then []
    else
      var c := ids[|ids| - 1];
      ToChildren(t, ids[..|ids| - 1], code, argument) + [Sent(t[c].hop, Request(c, code, argument))]
  }

  lemma {:induction false} EachChildOnce(t: Table, ids: seq<DeviceId>, code: Code, argument: U16)
    requires forall c | c in ids :: c in t
    ensures |ToChildren(t, ids, code, argument)| == |ids|
    ensures forall i | 0 <= i < |ids| ::
              ToChildren(t, ids, code, argument)[i] == Sent(t[ids[i]].hop, Request(ids[i], code, argument))
  {
    if ids != [] {
      EachChildOnce(t, ids[..|ids| - 1], code, argument);
    }
  }

  /** Each of the children is sent the request, under its own id and over its own pipe, in this order. */
  ghost predicate Asks(t: Table, ids: seq<DeviceId>, code: Code, argument: U16, before: seq<Sent>, after: seq<Sent>) {
    && |after| == |before| + |ids| && after[..|before|] == before
    && forall i | 0 <= i < |ids| ::
         ids[i] in t && after[|before| + i] == Sent(t[ids[i]].hop, Request(ids[i], code, argument))
  }

  /** So a broadcast is as many messages as there are direct children, one for each over its own pipe. */
  lemma EveryChildIsAsked(t: Table, id: DeviceId, code: Code, argument: U16, before: seq<Sent>, after: seq<Sent>)
    requires Asks(t, Children(t, id), code, argument, before, after)
    ensures |after| == |before| + |DirectChildren(t, id)| && before <= after
    ensures forall c | c in t && t[c].parent == id ::
              Sent(t[c].hop, Request(c, code, argument)) in after[|before|..]
    ensures forall i, j | |before| <= i < j < |after| :: after[i].request.destination != after[j].request.destination
  {
    var ids := Children(t, id);
    ChildrenCount(t, id);
    ChildrenFromExact(t, id, -1);
    forall c | c in t && t[c].parent == id ensures Sent(t[c].hop, Request(c, code, argument)) in after[|before|..] {
      assert IsChildAfter(t, id, -1, c);
      var i :| 0 <= i < |ids| && ids[i] == c;
      assert after[|before|..][i] == after[|before| + i];
    }
    forall i, j | |before| <= i < j < |after| ensures after[i].request.destination != after[j].request.destination {
      var a, b := i - |before|, j - |before|;
      assert after[|before| + a] == after[i] && after[|before| + b] == after[j];
      assert Key(ids[a]) < Key(ids[b]);
    }
  }

  /** A broadcast loop that has reached position `k` and written to `done`. */
  ghost predicate Collected(t: Table, id: DeviceId, k: int, done: seq<DeviceId>, code: Code, argument: U16,
                            written: seq<Sent>)
  {
    && Children(t, id) == done + ChildrenFrom(t, id, k)
    && (forall c | c in done :: c in t) && written == ToChildren(t, done, code, argument)
  }

  lemma CollectNext(t: Table, id: DeviceId, k: int, done: seq<DeviceId>, c: DeviceId, code: Code, argument: U16,
                    written: seq<Sent>)
    requires Collected(t, id, k, done, code, argument, written) && NextChild(t, id, k) == Some(c)
    ensures |done| < |DirectChildren(t, id)|
    ensures Collected(t, id, Key(c), done + [c], code, argument, written + [Sent(t[c].hop, Request(c, code, argument))])
  {
    ChildrenStep(t, id, k, done);
    ChildrenCount(t, id);
    assert (done + [c])[..|done|] == done;
  }

  ghost predicate Deletes(done: seq<Pending>) { exists p | p in done :: IsDelete(p.commandCode) }

  ghost function CountedDown(v: View): View {
    var n := (v.children - 1) % COUNTER_RANGE;
    v.(children := n, hasChildren := if n == 0 then false else v.hasChildren)
  }

  /** Counting down first and dropping the branch then is a counted removal. */
  lemma CountedFirst(id: DeviceId, v: View, w: View, t: Table, counted: bool, x: DeviceId)
    requires w == if counted then CountedDown(v) else v
    ensures AfterRemoval(id, w, t, false, x) == AfterRemoval(id, v, t, counted, x)
  {
  }

  lemma LearnedBelow(v: View, w: View, x: DeviceId, p: DeviceId, ty: DeviceType)
    requires w.table == Learn(v.table, x, p, ty) && w.children == v.children && w.hasChildren == v.hasChildren
    requires w.deviceType == if p in v.table && v.deviceType == HUB_DEVICE then HUB_DEVICE | ty else v.deviceType
    ensures w == AddIndirect(v, x, p, ty)
  {
  }

  lemma IndirectIsAcyclic(t: Table, x: DeviceId, parent: DeviceId, ty: DeviceType)
    requires Acyclic(t) && parent != x && !Below(t, parent, x)
    ensures parent in t ==>
              Acyclic(Put(t, x, 0, ty, parent, t[parent].hop)) &&
              Acyclic(FillAbove(Put(t, x, 0, ty, parent, t[parent].hop), x))
  {
    if parent in t {
      var u := Put(t, x, 0, ty, parent, t[parent].hop);
      PutAcyclicIff(t, x, Entry(0, ty, parent, t[parent].hop));
      FillAboveKeepsTree(u, x);
      SameShape(u, FillAbove(u, x));
    }
  }

  /**
   The loop that strikes a departed child, part-way: `l` is the list still to be searched, `response` the
   buffer last written over, `out` what has been sent and `exit` whether a delete was among it.
   */
  ghost predicate Striking(id: DeviceId, l0: seq<Pending>, r: Response, l: seq<Pending>, response: Response,
                           out: seq<Response>, exit: bool)
  {
    var (rest0, done0) := Depart(l0, r.source);
    var (rest, done) := Depart(l, r.source);
    && rest0 == rest
    && FormatAll(id, done0, r) == out + FormatAll(id, done, response)
    && (Deletes(done0) <==> exit || Deletes(done))
  }

  /** When the search finds nothing more, everything has been struck and sent. */
  lemma StrikingDone(id: DeviceId, l0: seq<Pending>, r: Response, l: seq<Pending>, response: Response,
                     out: seq<Response>, exit: bool)
    requires Striking(id, l0, r, l, response, out, exit) && Strikeable(l0, r.source)
    requires forall j | 0 <= j < |l| :: !Matches(l[j], NULL_COMMAND, r.source, true)
    ensures l == Depart(l0, r.source).0 && NobodyAwaits(l, r.source)
    ensures out == FormatAll(id, Depart(l0, r.source).1, r) && exit == Deletes(Depart(l0, r.source).1)
  {
    DepartNothing(l, r.source);
    NobodyAwaitsDeparted(l0, r.source);
  }

  lemma StrikingTurn(id: DeviceId, l0: seq<Pending>, r: Response, l: seq<Pending>, response: Response,
                     out: seq<Response>, exit: bool, at: int)
    requires r.source != NO_ID && Striking(id, l0, r, l, response, out, exit)
    requires IsFirstAwaiting(l, NULL_COMMAND, r.source, true, at)
    ensures var q := Answered(l[at], r.source);
            var next := Format(id, q, response);
            if AllAnswered(q.devices)
            then Striking(id, l0, r, Without(l, at), next, out + [next], exit || IsDelete(q.commandCode))
            else Striking(id, l0, r, l[at := q], response, out, exit)
    ensures var q := Answered(l[at], r.source);
            Without(l[at := q], at) == Without(l, at) &&
            CountAwaiting(l[at := q], r.source) == CountAwaiting(Without(l, at), r.source) < CountAwaiting(l, r.source)
  {
    var q := Answered(l[at], r.source);
    DepartStep(l, r.source, at);
    CountAwaitingDrops(l, r.source, at);
    assert Without(l[at := q], at) == Without(l, at);
    if AllAnswered(q.devices) {
      var done := Depart(Without(l, at), r.source).1;
      assert ([q] + done)[1..] == done;
      assert Deletes([q] + done) <==> IsDelete(q.commandCode) || Deletes(done) by {
        assert forall p :: p in [q] + done <==> p == q || p in done;
      }
    }
  }

  /** What a successful link response does to the Hub. */
  ghost function AfterLink(id: DeviceId, v: View, r: Response, fd: int): View
    requires Acyclic(v.table) && |r.arguments| >= 2
  {
    if IsRemoveChild(r.commandCode) then RemovedBelow(id, v, r.source, r.arguments[0])
    else if r.arguments[0] == id then AddDirect(id, v, r.source, ArgumentType(r.arguments[1]), fd)
    else AddIndirect(v, r.source, r.arguments[0], ArgumentType(r.arguments[1]))
  }

  function LinkCode(id: DeviceId, t: Table, r: Response): Code
    requires |r.arguments| >= 2
  {
    if r.arguments[0] in t || (!IsRemoveChild(r.commandCode) && r.arguments[0] == id) then OK else ROUTE_NOT_FOUND
  }

  /**
   A link response is passed on as OK exactly when the Hub's table has taken it over: the sender hangs where it says, or
   the device it no longer has was recorded. What is passed on as refused changes nothing.
   */
  lemma PassedOnIff(id: DeviceId, v: View, r: Response, fd: int)
    requires HangsFrom(v.table, id) && |r.arguments| >= 2
    ensures var w := AfterLink(id, v, r, fd).table;
            && LinkCode(id, v.table, r) in {OK, ROUTE_NOT_FOUND}
            && (LinkCode(id, v.table, r) != OK ==> AfterLink(id, v, r, fd) == v)
            && (LinkCode(id, v.table, r) == OK <==>
                  if IsRemoveChild(r.commandCode) then r.arguments[0] in v.table
                  else r.source in w && w[r.source].parent == r.arguments[0])
  {
    if !IsRemoveChild(r.commandCode) && r.arguments[0] in v.table {
      LearnShape(v.table, r.source, r.arguments[0], ArgumentType(r.arguments[1]));
    }
  }

  ghost predicate Awaited(l: seq<Pending>, r: Response) {
    exists p | p in l :: Matches(p, r.commandCode, r.source, false)
  }

  /** The broadcasts after a response that is not a successful link, and those it completes. */
  ghost function AfterAnswer(l: seq<Pending>, t: Table, r: Response): (seq<Pending>, seq<Pending>) {
    if Awaited(l, r) then CreditList(l, r, r.source in t && IsHub(t[r.source].deviceType))
    else if IsDelete(r.commandCode) then Depart(l, r.source)
    else (l, [])
  }

  /** It is one event of the broadcast machine: an answer, or the departure of the sender. */
  lemma AnswerIsEvent(l: seq<Pending>, t: Table, r: Response) returns (e: BroadcastEvent)
    requires r.source != NO_ID
    ensures Possible(e) && AfterAnswer(l, t, r) == ListStep(l, e)
    ensures e == if !Awaited(l, r) && r.commandCode & COMMAND_MASK == DELETE then Gone(r.source)
                 else Reply(r, r.source in t && t[r.source].deviceType & CONTROL_DEVICE_MASK == HUB_DEVICE)
  {
    UncreditedIsUnawaited(l, r);
    if !Awaited(l, r) && IsDelete(r.commandCode) {
      e := Gone(r.source);
    } else {
      e := Reply(r, r.source in t && IsHub(t[r.source].deviceType));
    }
  }

  /** Crediting the first match, seen from the list that already has the slot cleared. */
  lemma CreditedIs(id: DeviceId, l: seq<Pending>, r: Response, fromHub: bool, at: int)
    requires IsFirstAwaiting(l, r.commandCode, r.source, false, at)
    ensures var m := l[at := Answered(l[at], r.source)];
            var q := m[at].(summary := Merge(m[at].summary, r, fromHub));
            && Awaited(l, r)
            && CreditList(l, r, fromHub) ==
               (if AllAnswered(m[at].devices) then (Without(m, at), [q]) else (m[at := q], []))
            && FormatAll(id, [q], r) == [Format(id, q, r)] && (Deletes([q]) <==> IsDelete(q.commandCode))
            && FormatAll(id, [], r) == [] && !Deletes([])
  {
    CreditFirst(l, r, fromHub, at);
    assert l[at] in l;
    var m := l[at := Answered(l[at], r.source)];
    var q := m[at].(summary := Merge(m[at].summary, r, fromHub));
    assert Without(m, at) == Without(l, at) && m[at := q] == l[at := q];
    assert q in [q] && FormatAll(id, [q][1..], Format(id, q, r)) == [];
  }

  lemma UnawaitedIsNoCredit(l: seq<Pending>, r: Response, fromHub: bool)
    requires forall j | 0 <= j < |l| :: !Matches(l[j], r.commandCode, r.source, false)
    ensures !Awaited(l, r)
    ensures CreditList(l, r, fromHub) == (l, [])
  {
    CreditNothing(l, r, fromHub);
  }

  /** A response nobody awaits changes no broadcast. */
  lemma UncreditedIsUnawaited(l: seq<Pending>, r: Response)
    ensures !Awaited(l, r) ==> forall fromHub :: CreditList(l, r, fromHub) == (l, [])
  {
    if !Awaited(l, r) {
      forall j | 0 <= j < |l| ensures !Matches(l[j], r.commandCode, r.source, false) {
        assert l[j] in l;
      }
      forall fromHub ensures CreditList(l, r, fromHub) == (l, []) {
        UnawaitedIsNoCredit(l, r, fromHub);
      }
    }
  }

  class Hub {
    const id: DeviceId
    const table: RoutingTable
    var children: int
    var hasChildren: bool
    var deviceType: DeviceType
    var pending: seq<Pending>
    var up: seq<Response>
    var down: seq<Sent>
    var forceExit: bool
    var parentId: DeviceId

    ghost predicate Valid()
      reads table, table.buckets, table.repr
    {
      table.Valid() && Acyclic(table.Entries())
    }

    ghost function Table(): Table
      requires table.Valid()
      reads table, table.buckets, table.repr
    {
      table.Entries()
    }

    ghost function Books(): View
      requires table.Valid()
      reads this`children, this`hasChildren, this`deviceType, table, table.buckets, table.repr
    {
      View(Table(), children, hasChildren, deviceType)
    }

    constructor (id: DeviceId)
      ensures this.id == id && Valid() && Books() == START.view
      ensures pending == [] && up == [] && down == [] && !forceExit
      ensures fresh(table) && fresh(table.buckets)
    {
      this.id := id;
      table := new RoutingTable();
      children, hasChildren, deviceType := 0, false, HUB_DEVICE;
      pending, up, down, forceExit, parentId := [], [], [], false, CONTROLLER_ID;
    }

    // -------------------------------------------------------------- the table and the declared type

    /** Empties the declared type unless a direct child other than `childId` is non-empty. */
    method UpdateType(childId: DeviceId)
      requires Valid()
      modifies this`deviceType
      ensures Valid() && Table() == old(Table())
      ensures deviceType == if NothingLeft(Table(), id, childId) then HUB_DEVICE else old(deviceType)
    {
      ghost var t := Table();
      ghost var k := -1;
      var isEmpty := true;
      var child := table.FindDirect(id, null);
      while child != null
        invariant table.Valid() && Table() == t && isEmpty && deviceType == old(deviceType)
        invariant child != null ==> table.IsNode(child)
        invariant NextChild(t, id, k) == if child == null then None else Some(child.id)
        invariant forall c: DeviceId | NonEmpty(t, c) && t[c].parent == id && Key(c) <= k :: c == childId
        decreases if child == null then 0 else 0x10_0000 - Key(child.id)
      {
        if child.id != childId && !IsEmpty(child.deviceType) {
          isEmpty := false;
          assert NonEmpty(t, child.id) && t[child.id].parent == id;
          break;
        }
        forall c: DeviceId | NonEmpty(t, c) && t[c].parent == id && Key(c) <= Key(child.id) ensures c == childId {
          KeyInjective(c, child.id);
          assert Key(c) > k ==> IsChildAfter(t, id, k, c);
        }
        k := Key(child.id);
        child := table.FindDirect(id, child);
      }
      if isEmpty {
        assert forall c: DeviceId | NonEmpty(t, c) && t[c].parent == id :: Key(c) > k ==> IsChildAfter(t, id, k, c);
        deviceType := HUB_DEVICE;
      }
    }

    /** Drops the branch of `x` if it hangs from `parentId`, and empties types above its recorded parent. */
    method UnhookBranch(x: DeviceId, parentId: DeviceId, recorded: DeviceId)
      requires Valid() && x in Table() && Table()[x].parent == recorded
      modifies table, table.buckets, table.repr
      ensures Valid() && Table() == Unhook(old(Table()), x, parentId)
    {
      ghost var t := Table();
      table.Remove(x, parentId);
      SubTableAcyclic(Table(), t);
      EmptyUpKeepsTree(Table(), recorded);
      var parent := table.Find(recorded);
      table.UpdateTypeToEmpty(parent);
    }

    /** Drops a branch and brings the declared type up to date. */
    method DropBranch(childId: DeviceId, parentId: DeviceId, recorded: DeviceId)
      requires Valid() && childId in Table() && Table()[childId].parent == recorded
      modifies this`deviceType, table, table.buckets, table.repr
      ensures Valid()
      ensures Books() == AfterRemoval(id, old(Books()), Unhook(old(Table()), childId, parentId), false, childId)
    {
      UnhookBranch(childId, parentId, recorded);
      UpdateType(childId);
    }

    method CountDown()
      requires Valid()
      modifies this`children, this`hasChildren
      ensures Valid() && Books() == CountedDown(old(Books()))
    {
      children := (children - 1) % COUNTER_RANGE;
      if children == 0 {
        hasChildren := false;
      }
    }

    method DropCounted(childId: DeviceId, parentId: DeviceId, recorded: DeviceId, counted: bool)
      requires Valid() && childId in Table() && Table()[childId].parent == recorded
      modifies this`children, this`hasChildren, this`deviceType, table, table.buckets, table.repr
      ensures Valid()
      ensures Books() == AfterRemoval(id, old(Books()), Unhook(old(Table()), childId, parentId), counted, childId)
    {
      ghost var v := Books();
      if counted {
        CountDown();
      }
      ghost var w := Books();
      DropBranch(childId, parentId, recorded);
      CountedFirst(id, v, w, Unhook(w.table, childId, parentId), counted, childId);
    }

    /** Forgets a child: on a remove-child request (`requested`) or after its unsolicited delete response. */
    method RemoveChild(childId: DeviceId, requested: bool) returns (ok: bool)
      requires Valid() && (requested ==> hasChildren)
      modifies this`children, this`hasChildren, this`deviceType, table, table.buckets, table.repr
      ensures Valid()
      ensures Books() == if requested then RemoveRequested(id, old(Books()), childId)
                         else ChildDeleted(id, old(Books()), childId)
      ensures ok <==> childId in old(Table())
    {
      var child := table.Find(childId);
      if child == null {
        return false;
      }
      var foundParentId := child.parentId;
      DropCounted(childId, if requested then id else foundParentId, foundParentId, requested || foundParentId == id);
      return true;
    }

    method RecordDirect(x: DeviceId, ty: DeviceType, fd: int)
      requires Valid() && !Below(Table(), id, x) && x != id
      modifies table, table.buckets, table.repr
      ensures Valid() && Table() == Put(old(Table()), x, 0, ty, id, fd)
    {
      PutAcyclicIff(Table(), x, Entry(0, ty, id, fd));
      table.InsertDirectPid(x, 0, ty, id, fd);
    }

    /** One more child: it decides the declared type of a Hub that had none. */
    method CountUp(ty: DeviceType)
      modifies this`children, this`hasChildren, this`deviceType
      ensures children == (old(children) + 1) % COUNTER_RANGE
      ensures hasChildren == (old(hasChildren) || old(deviceType) == HUB_DEVICE)
      ensures deviceType == if old(deviceType) == HUB_DEVICE then HUB_DEVICE | ty else old(deviceType)
    {
      if deviceType == HUB_DEVICE {
        if !hasChildren {
          hasChildren := true;
        }
        deviceType := HUB_DEVICE | ty;
      }
      children := (children + 1) % COUNTER_RANGE;
    }

    method AddDirectChild(x: DeviceId, ty: DeviceType, fd: int)
      requires Valid() && !Below(Table(), id, x) && x != id
      modifies this`children, this`hasChildren, this`deviceType, table, table.buckets, table.repr
      ensures Valid() && Books() == AddDirect(id, old(Books()), x, ty, fd)
    {
      RecordDirect(x, ty, fd);
      CountUp(ty);
    }

    /** Inserts below a recorded device and fills the types above. */
    method RecordIndirect(x: DeviceId, parent: DeviceId, ty: DeviceType) returns (ok: bool)
      requires Valid() && parent != x && !Below(Table(), parent, x)
      modifies table, table.buckets, table.repr
      ensures Valid()
      ensures ok <==> parent in old(Table())
      ensures Table() == Learn(old(Table()), x, parent, ty)
    {
      IndirectIsAcyclic(Table(), x, parent, ty);
      ok := table.InsertIndirectPid(x, 0, ty, parent);
      if ok {
        var source := table.Find(x);
        LeafBits(source.deviceType);
        table.UpdateTypeToNotEmpty(source);
      }
    }

    method AddIndirectChild(x: DeviceId, parent: DeviceId, ty: DeviceType) returns (ok: bool)
      requires Valid() && parent != x && !Below(Table(), parent, x)
      modifies this`deviceType, table, table.buckets, table.repr
      ensures Valid() && Books() == AddIndirect(old(Books()), x, parent, ty)
      ensures ok <==> parent in old(Table())
    {
      ghost var v, t := Books(), Table();
      ok := RecordIndirect(x, parent, ty);
      if ok && deviceType == HUB_DEVICE {
        deviceType := HUB_DEVICE | ty;
      }
      assert Table() == Learn(t, x, parent, ty);
      LearnedBelow(v, Books(), x, parent, ty);
    }

    /** Records the announced device, directly when it names this Hub as its parent. */
    method AddChild(x: DeviceId, parent: DeviceId, ty: DeviceType, fd: int) returns (code: Code)
      requires Valid() && x != parent && !Below(Table(), parent, x)
      modifies this`children, this`hasChildren, this`deviceType, table, table.buckets, table.repr
      ensures Valid()
      ensures Books() == if parent == id then AddDirect(id, old(Books()), x, ty, fd)
                         else AddIndirect(old(Books()), x, parent, ty)
      ensures code == if parent == id || parent in old(Table()) then OK else ROUTE_NOT_FOUND
    {
      if parent == id {
        AddDirectChild(x, ty, fd);
        code := OK;
      } else {
        var ok := AddIndirectChild(x, parent, ty);
        code := if ok then OK else ROUTE_NOT_FOUND;
      }
    }

    /** Drops the branch of `child` if it hangs from `source`, and empties types from `source` upwards. */
    method DropFrom(child: DeviceId, source: DeviceId)
      requires Valid() && child in Table()
      modifies table, table.buckets, table.repr
      ensures Valid()
      ensures Acyclic(TableOps.Remove(old(Table()), child, source))
      ensures Table() == EmptyUp(TableOps.Remove(old(Table()), child, source), source)
    {
      ghost var t := Table();
      table.Remove(child, source);
      SubTableAcyclic(Table(), t);
      EmptyUpKeepsTree(Table(), source);
      var sender := table.Find(source);
      table.UpdateTypeToEmpty(sender);
    }

    /** A remove-child response on its way up: the device has left the branch of `source`. */
    method LinkRemoveChildReceived(source: DeviceId, child: DeviceId) returns (code: Code)
      requires Valid()
      modifies this`deviceType, table, table.buckets, table.repr
      ensures Valid()
      ensures Books() == RemovedBelow(id, old(Books()), source, child)
      ensures code == if child in old(Table()) then OK else ROUTE_NOT_FOUND
    {
      var found := table.Find(child);
      if found == null {
        return ROUTE_NOT_FOUND;
      }
      DropFrom(child, source);
      UpdateType(child);
      return OK;
    }

    // -------------------------------------------------------------- broadcasting

    /** Fills the next slot of a broadcast array. */
    method Await(slots: array<DeviceId>, count: nat, x: DeviceId)
      requires Valid() && count < slots.Length
      modifies slots
      ensures Valid() && Table() == old(Table()) && slots[..count + 1] == old(slots[..count]) + [x]
    {
      slots[count] := x;
    }

    /** Writes the request to every direct child and fills the array of awaited ids, one slot each. */
    method WriteToChildren(code: Code, argument: U16, slots: array<DeviceId>) returns (count: nat, written: seq<Sent>)
      requires Valid() && |DirectChildren(Table(), id)| <= slots.Length
      modifies slots
      ensures Valid() && Table() == old(Table())
      ensures count <= slots.Length && slots[..count] == Children(Table(), id)
      ensures (forall c | c in Children(Table(), id) :: c in Table()) &&
              written == ToChildren(Table(), Children(Table(), id), code, argument)
    {
      ghost var t, k, done := Table(), -1, [];
      count, written := 0, [];
      var child := table.FindDirect(id, null);
      while child != null
        invariant Valid() && Table() == t && (child != null ==> table.IsNode(child))
        invariant NextChild(t, id, k) == if child == null then None else Some(child.id)
        invariant count <= slots.Length && slots[..count] == done
        invariant Collected(t, id, k, done, code, argument, written)
        decreases slots.Length - count, if child == null then 0 else 1
      {
        CollectNext(t, id, k, done, child.id, code, argument, written);
        written := written + [Sent(child.nextHopFd, Request(child.id, code, argument))];
        k, done := Key(child.id), done + [child.id];
        Await(slots, count, child.id);
        count := count + 1;
        child := table.FindDirect(id, child);
      }
    }

    /** Writes the request to every direct child; the array of awaited ids is allocated with `children` slots. */
    method CollectChildren(code: Code, argument: U16) returns (ids: seq<DeviceId>, written: seq<Sent>)
      requires Valid() && |DirectChildren(Table(), id)| <= children
      ensures Valid() && Books() == old(Books()) && ids == Children(Table(), id)
      ensures (forall c | c in Children(Table(), id) :: c in Table()) &&
              written == ToChildren(Table(), Children(Table(), id), code, argument)
    {
      var slots := new DeviceId[children];
      var count;
      count, written := WriteToChildren(code, argument, slots);
      ids := slots[..count];
    }

    /** Broadcasts a request and begins to await every child that got it. */
    method ForwardToChildren(code: Code, argument: U16)
      requires Valid() && |DirectChildren(Table(), id)| <= children
      modifies this`pending, this`down
      ensures Valid() && Table() == old(Table())
      ensures pending == ListStep(old(pending), Forward(code, Children(Table(), id))).0
      ensures pending == old(pending) + [Pending(code, Children(Table(), id), NO_ANSWERS)]
      ensures Asks(Table(), Children(Table(), id), code, argument, old(down), down)
    {
      var ids, written := CollectChildren(code, argument);
      EachChildOnce(Table(), ids, code, argument);
      down := down + written;
      pending := pending + [Pending(code, ids, NO_ANSWERS)];
    }

    /** Clears the slots of `source`, and tells whether there was one and whether all are clear now. */
    method ClearSlots(slots: seq<DeviceId>, source: DeviceId)
      returns (cleared: seq<DeviceId>, found: bool, complete: bool)
      ensures cleared == Clear(slots, source) && (found <==> source in slots) && (complete <==> AllAnswered(cleared))
    {
      cleared, found, complete := slots, false, true;
      var i := 0;
      while i < |slots|
        invariant 0 <= i <= |slots| == |cleared|
        invariant forall j | 0 <= j < |slots| :: cleared[j] == if j < i && slots[j] == source then NO_ID else slots[j]
        invariant found <==> source in slots[..i]
        invariant complete <==> forall j | 0 <= j < i :: cleared[j] == NO_ID
      {
        if cleared[i] == source {
          cleared := cleared[i := NO_ID];
          found := true;
        } else if cleared[i] != NO_ID {
          complete := false;
        }
        i := i + 1;
      }
      assert slots[..i] == slots && cleared == Clear(slots, source);
    }

    /** Marks `source` as arrived in the first broadcast that awaits it, and tells whether that one is complete. */
    method CheckPending(source: DeviceId, code: Code, anyCommand: bool) returns (at: int, complete: bool)
      modifies this`pending
      ensures at == -1 ==>
                && pending == old(pending)
                && forall j | 0 <= j < |pending| :: !Matches(pending[j], code, source, anyCommand)
      ensures at != -1 ==>
                && IsFirstAwaiting(old(pending), code, source, anyCommand, at)
                && pending == old(pending)[at := Answered(old(pending)[at], source)]
                && complete == AllAnswered(pending[at].devices)
    {
      at, complete := 0, false;
      while at < |pending|
        invariant 0 <= at <= |pending| && pending == old(pending)
        invariant forall j | 0 <= j < at :: !Matches(pending[j], code, source, anyCommand)
      {
        if anyCommand || pending[at].commandCode == code {
          var cleared, found;
          cleared, found, complete := ClearSlots(pending[at].devices, source);
          if found {
            pending := pending[at := pending[at].(devices := cleared)];
            return;
          }
        }
        at := at + 1;
      }
      at := -1;
    }

    /** Answers the completed broadcast at `at` over the buffer `response`, and forgets it. */
    method SendAggregate(at: nat, response: Response) returns (answer: Response)
      requires at < |pending|
      modifies this`pending, this`up, this`forceExit
      ensures answer == Format(id, old(pending)[at], response)
      ensures pending == Without(old(pending), at) && up == old(up) + [answer]
      ensures forceExit == (old(forceExit) || IsDelete(old(pending)[at].commandCode))
    {
      var p := pending[at];
      answer := Format(id, p, response);
      if IsDelete(p.commandCode) {
        forceExit := true;
      }
      up := up + [answer];
      pending := Without(pending, at);
    }

    /**
     A child has gone: it is struck from every broadcast, one first match at a time, and what becomes
     complete is answered. `StrikingEndsIff` says that the loop ends under no weaker condition.
     */
    method CheckCompleteAndSend(r: Response)
      requires Strikeable(pending, r.source)
      modifies this`pending, this`up, this`forceExit
      ensures pending == Depart(old(pending), r.source).0 && NobodyAwaits(pending, r.source)
      ensures up == old(up) + FormatAll(id, Depart(old(pending), r.source).1, r)
      ensures forceExit == (old(forceExit) || Deletes(Depart(old(pending), r.source).1))
    {
      var x := r.source;
      var response := r;
      ghost var l, out, exit := pending, [], false;
      var at, complete := CheckPending(x, NULL_COMMAND, true);
      while at != -1
        invariant Striking(id, old(pending), r, l, response, out, exit) && (at != -1 ==> x != NO_ID)
        invariant at != -1 ==>
                    && IsFirstAwaiting(l, NULL_COMMAND, x, true, at)
                    && pending == l[at := Answered(l[at], x)] && complete == AllAnswered(pending[at].devices)
        invariant at == -1 ==> pending == l && forall j | 0 <= j < |l| :: !Matches(l[j], NULL_COMMAND, x, true)
        invariant up == old(up) + out && forceExit == (old(forceExit) || exit)
        decreases CountAwaiting(l, x), at
      {
        StrikingTurn(id, old(pending), r, l, response, out, exit, at);
        if complete {
          exit := exit || IsDelete(pending[at].commandCode);
          response := SendAggregate(at, response);
          out := out + [response];
        }
        l := pending;
        at, complete := CheckPending(x, NULL_COMMAND, true);
      }
      StrikingDone(id, old(pending), r, l, response, out, exit);
    }

    /** The sender's recorded type decides whether an additional argument means a child error. */
    method SenderIsHub(source: DeviceId) returns (fromHub: bool)
      requires Valid()
      ensures Valid() && Table() == old(Table())
      ensures fromHub <==> source in Table() && IsHub(Table()[source].deviceType)
    {
      var n := table.Find(source);
      fromHub := n != null && IsHub(n.deviceType);
    }

    /** An answer is credited to the oldest broadcast of its command that awaits the sender, if there is one. */
    method CreditAnswer(r: Response, fromHub: bool) returns (credited: bool)
      modifies this`pending, this`up, this`forceExit
      ensures credited <==> Awaited(old(pending), r)
      ensures !credited ==> pending == old(pending) && up == old(up)
      ensures var (l, done) := CreditList(old(pending), r, fromHub);
              pending == l && up == old(up) + FormatAll(id, done, r) && forceExit == (old(forceExit) || Deletes(done))
    {
      ghost var l := pending;
      var at, complete := CheckPending(r.source, r.commandCode, false);
      if at == -1 {
        UnawaitedIsNoCredit(l, r, fromHub);
        return false;
      }
      CreditedIs(id, l, r, fromHub, at);
      pending := pending[at := pending[at].(summary := Merge(pending[at].summary, r, fromHub))];
      if complete {
        var _ := SendAggregate(at, r);
      }
      return true;
    }

    /** A successful link response on its way up. */
    method LinkResponseBottomUp(r: Response, fd: int)
      requires Valid() && |r.arguments| >= 2
      requires !IsRemoveChild(r.commandCode) ==> r.source != r.arguments[0] && !Below(Table(), r.arguments[0], r.source)
      modifies this`children, this`hasChildren, this`deviceType, this`up, table, table.buckets, table.repr
      ensures Valid() && Books() == AfterLink(id, old(Books()), r, fd)
      ensures up == old(up) + [r.(responseCode := LinkCode(id, old(Table()), r))]
    {
      var code: Code;
      if IsRemoveChild(r.commandCode) {
        code := LinkRemoveChildReceived(r.source, r.arguments[0]);
      } else {
        code := AddChild(r.source, r.arguments[0], ArgumentType(r.arguments[1]), fd);
      }
      up := up + [r.(responseCode := code)];
    }

    /**
     A delete response nobody awaits: the child is forgotten, the response passed on, and nobody awaits it
     any more.
     */
    method DeleteBottomUp(r: Response)
      requires Valid() && Strikeable(pending, r.source)
      modifies this`children, this`hasChildren, this`deviceType, this`pending, this`up, this`forceExit
      modifies table, table.buckets, table.repr
      ensures Valid() && Books() == ChildDeleted(id, old(Books()), r.source)
      ensures pending == Depart(old(pending), r.source).0
      ensures up == old(up) + [r] + FormatAll(id, Depart(old(pending), r.source).1, r)
    {
      var _ := RemoveChild(r.source, false);
      up := up + [r];
      CheckCompleteAndSend(r);
    }

    /** Credits an answer, knowing from the table whether a Hub sent it. */
    method CreditSender(r: Response) returns (credited: bool)
      requires Valid()
      modifies this`pending, this`up, this`forceExit
      ensures Valid() && Books() == old(Books())
      ensures credited <==> Awaited(old(pending), r)
      ensures !credited ==> pending == old(pending) && up == old(up)
      ensures credited ==>
                && pending == AfterAnswer(old(pending), old(Table()), r).0
                && up == old(up) + FormatAll(id, AfterAnswer(old(pending), old(Table()), r).1, r)
    {
      var fromHub := SenderIsHub(r.source);
      credited := CreditAnswer(r, fromHub);
    }

    /** A response that is not a successful link: an awaited answer, an unsolicited delete, or passed on. */
    method AnswerBottomUp(r: Response)
      requires Valid() && (IsDelete(r.commandCode) && !Awaited(pending, r) ==> Strikeable(pending, r.source))
      modifies this`children, this`hasChildren, this`deviceType, this`pending, this`up, this`forceExit
      modifies table, table.buckets, table.repr
      ensures Valid()
      ensures Books() == if Awaited(old(pending), r) || !IsDelete(r.commandCode) then old(Books())
                         else ChildDeleted(id, old(Books()), r.source)
      ensures pending == AfterAnswer(old(pending), old(Table()), r).0
      ensures up == old(up) + (if Awaited(old(pending), r) then [] else [r])
                            + FormatAll(id, AfterAnswer(old(pending), old(Table()), r).1, r)
    {
      ghost var v := Books();
      var credited := CreditSender(r);
      assert Books() == v;
      if !credited && IsDelete(r.commandCode) {
        DeleteBottomUp(r);
      } else if !credited {
        up := up + [r];
      }
    }

    /** One response read from the children. */
    method BottomUp(r: Response, fd: int)
      requires Valid() && (IsDelete(r.commandCode) && !Awaited(pending, r) ==> Strikeable(pending, r.source))
      requires IsLink(r.commandCode) && !IsError(r.responseCode) ==>
                 |r.arguments| >= 2 &&
                 (!IsRemoveChild(r.commandCode) ==>
                    r.source != r.arguments[0] && !Below(Table(), r.arguments[0], r.source))
      modifies this`children, this`hasChildren, this`deviceType, this`pending, this`up, this`forceExit
      modifies table, table.buckets, table.repr
      ensures Valid()
      ensures IsLink(r.commandCode) && !IsError(r.responseCode) ==>
                && pending == old(pending)
                && Books() == AfterLink(id, old(Books()), r, fd)
                && up == old(up) + [r.(responseCode := LinkCode(id, old(Table()), r))]
      ensures !(IsLink(r.commandCode) && !IsError(r.responseCode)) ==>
                && pending == AfterAnswer(old(pending), old(Table()), r).0
                && Books() == (if Awaited(old(pending), r) || !IsDelete(r.commandCode) then old(Books())
                               else ChildDeleted(id, old(Books()), r.source))
                && up == old(up) + (if Awaited(old(pending), r) then [] else [r])
                                 + FormatAll(id, AfterAnswer(old(pending), old(Table()), r).1, r)
    {
      if IsLink(r.commandCode) && !IsError(r.responseCode) {
        LinkResponseBottomUp(r, fd);
      } else {
        AnswerBottomUp(r);
      }
    }

    /** Re-announces everything below this Hub to its new parent, parents first. */
    method ReplayHistory(code: Code, responseCode: Code)
      requires Valid()
      modifies this`up
      ensures Valid() && Table() == old(Table())
      ensures (forall x | x in Preorder(Table(), id) :: x in Table()) &&
              up == old(up) + Announcements(Table(), Preorder(Table(), id), code, responseCode)
    {
      ghost var t, done := Table(), [];
      var written: seq<Response> := [];
      TraversalIsPreorder(t, id);
      var n := table.FindAll(id, null);
      while n != null
        invariant Valid() && Table() == t && (n != null ==> table.IsNode(n)) && up == old(up)
        invariant At(Preorder(t, id), |done|, None) == if n == null then None else Some(n.id)
        invariant done <= Preorder(t, id) && (forall x | x in done :: x in t)
        invariant written == Announcements(t, done, code, responseCode)
        decreases |Preorder(t, id)| - |done|
      {
        WalkPrefix(t, id, done, n.id);
        assert (done + [n.id])[..|done|] == done;
        written := written + [Response(n.id, code, responseCode, [n.parentId, TypeArgument(n.deviceType)])];
        done := done + [n.id];
        n := table.FindAll(id, n);
      }
      assert done == Preorder(t, id);
      up := up + written;
    }

    /** Forwards a request for another device towards it, or reports that it is not below this Hub. */
    method SendToChild(request: Request)
      requires Valid()
      modifies this`up, this`down
      ensures Valid() && Table() == old(Table())
      ensures match Forwarded(ByTable(Table()), request.destination)
              case Some(fd) => up == old(up) && down == old(down) + [Sent(fd, request)]
              case None => down == old(down) &&
                           up == old(up) + [Response(id, request.commandCode, ROUTE_NOT_FOUND, [request.destination])]
    {
      var n := table.Find(request.destination);
      if n == null {
        up := up + [Response(id, request.commandCode, ROUTE_NOT_FOUND, [request.destination])];
      } else {
        down := down + [Sent(n.nextHopFd, request)];
      }
    }

    /** The answer to a remove-child request, and the broadcasts that end because the child is gone. */
    method AnswerRemoval(response: Response, child: DeviceId)
      requires Valid() && Strikeable(pending, child)
      modifies this`pending, this`up, this`forceExit
      ensures Valid() && Books() == old(Books())
      ensures pending == Depart(old(pending), child).0
      ensures up == old(up) + [response] + FormatAll(id, Depart(old(pending), child).1, response.(source := child))
    {
      up := up + [response];
      CheckCompleteAndSend(response.(source := child));
    }

    /** A remove-child request: the branch is forgotten and no broadcast awaits the child any longer. */
    method RemoveChildRequested(request: Request)
      requires Valid() && (hasChildren && request.argument in Table() ==> Strikeable(pending, request.argument))
      modifies this`children, this`hasChildren, this`deviceType, this`pending, this`up, this`forceExit
      modifies table, table.buckets, table.repr
      ensures Valid() && Books() == RemoveRequested(id, old(Books()), request.argument)
      ensures !old(hasChildren) || request.argument !in old(Table()) ==>
                var code := if old(hasChildren) then CHILD_NOT_FOUND else UNEXPECTED_COMMAND;
                pending == old(pending) && up == old(up) + [Response(id, request.commandCode, code, [])]
      ensures old(hasChildren) && request.argument in old(Table()) ==>
                var response := Response(id, request.commandCode, OK, [request.argument, TypeArgument(deviceType)]);
                var (l, done) := ListStep(old(pending), Gone(request.argument));
                pending == l && up == old(up) + [response] + FormatAll(id, done, response.(source := request.argument))
    {
      if !hasChildren {
        up := up + [Response(id, request.commandCode, UNEXPECTED_COMMAND, [])];
        return;
      }
      var ok := RemoveChild(request.argument, true);
      if !ok {
        up := up + [Response(id, request.commandCode, CHILD_NOT_FOUND, [])];
        return;
      }
      var response := Response(id, request.commandCode, OK, [request.argument, TypeArgument(deviceType)]);
      AnswerRemoval(response, request.argument);
    }

    /** Closes down: every direct child is forgotten with its branch. */
    method HandleShutdown() returns (closed: seq<DeviceId>)
      requires Valid()
      modifies table, table.buckets, table.repr`next
      ensures table.Valid()
      ensures closed == if hasChildren then Children(old(Table()), id) else []
      ensures Table() == if hasChildren then map x | x in old(Table()) && !Below(old(Table()), x, id) :: old(Table())[x]
                         else old(Table())
    {
      closed := [];
      if hasChildren {
        closed := table.RemoveChildren(id);
      }
    }

    /** A change-parent request: answer the new parent and, if it really changed, re-announce the whole branch. */
    method LinkChangeParent(request: Request)
      requires Valid()
      modifies this`parentId, this`up
      ensures Valid() && Table() == old(Table()) && parentId == request.argument
      ensures (forall x | x in Preorder(Table(), id) :: x in Table()) &&
              up == old(up)
                + [Response(id, request.commandCode, OK, [request.argument, TypeArgument(deviceType)])]
                + (if old(parentId) == request.argument then []
                   else Announcements(Table(), Preorder(Table(), id), request.commandCode, OK))
    {
      PreorderIsExact(Table(), id);
      var parentChanged := parentId != request.argument;
      if parentChanged {
        parentId := request.argument;
      }
      up := up + [Response(id, request.commandCode, OK, [request.argument, TypeArgument(deviceType)])];
      if parentChanged {
        ReplayHistory(request.commandCode, OK);
      }
    }

    /** Without children the Hub answers for itself: an unknown state, or its own end. */
    method AnswerAlone(code: Code)
      modifies this`up, this`forceExit
      ensures up == old(up) + [
                if code & COMMAND_MASK == INFO then Response(id, code, OK, [UNDEFINED_STATE, 0])
                else if code & COMMAND_MASK == DELETE then Response(id, code, OK, [])
                else Response(id, code, UNEXPECTED_COMMAND, [])]
      ensures forceExit == (old(forceExit) || code & COMMAND_MASK == DELETE)
    {
      if IsInfo(code) {
        up := up + [Response(id, code, OK, [UNDEFINED_STATE, 0])];
      } else if IsDelete(code) {
        forceExit := true;
        up := up + [Response(id, code, OK, [])];
      } else {
        up := up + [Response(id, code, UNEXPECTED_COMMAND, [])];
      }
    }

    /**
     A request for this Hub that is not a link. With children, an info or delete request is broadcast, and a switch
     exactly when its label suits the declared leaf type, which is when a direct child takes it if that type is in step;
     anything else is refused.
     */
    method ExecuteCommand(request: Request)
      requires Valid() && |DirectChildren(Table(), id)| <= children && !IsLink(request.commandCode)
      modifies this`pending, this`up, this`down, this`forceExit
      ensures Valid() && Table() == old(Table())
      ensures var code, ids := request.commandCode, Children(Table(), id);
              hasChildren ==>
                if || code & COMMAND_MASK == INFO || code & COMMAND_MASK == DELETE
                   || (code & COMMAND_MASK == SWITCH && ChildType(deviceType) == BULB_DEVICE
                       && code & SWITCH_MASK == SWITCH_POWER)
                   || (code & COMMAND_MASK == SWITCH && ChildType(deviceType) in {FRIDGE_DEVICE, WINDOW_DEVICE}
                       && code & SWITCH_MASK in {SWITCH_OPEN, SWITCH_CLOSE})
                then
                  && up == old(up) && pending == old(pending) + [Pending(code, ids, NO_ANSWERS)]
                  && Asks(Table(), ids, code, request.argument, old(down), down)
                else
                  && pending == old(pending) && down == old(down)
                  && up == old(up) + [Response(id, code, UNEXPECTED_COMMAND, [])]
      ensures var code := request.commandCode;
              !hasChildren ==>
                && pending == old(pending) && down == old(down)
                && up == old(up) + [
                     if code & COMMAND_MASK == INFO then Response(id, code, OK, [UNDEFINED_STATE, 0])
                     else if code & COMMAND_MASK == DELETE then Response(id, code, OK, [])
                     else Response(id, code, UNEXPECTED_COMMAND, [])]
      ensures forceExit == (old(forceExit) || (!hasChildren && request.commandCode & COMMAND_MASK == DELETE))
    {
      var code := request.commandCode;
      if !hasChildren {
        AnswerAlone(code);
      } else if IsInfo(code) || (IsSwitch(code) && SwitchFits(deviceType, code)) || IsDelete(code) {
        ForwardToChildren(code, request.argument);
      } else {
        up := up + [Response(id, code, UNEXPECTED_COMMAND, [])];
      }
    }
  }
}
