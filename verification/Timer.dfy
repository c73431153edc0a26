/** The Timer: it stands above one device, follows what happens below it, and switches it on a daily schedule. */
module Timer {
  import opened Devices
  import opened Forest
  import opened TableOps
  import opened Protocol
  import opened Routing
  import opened Topology
  import opened Replay
  import opened Schedule
  import opened TimerTable
  import opened Forwarding
  import HubTable
  import Hub

  const STATE_OFF := 0
  const STATE_ON := 1

  /** The switch that turns a child of this type on or off: power for a bulb, open or close for anything else. */
  function SwitchCode(ty: DeviceType, activate: bool): Code {
    if ChildType(ty) == BULB_DEVICE then SWITCH | SWITCH_POWER | (if activate then POSITION_ON else POSITION_OFF)
    else SWITCH | (if activate then SWITCH_OPEN else SWITCH_CLOSE) | POSITION_ON
  }

  /** A scheduled switch carries a label the child obeys exactly when something is known to be below or at the child. */
  lemma ScheduledSwitchFitsIff(ty: DeviceType, activate: bool)
    ensures IsSwitch(SwitchCode(ty, activate)) && !HasRequestArgument(SwitchCode(ty, activate))
    ensures SwitchFits(ty, SwitchCode(ty, activate)) <==> !IsEmpty(ty)
    ensures SwitchCode(ty, true) != SwitchCode(ty, false)
  {
  }

  /** The switches sent by wake-ups `1` to `n`; a switch has no argument, so its value is immaterial. */
  function Switches(r: Registers, start: nat, n: nat, fd: int, child: DeviceId, ty: DeviceType): seq<Sent>
    requires InOrder(r)
  {
    if n == 0 then []
    else
      var code := SwitchCode(ty, Commanded(r, start, n));
      Switches(r, start, n - 1, fd, child, ty) + [Sent(fd, Request(child, code, 0))]
  }

  lemma {:induction false} SwitchesGoToChild(r: Registers, start: nat, n: nat, fd: int, child: DeviceId, ty: DeviceType)
    requires InOrder(r)
    ensures var sent := Switches(r, start, n, fd, child, ty);
            |sent| == n && forall i | 0 <= i < n :: sent[i].fd == fd && sent[i].request.destination == child
  {
    if n > 0 {
      SwitchesGoToChild(r, start, n - 1, fd, child, ty);
    }
  }

  /** A device of this type that was on or open if `on`, after all the switches. */
  function AfterSwitches(ty: DeviceType, on: bool, sent: seq<Sent>): bool
    decreases |sent|
  {
    if sent == [] then on
    else Obeyed(ty, AfterSwitches(ty, on, sent[..|sent| - 1]), sent[|sent| - 1].request.commandCode)
  }

  /** A device of the child's leaf type is on or open after a switch to on, and off or closed after the other. */
  lemma SwitchIsObeyed(ty: DeviceType, activate: bool, on: bool)
    ensures !IsEmpty(ty) ==> Obeyed(ty, on, SwitchCode(ty, activate)) == activate
  {
  }

  /** So after the `n`th wake-up it is on or open exactly when that wake-up was at begin. */
  lemma {:induction false} ScheduleIsObeyed(r: Registers, start: nat, n: nat, fd: int, child: DeviceId, ty: DeviceType,
                                            on: bool)
    requires InOrder(r) && !IsEmpty(ty)
    ensures AfterSwitches(ty, on, Switches(r, start, n, fd, child, ty)) ==
            if n == 0 then on else Wake(r, start, n) % SECONDS_IN_A_DAY == r.begin * 60
  {
    if n > 0 {
      var sent := Switches(r, start, n, fd, child, ty);
      assert sent[..|sent| - 1] == Switches(r, start, n - 1, fd, child, ty);
      SwitchIsObeyed(ty, Commanded(r, start, n), AfterSwitches(ty, on, sent[..|sent| - 1]));
      OnExactlyAtBegin(r, start, n);
    }
  }

  /** At every second from the first wake-up on, it is on or open exactly inside the window, for begin before end. */
  lemma ScheduleKeepsWindow(r: Registers, start: nat, n: nat, fd: int, child: DeviceId, ty: DeviceType, on: bool,
                            u: nat)
    requires InOrder(r) && r.begin < r.end && !IsEmpty(ty) && n > 0
    requires Wake(r, start, n) <= u < Wake(r, start, n + 1)
    ensures AfterSwitches(ty, on, Switches(r, start, n, fd, child, ty)) <==>
            r.begin * 60 <= u % SECONDS_IN_A_DAY < r.end * 60
  {
    ScheduleIsObeyed(r, start, n, fd, child, ty, on);
    OnExactlyAtBegin(r, start, n);
    CommandedMatchesWindow(r, start, n, u);
  }

  class Timer {
    const id: DeviceId
    const table: RoutingTable
    var deviceType: DeviceType
    var begin: U16
    var end: U16
    var state: int
    var parentId: DeviceId
    var hasChild: bool
    var childId: DeviceId
    var childType: DeviceType
    var childFd: int
    var up: seq<Response>
    var down: seq<Sent>

    ghost predicate Valid()
      reads this`hasChild, this`childId, table, table.buckets, table.repr
    {
      table.Valid() && Acyclic(table.Entries()) && (hasChild ==> childId != id)
    }

    ghost function Books(): View
      requires table.Valid()
      reads this`hasChild, this`childId, this`childType, this`deviceType, table, table.buckets, table.repr
    {
      View(table.Entries(), hasChild, childId, childType, deviceType)
    }

    function Times(): Registers
      reads this`begin, this`end
    {
      Registers(begin, end)
    }

    constructor (id: DeviceId)
      ensures this.id == id && Valid() && InOrder(Times()) && Books() == NO_CHILD
      ensures up == [] && down == [] && state == STATE_OFF && parentId == CONTROLLER_ID && fresh(table)
    {
      this.id := id;
      table := new RoutingTable();
      deviceType, begin, end, state := TIMER_DEVICE, DEFAULT_BEGIN, DEFAULT_END, STATE_OFF;
      parentId, hasChild, childId, childType, childFd := CONTROLLER_ID, false, 0, 0, 0;
      up, down := [], [];
      new;
      assert forall x: DeviceId :: !Below(table.Entries(), x, x) by {
        forall x: DeviceId ensures !Below(table.Entries(), x, x) { BelowUnfold(table.Entries(), x, x); }
      }
    }

    // -------------------------------------------------------------- what happens below

    /** The declared type follows the child's current type. */
    method RefreshChildType()
      requires Valid()
      modifies this`childType, this`deviceType
      ensures Valid() && Books() == Refreshed(old(Books()))
    {
      var child := table.Find(childId);
      if child != null {
        childType := child.deviceType;
      }
      deviceType := TIMER_DEVICE | ChildType(childType);
    }

    /** Only a control child is recorded in the table: it brings its own subtree. */
    method RecordChild(x: DeviceId, ty: DeviceType, fd: int)
      requires table.Valid() && Acyclic(table.Entries()) && x != id
              && (IsControl(ty) ==> !Below(table.Entries(), id, x))
      modifies table, table.buckets, table.repr
      ensures table.Valid() && Acyclic(table.Entries())
      ensures table.Entries() == if IsControl(ty) then Put(old(table.Entries()), x, 0, ty, id, fd)
                                 else old(table.Entries())
    {
      PutAcyclicIff(table.Entries(), x, Entry(0, ty, id, fd));
      if IsControl(ty) {
        table.InsertDirectPid(x, 0, ty, id, fd);
      }
    }

    /** The scalars of the child, with its current type. */
    method NoteChild(x: DeviceId, ty: DeviceType, fd: int)
      requires Valid() && x != id
      modifies this`childId, this`childType, this`childFd, this`deviceType
      ensures Valid() && Books() == Refreshed(old(Books()).(childId := x, childType := ty)) && childFd == fd
    {
      childId, childType, childFd := x, ty, fd;
      RefreshChildType();
    }

    /** A change-parent response naming this Timer brings its child; `fd` is the pipe opened towards it. */
    method AcquireChild(x: DeviceId, ty: DeviceType, fd: int)
      requires Valid() && x != id && (IsControl(ty) ==> !Below(table.Entries(), id, x))
      modifies this`hasChild, this`childId, this`childType, this`childFd, this`deviceType
      modifies table, table.buckets, table.repr
      ensures Valid() && Books() == TimerTable.AcquireChild(id, old(Books()), x, ty, fd) && childFd == fd
    {
      RecordChild(x, ty, fd);
      NoteChild(x, ty, fd);
      hasChild := true;
    }

    method RecordDescendant(x: DeviceId, parent: DeviceId, ty: DeviceType) returns (ok: bool)
      requires Valid() && parent != x && !Below(table.Entries(), parent, x)
      modifies table, table.buckets, table.repr
      ensures Valid() && (ok <==> parent in old(table.Entries()))
      ensures table.Entries() == Learn(old(table.Entries()), x, parent, ty)
    {
      Hub.IndirectIsAcyclic(table.Entries(), x, parent, ty);
      ok := table.InsertIndirectPid(x, 0, ty, parent);
      if ok {
        var descendant := table.Find(x);
        LeafBits(descendant.deviceType);
        table.UpdateTypeToNotEmpty(descendant);
      }
    }

    /** A change-parent response naming a device below; unknown parents are ignored. */
    method AcquireDescendant(x: DeviceId, parent: DeviceId, ty: DeviceType)
      requires Valid() && parent != x && !Below(table.Entries(), parent, x)
      modifies this`childType, this`deviceType, table, table.buckets, table.repr
      ensures Valid() && Books() == TimerTable.AcquireDescendant(old(Books()), x, parent, ty)
    {
      var ok := RecordDescendant(x, parent, ty);
      if ok && hasChild {
        RefreshChildType();
      }
    }

    method DropChild()
      requires Valid()
      modifies this`hasChild, this`deviceType, table, table.buckets, table.repr`next
      ensures Valid() && Books() == TimerTable.DropChild(id, old(Books()))
    {
      ghost var t := table.Entries();
      table.Remove(childId, id);
      SubTableAcyclic(table.Entries(), t);
      hasChild := false;
      deviceType := TIMER_DEVICE;
    }

    /** Takes a device that hangs from `parent` out of the table with its branch. */
    method ForgetDescendant(x: DeviceId, parent: DeviceId)
      requires Valid() && x in table.Entries() && table.Entries()[x].parent == parent
      modifies this`childType, this`deviceType, table, table.buckets, table.repr
      ensures Valid()
      ensures Books() == RefreshedIf(old(Books()).(table := HubTable.Unhook(old(table.Entries()), x, parent)))
    {
      ghost var t := table.Entries();
      table.Remove(x, parent);
      SubTableAcyclic(table.Entries(), t);
      EmptyUpKeepsTree(table.Entries(), parent);
      var above := table.Find(parent);
      table.UpdateTypeToEmpty(above);
      if hasChild {
        RefreshChildType();
      }
    }

    /** A delete response: the sender is gone. */
    method ReleaseChild(x: DeviceId)
      requires Valid()
      modifies this`hasChild, this`childType, this`deviceType, table, table.buckets, table.repr
      ensures Valid() && Books() == TimerTable.ReleaseChild(id, old(Books()), x)
    {
      if hasChild && x == childId {
        DropChild();
      } else {
        var node := table.Find(x);
        if node != null {
          ForgetDescendant(x, node.parentId);
        }
      }
    }

    /** A remove-child response of `source`: `x` is no longer below it. */
    method ReleaseRemovedDescendant(source: DeviceId, x: DeviceId)
      requires Valid()
      modifies this`childType, this`deviceType, table, table.buckets, table.repr
      ensures Valid() && Books() == ReleaseRemoved(old(Books()), source, x)
    {
      var node := table.Find(x);
      if node != null && node.parentId == source {
        ForgetDescendant(x, source);
      }
    }

    /** One response of the child's branch: the four updates are tried in turn and at most one applies. */
    method Follow(r: Response, fd: int)
      requires Valid() && (IsLink(r.commandCode) && r.responseCode == OK ==> |r.arguments| >= 2)
      requires IsLink(r.commandCode) && r.responseCode == OK && !IsRemoveChild(r.commandCode) ==>
                 && r.source != id && r.source != r.arguments[0]
                 && !Below(table.Entries(), r.arguments[0], r.source)
      modifies this`hasChild, this`childId, this`childType, this`childFd, this`deviceType
      modifies table, table.buckets, table.repr
      ensures Valid() && Books() == Followed(id, old(Books()), r, fd)
    {
      var changed := IsLink(r.commandCode) && !IsRemoveChild(r.commandCode) && r.responseCode == OK;
      var removed := IsLink(r.commandCode) && IsRemoveChild(r.commandCode) && r.responseCode == OK;
      if changed && r.arguments[0] == id {
        AcquireChild(r.source, ArgumentType(r.arguments[1]), fd);
      }
      if changed && r.arguments[0] != id {
        AcquireDescendant(r.source, r.arguments[0], ArgumentType(r.arguments[1]));
      }
      if IsDelete(r.commandCode) {
        ReleaseChild(r.source);
      }
      if removed {
        ReleaseRemovedDescendant(r.source, r.arguments[0]);
      }
    }

    // -------------------------------------------------------------- moving

    /** Re-announces a leaf child, or nothing when there is no child. */
    method ReplayChildAdd()
      requires Valid() && (hasChild ==> !IsControl(childType))
      modifies this`up
      ensures Valid() && Books() == old(Books()) && Acyclic(Branch(id, Books(), childFd))
      ensures (forall x | x in Preorder(Branch(id, Books(), childFd), id) :: x in Branch(id, Books(), childFd)) &&
              up == old(up) + Announcements(Branch(id, Books(), childFd), Preorder(Branch(id, Books(), childFd), id),
                                            LINK | LINK_CHANGE_PARENT, OK)
    {
      LeafBranch(id, Books(), childFd);
      if hasChild {
        up := up + [ChangeParent(childId, id, childType)];
      }
    }

    /** Re-announces everything in the table, parents first. */
    method ReplaySubtree()
      requires Valid()
      modifies this`up
      ensures Valid() && table.Entries() == old(table.Entries())
      ensures (forall x | x in Preorder(table.Entries(), id) :: x in table.Entries()) &&
              up == old(up) + Announcements(table.Entries(), Preorder(table.Entries(), id),
                  LINK | LINK_CHANGE_PARENT, OK)
    {
      ghost var t, done := table.Entries(), [];
      var written: seq<Response> := [];
      TraversalIsPreorder(t, id);
      var node := table.FindAll(id, null);
      while node != null
        invariant Valid() && table.Entries() == t && (node != null ==> table.IsNode(node)) && up == old(up)
        invariant At(Preorder(t, id), |done|, None) == if node == null then None else Some(node.id)
        invariant done <= Preorder(t, id) && (forall x | x in done :: x in t)
        invariant written == Announcements(t, done, LINK | LINK_CHANGE_PARENT, OK)
        decreases |Preorder(t, id)| - |done|
      {
        WalkPrefix(t, id, done, node.id);
        assert (done + [node.id])[..|done|] == done;
        written := written + [ChangeParent(node.id, node.parentId, node.deviceType)];
        done := done + [node.id];
        node := table.FindAll(id, node);
      }
      assert done == Preorder(t, id);
      up := up + written;
    }

    /** Re-announces whatever is below: the whole subtree of a control child, or a leaf child alone. */
    method ReplayBranch()
      requires Valid()
      modifies this`up
      ensures Valid() && Books() == old(Books()) && Acyclic(Branch(id, Books(), childFd))
      ensures (forall x | x in Preorder(Branch(id, Books(), childFd), id) :: x in Branch(id, Books(), childFd)) &&
              up == old(up) + Announcements(Branch(id, Books(), childFd), Preorder(Branch(id, Books(), childFd), id),
                                            LINK | LINK_CHANGE_PARENT, OK)
    {
      if hasChild && IsControl(childType) {
        ReplaySubtree();
      } else {
        ReplayChildAdd();
      }
    }

    /** A change-parent request: answer the new parent and, if it really changed, re-announce the branch. */
    method LinkChangeParent(request: Request)
      requires Valid()
      modifies this`parentId, this`up
      ensures Valid() && Books() == old(Books()) && parentId == request.argument
      ensures Acyclic(Branch(id, Books(), childFd))
      ensures (forall x | x in Preorder(Branch(id, Books(), childFd), id) :: x in Branch(id, Books(), childFd)) &&
              up == old(up)
                + [Response(id, request.commandCode, OK, [request.argument, TypeArgument(deviceType)])]
                + (if old(parentId) == request.argument then []
                   else Announcements(Branch(id, Books(), childFd), Preorder(Branch(id, Books(), childFd), id),
                                      LINK | LINK_CHANGE_PARENT, OK))
    {
      BranchIsAcyclic(id, Books(), childFd);
      PreorderIsExact(Branch(id, Books(), childFd), id);
      var parentChanged := parentId != request.argument;
      if parentChanged {
        parentId := request.argument;
      }
      up := up + [Response(id, request.commandCode, OK, [request.argument, TypeArgument(deviceType)])];
      if parentChanged {
        ReplayBranch();
      }
    }

    /** A remove-child request: only the one child can be removed, and the answer declares the type that is left. */
    method LinkRemoveChild(request: Request)
      requires Valid()
      modifies this`hasChild, this`deviceType, this`up, table, table.buckets, table.repr`next
      ensures Valid()
      ensures var mine := old(hasChild) && request.argument == old(childId);
              && Books() == (if mine then TimerTable.DropChild(id, old(Books())) else old(Books()))
              && up == old(up) + [Response(id, request.commandCode, if mine then OK else DEVICE_NOT_FOUND,
                                           [request.argument, TypeArgument(deviceType)])]
    {
      var code := DEVICE_NOT_FOUND;
      if hasChild && request.argument == childId {
        DropChild();
        code := OK;
      }
      up := up + [Response(id, request.commandCode, code, [request.argument, TypeArgument(deviceType)])];
    }

    /** A request for another device goes down to the child, whoever it is for. */
    method Forward(request: Request)
      requires request.destination != id
      modifies this`up, this`down
      ensures match Forwarded(ByChild(hasChild, childFd), request.destination)
              case Some(fd) => up == old(up) && down == old(down) + [Sent(fd, request)]
              case None => down == old(down) && up == old(up) + [Response(id, NULL_COMMAND, DEVICE_NOT_FOUND, [])]
    {
      if hasChild {
        down := down + [Sent(childFd, request)];
      } else {
        up := up + [Response(id, NULL_COMMAND, DEVICE_NOT_FOUND, [])];
      }
    }

    // -------------------------------------------------------------- the schedule

    /** A request to set begin or end; `changed` restarts the schedule. */
    method CreateRegistryResponse(request: Request) returns (changed: bool)
      modifies this`begin, this`end, this`up
      ensures Times() == RegistryStep(old(Times()), request.commandCode, request.argument)
      ensures InOrder(old(Times())) ==> InOrder(Times())
      ensures changed ==>
                if request.commandCode & REGISTRY_MASK == REGISTRY_BEGIN
                then begin == request.argument && end == old(end)
                else end == request.argument && begin == old(begin)
      ensures !changed ==> begin == old(begin) && end == old(end)
      ensures changed <==> RegistryCode(old(Times()), request.commandCode, request.argument) == OK
      ensures var code := RegistryCode(old(Times()), request.commandCode, request.argument);
              up == old(up) + [Response(id, request.commandCode, code,
                                        if code == UNEXPECTED_COMMAND then [] else [request.argument])]
    {
      changed := false;
      var code := OK;
      var arguments := [request.argument];
      if request.commandCode & REGISTRY_MASK == REGISTRY_BEGIN {
        if request.argument <= end {
          begin, changed := request.argument, true;
        } else {
          code := INVALID_REQUEST_ARGUMENT;
        }
      } else if request.commandCode & REGISTRY_MASK == REGISTRY_END {
        if request.argument >= begin && request.argument < MINUTES_IN_A_DAY {
          end, changed := request.argument, true;
        } else {
          code := INVALID_REQUEST_ARGUMENT;
        }
      } else {
        code, arguments := UNEXPECTED_COMMAND, [];
      }
      up := up + [Response(id, request.commandCode, code, arguments)];
    }

    method SendChildSwitch(activate: bool) returns (ok: bool)
      modifies this`down
      ensures ok == hasChild
      ensures down == if hasChild then old(down) + [Sent(childFd, Request(childId, SwitchCode(childType, activate), 0))]
                      else old(down)
    {
      if !hasChild {
        return false;
      }
      var code: Code := SWITCH;
      if ChildType(childType) == BULB_DEVICE {
        code := code | SWITCH_POWER | (if activate then POSITION_ON else POSITION_OFF);
      } else {
        code := code | (if activate then SWITCH_OPEN else SWITCH_CLOSE) | POSITION_ON;
      }
      down := down + [Sent(childFd, Request(childId, code, 0))];
      return true;
    }

    /** One turn of the schedule: sleep from `now` until the next register, and switch the child. */
    method ScheduleTurn(now: nat) returns (wake: nat, activate: bool)
      requires InOrder(Times())
      modifies this`state, this`down
      ensures wake == now + SleepFrom(Times(), now) && activate == NextSwitch(Times(), now % SECONDS_IN_A_DAY).0
      ensures state == if hasChild then if activate then STATE_ON else STATE_OFF else old(state)
      ensures down == if hasChild then old(down) + [Sent(childFd, Request(childId, SwitchCode(childType, activate), 0))]
                      else old(down)
      ensures activate <==> wake % SECONDS_IN_A_DAY == begin * 60
      ensures hasChild && !IsEmpty(childType) ==>
                forall on :: Obeyed(childType, on, down[|old(down)|].request.commandCode) == activate
    {
      OnExactlyAtBegin(Times(), now, 1);
      var nowSecond := now % SECONDS_IN_A_DAY;
      var beginSecond, endSecond := begin * 60, end * 60;
      var targetSecond: int;
      if nowSecond < beginSecond {
        activate, targetSecond := true, beginSecond;
      } else if nowSecond < endSecond {
        activate, targetSecond := false, endSecond;
      } else {
        activate, targetSecond := true, beginSecond + SECONDS_IN_A_DAY;
      }
      wake := now + (targetSecond - nowSecond);
      var ok := SendChildSwitch(activate);
      forall on {
        SwitchIsObeyed(childType, activate, on);
      }
      if ok {
        state := if activate then STATE_ON else STATE_OFF;
      }
    }

    /** The first `wakes` turns of the schedule started at second `start`, each sleep ending exactly on time. */
    method RunSchedule(start: nat, wakes: nat) returns (log: seq<(nat, bool)>)
      requires InOrder(Times())
      modifies this`state, this`down
      ensures |log| == wakes
      ensures forall i | 0 <= i < wakes :: log[i] == (Wake(Times(), start, i + 1), Commanded(Times(), start, i + 1))
      ensures down == old(down) + if hasChild then Switches(Times(), start, wakes, childFd, childId, childType) else []
      ensures state == if hasChild && wakes > 0 then if Commanded(Times(), start, wakes) then STATE_ON else STATE_OFF
                       else old(state)
      ensures hasChild ==>
                && |down| == |old(down)| + wakes
                && forall i | |old(down)| <= i < |down| ::
                     down[i].fd == childFd && down[i].request.destination == childId
      ensures hasChild && !IsEmpty(childType) && wakes > 0 ==>
                var atBegin := log[wakes - 1].0 % SECONDS_IN_A_DAY == begin * 60;
                && (forall on :: AfterSwitches(childType, on, down[|old(down)|..]) == atBegin)
                && (state == STATE_ON <==> atBegin)
    {
      log := [];
      var now := start;
      for n := 0 to wakes
        invariant |log| == n && now == Wake(Times(), start, n)
        invariant forall i | 0 <= i < n :: log[i] == (Wake(Times(), start, i + 1), Commanded(Times(), start, i + 1))
        invariant down == old(down) + if hasChild then Switches(Times(), start, n, childFd, childId, childType) else []
        invariant state == if hasChild && n > 0 then if Commanded(Times(), start, n) then STATE_ON else STATE_OFF
                           else old(state)
      {
        var wake, activate := ScheduleTurn(now);
        log, now := log + [(wake, activate)], wake;
      }
      if hasChild {
        SwitchesGoToChild(Times(), start, wakes, childFd, childId, childType);
        assert down[|old(down)|..] == Switches(Times(), start, wakes, childFd, childId, childType);
        forall on | !IsEmpty(childType) {
          ScheduleIsObeyed(Times(), start, wakes, childFd, childId, childType, on);
        }
        if wakes > 0 {
          OnExactlyAtBegin(Times(), start, wakes);
        }
      }
    }
  }
}
