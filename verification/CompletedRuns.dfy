/**
 The Controller's table over runs of whole commands: a link counts once the moved device has answered and
 replayed its branch and the old parent has answered too.
 */
module CompletedRuns {
  import opened Devices
  import opened Forest
  import opened TableOps
  import opened Protocol
  import opened Topology
  import opened TopologyTypes
  import opened NextHops

  datatype Command =
    | Add(id: DeviceId, ty: DeviceType, pid: int, fd: int)
    | Link(x: DeviceId, p: DeviceId, fd: int, ty: DeviceType)
    | Delete(x: DeviceId)
    | Crash(x: DeviceId, after: Table, ty: DeviceType)

  /**
   A new device has a free id, a link has passed the check, and a device that has died has taken its branch with it.
   The old parent, which is asked to remove the child, is a control device and declares itself one.
   */
  ghost predicate Enabled(t: Table, c: Command) {
    && Rooted(t)
    && match c
       case Add(id, ty, _, _) => Addable(ty) && id !in t && id != CONTROLLER_ID
       case Link(x, p, _, ty) => LinkCheck(t, x, p) == OK && IsControl(ty)
       case Delete(_) => true
       case Crash(x, after, ty) => x in t && Reaped(t, after, Lost(t, x)) && TypesKept(t, after) && IsControl(ty)
  }

  /** After the response of the moved device and the replay of its branch. */
  ghost function Moved(t: Table, x: DeviceId, p: DeviceId, fd: int): Table
    requires Rooted(t) && LinkCheck(t, x, p) == OK
  {
    LinkCheckIff(t, x, p);
    LinkKeepsForest(t, x, p, fd);
    var u := ParentChanged(t, x, p, fd);
    ReplayAll(u, Preorder(u, x))
  }

  /** The answer of the old parent fits, and names no leaf type that is not there. */
  ghost predicate Answers(t: Table, c: Command)
    requires Enabled(t, c)
  {
    match c
    case Add(_, _, _, _) => true
    case Link(x, p, fd, ty) => var w := Moved(t, x, p, fd); t[x].parent in w ==> Sincere(w, t[x].parent, ty)
    case Delete(_) => true
    case Crash(x, after, ty) => t[x].parent in after ==> Sincere(after, t[x].parent, ty)
  }

  lemma MovedIsSound(t: Table, x: DeviceId, p: DeviceId, fd: int)
    requires Safe(t) && Exact(t) && HopsOk(t) && LinkCheck(t, x, p) == OK
    ensures Safe(Moved(t, x, p, fd)) && HopsOk(Moved(t, x, p, fd))
    ensures ExactOutside(Moved(t, x, p, fd), {t[x].parent})
    ensures Moved(t, x, p, fd).Keys == t.Keys
  {
    LinkCheckIff(t, x, p);
    LinkKeepsSafe(t, x, p, fd);
    LinkIsExactOutside(t, x, p, fd);
    ReplayRestoresHops(t, x, p, fd);
    SameButHopsShape(ParentChanged(t, x, p, fd), Moved(t, x, p, fd));
    SameButHopsTypes(ParentChanged(t, x, p, fd), Moved(t, x, p, fd), {t[x].parent});
  }

  /** Whatever the types are, the moved branch is reached through its new pipe. */
  lemma MovedIsRouted(t: Table, x: DeviceId, p: DeviceId, fd: int)
    requires Rooted(t) && HopsOk(t) && LinkCheck(t, x, p) == OK
    ensures Rooted(Moved(t, x, p, fd)) && HopsOk(Moved(t, x, p, fd)) && Moved(t, x, p, fd).Keys == t.Keys
  {
    LinkCheckIff(t, x, p);
    LinkKeepsForest(t, x, p, fd);
    ReplayRestoresHops(t, x, p, fd);
    SameButHopsShape(ParentChanged(t, x, p, fd), Moved(t, x, p, fd));
  }

  ghost function Step(t: Table, c: Command): Table
    requires Enabled(t, c)
  {
    match c
    case Add(id, ty, pid, fd) => Put(t, id, pid, ty, CONTROLLER_ID, fd)
    case Link(x, p, fd, ty) =>
      MovedIsAcyclic(t, x, p, fd);
      if t[x].parent == CONTROLLER_ID then Moved(t, x, p, fd) else ChildRemoved(Moved(t, x, p, fd), t[x].parent, ty)
    case Delete(x) => Deleted(t, x)
    case Crash(x, after, ty) => if t[x].parent == CONTROLLER_ID then after else ChildRemoved(after, t[x].parent, ty)
  }

  lemma MovedIsAcyclic(t: Table, x: DeviceId, p: DeviceId, fd: int)
    requires Rooted(t) && LinkCheck(t, x, p) == OK
    ensures Acyclic(Moved(t, x, p, fd))
  {
    LinkCheckIff(t, x, p);
    LinkKeepsForest(t, x, p, fd);
    ReplayIsAcyclic(ParentChanged(t, x, p, fd), x);
  }

  lemma ReplayIsAcyclic(u: Table, x: DeviceId)
    requires CONTROLLER_ID !in u && Acyclic(u) && x in u
    ensures Acyclic(ReplayAll(u, Preorder(u, x)))
  {
    ReplayOfPreorder(u, x);
    AcyclicByShape(u, ReplayAll(u, Preorder(u, x)));
  }

  lemma AcyclicByShape(t: Table, u: Table)
    requires Acyclic(t) && t.Keys == u.Keys && forall y | y in t :: u[y].parent == t[y].parent
    ensures Acyclic(u)
  {
    SameShape(t, u);
  }

  /** What requests need of the table between commands. */
  ghost predicate Routed(t: Table) { Rooted(t) && HopsOk(t) }

  lemma ChildRemovedKeepsRoutes(t: Table, o: DeviceId, ty: DeviceType)
    requires Routed(t) && o in t && IsControl(ty)
    ensures Routed(ChildRemoved(t, o, ty))
  {
    ChildRemovedIsForestedIff(t, o, ty);
    ChildRemovedShape(t, o, ty);
  }

  lemma DeletedKeepsRoutes(t: Table, x: DeviceId)
    requires Routed(t)
    ensures Routed(Deleted(t, x))
  {
    DeletedKeepsForest(t, x);
    if x in t {
      assert forall y | y in Deleted(t, x) :: y in t && Deleted(t, x)[y].parent == t[y].parent;
    }
  }

  lemma LinkKeepsRoutes(t: Table, x: DeviceId, p: DeviceId, fd: int, ty: DeviceType)
    requires Routed(t) && Enabled(t, Link(x, p, fd, ty))
    ensures Routed(Step(t, Link(x, p, fd, ty)))
  {
    MovedIsRouted(t, x, p, fd);
    LinkCheckIff(t, x, p);
    if t[x].parent != CONTROLLER_ID {
      ChildRemovedKeepsRoutes(Moved(t, x, p, fd), t[x].parent, ty);
    }
  }

  lemma CrashKeepsRoutes(t: Table, x: DeviceId, after: Table, ty: DeviceType)
    requires Routed(t) && Enabled(t, Crash(x, after, ty))
    ensures Routed(Step(t, Crash(x, after, ty)))
  {
    ReapedKeepsRoutes(t, x, after);
    if t[x].parent != CONTROLLER_ID {
      ChildRemovedKeepsRoutes(after, t[x].parent, ty);
    }
  }

  /** Whatever old parents declare, every command keeps a tree in which every device has the pipe of its branch. */
  lemma StepKeepsRoutes(t: Table, c: Command)
    requires Routed(t) && Enabled(t, c)
    ensures Routed(Step(t, c))
  {
    match c
    case Add(id, ty, pid, fd) => AddKeepsForest(t, id, ty, pid, fd);
    case Link(x, p, fd, ty) => LinkKeepsRoutes(t, x, p, fd, ty);
    case Delete(x) => DeletedKeepsRoutes(t, x);
    case Crash(x, after, ty) => CrashKeepsRoutes(t, x, after, ty);
  }

  /** Everything that is promised of the table between commands. */
  ghost predicate Sound(t: Table) { Safe(t) && Exact(t) && HopsOk(t) }

  lemma AddKeepsSound(t: Table, id: DeviceId, ty: DeviceType, pid: int, fd: int)
    requires Sound(t) && Enabled(t, Add(id, ty, pid, fd))
    ensures Sound(Step(t, Add(id, ty, pid, fd)))
  {
    AddIsSafeIff(t, id, ty, pid, fd);
    AddedIsExact(t, id, ty, pid, fd);
  }

  lemma LinkIsSoundIff(t: Table, x: DeviceId, p: DeviceId, fd: int, ty: DeviceType)
    requires Sound(t) && Enabled(t, Link(x, p, fd, ty))
    ensures Sound(Step(t, Link(x, p, fd, ty))) <==> Answers(t, Link(x, p, fd, ty))
  {
    MovedIsSound(t, x, p, fd);
    LinkCheckIff(t, x, p);
    var w, o := Moved(t, x, p, fd), t[x].parent;
    if o != CONTROLLER_ID {
      ChildRemovedIsExactIff(w, o, ty);
      ChildRemovedShape(w, o, ty);
    }
  }

  lemma DeleteKeepsSound(t: Table, x: DeviceId)
    requires Sound(t)
    ensures Sound(Deleted(t, x))
  {
    DeletedKeepsSturdy(t, x);
    DeletedIsExact(t, x);
    DeletedKeepsRoutes(t, x);
  }

  lemma CrashIsSoundIff(t: Table, x: DeviceId, after: Table, ty: DeviceType)
    requires Sound(t) && Enabled(t, Crash(x, after, ty))
    ensures Sound(Step(t, Crash(x, after, ty))) <==> Answers(t, Crash(x, after, ty))
  {
    var o := t[x].parent;
    ReapedKeepsRoutes(t, x, after);
    ReapedIsSafe(t, x, after);
    if o != CONTROLLER_ID {
      assert ExactOutside(after, {o});
      ChildRemovedIsExactIff(after, o, ty);
      ChildRemovedShape(after, o, ty);
    }
  }

  /** A command leaves the table safe, exact and routed exactly when the old parent's answer is sincere. */
  lemma StepIsSoundIff(t: Table, c: Command)
    requires Sound(t) && Enabled(t, c)
    ensures Sound(Step(t, c)) <==> Answers(t, c)
  {
    match c
    case Add(id, ty, pid, fd) => AddKeepsSound(t, id, ty, pid, fd);
    case Link(x, p, fd, ty) => LinkIsSoundIff(t, x, p, fd, ty);
    case Delete(x) => DeleteKeepsSound(t, x);
    case Crash(x, after, ty) => CrashIsSoundIff(t, x, after, ty);
  }

  ghost predicate IsRun(t: Table, cs: seq<Command>)
    decreases |cs|
  {
    cs == [] || (Enabled(t, cs[0]) && IsRun(Step(t, cs[0]), cs[1..]))
  }

  ghost function Final(t: Table, cs: seq<Command>): Table
    requires IsRun(t, cs)
    decreases |cs|
  {
    if cs == [] then t else Final(Step(t, cs[0]), cs[1..])
  }

  lemma {:induction false} RunKeepsRoutes(t: Table, cs: seq<Command>)
    requires Routed(t) && IsRun(t, cs)
    ensures Routed(Final(t, cs))
    decreases |cs|
  {
    if cs != [] {
      StepKeepsRoutes(t, cs[0]);
      RunKeepsRoutes(Step(t, cs[0]), cs[1..]);
    }
  }

  /** Every old parent of the run answers sincerely. */
  ghost predicate AllAnswer(t: Table, cs: seq<Command>)
    requires IsRun(t, cs)
    decreases |cs|
  {
    cs == [] || (Answers(t, cs[0]) && AllAnswer(Step(t, cs[0]), cs[1..]))
  }

  /** The table is sound before, between and after the commands. */
  ghost predicate AlwaysSound(t: Table, cs: seq<Command>)
    requires IsRun(t, cs)
    decreases |cs|
  {
    Sound(t) && (cs == [] || AlwaysSound(Step(t, cs[0]), cs[1..]))
  }

  lemma {:induction false} RunIsSoundIff(t: Table, cs: seq<Command>)
    requires Sound(t) && IsRun(t, cs)
    ensures AlwaysSound(t, cs) <==> AllAnswer(t, cs)
    ensures AllAnswer(t, cs) ==> Sound(Final(t, cs))
    decreases |cs|
  {
    if cs != [] {
      StepIsSoundIff(t, cs[0]);
      if Answers(t, cs[0]) {
        RunIsSoundIff(Step(t, cs[0]), cs[1..]);
      }
    }
  }

  /**
   In every run of commands from an empty table, whatever old parents declare, the table is a tree and every device is
   reached through the pipe of its topmost ancestor. Between all commands a control device is non-empty exactly when
   some direct child is, with the same leaf type, exactly when every old parent of the run answers sincerely.
   */
  lemma ReachableIsSoundIff(cs: seq<Command>)
    requires IsRun(map[], cs)
    ensures Routed(Final(map[], cs))
    ensures forall x | x in Final(map[], cs) ::
              var a := Topmost(Final(map[], cs), x);
              a in Final(map[], cs) && Final(map[], cs)[a].parent == CONTROLLER_ID
              && Final(map[], cs)[x].hop == Final(map[], cs)[a].hop
    ensures AlwaysSound(map[], cs) <==> AllAnswer(map[], cs)
  {
    EmptyIsSound();
    RunKeepsRoutes(map[], cs);
    RunIsSoundIff(map[], cs);
    forall x | x in Final(map[], cs) {
      HopIsTopmost(Final(map[], cs), x);
    }
  }

  lemma EmptyIsSound()
    ensures Sound(map[]) && Routed(map[])
  {
    var none: Table := map[];
    forall x: DeviceId ensures !Below(none, x, x) {
      BelowUnfold(none, x, x);
    }
  }
}
