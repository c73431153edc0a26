/** Hop-by-hop delivery of a request through the tree of processes. */
module Delivery {
  import opened Devices
  import opened Forest
  import opened TableOps
  import opened Topology
  import opened Replay
  import opened NextHops
  import opened Forwarding

  /** Which device reads what a device writes to a descriptor. */
  type Pipes = map<(DeviceId, int), DeviceId>

  /** `tree` records who is whose parent. */
  datatype Net = Net(tree: Table, posts: map<DeviceId, Post>, pipes: Pipes)

  /** The table of `c` lists exactly what is below `c`, and its direct entries are reached by their own pipes. */
  ghost predicate Knows(tree: Table, pipes: Pipes, c: DeviceId, s: Table) {
    && (forall x :: x in s <==> x in tree && Below(tree, x, c))
    && (forall x | x in s :: s[x].parent == tree[x].parent)
    && HopsOk(s)
    && forall x | x in s && s[x].parent == c :: (c, s[x].hop) in pipes && pipes[(c, s[x].hop)] == x
  }

  /** The single child of `c`, if any, reads the descriptor `c` writes to. */
  ghost predicate KnowsChild(net: Net, c: DeviceId, hasChild: bool, fd: int) {
    && (hasChild ==> (c, fd) in net.pipes && net.pipes[(c, fd)] in net.tree && net.tree[net.pipes[(c, fd)]].parent == c)
    && forall x | x in net.tree && net.tree[x].parent == c :: hasChild && net.pipes[(c, fd)] == x
  }

  ghost predicate Informed(net: Net, c: DeviceId)
    requires c in net.posts
  {
    match net.posts[c]
    case ByTable(s) => Knows(net.tree, net.pipes, c, s)
    case ByChild(hasChild, fd) => KnowsChild(net, c, hasChild, fd)
    case Nowhere => forall x | x in net.tree :: net.tree[x].parent != c
  }

  ghost predicate Consistent(net: Net) {
    && Acyclic(net.tree) && net.posts.Keys == net.tree.Keys + {CONTROLLER_ID}
    && forall c | c in net.posts :: Informed(net, c)
  }

  /** Who reads what `at` writes when it holds a request for `d`: the destination does not pass it on. */
  ghost function PassOn(net: Net, at: DeviceId, d: DeviceId): Option<DeviceId> {
    if at == d || at !in net.posts then None
    else
      match Forwarded(net.posts[at], d)
      case None => None
      case Some(fd) => if (at, fd) in net.pipes then Some(net.pipes[(at, fd)]) else None
  }

  /** The device that holds a request for `d` after `n` writes from `from`. */
  ghost function Holder(net: Net, from: DeviceId, d: DeviceId, n: nat): Option<DeviceId> {
    if n == 0 then Some(from)
    else
      match Holder(net, from, d, n - 1)
      case None => None
      case Some(at) => PassOn(net, at, d)
  }

  /** The last but one step up to `a` is a child of `a`. */
  lemma {:induction false} UpLast(t: Table, d: DeviceId, k: nat, a: DeviceId)
    requires k > 0 && Up(t, d, k) == Some(a)
    ensures var y := Up(t, d, k - 1); y.Some? && y.value in t && t[y.value].parent == a
    decreases k
  {
    if k > 1 {
      UpLast(t, t[d].parent, k - 1, a);
    }
  }

  /** The hop recorded for `d` is the one of the child at the top of its branch. */
  lemma {:induction false} HopLeadsDown(net: Net, c: DeviceId, s: Table, d: DeviceId, k: nat)
    requires Acyclic(net.tree) && Knows(net.tree, net.pipes, c, s) && k > 0 && Up(net.tree, d, k) == Some(c)
    ensures d in s && (c, s[d].hop) in net.pipes && Some(net.pipes[(c, s[d].hop)]) == Up(net.tree, d, k - 1)
    decreases k
  {
    assert Below(net.tree, d, c);
    BelowUnfold(net.tree, d, c);
    if k > 1 {
      HopLeadsDown(net, c, s, net.tree[d].parent, k - 1);
    }
  }

  /** Each write brings the request one device closer. */
  lemma WriteDescends(net: Net, c: DeviceId, d: DeviceId, k: nat)
    requires Consistent(net) && c in net.posts && k > 0 && Up(net.tree, d, k) == Some(c)
    ensures var fd := Forwarded(net.posts[c], d);
            fd.Some? && (c, fd.value) in net.pipes && Some(net.pipes[(c, fd.value)]) == Up(net.tree, d, k - 1)
  {
    UpLast(net.tree, d, k, c);
    assert Informed(net, c);
    match net.posts[c]
    case ByTable(s) => HopLeadsDown(net, c, s, d, k);
    case ByChild(hasChild, fd) =>
    case Nowhere =>
  }

  /** After `i` writes the request is with the device `m` levels above its destination. */
  ghost predicate HeldAt(net: Net, from: DeviceId, d: DeviceId, i: nat, m: nat) {
    Holder(net, from, d, i) == Up(net.tree, d, m)
  }

  ghost predicate OnPath(net: Net, from: DeviceId, d: DeviceId, k: nat) {
    Consistent(net) && from in net.posts && Up(net.tree, d, k) == Some(from)
  }

  lemma HeldNext(net: Net, from: DeviceId, d: DeviceId, i: nat, m: nat, at: DeviceId)
    requires i > 0 && Holder(net, from, d, i - 1) == Some(at) && PassOn(net, at, d) == Up(net.tree, d, m)
    ensures HeldAt(net, from, d, i, m)
  {
  }

  lemma HeldOneMore(net: Net, from: DeviceId, d: DeviceId, k: nat, i: nat, m: nat)
    requires OnPath(net, from, d, k) && i > 0 && i + m == k && HeldAt(net, from, d, i - 1, m + 1)
    ensures HeldAt(net, from, d, i, m)
  {
    var at := OnTheWayDown(net, from, d, k, m + 1);
    PassOnDescends(net, at, d, m + 1);
    HeldNext(net, from, d, i, m, at);
  }

  lemma OnTheWayDown(net: Net, from: DeviceId, d: DeviceId, k: nat, m: nat) returns (at: DeviceId)
    requires OnPath(net, from, d, k) && m <= k
    ensures Up(net.tree, d, m) == Some(at) && at in net.posts
  {
    UpDefined(net.tree, d, m, k);
    if m < k {
      UpInside(net.tree, d, m, k, from);
    }
    at := Up(net.tree, d, m).value;
  }

  lemma PassOnDescends(net: Net, at: DeviceId, d: DeviceId, k: nat)
    requires Consistent(net) && at in net.posts && k > 0 && Up(net.tree, d, k) == Some(at)
    ensures PassOn(net, at, d) == Up(net.tree, d, k - 1)
  {
    NeverItself(net.tree, d, k);
    WriteDescends(net, at, d, k);
  }

  lemma {:induction false} DeliveredUpTo(net: Net, from: DeviceId, d: DeviceId, k: nat, i: nat, m: nat)
    requires OnPath(net, from, d, k) && i + m == k
    ensures HeldAt(net, from, d, i, m)
    decreases i
  {
    if i == 0 {
      HeldAtStart(net, from, d, m);
    } else {
      var before: nat := i - 1;
      DeliveredUpTo(net, from, d, k, before, m + 1);
      HeldOneMore(net, from, d, k, before + 1, m);
    }
  }

  lemma HeldAtStart(net: Net, from: DeviceId, d: DeviceId, k: nat)
    requires Up(net.tree, d, k) == Some(from)
    ensures HeldAt(net, from, d, 0, k)
  {
  }

  /** A request for a device `k` levels down is held, write by write, by exactly the devices on the way down to it. */
  lemma Delivered(net: Net, from: DeviceId, d: DeviceId, k: nat, i: nat)
    requires Consistent(net) && from in net.posts && Up(net.tree, d, k) == Some(from) && i <= k
    ensures Holder(net, from, d, i) == Up(net.tree, d, k - i)
    ensures i < k ==> Holder(net, from, d, i) != Some(d)
    ensures Holder(net, from, d, k) == Some(d) && Holder(net, from, d, k + 1) == None
  {
    DeliveredUpTo(net, from, d, k, i, k - i);
    DeliveredUpTo(net, from, d, k, k, 0);
    NeverItself(net.tree, d, k - i);
    ArrivedStays(net, from, d, k);
  }

  lemma ArrivedStays(net: Net, from: DeviceId, d: DeviceId, k: nat)
    requires HeldAt(net, from, d, k, 0)
    ensures Holder(net, from, d, k) == Some(d) && Holder(net, from, d, k + 1) == None
  {
  }

  lemma NeverItself(t: Table, d: DeviceId, m: nat)
    requires Acyclic(t)
    ensures m > 0 ==> Up(t, d, m) != Some(d)
  {
    BelowUnfold(t, d, d);
    assert m > 0 && Up(t, d, m) == Some(d) ==> Below(t, d, d);
  }

  /** What is passed before the end of a path is an entry. */
  lemma UpInside(t: Table, d: DeviceId, m: nat, k: nat, a: DeviceId)
    requires Up(t, d, k) == Some(a) && m < k && Up(t, d, m).Some?
    ensures Up(t, d, m).value in t
  {
    UpAdd(t, d, m, Up(t, d, m).value, k - m);
  }

  /** From above the whole tree, the number of writes is one more than the number of recorded ancestors. */
  lemma {:induction false} WritesAreDepth(t: Table, d: DeviceId, k: nat, root: DeviceId)
    requires Acyclic(t) && d in t && root !in t && Up(t, d, k) == Some(root)
    ensures k == Depth(t, d) + 1
    decreases k
  {
    var p := t[d].parent;
    if p in t {
      WritesAreDepth(t, p, k - 1, root);
      forall a: DeviceId ensures Below(t, d, a) <==> a == p || Below(t, p, a) { BelowUnfold(t, d, a); }
      assert Ancestors(t, d) == Ancestors(t, p) + {p};
      assert p !in Ancestors(t, p);
    } else {
      forall a: DeviceId ensures Below(t, d, a) <==> a == p { BelowUnfold(t, d, a); BelowUnfold(t, p, a); }
      assert Ancestors(t, d) == {};
    }
  }

  /** After `i` writes the request is with a device above its destination. */
  ghost predicate Passing(net: Net, from: DeviceId, d: DeviceId, i: nat) {
    var h := Holder(net, from, d, i);
    h.Some? && h.value != d && Below(net.tree, d, h.value)
  }

  /**
   A request from the Controller reaches a device in as many writes as the device is deep: every holder on
   the way is an ancestor, and nobody writes it again once it has arrived.
   */
  lemma DeliveredFromController(net: Net, d: DeviceId)
    requires Consistent(net) && CONTROLLER_ID !in net.tree && Below(net.tree, d, CONTROLLER_ID)
    ensures var k := Depth(net.tree, d) + 1;
            && Holder(net, CONTROLLER_ID, d, k) == Some(d) && Holder(net, CONTROLLER_ID, d, k + 1) == None
            && forall i: nat | i < k :: Passing(net, CONTROLLER_ID, d, i)
  {
    var k: nat :| k > 0 && Up(net.tree, d, k) == Some(CONTROLLER_ID);
    WritesAreDepth(net.tree, d, k, CONTROLLER_ID);
    DeliveredAfter(net, CONTROLLER_ID, d, k);
  }

  lemma DeliveredAfter(net: Net, from: DeviceId, d: DeviceId, k: nat)
    requires OnPath(net, from, d, k)
    ensures Holder(net, from, d, k) == Some(d) && Holder(net, from, d, k + 1) == None
    ensures forall i: nat | i < k :: Passing(net, from, d, i)
  {
    Delivered(net, from, d, k, k);
    forall i: nat | i < k ensures Passing(net, from, d, i) {
      PassedOnTheWay(net, from, d, k, i);
    }
  }

  lemma PassedOnTheWay(net: Net, from: DeviceId, d: DeviceId, k: nat, i: nat)
    requires Consistent(net) && from in net.posts && Up(net.tree, d, k) == Some(from) && i < k
    ensures Passing(net, from, d, i)
  {
    Delivered(net, from, d, k, i);
    UpDefined(net.tree, d, k - i, k);
  }

  lemma {:induction false} UpDefined(t: Table, d: DeviceId, m: nat, k: nat)
    requires Up(t, d, k).Some? && m <= k
    ensures Up(t, d, m).Some?
    decreases m
  {
    if m > 0 {
      UpDefined(t, t[d].parent, m - 1, k - 1);
    }
  }

  /** Whoever holds a request is at or below its sender. */
  lemma {:induction false} HoldersAreBelow(net: Net, from: DeviceId, d: DeviceId, n: nat)
    requires Consistent(net) && from in net.posts && Holder(net, from, d, n).Some?
    ensures Holder(net, from, d, n) == Some(from) || Below(net.tree, Holder(net, from, d, n).value, from)
    decreases n
  {
    if n > 0 {
      HoldersAreBelow(net, from, d, n - 1);
      var at := Holder(net, from, d, n - 1).value;
      var fd := Forwarded(net.posts[at], d).value;
      assert Informed(net, at);
      WrittenToChild(net, at, d);
      BelowUnfold(net.tree, net.pipes[(at, fd)], from);
    }
  }

  /** Every write goes to a direct child of the writer. */
  lemma WrittenToChild(net: Net, at: DeviceId, d: DeviceId)
    requires Consistent(net) && at in net.posts && Forwarded(net.posts[at], d).Some?
    requires (at, Forwarded(net.posts[at], d).value) in net.pipes
    ensures var y := net.pipes[(at, Forwarded(net.posts[at], d).value)]; y in net.tree && net.tree[y].parent == at
  {
    assert Informed(net, at);
    match net.posts[at]
    case ByTable(s) =>
      var k: nat :| k > 0 && Up(net.tree, d, k) == Some(at);
      HopLeadsDown(net, at, s, d, k);
      UpLast(net.tree, d, k, at);
    case ByChild(hasChild, fd) =>
    case Nowhere =>
  }

  /** A request arrives exactly when its destination is the sender or below it; otherwise it never does. */
  lemma ArrivesIff(net: Net, from: DeviceId, d: DeviceId)
    requires Consistent(net) && from in net.posts
    ensures (exists n: nat :: Holder(net, from, d, n) == Some(d)) <==> d == from || Below(net.tree, d, from)
  {
    if d == from {
      assert Holder(net, from, d, 0) == Some(d);
    } else if Below(net.tree, d, from) {
      var k: nat :| k > 0 && Up(net.tree, d, k) == Some(from);
      Delivered(net, from, d, k, k);
    } else if n: nat :| Holder(net, from, d, n) == Some(d) {
      HoldersAreBelow(net, from, d, n);
      assert false;
    }
  }

  // ---------------------------------------------------------------- tables built by insertion

  datatype Insert =
    | Direct(x: DeviceId, ty: DeviceType, fd: int)
    | Indirect(x: DeviceId, parent: DeviceId, ty: DeviceType)

  ghost function Build(c: DeviceId, ins: seq<Insert>): Table {
    if ins == [] then map[]
    else
      var t := Build(c, ins[..|ins| - 1]);
      match ins[|ins| - 1]
      case Direct(x, ty, fd) => Put(t, x, 0, ty, c, fd)
      case Indirect(x, p, ty) => Learn(t, x, p, ty)
  }

  /** Every device is inserted once, and after its parent. */
  ghost predicate ParentsBefore(c: DeviceId, ins: seq<Insert>) {
    ins == [] ||
    var t := Build(c, ins[..|ins| - 1]);
    var i := ins[|ins| - 1];
    ParentsBefore(c, ins[..|ins| - 1]) && i.x != c && i.x !in t && (i.Indirect? ==> i.parent in t)
  }

  /** A table built parents-first is a forest below its owner in which every hop is the pipe of the branch. */
  lemma {:induction false} BuiltTable(c: DeviceId, ins: seq<Insert>)
    requires ParentsBefore(c, ins)
    ensures var t := Build(c, ins);
            && HangsFrom(t, c) && HopsOk(t)
            && (forall x :: x in t <==> exists i | i in ins :: i.x == x)
            && (forall i | i in ins && i.Direct? :: i.x in t && t[i.x].parent == c && t[i.x].hop == i.fd)
            && (forall i | i in ins && i.Indirect? :: i.x in t && t[i.x].parent == i.parent)
    decreases |ins|
  {
    if ins == [] {
      var none: Table := map[];
      forall x: DeviceId ensures !Below(none, x, x) { BelowUnfold(none, x, x); }
    } else {
      var before, i := ins[..|ins| - 1], ins[|ins| - 1];
      BuiltTable(c, before);
      InsertKeeps(c, Build(c, before), i);
      assert forall j :: j in ins <==> j in before || j == i;
    }
  }

  ghost function Inserted(c: DeviceId, t: Table, i: Insert): Table {
    match i
    case Direct(x, ty, fd) => Put(t, x, 0, ty, c, fd)
    case Indirect(x, p, ty) => Learn(t, x, p, ty)
  }

  lemma InsertKeeps(c: DeviceId, t: Table, i: Insert)
    requires HangsFrom(t, c) && HopsOk(t) && i.x != c && i.x !in t && (i.Indirect? ==> i.parent in t)
    ensures var u := Inserted(c, t, i);
            && HangsFrom(u, c) && HopsOk(u) && u.Keys == t.Keys + {i.x}
            && (forall y | y in t :: u[y].parent == t[y].parent && u[y].hop == t[y].hop)
            && u[i.x].parent == (if i.Direct? then c else i.parent)
            && (i.Direct? ==> u[i.x].hop == i.fd)
  {
    var p := if i.Direct? then c else i.parent;
    var e := Entry(0, i.ty, p, if i.Direct? then i.fd else t[i.parent].hop);
    var w := t[i.x := e];
    NothingBelowFresh(t, c, i.x, p);
    PutAcyclicIff(t, i.x, e);
    assert HopsOk(w);
    if i.Indirect? {
      FillAboveShape(w, i.x);
      SameShape(w, FillAbove(w, i.x));
    }
  }

  /** Such a table knows the subtree when its inserts name the true parents and open the right pipes. */
  lemma BuiltTableKnows(net: Net, c: DeviceId, ins: seq<Insert>)
    requires ParentsBefore(c, ins)
    requires forall x :: (exists i | i in ins :: i.x == x) <==> x in net.tree && Below(net.tree, x, c)
    requires forall i | i in ins :: net.tree[i.x].parent == if i.Direct? then c else i.parent
    requires forall i | i in ins && i.Direct? :: (c, i.fd) in net.pipes && net.pipes[(c, i.fd)] == i.x
    ensures Knows(net.tree, net.pipes, c, Build(c, ins))
  {
    var s := Build(c, ins);
    BuiltTable(c, ins);
    IndirectBelowEntries(c, ins);
    forall x | x in s ensures s[x].parent == net.tree[x].parent
                              && (s[x].parent == c ==> (c, s[x].hop) in net.pipes && net.pipes[(c, s[x].hop)] == x) {
      var i :| i in ins && i.x == x;
    }
  }

  lemma {:induction false} IndirectBelowEntries(c: DeviceId, ins: seq<Insert>)
    requires ParentsBefore(c, ins)
    ensures forall i | i in ins && i.Indirect? :: i.parent in Build(c, ins)
    decreases |ins|
  {
    if ins != [] {
      var before, i := ins[..|ins| - 1], ins[|ins| - 1];
      IndirectBelowEntries(c, before);
      BuiltTable(c, before);
      InsertKeeps(c, Build(c, before), i);
      assert forall j :: j in ins <==> j in before || j == i;
    }
  }
}
