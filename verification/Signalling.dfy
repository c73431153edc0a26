/** Whom the Controller signals when it finds dead devices. */
module Signalling {
  import opened Devices
  import opened Forest
  import opened TableOps
  import opened Topology

  /** The entries not yet forgotten at position `k` of the walk over all entries. */
  ghost function WithoutDead(t: Table, dead: set<DeviceId>, k: int): Table {
    map x | x in t && !(x in dead && Key(x) <= k) :: t[x]
  }

  lemma WithoutDeadShape(t: Table, dead: set<DeviceId>, k: int)
    requires Acyclic(t)
    ensures SubTable(WithoutDead(t, dead, k), t) && Acyclic(WithoutDead(t, dead, k))
  {
    SubTableAcyclic(WithoutDead(t, dead, k), t);
  }

  /** Everything still recorded below `x` when it is visited, if it is dead. */
  ghost function SignalsFor(t: Table, dead: set<DeviceId>, x: DeviceId): seq<DeviceId>
    requires Acyclic(t)
  {
    WithoutDeadShape(t, dead, Key(x) - 1);
    if x in dead then Preorder(WithoutDead(t, dead, Key(x) - 1), x) else []
  }

  /** The signals sent while the listed entries are visited. */
  ghost function Signals(t: Table, dead: set<DeviceId>, ids: seq<DeviceId>): seq<DeviceId>
    requires Acyclic(t)
  {
    if ids == [] then []
    else Signals(t, dead, ids[..|ids| - 1]) + SignalsFor(t, dead, ids[|ids| - 1])
  }

  /** The preorder depends on devices and parents only. */
  lemma {:induction false} PreorderOfShape(t: Table, u: Table, p: DeviceId, k: int)
    requires Acyclic(t) && Acyclic(u) && t.Keys == u.Keys && forall y | y in t :: t[y].parent == u[y].parent
    ensures PreorderFrom(t, p, k) == PreorderFrom(u, p, k)
    decreases Height(t, p), 0x10_0000 - k
  {
    forall c ensures IsChildAfter(t, p, k, c) <==> IsChildAfter(u, p, k, c) {
    }
    NextChildUnique(u, p, k, NextChild(t, p, k));
    if NextChild(t, p, k).Some? {
      var c := NextChild(t, p, k).value;
      ChildIsDeeper(t, c);
      PreorderOfShape(t, u, c, -1);
      PreorderOfShape(t, u, p, Key(c));
    }
  }

  /** Between two neighbours of the walk nobody is forgotten. */
  lemma WithoutDeadBetween(t: Table, dead: set<DeviceId>, k: int, x: DeviceId)
    requires NextEntry(t, k) == Some(x)
    ensures WithoutDead(t, dead, Key(x) - 1) == WithoutDead(t, dead, k)
  {
    forall y | y in t ensures Key(y) <= Key(x) - 1 <==> Key(y) <= k {
      assert Key(y) > k <==> IsEntryAfter(t, k, y);
    }
  }

  lemma PreorderByThen(t: Table, s: Table, x: DeviceId)
    requires Acyclic(t) && Reaped(t, s, {})
    ensures Preorder(t, x) == Preorder(s, x)
  {
    assert t - {} == t;
    PreorderOfShape(t, s, x, -1);
  }

  lemma SignalsByThen(t: Table, dead: set<DeviceId>, k: int, s: Table, x: DeviceId)
    requires Acyclic(t) && NextEntry(t, k) == Some(x) && Reaped(WithoutDead(t, dead, k), s, {})
    ensures SignalsFor(t, dead, x) == if x in dead then Preorder(s, x) else []
  {
    WithoutDeadBetween(t, dead, k, x);
    WithoutDeadShape(t, dead, k);
    PreorderByThen(WithoutDead(t, dead, k), s, x);
  }

  /** One more entry of the walk, seen from the table as it is by then. */
  lemma SignalsNext(t: Table, dead: set<DeviceId>, k: int, visited: seq<DeviceId>, s: Table, x: DeviceId)
    requires Acyclic(t) && NextEntry(t, k) == Some(x) && Reaped(WithoutDead(t, dead, k), s, {})
    ensures Signals(t, dead, visited + [x]) == Signals(t, dead, visited) + if x in dead then Preorder(s, x) else []
  {
    assert (visited + [x])[..|visited|] == visited;
    SignalsByThen(t, dead, k, s, x);
  }

  // ---------------------------------------------------------------- who that is

  /** The dead device nearest above a survivor: everything in between survives. */
  lemma {:induction false} NearestDead(t: Table, dead: set<DeviceId>, y: DeviceId, a: DeviceId) returns (x: DeviceId)
    requires Acyclic(t) && y in t && y !in dead && a in t && a in dead && Below(t, y, a)
    ensures x in t && x in dead && Below(map z | z in t && z !in dead :: t[z], y, x)
    decreases Depth(t, y)
  {
    var alive := map z | z in t && z !in dead :: t[z];
    var p := t[y].parent;
    BelowUnfold(t, y, a);
    if p in dead {
      x := p;
      BelowUnfold(t, p, a);
    } else {
      BelowUnfold(t, p, a);
      ChildIsDeeper(t, y);
      x := NearestDead(t, dead, p, a);
    }
    BelowUnfold(alive, y, x);
  }

  lemma {:induction false} SignalsContain(t: Table, dead: set<DeviceId>, ids: seq<DeviceId>, x: DeviceId, y: DeviceId)
    requires Acyclic(t) && x in ids && x in dead && Below(WithoutDead(t, dead, Key(x) - 1), y, x)
    ensures y in Signals(t, dead, ids)
  {
    var last := ids[|ids| - 1];
    if last == x {
      WithoutDeadShape(t, dead, Key(x) - 1);
      PreorderIsExact(WithoutDead(t, dead, Key(x) - 1), x);
    } else {
      SignalsContain(t, dead, ids[..|ids| - 1], x, y);
    }
  }

  lemma {:induction false} SignalsOnly(t: Table, dead: set<DeviceId>, ids: seq<DeviceId>, y: DeviceId)
    requires Acyclic(t) && y in Signals(t, dead, ids)
    ensures exists x :: x in ids && x in dead && Below(t, y, x)
  {
    var x := ids[|ids| - 1];
    if y in Signals(t, dead, ids[..|ids| - 1]) {
      SignalsOnly(t, dead, ids[..|ids| - 1], y);
    } else {
      var u := WithoutDead(t, dead, Key(x) - 1);
      WithoutDeadShape(t, dead, Key(x) - 1);
      PreorderIsExact(u, x);
      BelowInSubTable(u, t, y, x);
    }
  }

  /** Of the devices that are alive, exactly those below a dead one are signalled. */
  lemma SignalledIff(t: Table, dead: set<DeviceId>, ids: seq<DeviceId>, y: DeviceId)
    requires Acyclic(t) && (forall x :: x in ids <==> x in t) && y in t && y !in dead
    ensures y in Signals(t, dead, ids) <==> exists a :: a in t && a in dead && Below(t, y, a)
  {
    if y in Signals(t, dead, ids) {
      SignalsOnly(t, dead, ids, y);
    }
    if a :| a in t && a in dead && Below(t, y, a) {
      var x := NearestDead(t, dead, y, a);
      BelowInSubTable(map z | z in t && z !in dead :: t[z], WithoutDead(t, dead, Key(x) - 1), y, x);
      SignalsContain(t, dead, ids, x, y);
    }
  }
}
