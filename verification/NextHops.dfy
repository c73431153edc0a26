/** How the Controller's next hops recover after a branch has moved. */
module NextHops {
  import opened Devices
  import opened Forest
  import opened TableOps
  import opened Topology

  /** Every entry is reached through the same pipe as its parent, so through its topmost ancestor. */
  ghost predicate HopsOk(t: Table) {
    forall x | x in t && t[x].parent in t :: t[x].hop == t[t[x].parent].hop
  }

  /** The direct child of the Controller at the top of the branch of `x`. */
  ghost function Topmost(t: Table, x: DeviceId): DeviceId
    requires Acyclic(t) && x in t
    decreases Depth(t, x)
  {
    ChildIsDeeper(t, x);
    if t[x].parent in t then Topmost(t, t[x].parent) else x
  }

  lemma {:induction false} HopIsTopmost(t: Table, x: DeviceId)
    requires Rooted(t) && HopsOk(t) && x in t
    ensures var a := Topmost(t, x); a in t && t[a].parent == CONTROLLER_ID && t[x].hop == t[a].hop
    decreases Depth(t, x)
  {
    if t[x].parent in t {
      ChildIsDeeper(t, x);
      HopIsTopmost(t, t[x].parent);
    }
  }

  /** Processing, in order, the change-parent responses a moved device replays for its branch. */
  ghost function ReplayAll(t: Table, ids: seq<DeviceId>): Table
    decreases |ids|
  {
    if ids == [] || ids[0] !in t then t
    else ReplayAll(ParentChanged(t, ids[0], t[ids[0]].parent, 0), ids[1..])
  }

  /** Replaying a parents-first list gives every listed device the pipe of `x` and changes nothing else. */
  lemma {:induction false} ReplaySetsHops(t: Table, x: DeviceId, done: seq<DeviceId>, ids: seq<DeviceId>)
    requires CONTROLLER_ID !in t && x in t && Distinct(done + ids) && x !in done + ids
    requires ParentsFirst(t, x, done + ids)
    requires forall y | y in done :: y in t && t[y].hop == t[x].hop
    ensures ReplayAll(t, ids).Keys == t.Keys
    ensures forall y | y in t ::
              ReplayAll(t, ids)[y] == if y in ids then t[y].(hop := t[x].hop) else t[y]
    decreases |ids|
  {
    if ids != [] {
      var d, rest := ids[0], ids[1..];
      var s := done + ids;
      assert s[|done|] == d && s[..|done|] == done;
      assert done + ids == (done + [d]) + rest;
      assert t[d].parent in t && t[t[d].parent].hop == t[x].hop;
      var u := ParentChanged(t, d, t[d].parent, 0);
      assert u == t[d := t[d].(hop := t[x].hop)];
      assert ParentsFirst(u, x, (done + [d]) + rest) by {
        forall i | 0 <= i < |s| ensures s[i] in u && (u[s[i]].parent == x || u[s[i]].parent in s[..i]) {
          assert u[s[i]].parent == t[s[i]].parent;
        }
      }
      assert d !in rest by {
        forall j | 0 <= j < |rest| ensures rest[j] != d { assert s[|done| + 1 + j] == rest[j]; }
      }
      ReplaySetsHops(u, x, done + [d], rest);
    }
  }

  lemma LinkShape(t: Table, x: DeviceId, p: DeviceId, fd: int)
    requires Rooted(t) && LinkAllowed(t, x, p)
    ensures var u := ParentChanged(t, x, p, fd);
            && Rooted(u) && (Safe(t) ==> Safe(u)) && u.Keys == t.Keys
            && (forall y | y in t && y != x :: u[y].parent == t[y].parent && u[y].hop == t[y].hop)
            && u[x].parent == p && u[x].hop == (if p == CONTROLLER_ID then fd else t[p].hop)
  {
    LinkKeepsForest(t, x, p, fd);
    if Safe(t) {
      LinkKeepsSafe(t, x, p, fd);
    }
  }

  /** Between the response and the replay, hops are wrong exactly when the pipe changed and something hangs below. */
  lemma MovedBranchIsStaleIff(t: Table, x: DeviceId, p: DeviceId, fd: int)
    requires Rooted(t) && HopsOk(t) && LinkAllowed(t, x, p)
    ensures HopsOk(ParentChanged(t, x, p, fd)) <==>
            (forall c | c in t :: t[c].parent != x) || t[x].hop == (if p == CONTROLLER_ID then fd else t[p].hop)
  {
    var u := ParentChanged(t, x, p, fd);
    LinkShape(t, x, p, fd);
    if c :| c in t && t[c].parent == x {
      BelowUnfold(t, x, x);
      assert u[c].parent == x && u[c].hop == t[x].hop;
    }
  }

  /** Giving everything below `x` the pipe of `x` repairs a table whose only wrong hops are there. */
  lemma BranchHopsRepaired(t: Table, u: Table, w: Table, x: DeviceId)
    requires HopsOk(t) && Acyclic(u) && x in u && u.Keys == t.Keys == w.Keys
    requires forall y | y in t && y != x :: u[y].parent == t[y].parent && u[y].hop == t[y].hop
    requires u[x].parent in u ==> u[x].parent != x && !Below(u, u[x].parent, x) && u[x].hop == t[u[x].parent].hop
    requires forall y | y in u :: w[y] == if Below(u, y, x) then u[y].(hop := u[x].hop) else u[y]
    ensures HopsOk(w)
  {
    BelowUnfold(u, x, x);
    forall y | y in w && w[y].parent in w ensures w[y].hop == w[w[y].parent].hop {
      BelowUnfold(u, y, x);
    }
  }

  lemma ParentIsNotBelow(u: Table, x: DeviceId)
    requires Acyclic(u) && x in u
    ensures u[x].parent != x && !Below(u, u[x].parent, x)
  {
    BelowUnfold(u, x, u[x].parent);
    if Below(u, u[x].parent, x) { BelowTransitive(u, x, u[x].parent, x); }
  }

  /** The moved device's own preorder meets what a replay needs. */
  lemma ReplayOfPreorder(u: Table, x: DeviceId)
    requires CONTROLLER_ID !in u && Acyclic(u) && x in u
    ensures ReplayAll(u, Preorder(u, x)).Keys == u.Keys
    ensures forall y | y in u :: ReplayAll(u, Preorder(u, x))[y] ==
                                 if Below(u, y, x) then u[y].(hop := u[x].hop) else u[y]
  {
    var ids := Preorder(u, x);
    PreorderIsExact(u, x);
    assert x !in ids;
    assert [] + ids == ids;
    ReplaySetsHops(u, x, [], ids);
  }

  /**
   After the response of the moved device and the replay of its branch, every entry of the whole table
   is again reached through the pipe of its topmost ancestor, and nothing but hops has changed.
   */
  lemma ReplayRestoresHops(t: Table, x: DeviceId, p: DeviceId, fd: int)
    requires Rooted(t) && HopsOk(t) && LinkAllowed(t, x, p)
    ensures var u := ParentChanged(t, x, p, fd);
            && Rooted(u) && (Safe(t) ==> Safe(u)) && u.Keys == t.Keys
            && var w := ReplayAll(u, Preorder(u, x));
               HopsOk(w) && w.Keys == u.Keys && forall y | y in u :: w[y] == u[y].(hop := w[y].hop)
  {
    var u := ParentChanged(t, x, p, fd);
    LinkShape(t, x, p, fd);
    ReplayOfPreorder(u, x);
    ParentIsNotBelow(u, x);
    BranchHopsRepaired(t, u, ReplayAll(u, Preorder(u, x)), x);
  }

  /**
   The same when the list comes from the table of the moved device itself: all that table has to agree on
   with the Controller's is which devices hang below `x`, and from which parent.
   */
  lemma DeviceReplayRestoresHops(t: Table, x: DeviceId, p: DeviceId, fd: int, s: Table)
    requires Rooted(t) && HopsOk(t) && LinkAllowed(t, x, p) && Acyclic(s) && SameBranch(s, t, x)
    ensures var u := ParentChanged(t, x, p, fd);
            var w := ReplayAll(u, Preorder(s, x));
            HopsOk(w) && w.Keys == u.Keys && forall y | y in u :: w[y] == u[y].(hop := w[y].hop)
  {
    var u := ParentChanged(t, x, p, fd);
    LinkShape(t, x, p, fd);
    forall y ensures y in s <==> y in u && Below(u, y, x) {
      MoveKeepsBranch(t, u, x, y);
    }
    BranchHasSamePreorder(s, u, x, x, -1);
    ReplayRestoresHops(t, x, p, fd);
  }

  /** What hangs below a device still does after the device itself has been re-hung. */
  lemma MoveKeepsBranch(t: Table, u: Table, x: DeviceId, y: DeviceId)
    requires Acyclic(t) && Acyclic(u) && x in t && t.Keys == u.Keys
    requires forall z | z in t && z != x :: u[z].parent == t[z].parent
    ensures Below(u, y, x) <==> Below(t, y, x)
  {
    if Below(t, y, x) {
      PathToMoved(t, u, x, y);
    }
    if Below(u, y, x) {
      PathToMoved(u, t, x, y);
    }
  }

  lemma {:induction false} PathToMoved(t: Table, u: Table, x: DeviceId, y: DeviceId)
    requires Acyclic(t) && x in t && t.Keys == u.Keys && forall z | z in t && z != x :: u[z].parent == t[z].parent
    requires Below(t, y, x)
    ensures Below(u, y, x)
    decreases Depth(t, y)
  {
    BelowUnfold(t, y, x);
    BelowUnfold(u, y, x);
    if t[y].parent != x {
      ChildIsDeeper(t, y);
      PathToMoved(t, u, x, t[y].parent);
    }
  }

  // ---------------------------------------------------------------- tables that differ in their hops only

  /** Only hops differ. */
  ghost predicate SameButHops(t: Table, u: Table) {
    t.Keys == u.Keys && forall y | y in t :: u[y] == t[y].(hop := u[y].hop)
  }

  lemma SameButHopsShape(t: Table, u: Table)
    requires SameButHops(t, u)
    ensures (Acyclic(t) <==> Acyclic(u)) && (Rooted(t) <==> Rooted(u)) && (Safe(t) <==> Safe(u))
  {
    SameShape(t, u);
  }

  /** So they are exact at the same devices. */
  lemma SameButHopsTypes(t: Table, u: Table, s: set<DeviceId>)
    requires SameButHops(t, u)
    ensures (forall c: DeviceId :: NonEmpty(t, c) <==> NonEmpty(u, c)) && (ExactOutside(t, s) <==> ExactOutside(u, s))
  {
    forall y: DeviceId ensures HasNonEmptyChild(t, y) <==> HasNonEmptyChild(u, y) {
      if c :| NonEmpty(t, c) && t[c].parent == y {
        assert NonEmpty(u, c) && u[c].parent == y;
      }
      if c :| NonEmpty(u, c) && u[c].parent == y {
        assert NonEmpty(t, c) && t[c].parent == y;
      }
    }
    forall y | y in t ensures ExactAt(t, y) <==> ExactAt(u, y) {
      assert forall c | NonEmpty(t, c) :: u[c].parent == t[c].parent && u[c].deviceType == t[c].deviceType;
    }
  }

  // ---------------------------------------------------------------- branches that have died

  /** The devices that die when `x` does: its branch is signalled and dies too. */
  ghost function Lost(t: Table, x: DeviceId): set<DeviceId> { {x} + Descendants(t, x) }

  /** Reaping `x` and its branch leaves the rest of the tree, with the pipes it had. */
  lemma ReapedKeepsRoutes(t: Table, x: DeviceId, u: Table)
    requires Rooted(t) && HopsOk(t) && x in t && Reaped(t, u, Lost(t, x))
    ensures Rooted(u) && HopsOk(u) && u.Keys == RemoveTree(t, x).Keys
    ensures forall y | y in u :: y in t && u[y].parent == t[y].parent && u[y].hop == t[y].hop
    ensures t[x].parent in t ==> t[x].parent in u
  {
    assert (t - Lost(t, x)).Keys == RemoveTree(t, x).Keys;
    forall y | y in u ensures y in t && u[y].parent == t[y].parent && (t[y].parent in t ==> t[y].parent in u) {
      BelowUnfold(t, y, x);
    }
    ParentIsNotBelow(t, x);
  }

  /** And if the types left agree, a safe tree stays safe. */
  lemma ReapedIsSafe(t: Table, x: DeviceId, after: Table)
    requires Safe(t) && HopsOk(t) && x in t && Reaped(t, after, Lost(t, x)) && Compatible(after)
    ensures Safe(after)
  {
    ReapedKeepsRoutes(t, x, after);
    ReapedIsSturdy(t, after, Lost(t, x));
  }
}
