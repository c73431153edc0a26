/**
 A moved control device re-announces its branch to its new parent. This module proves that folding the
 announcements into the receiver's table rebuilds the branch exactly.
 */
module Replay {
  import opened Devices
  import opened Forest
  import opened TableOps
  import opened Protocol
  import opened Topology
  import opened NextHops

  /** The faked change-parent responses for the listed devices of a table. */
  ghost function Announcements(t: Table, ids: seq<DeviceId>, code: Code, responseCode: Code): seq<Response>
    requires forall c | c in ids :: c in t
  {
    if ids == [] then []
    else
      var x := ids[|ids| - 1];
      Announcements(t, ids[..|ids| - 1], code, responseCode)
      + [Response(x, code, responseCode, [t[x].parent, TypeArgument(t[x].deviceType)])]
  }

  /** A control device learns of a device below it: unknown parents are refused, types above are filled. */
  ghost function Learn(t: Table, x: DeviceId, p: DeviceId, ty: DeviceType): Table {
    if p !in t then t else FillAbove(Put(t, x, 0, ty, p, t[p].hop), x)
  }

  /** What one response announces, if it names a parent and a type. */
  ghost function LearnFrom(t: Table, r: Response): Table {
    if |r.arguments| < 2 then t else Learn(t, r.source, r.arguments[0], ArgumentType(r.arguments[1]))
  }

  /** Handling a sequence of announcements, first to last. */
  ghost function LearnAll(t: Table, rs: seq<Response>): Table
    decreases |rs|
  {
    if rs == [] then t else LearnFrom(LearnAll(t, rs[..|rs| - 1]), rs[|rs| - 1])
  }

  /** Every entry hangs, through recorded parents, from `id`. */
  ghost predicate HangsFrom(t: Table, id: DeviceId) {
    id !in t && Acyclic(t) && forall x | x in t :: t[x].parent == id || t[x].parent in t
  }

  /** What the receiver knows after the announcements of `done`. */
  ghost predicate Rebuilt(r: Table, s: Table, x: DeviceId, me: DeviceId, done: seq<DeviceId>, t: Table) {
    && HangsFrom(t, me) && x in r
    && t.Keys == r.Keys + Elements(done)
    && (forall d | d in done :: d in s && t[d] == Entry(0, s[d].deviceType, s[d].parent, r[x].hop))
    && (forall y | y in r :: t[y] == r[y].(deviceType := t[y].deviceType))
    && (forall y | y in r && (NonEmpty(r, y) || (y != x && !Below(r, x, y))) :: t[y] == r[y])
  }

  /** A receiver that has recorded the moved device `x`, and holds none of the devices below it. */
  ghost predicate Ready(r: Table, s: Table, x: DeviceId, me: DeviceId) {
    HangsFrom(r, me) && HangsFrom(s, x) && x in r && me !in s && r.Keys !! s.Keys && Compatible(s)
  }

  lemma NothingBelowFresh(t: Table, me: DeviceId, d: DeviceId, y: DeviceId)
    requires HangsFrom(t, me) && d !in t && d != me
    ensures !Below(t, y, d)
  {
    if Below(t, y, d) {
      BelowIsInPart(t, d, y);
      var c :| IsChildAfter(t, d, -1, c);
    }
  }

  /** What a device recorded by the receiver hangs from does not change with the entries added since. */
  lemma {:induction false} OldPathsStay(r: Table, t: Table, me: DeviceId, y: DeviceId, n: nat)
    requires HangsFrom(r, me) && me !in t && r.Keys <= t.Keys && forall z | z in r :: t[z].parent == r[z].parent
    requires y in r || y == me
    ensures Up(t, y, n) == Up(r, y, n)
    decreases n
  {
    if n > 0 && y in r {
      OldPathsStay(r, t, me, r[y].parent, n - 1);
    }
  }

  lemma OldBelowStays(r: Table, t: Table, me: DeviceId, y: DeviceId, a: DeviceId)
    requires HangsFrom(r, me) && me !in t && r.Keys <= t.Keys && forall z | z in r :: t[z].parent == r[z].parent
    requires y in r && Below(t, y, a)
    ensures Below(r, y, a) && (a in r || a == me)
  {
    var n: nat :| n > 0 && Up(t, y, n) == Some(a);
    OldPathsStay(r, t, me, y, n);
    EndsInside(r, me, y, n, a);
  }

  lemma {:induction false} EndsInside(r: Table, me: DeviceId, y: DeviceId, n: nat, a: DeviceId)
    requires HangsFrom(r, me) && (y in r || y == me) && Up(r, y, n) == Some(a)
    ensures a in r || a == me
    decreases n
  {
    if n > 0 && y in r {
      EndsInside(r, me, r[y].parent, n - 1, a);
    }
  }

  /** Recording the next announced device, before types are filled. */
  lemma RecordNext(r: Table, s: Table, x: DeviceId, me: DeviceId, done: seq<DeviceId>, t: Table, d: DeviceId)
    requires Ready(r, s, x, me) && Rebuilt(r, s, x, me, done, t)
    requires d in s && d !in done && (s[d].parent == x || s[d].parent in done)
    ensures s[d].parent in t && t[s[d].parent].hop == r[x].hop
    ensures Rebuilt(r, s, x, me, done + [d], Put(t, d, 0, s[d].deviceType, s[d].parent, r[x].hop))
  {
    var q := s[d].parent;
    var e := Entry(0, s[d].deviceType, q, r[x].hop);
    var u := t[d := e];
    assert forall c :: c in Elements(done) <==> c in done;
    NothingBelowFresh(t, me, d, q);
    PutAcyclicIff(t, d, e);
    assert Elements(done + [d]) == Elements(done) + {d};
    assert HangsFrom(u, me);
  }

  /** Filling the types above it only reaches the moved device and its ancestors. */
  lemma FillNext(r: Table, s: Table, x: DeviceId, me: DeviceId, done: seq<DeviceId>, u: Table, d: DeviceId)
    requires Ready(r, s, x, me) && Rebuilt(r, s, x, me, done, u)
    requires d in done && (s[d].parent == x || s[d].parent in done)
    ensures Rebuilt(r, s, x, me, done, FillAbove(u, d))
  {
    var q := s[d].parent;
    var w := FillAbove(u, d);
    if NonEmpty(u, d) {
      LeafBits(u[d].deviceType);
      if q in done {
        ChildTypeNonEmpty(s[q].deviceType, s[d].deviceType);
        assert w == u;
      } else {
        var leaf := ChildType(u[d].deviceType);
        FillUpShape(u, x, leaf);
        FillUpTouchesTypesOnly(u, x, leaf);
        forall y | y in u && y != x && y !in r ensures w[y] == u[y] {
          if Below(u, x, y) { OldBelowStays(r, u, me, x, y); }
        }
        forall y | y in r && y != x && !Below(r, x, y) ensures w[y] == u[y] {
          if Below(u, x, y) { OldBelowStays(r, u, me, x, y); }
        }
        forall y | y in done ensures y !in r && y != x {
          assert y in s;
        }
        SameShape(u, w);
        forall y | NonEmpty(r, y) ensures w[y] == r[y] {
          assert NonEmpty(u, y);
        }
      }
    }
  }

  /** Learning the next announced device. */
  lemma LearnNext(r: Table, s: Table, x: DeviceId, me: DeviceId, done: seq<DeviceId>, t: Table, d: DeviceId)
    requires Ready(r, s, x, me) && Rebuilt(r, s, x, me, done, t)
    requires d in s && d !in done && (s[d].parent == x || s[d].parent in done)
    ensures Rebuilt(r, s, x, me, done + [d], Learn(t, d, s[d].parent, s[d].deviceType))
  {
    RecordNext(r, s, x, me, done, t, d);
    FillNext(r, s, x, me, done + [d], Put(t, d, 0, s[d].deviceType, s[d].parent, r[x].hop), d);
  }

  /** From the announcements before the last one to all of them. */
  lemma RebuiltByLast(r: Table, s: Table, x: DeviceId, me: DeviceId, ids: seq<DeviceId>, t: Table)
    requires ids != [] && Ready(r, s, x, me) && ParentsFirst(s, x, ids) && forall c | c in ids :: c in s
    requires Distinct(ids) && Rebuilt(r, s, x, me, ids[..|ids| - 1], t)
    ensures var d := ids[|ids| - 1]; d in s && Rebuilt(r, s, x, me, ids, Learn(t, d, s[d].parent, s[d].deviceType))
  {
    var before, d := ids[..|ids| - 1], ids[|ids| - 1];
    LearnNext(r, s, x, me, before, t, d);
    assert before + [d] == ids;
  }

  lemma {:induction false} ReplayRebuildsPrefix(r: Table, s: Table, x: DeviceId, me: DeviceId,
                                                ids: seq<DeviceId>, code: Code)
    requires Ready(r, s, x, me) && Distinct(ids) && ParentsFirst(s, x, ids) && forall c | c in ids :: c in s
    ensures Rebuilt(r, s, x, me, ids, LearnAll(r, Announcements(s, ids, code, OK)))
    decreases |ids|
  {
    if ids == [] {
      assert Elements(ids) == {};
    } else {
      var before := ids[..|ids| - 1];
      ReplayRebuildsPrefix(r, s, x, me, before, code);
      RebuiltByLast(r, s, x, me, ids, LearnAll(r, Announcements(s, before, code, OK)));
      LearnLast(r, s, ids, code);
    }
  }

  /** The last announcement is handled last. */
  lemma LearnLast(r: Table, s: Table, ids: seq<DeviceId>, code: Code)
    requires ids != [] && forall c | c in ids :: c in s
    ensures var d := ids[|ids| - 1];
            LearnAll(r, Announcements(s, ids, code, OK)) ==
               Learn(LearnAll(r, Announcements(s, ids[..|ids| - 1], code, OK)), d, s[d].parent, s[d].deviceType)
  {
    var rs := Announcements(s, ids, code, OK);
    assert rs[..|rs| - 1] == Announcements(s, ids[..|ids| - 1], code, OK);
    TypeTravels(s[ids[|ids| - 1]].deviceType);
  }

  /**
   The replay round trip. The receiver ends with exactly the branch of the sender - same devices, parents
   and types - behind the pipe of the moved device; its other entries keep all but the leaf bits of the
   moved device and its ancestors, and non-empty types are kept.
   */
  lemma ReplayRoundTrip(r: Table, s: Table, x: DeviceId, me: DeviceId, code: Code)
    requires Ready(r, s, x, me)
    ensures forall c :: c in Preorder(s, x) <==> c in s
    ensures var t := LearnAll(r, Announcements(s, Preorder(s, x), code, OK));
            && t.Keys == r.Keys + s.Keys
            && (forall d | d in s :: t[d] == Entry(0, s[d].deviceType, s[d].parent, r[x].hop))
            && (forall y | y in r :: t[y] == r[y].(deviceType := t[y].deviceType))
            && (forall y | y in r && (NonEmpty(r, y) || (y != x && !Below(r, x, y))) :: t[y] == r[y])
  {
    PreorderIsExact(s, x);
    forall c | c in s ensures Below(s, c, x) {
      EveryoneHangs(s, x, c);
    }
    forall c | c in Preorder(s, x) ensures c in s {
      BelowUnfold(s, c, x);
    }
    ReplayRebuildsPrefix(r, s, x, me, Preorder(s, x), code);
    assert Elements(Preorder(s, x)) == s.Keys;
  }

  lemma {:induction false} EveryoneHangs(s: Table, x: DeviceId, c: DeviceId)
    requires HangsFrom(s, x) && c in s
    ensures Below(s, c, x)
    decreases Depth(s, c)
  {
    BelowUnfold(s, c, x);
    if s[c].parent != x {
      ChildIsDeeper(s, c);
      EveryoneHangs(s, x, s[c].parent);
    }
  }

  // ---------------------------------------------------------------- a receiver that has recorded the branch before

  /** Learning re-hangs one device, gives it the hop of its new parent, and changes nothing else but types. */
  lemma LearnShape(t: Table, d: DeviceId, q: DeviceId, ty: DeviceType)
    requires q in t
    ensures var w := Learn(t, d, q, ty);
            && w.Keys == t.Keys + {d}
            && forall y | y in w ::
                 && w[y].parent == (if y == d then q else t[y].parent)
                 && w[y].hop == if y == d then t[q].hop else t[y].hop
  {
    FillAboveKeepsTree(Put(t, d, 0, ty, q, t[q].hop), d);
  }

  /** `w` is `r` with the listed devices hanging as in `s`, behind the pipe of `x`. */
  ghost predicate Rerouted(r: Table, s: Table, x: DeviceId, ids: seq<DeviceId>, w: Table) {
    && x in r && x !in ids && w.Keys == r.Keys + Elements(ids)
    && forall y | y in w ::
         if y in ids then y in s && w[y].parent == s[y].parent && w[y].hop == r[x].hop
         else y in r && w[y].parent == r[y].parent && w[y].hop == r[y].hop
  }

  lemma RerouteNext(r: Table, s: Table, x: DeviceId, ids: seq<DeviceId>, w: Table, d: DeviceId, ty: DeviceType)
    requires Rerouted(r, s, x, ids, w) && d in s && d != x && (s[d].parent == x || s[d].parent in ids)
    ensures s[d].parent in w && Rerouted(r, s, x, ids + [d], Learn(w, d, s[d].parent, ty))
  {
    var q := s[d].parent;
    assert q in Elements(ids) <==> q in ids;
    assert x in w && w[x].hop == r[x].hop;
    LearnShape(w, d, q, ty);
    assert Elements(ids + [d]) == Elements(ids) + {d};
  }

  lemma RerouteLast(r: Table, s: Table, x: DeviceId, ids: seq<DeviceId>, w: Table, ty: DeviceType)
    requires ids != [] && x !in ids && ParentsFirst(s, x, ids) && forall c | c in ids :: c in s
    requires Rerouted(r, s, x, ids[..|ids| - 1], w)
    ensures var d := ids[|ids| - 1]; s[d].parent in w && Rerouted(r, s, x, ids, Learn(w, d, s[d].parent, ty))
  {
    var before, d := ids[..|ids| - 1], ids[|ids| - 1];
    RerouteNext(r, s, x, before, w, d, ty);
    assert before + [d] == ids;
  }

  /** Whatever a receiver has recorded before, the announcements hang every listed device as in the sender's table. */
  lemma {:induction false} ReplayReroutes(r: Table, s: Table, x: DeviceId, ids: seq<DeviceId>, code: Code)
    requires x in r && x !in ids && ParentsFirst(s, x, ids) && forall c | c in ids :: c in s
    ensures Rerouted(r, s, x, ids, LearnAll(r, Announcements(s, ids, code, OK)))
    decreases |ids|
  {
    if ids == [] {
      assert Elements(ids) == {};
    } else {
      var before, d := ids[..|ids| - 1], ids[|ids| - 1];
      ReplayReroutes(r, s, x, before, code);
      LearnLast(r, s, ids, code);
      RerouteLast(r, s, x, ids, LearnAll(r, Announcements(s, before, code, OK)), s[d].deviceType);
    }
  }

  /**
   No announcement of the replay is refused, whatever the receiver has recorded before: the parent of each device is
   known when it is announced.
   */
  lemma ReplayNeverRefused(r: Table, s: Table, x: DeviceId, code: Code, i: nat)
    requires HangsFrom(s, x) && x in r && i < |Preorder(s, x)|
    ensures var ids := Preorder(s, x);
            && (forall c | c in ids :: c in s)
            && s[ids[i]].parent in LearnAll(r, Announcements(s, ids[..i], code, OK))
  {
    var ids := Preorder(s, x);
    PreorderOfBranch(s, x);
    forall j | 0 <= j < i ensures ids[..i][..j] == ids[..j] {
    }
    ReplayReroutes(r, s, x, ids[..i], code);
    assert forall c :: c in Elements(ids[..i]) <==> c in ids[..i];
  }

  /** The listed devices have the types of the sender's table, and none of the branch is above `x`. */
  ghost predicate TypedAsSent(s: Table, x: DeviceId, ids: seq<DeviceId>, w: Table) {
    && (forall d | d in ids :: d in s && d in w && w[d].deviceType == s[d].deviceType)
    && forall d | d in s :: !Below(w, x, d)
  }

  /** Filling from `p` leaves alone what is not at or above `p`. */
  lemma {:induction false} FillUpElsewhere(t: Table, p: DeviceId, leaf: DeviceType, y: DeviceId)
    requires leaf & LEAF_DEVICE_MASK == leaf && leaf != 0 && y in t && y != p && !Below(t, p, y)
    ensures FillUp(t, p, leaf).Keys == t.Keys && FillUp(t, p, leaf)[y] == t[y]
    decreases EmptyEntries(t)
  {
    if p in t && IsEmpty(t[p].deviceType) {
      var u := WithType(t, p, FilledType(t[p].deviceType, leaf));
      FilledTypeBits(t[p].deviceType, leaf);
      assert p in EmptyEntries(t);
      SameShape(t, u);
      BelowUnfold(t, p, y);
      FillUpElsewhere(u, t[p].parent, leaf, y);
    }
  }

  lemma TypedNext(s: Table, x: DeviceId, ids: seq<DeviceId>, w: Table, d: DeviceId)
    requires HangsFrom(s, x) && Compatible(s) && TypedAsSent(s, x, ids, w)
    requires d in s && s[d].parent in w && (s[d].parent == x || s[d].parent in ids)
    ensures TypedAsSent(s, x, ids + [d], Learn(w, d, s[d].parent, s[d].deviceType))
  {
    var q, ty := s[d].parent, s[d].deviceType;
    var e := Entry(0, ty, q, w[q].hop);
    var u := w[d := e];
    BelowUnfold(s, d, d);
    forall y | y in s ensures !Below(u, x, y) {
      BelowUnmoved(w, d, e, x, y);
    }
    FillAboveKeepsTree(u, d);
    SameShape(u, FillAbove(u, d));
    if !IsEmpty(ty) {
      LeafBits(ty);
      if q in ids {
        ChildTypeNonEmpty(s[q].deviceType, ty);
        assert FillAbove(u, d) == u;
      } else {
        forall y | y in ids + [d] ensures FillAbove(u, d)[y] == u[y] {
          FillUpElsewhere(u, x, ChildType(ty), y);
        }
      }
    }
  }

  lemma TypedLast(r: Table, s: Table, x: DeviceId, ids: seq<DeviceId>, w: Table)
    requires ids != [] && x !in ids && ParentsFirst(s, x, ids) && forall c | c in ids :: c in s
    requires HangsFrom(s, x) && Compatible(s) && TypedAsSent(s, x, ids[..|ids| - 1], w)
    requires Rerouted(r, s, x, ids[..|ids| - 1], w)
    ensures var d := ids[|ids| - 1]; TypedAsSent(s, x, ids, Learn(w, d, s[d].parent, s[d].deviceType))
  {
    var before, d := ids[..|ids| - 1], ids[|ids| - 1];
    RerouteLast(r, s, x, ids, w, s[d].deviceType);
    TypedNext(s, x, before, w, d);
    assert before + [d] == ids;
  }

  lemma {:induction false} ReplayTypes(r: Table, s: Table, x: DeviceId, ids: seq<DeviceId>, code: Code)
    requires HangsFrom(s, x) && Compatible(s) && forall d | d in s :: !Below(r, x, d)
    requires x in r && x !in ids && ParentsFirst(s, x, ids) && forall c | c in ids :: c in s
    ensures TypedAsSent(s, x, ids, LearnAll(r, Announcements(s, ids, code, OK)))
    decreases |ids|
  {
    if ids != [] {
      var before := ids[..|ids| - 1];
      ReplayTypes(r, s, x, before, code);
      ReplayReroutes(r, s, x, before, code);
      LearnLast(r, s, ids, code);
      TypedLast(r, s, x, ids, LearnAll(r, Announcements(s, before, code, OK)));
    }
  }

  /** The sender's list names exactly what its table holds. */
  lemma PreorderOfBranch(s: Table, x: DeviceId)
    requires HangsFrom(s, x)
    ensures Elements(Preorder(s, x)) == s.Keys && x !in Preorder(s, x) && ParentsFirst(s, x, Preorder(s, x))
    ensures forall c :: c in Preorder(s, x) <==> c in s
  {
    PreorderIsExact(s, x);
    forall c | c in s ensures Below(s, c, x) {
      EveryoneHangs(s, x, c);
    }
    forall c | c in Preorder(s, x) ensures c in s {
      BelowUnfold(s, c, x);
    }
  }

  /** A receiver that has recorded the response of `x` and hangs nothing below `x` that is not in its branch `s`. */
  ghost predicate Stale(r: Table, s: Table, x: DeviceId) {
    && HangsFrom(s, x) && x in r && r[x].parent !in s
    && (forall y | y in r && (r[y].parent == x || r[y].parent in s) :: y in s)
    && forall y | y in r && y !in s && r[y].parent in r :: r[y].hop == r[r[y].parent].hop
  }

  /**
   A control device above both the old and the new parent has recorded the branch before, with the hops of the old
   way. The replay gives it the branch of the sender - devices, parents and types - behind the pipe of the moved
   device, keeps parents and hops of everything else, and leaves every hop right.
   */
  lemma ReplayRepairs(r: Table, s: Table, x: DeviceId, code: Code)
    requires Stale(r, s, x)
    ensures forall c :: c in Preorder(s, x) <==> c in s
    ensures var w := LearnAll(r, Announcements(s, Preorder(s, x), code, OK));
            && HopsOk(w) && w.Keys == r.Keys + s.Keys
            && (forall d | d in s :: w[d].parent == s[d].parent && w[d].hop == r[x].hop)
            && (forall y | y in r && y !in s :: w[y].parent == r[y].parent && w[y].hop == r[y].hop)
            && (Compatible(s) && (forall d | d in s :: !Below(r, x, d)) ==>
                  forall d | d in s :: w[d].deviceType == s[d].deviceType)
  {
    PreorderOfBranch(s, x);
    ReplayReroutes(r, s, x, Preorder(s, x), code);
    if Compatible(s) && (forall d | d in s :: !Below(r, x, d)) {
      ReplayTypes(r, s, x, Preorder(s, x), code);
    }
  }
}
