/**
 A link passes a Timer whose table has the types of the tree. A Timer ignores the removal of a device that it has
 already recorded elsewhere, so the old parent of that device keeps its type, and the table is typed as the new tree
 only if the old parent is left with a child of that type.
 */
module TypedTimers {
  import opened Devices
  import opened Forest
  import opened TableOps
  import opened Topology
  import opened NextHops
  import opened Replay
  import opened Branches
  import opened Stations
  import opened BranchTypes
  import opened TypedHubs
  import T = TimerTable

  /** When the removal passes, the old parent, if it is recorded, is not left non-empty without a non-empty child. */
  ghost predicate TimerGuarded(t: Table, c: DeviceId, st: T.View, m: Move, k: nat)
    requires m.x in t
  {
    var o, w := t[m.x].parent, TimerTold(t, c, st, m, k).table;
    Hears(t, c, m.p) && Below(t, o, c) && NonEmpty(w, o) ==> HasNonEmptyChild(w, o)
  }

  // ---------------------------------------------------------------- a Timer that hears of the move

  lemma OneTimerEvent(c: DeviceId, v: T.View, e: T.TimerEvent)
    requires T.IsRun(c, v, [e])
    ensures T.Enabled(c, v, e) && TimerAfter(c, v, [e]) == T.Step(c, v, e)
  {
    assert T.Final(c, T.Step(c, v, e), []) == T.Step(c, v, e);
  }

  /** The response of the moved device, at a Timer that then records it. */
  lemma TimerFirstTyped(c: DeviceId, st: T.View, f: int, t: Table, u: Table, m: Move)
    requires TimerKnows(t, c, st, f) && Moving(t, u, m) && Typed(t, m) && LinkAllowed(t, m.x, m.p)
    requires TypedAs(T.Branch(c, st, f), t) && T.IsRun(c, st, [TimerFirst(c, m)])
    requires st.table == T.Branch(c, st, f) && (if m.p == c then IsControl(m.ty) else m.p in st.table)
    ensures Midtyped(t, c, TimerAfter(c, st, [TimerFirst(c, m)]).table, m, {t[m.x].parent})
  {
    OneTimerEvent(c, st, TimerFirst(c, m));
    if m.p == c {
      FirstDirect(t, u, c, st.table, m);
    } else {
      FirstIndirect(t, u, c, st.table, m);
    }
  }

  /** The events lead to the view `w`. */
  ghost predicate LeadsTo(c: DeviceId, v: T.View, es: seq<T.TimerEvent>, w: T.View) {
    T.IsRun(c, v, es) && T.Final(c, v, es) == w
  }

  /** From `v` to `w` nothing outside the moved branch has changed, and its types are still right. */
  ghost predicate Quiet(t: Table, c: DeviceId, m: Move, s: set<DeviceId>, v: T.View, w: T.View) {
    Midtyped(t, c, w.table, m, s) && SameOutside(v.table, w.table, Moved(m))
  }

  /** The events of `es` have quietly announced `ids` to a Timer that was at `v`, starting from the table `r`. */
  ghost predicate Announced(t: Table, c: DeviceId, m: Move, s: set<DeviceId>, r: Table, ids: seq<DeviceId>, v: T.View,
                            es: seq<T.TimerEvent>)
  {
    && LeadsTo(c, v, es, TimerAfter(c, v, es)) && Quiet(t, c, m, s, v, TimerAfter(c, v, es))
    && Rerouted(r, m.branch, m.x, ids, TimerAfter(c, v, es).table)
  }

  lemma OneMoreDescendant(c: DeviceId, v: T.View, es: seq<T.TimerEvent>, w: T.View, x: DeviceId, p: DeviceId,
                          ty: DeviceType)
    requires LeadsTo(c, v, es, w) && T.Enabled(c, w, T.Descendant(x, p, ty)) && p in w.table
    ensures var after := es + [T.Descendant(x, p, ty)];
            LeadsTo(c, v, after, TimerAfter(c, v, after)) && TimerAfter(c, v, after).table == Learn(w.table, x, p, ty)
  {
    T.RunAppend(c, v, es, T.Descendant(x, p, ty));
  }

  /** One more device of the replay. */
  lemma AnnouncedNext(t: Table, u: Table, c: DeviceId, m: Move, s: set<DeviceId>, r: Table, ids: seq<DeviceId>,
                      v: T.View, es: seq<T.TimerEvent>)
    requires ids != [] && Replaying(u, c, r, m, ids) && Moving(t, u, m) && Typed(t, m)
    requires Announced(t, c, m, s, r, ids[..|ids| - 1], v, es)
    ensures Announced(t, c, m, s, r, ids, v, es + [TimerReplayOf(m, ids[|ids| - 1])])
  {
    var d, w := ids[|ids| - 1], TimerAfter(c, v, es);
    NextReplay(u, c, r, m, ids, w.table);
    NextTyped(t, u, c, r, m, ids, w.table, s);
    OneMoreDescendant(c, v, es, w, d, m.branch[d].parent, m.branch[d].deviceType);
  }

  lemma NoTimerEvent(c: DeviceId, v: T.View)
    ensures LeadsTo(c, v, [], v) && TimerAfter(c, v, []) == v
  {
  }

  lemma {:induction false} ReplaysAnnounce(t: Table, u: Table, c: DeviceId, m: Move, s: set<DeviceId>, r: Table,
                                           ids: seq<DeviceId>, k: nat, v: T.View)
    requires Replaying(u, c, r, m, ids) && Rerouted(r, m.branch, m.x, Upto(ids, k), v.table)
    requires Moving(t, u, m) && Typed(t, m) && Midtyped(t, c, v.table, m, s)
    ensures Announced(t, c, m, s, r, ids, v, TimerReplays(m, ids, k))
    decreases |ids|
  {
    if |ids| > k {
      ReplayingBefore(u, c, r, m, ids);
      UptoBefore(ids, k);
      ReplaysAnnounce(t, u, c, m, s, r, ids[..|ids| - 1], k, v);
      AnnouncedNext(t, u, c, m, s, r, ids, v, TimerReplays(m, ids[..|ids| - 1], k));
    } else {
      NoTimerEvent(c, v);
    }
  }

  /** The replay changes no type. */
  lemma TimerReplaysTyped(c: DeviceId, v: T.View, t: Table, u: Table, m: Move, ids: seq<DeviceId>, k: nat, r: Table,
                          s: set<DeviceId>)
    requires Replaying(u, c, r, m, ids) && Rerouted(r, m.branch, m.x, Upto(ids, k), v.table)
    requires Moving(t, u, m) && Typed(t, m) && Midtyped(t, c, v.table, m, s)
    ensures Quiet(t, c, m, s, v, TimerAfter(c, v, TimerReplays(m, ids, k)))
  {
    ReplaysAnnounce(t, u, c, m, s, r, ids, k, v);
  }

  /** From the response of the moved device through the replay of `k` devices. */
  lemma TimerToldTyped(c: DeviceId, st: T.View, f: int, t: Table, u: Table, m: Move, k: nat)
    requires TimerKnows(t, c, st, f) && Moving(t, u, m) && Typed(t, m) && LinkAllowed(t, m.x, m.p)
    requires Admits(t, c, st, m) && Hears(t, c, m.p) && TypedAs(T.Branch(c, st, f), t)
    requires if m.p == c then IsControl(m.ty) else m.p in T.Branch(c, st, f)
    ensures Midtyped(t, c, TimerTold(t, c, st, m, k).table, m, {t[m.x].parent})
  {
    var ids := Upto(Listed(m), k);
    ItsTableIsItsBranch(t, c, st, f, m);
    var first := TimerRecords(c, st, f, t, u, m);
    TimerFirstTyped(c, st, f, t, u, m);
    ReplayingUpto(u, c, first.table, m, Listed(m), k);
    RerouteNothing(first.table, m.branch, m.x, Upto(ids, 0));
    TimerReplaysTyped(c, first, t, u, m, ids, 0, first.table, {t[m.x].parent});
  }

  lemma ItsTableIsItsBranch(t: Table, c: DeviceId, st: T.View, f: int, m: Move)
    requires TimerKnows(t, c, st, f) && Admits(t, c, st, m) && (m.p == c || m.p in T.Branch(c, st, f))
    ensures st.table == T.Branch(c, st, f)
  {
    if m.p == c {
      NoChildBefore(t, c, st, f);
    } else {
      BelowTheChild(t, c, st, f, m.p);
    }
  }

  /** The removal changes nothing, which is right if the old parent keeps a child of its type or has none itself. */
  lemma TimerRemovalTyped(t: Table, u: Table, c: DeviceId, r: Table, m: Move, w: Table)
    requires Moving(t, u, m) && Typed(t, m) && LinkAllowed(t, m.x, m.p) && Covers(t, c, r)
    requires Midtyped(t, c, w, m, {t[m.x].parent}) && w.Keys <= r.Keys + Moved(m)
    requires Below(t, t[m.x].parent, c) && NonEmpty(w, t[m.x].parent) ==> HasNonEmptyChild(w, t[m.x].parent)
    ensures Midtyped(t, c, w, m, {})
  {
    var o := t[m.x].parent;
    if o == c || !Below(t, o, c) {
      NotConcerned(t, u, c, r, w, m);
    }
    BackedThere(w, Moved(m), o);
  }

  lemma BackedThere(w: Table, s: set<DeviceId>, o: DeviceId)
    requires Backed(w, s + {o}) && (NonEmpty(w, o) ==> HasNonEmptyChild(w, o))
    ensures Backed(w, s + {})
  {
  }

  lemma TimerAskedTyped(c: DeviceId, st: T.View, f: int, t: Table, u: Table, m: Move, k: nat)
    requires TimerKnows(t, c, st, f) && Moving(t, u, m) && Typed(t, m) && LinkAllowed(t, m.x, m.p)
    requires Admits(t, c, st, m) && Hears(t, c, m.p) && TypedAs(T.Branch(c, st, f), t)
    requires (if m.p == c then IsControl(m.ty) else m.p in T.Branch(c, st, f)) && TimerGuarded(t, c, st, m, k)
    ensures TimerAsked(t, c, st, m, k) == TimerTold(t, c, st, m, k)
    ensures Midtyped(t, c, TimerTold(t, c, st, m, k).table, m, {})
  {
    var w, r := TimerTold(t, c, st, m, k), T.Branch(c, st, f);
    TimerToldTyped(c, st, f, t, u, m, k);
    var first := TimerHearsSome(c, st, f, t, u, m, k);
    MidwaySees(t, u, c, m, k, r, first.table, w.table);
    TimerHearsLoss(c, st, f, t, u, m, w);
    MidwayKeys(u, c, m, k, r, first.table, w.table);
    TimerRemovalTyped(t, u, c, r, m, w.table);
  }

  /** And the rest of the replay. */
  lemma TimerRestTyped(c: DeviceId, st: T.View, f: int, t: Table, u: Table, m: Move, k: nat)
    requires TimerKnows(t, c, st, f) && Moving(t, u, m) && Typed(t, m) && LinkAllowed(t, m.x, m.p)
    requires Admits(t, c, st, m) && Hears(t, c, m.p) && TypedAs(T.Branch(c, st, f), t)
    requires (if m.p == c then IsControl(m.ty) else m.p in T.Branch(c, st, f)) && TimerGuarded(t, c, st, m, k)
    ensures Midtyped(t, c, TimerLinked(t, c, st, m, k).table, m, {})
    ensures TimerLinked(t, c, st, m, k).hasChild && IsControl(TimerLinked(t, c, st, m, k).childType)
  {
    TimerAskedTyped(c, st, f, t, u, m, k);
    var first := TimerHearsSome(c, st, f, t, u, m, k);
    var w := TimerTold(t, c, st, m, k);
    TimerReplaysTyped(c, w, t, u, m, Listed(m), k, first.table, {});
    var z := TimerIsReplayed(c, w, u, m, Listed(m), k, first.table);
  }

  /** What a Timer has when the link is over. */
  ghost predicate TimerStaysTyped(t: Table, u: Table, c: DeviceId, st: T.View, f: int, m: Move, k: nat)
    requires m.x in t
  {
    Passed(t, u, c, m, T.Branch(c, TimerLinked(t, c, st, m, k), ChildPipe(c, m, f)))
  }

  lemma TimerHearerStaysTyped(c: DeviceId, st: T.View, f: int, t: Table, u: Table, m: Move, k: nat)
    requires TimerKnows(t, c, st, f) && HopsOk(T.Branch(c, st, f)) && Moving(t, u, m) && Typed(t, m)
    requires LinkAllowed(t, m.x, m.p) && Admits(t, c, st, m) && Hears(t, c, m.p) && TypedAs(T.Branch(c, st, f), t)
    requires (if m.p == c then IsControl(m.ty) else m.p in T.Branch(c, st, f)) && TimerGuarded(t, c, st, m, k)
    ensures TimerStaysTyped(t, u, c, st, f, m, k)
  {
    var z := TimerLinked(t, c, st, m, k);
    TimerRestTyped(c, st, f, t, u, m, k);
    TimerHearsAll(c, st, f, t, u, m, k);
    CoversSees(u, c, T.Branch(c, z, ChildPipe(c, m, f)), Moved(m));
  }

  // ---------------------------------------------------------------- the other Timers

  /** A Timer that gets a leaf device records it with its type. */
  lemma TimerWithLeafTyped(c: DeviceId, st: T.View, f: int, t: Table, u: Table, m: Move, k: nat)
    requires TimerKnows(t, c, st, f) && HopsOk(T.Branch(c, st, f)) && Moving(t, u, m) && Typed(t, m)
    requires m.p == c && IsLeaf(m.ty) && Admits(t, c, st, m)
    ensures TimerStaysTyped(t, u, c, st, f, m, k)
  {
    var z := TimerLinked(t, c, st, m, k);
    var b := T.Branch(c, z, m.fd);
    TimerGetsLeaf(c, st, f, t, u, m, k);
    HasTheLeaf(c, st, f, t, u, m, k);
    LeafIsTyped(t, c, m, b);
    CoversSees(u, c, b, Moved(m));
  }

  lemma HasTheLeaf(c: DeviceId, st: T.View, f: int, t: Table, u: Table, m: Move, k: nat)
    requires TimerKnows(t, c, st, f) && Moving(t, u, m) && m.p == c && IsLeaf(m.ty) && Admits(t, c, st, m)
    ensures T.Branch(c, TimerLinked(t, c, st, m, k), m.fd) == map[m.x := Entry(0, m.ty, c, m.fd)] && m.x != c
  {
    NoChildBefore(t, c, st, f);
    HearerIsOutside(t, u, m, c, T.Branch(c, st, f));
    NothingListed(m);
    NotAboveWithoutChild(t, c, st, f, m.x);
    var first := TimerAcquiresIt(c, st, u, m);
    OneTimerEvent(c, st, TimerFirst(c, m));
    NoTimerEvent(c, first);
    KindBits(m.ty);
  }

  lemma LeafIsTyped(t: Table, c: DeviceId, m: Move, b: Table)
    requires Typed(t, m) && IsLeaf(m.ty) && m.x != c && b == map[m.x := Entry(0, m.ty, c, m.fd)]
    ensures Midtyped(t, c, b, m, {})
  {
    forall y: DeviceId ensures !Below(b, y, y) {
      BelowUnfold(b, y, y);
      BelowUnfold(b, c, y);
    }
    KindBits(m.ty);
  }

  /** A Timer that does not hear of the move loses its child, or a device below, or nothing. */
  lemma TimerLoserStaysTyped(c: DeviceId, st: T.View, f: int, t: Table, u: Table, m: Move, k: nat)
    requires TimerKnows(t, c, st, f) && Moving(t, u, m) && Typed(t, m) && TypedAs(T.Branch(c, st, f), t)
    requires !Hears(t, c, m.p) && m.p !in T.Branch(c, st, f)
    ensures TimerStaysTyped(t, u, c, st, f, m, k)
  {
    var r, o := T.Branch(c, st, f), t[m.x].parent;
    WhoIsTold(t, c, m.x, m.x, r);
    if m.x in r {
      TimerLosesTyped(c, st, f, t, u, m);
    } else {
      NoTimerEvent(c, st);
      UntouchedIsPassed(t, u, c, r, m);
    }
  }

  lemma TimerLosesTyped(c: DeviceId, st: T.View, f: int, t: Table, u: Table, m: Move)
    requires TimerKnows(t, c, st, f) && Moving(t, u, m) && Typed(t, m) && TypedAs(T.Branch(c, st, f), t)
    requires m.x in T.Branch(c, st, f) && m.p != c && m.p !in T.Branch(c, st, f)
    ensures Passed(t, u, c, m, T.Branch(c, TimerAfter(c, st, TimerLossEvents(t, c, t[m.x].parent, m.x)), f))
  {
    var r, o := T.Branch(c, st, f), t[m.x].parent;
    BelowTheChild(t, c, st, f, m.x);
    WhoIsTold(t, c, m.x, m.x, r);
    CutIsPassed(t, u, c, r, m);
    var v := TimerForgets(c, st, f, t, o, m.x);
    TimerLossTable(c, st, f, t, m.x);
  }

  /** The loss empties the types above, or leaves nothing at all. */
  lemma TimerLossTable(c: DeviceId, st: T.View, f: int, t: Table, x: DeviceId)
    requires TimerKnows(t, c, st, f) && x in T.Branch(c, st, f) && Acyclic(RemoveTree(T.Branch(c, st, f), x))
    ensures T.Branch(c, TimerAfter(c, st, TimerLossEvents(t, c, t[x].parent, x)), f) ==
            EmptyUp(RemoveTree(T.Branch(c, st, f), x), t[x].parent)
  {
    var r, o := T.Branch(c, st, f), t[x].parent;
    BelowTheChild(t, c, st, f, x);
    WhoIsTold(t, c, x, x, r);
    var v := TimerForgets(c, st, f, t, o, x);
    if o == c {
      NothingWithoutChild(t, c, st, f);
      OneTimerEvent(c, st, T.ChildRemoved);
    } else {
      OneTimerEvent(c, st, T.RemovedFrom(o, x));
    }
  }

  /** A deletion does the same. */
  lemma TimerDeletionTable(c: DeviceId, st: T.View, f: int, t: Table, x: DeviceId)
    requires TimerKnows(t, c, st, f) && x in T.Branch(c, st, f) && Acyclic(RemoveTree(T.Branch(c, st, f), x))
    ensures T.Branch(c, TimerAfter(c, st, [T.Deleted(x)]), f) == EmptyUp(RemoveTree(T.Branch(c, st, f), x), t[x].parent)
  {
    BelowTheChild(t, c, st, f, x);
    var v := TimerDeletes(c, st, f, t, x);
    OneTimerEvent(c, st, T.Deleted(x));
    if x == st.childId {
      NothingWithoutChild(t, c, st, f);
    }
  }

  /**
   A link passes a Timer: if the old parent is not left with a type that nothing below it has, the table is typed as
   the tree again when the link is over.
   */
  lemma TimerIsTyped(c: DeviceId, st: T.View, f: int, t: Table, u: Table, m: Move, k: nat)
    requires TimerKnows(t, c, st, f) && HopsOk(T.Branch(c, st, f)) && Moving(t, u, m) && Typed(t, m)
    requires (m.p in t || !Hears(t, c, m.p)) && LinkAllowed(t, m.x, m.p) && Admits(t, c, st, m)
    requires TypedAs(T.Branch(c, st, f), t) && TimerGuarded(t, c, st, m, k)
    ensures TimerStaysTyped(t, u, c, st, f, m, k)
  {
    WhoIsTold(t, c, m.x, m.p, T.Branch(c, st, f));
    KindBits(m.ty);
    if m.p == c && IsLeaf(m.ty) {
      TimerWithLeafTyped(c, st, f, t, u, m, k);
    } else if Hears(t, c, m.p) {
      TimerHearerStaysTyped(c, st, f, t, u, m, k);
    } else {
      assert m.p in T.Branch(c, st, f) ==> m.p in t;
      TimerLoserStaysTyped(c, st, f, t, u, m, k);
    }
  }

  // ---------------------------------------------------------------- and only then

  lemma StaysOutside(t: Table, u: Table, m: Move, d: DeviceId)
    requires Moving(t, u, m) && d in u && u[d].parent == t[m.x].parent
    ensures t[m.x].parent !in Moved(m) && d !in Moved(m)
  {
    BranchStaysCovered(t, u, m);
  }

  lemma NonEmptyThere(b: Table, u: Table, o: DeviceId)
    requires TypedAs(b, u) && o in b
    ensures NonEmpty(u, o) <==> NonEmpty(b, o)
    ensures IsControl(u[o].deviceType) <==> IsControl(b[o].deviceType)
  {
    SameTypeBits(b[o].deviceType, u[o].deviceType);
  }

  /** If the old parent has a type in the tree, then from a child that this Timer has recorded all along. */
  lemma ChildWasThere(t: Table, u: Table, c: DeviceId, m: Move, w: Table, b: Table)
    requires Moving(t, u, m) && LeavesAreChildless(t) && TypedOn(u, t, Moved(m)) && Backed(u, {})
    requires Covers(u, c, b) && TypedAs(b, u)
    requires SameOutside(w, b, Moved(m)) && NonEmpty(w, t[m.x].parent)
    ensures HasNonEmptyChild(w, t[m.x].parent)
  {
    var o := t[m.x].parent;
    BranchStaysCovered(t, u, m);
    assert b[o] == w[o];
    NonEmptyThere(b, u, o);
    SameTypeBits(u[o].deviceType, t[o].deviceType);
    var d :| NonEmpty(u, d) && u[d].parent == o;
    StaysOutside(t, u, m, d);
    NonEmptyThere(b, u, d);
    assert NonEmpty(w, d) && w[d].parent == o;
  }

  /** What follows the removal does not touch what is outside the moved branch. */
  lemma RestIsElsewhere(c: DeviceId, st: T.View, f: int, t: Table, u: Table, m: Move, k: nat)
    requires TimerKnows(t, c, st, f) && Moving(t, u, m) && Typed(t, m) && LinkAllowed(t, m.x, m.p)
    requires Admits(t, c, st, m) && Hears(t, c, m.p) && TypedAs(T.Branch(c, st, f), t)
    requires if m.p == c then IsControl(m.ty) else m.p in T.Branch(c, st, f)
    ensures SameOutside(TimerTold(t, c, st, m, k).table, TimerLinked(t, c, st, m, k).table, Moved(m))
    ensures TimerLinked(t, c, st, m, k).hasChild && IsControl(TimerLinked(t, c, st, m, k).childType)
  {
    var w := TimerTold(t, c, st, m, k);
    TimerToldTyped(c, st, f, t, u, m, k);
    var first := TimerHearsSome(c, st, f, t, u, m, k);
    MidwaySees(t, u, c, m, k, T.Branch(c, st, f), first.table, w.table);
    TimerHearsLoss(c, st, f, t, u, m, w);
    TimerReplaysTyped(c, w, t, u, m, Listed(m), k, first.table, {t[m.x].parent});
    var z := TimerIsReplayed(c, w, u, m, Listed(m), k, first.table);
  }

  /** So a Timer whose old parent is left with a type that nothing below it has ends with a wrong table. */
  lemma GuardIsNeeded(c: DeviceId, st: T.View, f: int, t: Table, u: Table, m: Move, k: nat)
    requires TimerKnows(t, c, st, f) && HopsOk(T.Branch(c, st, f)) && Moving(t, u, m) && Typed(t, m)
    requires (m.p in t || !Hears(t, c, m.p)) && LinkAllowed(t, m.x, m.p) && Admits(t, c, st, m)
    requires TypedAs(T.Branch(c, st, f), t) && TreeTyped(t, u, Moved(m))
    requires TypedAs(T.Branch(c, TimerLinked(t, c, st, m, k), ChildPipe(c, m, f)), u)
    ensures TimerGuarded(t, c, st, m, k)
  {
    var o, w := t[m.x].parent, TimerTold(t, c, st, m, k).table;
    if Hears(t, c, m.p) && Below(t, o, c) && NonEmpty(w, o) {
      WhoIsTold(t, c, m.x, m.p, T.Branch(c, st, f));
      if m.p == c {
        NotAboveWithoutChild(t, c, st, f, m.x);
      }
      TimerHearsAll(c, st, f, t, u, m, k);
      RestIsElsewhere(c, st, f, t, u, m, k);
      ChildWasThere(t, u, c, m, w, TimerLinked(t, c, st, m, k).table);
    }
  }

  /** A Timer's table is typed as the tree after a link exactly when the removal leaves nothing stale in it. */
  lemma TimerIsTypedIff(c: DeviceId, st: T.View, f: int, t: Table, u: Table, m: Move, k: nat)
    requires TimerKnows(t, c, st, f) && HopsOk(T.Branch(c, st, f)) && Moving(t, u, m) && Typed(t, m)
    requires (m.p in t || !Hears(t, c, m.p)) && LinkAllowed(t, m.x, m.p) && Admits(t, c, st, m)
    requires TypedAs(T.Branch(c, st, f), t) && TreeTyped(t, u, Moved(m))
    ensures TypedAs(T.Branch(c, TimerLinked(t, c, st, m, k), ChildPipe(c, m, f)), u) <==> TimerGuarded(t, c, st, m, k)
  {
    if TimerGuarded(t, c, st, m, k) {
      TimerIsTyped(c, st, f, t, u, m, k);
      TypedAgain(t, u, c, T.Branch(c, TimerLinked(t, c, st, m, k), ChildPipe(c, m, f)), Moved(m));
    } else if TypedAs(T.Branch(c, TimerLinked(t, c, st, m, k), ChildPipe(c, m, f)), u) {
      GuardIsNeeded(c, st, f, t, u, m, k);
    }
  }

  // ---------------------------------------------------------------- where it fails

  const LIT: DeviceType := HUB_DEVICE | BULB_DEVICE

  /** Below the Timer a Hub `h` with a Hub `a` below it, of these types, both reached through the Timer's one pipe. */
  ghost function TwoHubs(id: DeviceId, h: DeviceId, a: DeviceId, fd: int, ty: DeviceType): Table {
    map[h := Entry(0, ty, id, fd), a := Entry(0, ty, h, fd)]
  }

  /** The bulb `x` is linked to `a`, then from there to `h`, and deleted. */
  ghost function MovesInside(h: DeviceId, a: DeviceId, x: DeviceId): seq<T.TimerEvent> {
    [T.Descendant(x, a, BULB_DEVICE), T.Descendant(x, h, BULB_DEVICE), T.RemovedFrom(a, x), T.Deleted(x)]
  }

  lemma BitsOfLit()
    ensures FilledType(HUB_DEVICE, ChildType(BULB_DEVICE)) == LIT
    ensures TIMER_DEVICE | ChildType(LIT) == TIMER_DEVICE | BULB_DEVICE
    ensures ChildType(BULB_DEVICE) == BULB_DEVICE && !IsEmpty(LIT) && IsEmpty(HUB_DEVICE) && !IsEmpty(BULB_DEVICE)
    ensures IsControl(LIT) && IsControl(HUB_DEVICE) && TIMER_DEVICE | ChildType(HUB_DEVICE) == TIMER_DEVICE
  {
  }

  /** The bulb is linked below `a`: both Hubs take its type. */
  lemma BulbIsLearned(id: DeviceId, h: DeviceId, a: DeviceId, x: DeviceId, fd: int)
    requires h != a && h != x && a != x && id != h && id != a && id != x
    ensures Learn(TwoHubs(id, h, a, fd, HUB_DEVICE), x, a, BULB_DEVICE) ==
            TwoHubs(id, h, a, fd, LIT)[x := Entry(0, BULB_DEVICE, a, fd)]
  {
    var t := TwoHubs(id, h, a, fd, HUB_DEVICE);
    var u := Put(t, x, 0, BULB_DEVICE, a, fd);
    BitsOfLit();
    var v := WithType(u, a, LIT);
    var w := WithType(v, h, LIT);
    assert FillUp(w, id, BULB_DEVICE) == w;
    assert FillUp(v, h, BULB_DEVICE) == w;
    assert FillUp(u, a, BULB_DEVICE) == w;
  }

  /** Then it is linked to `h`, whose type is right already. */
  lemma BulbIsMoved(id: DeviceId, h: DeviceId, a: DeviceId, x: DeviceId, fd: int)
    requires h != a && h != x && a != x && id != h && id != a && id != x
    ensures var t := TwoHubs(id, h, a, fd, LIT);
            Learn(t[x := Entry(0, BULB_DEVICE, a, fd)], x, h, BULB_DEVICE) == t[x := Entry(0, BULB_DEVICE, h, fd)]
  {
    BitsOfLit();
  }

  lemma NothingAbove(id: DeviceId, h: DeviceId, a: DeviceId, x: DeviceId, t: Table)
    requires h in t && t[h].parent == id && a in t && t[a].parent == h && id !in t && x != h && x != id
    ensures !Below(t, a, x) && !Below(t, h, x)
  {
    BelowUnfold(t, a, x);
    BelowUnfold(t, h, x);
    BelowUnfold(t, id, x);
  }

  /** The two Hubs are announced. */
  lemma HubsBelowTimer(id: DeviceId, h: DeviceId, a: DeviceId, fd: int) returns (v: T.View)
    requires h != a && id != h && id != a
    ensures TimerLeads(id, T.NO_CHILD, [T.Child(h, HUB_DEVICE, fd), T.Descendant(a, h, HUB_DEVICE)], v)
    ensures v == T.View(TwoHubs(id, h, a, fd, HUB_DEVICE), true, h, HUB_DEVICE, TIMER_DEVICE)
  {
    var e1, e2 := T.Child(h, HUB_DEVICE, fd), T.Descendant(a, h, HUB_DEVICE);
    BitsOfLit();
    T.StartIsSound(id);
    TimerLeadsOne(id, T.NO_CHILD, e1);
    var w := T.Step(id, T.NO_CHILD, e1);
    assert w.table == map[h := Entry(0, HUB_DEVICE, id, fd)];
    BelowUnfold(w.table, h, a);
    BelowUnfold(w.table, id, a);
    TimerLeadsNext(id, T.NO_CHILD, [e1], w, e2);
    v := T.Step(id, w, e2);
    assert v.table == TwoHubs(id, h, a, fd, HUB_DEVICE);
    assert [e1] + [e2] == [e1, e2];
  }

  /** The bulb comes to `a`, and then to `h`. */
  lemma BulbMovesInside(id: DeviceId, h: DeviceId, a: DeviceId, x: DeviceId, fd: int, es: seq<T.TimerEvent>, v: T.View)
    requires h != a && h != x && a != x && id != h && id != a && id != x && TimerLeads(id, T.NO_CHILD, es, v)
    requires v == T.View(TwoHubs(id, h, a, fd, HUB_DEVICE), true, h, HUB_DEVICE, TIMER_DEVICE)
    ensures var t := TwoHubs(id, h, a, fd, LIT)[x := Entry(0, BULB_DEVICE, h, fd)];
            TimerLeads(id, T.NO_CHILD, es + [T.Descendant(x, a, BULB_DEVICE)] + [T.Descendant(x, h, BULB_DEVICE)],
                       T.View(t, true, h, LIT, TIMER_DEVICE | BULB_DEVICE))
  {
    var e1, e2 := T.Descendant(x, a, BULB_DEVICE), T.Descendant(x, h, BULB_DEVICE);
    BitsOfLit();
    NothingAbove(id, h, a, x, v.table);
    BulbIsLearned(id, h, a, x, fd);
    TimerLeadsNext(id, T.NO_CHILD, es, v, e1);
    var w := T.Step(id, v, e1);
    NothingAbove(id, h, a, x, w.table);
    BulbIsMoved(id, h, a, x, fd);
    TimerLeadsNext(id, T.NO_CHILD, es + [e1], w, e2);
  }

  /** The removal from `a` is ignored, and so the deletion empties neither Hub. */
  lemma BulbIsDeleted(id: DeviceId, h: DeviceId, a: DeviceId, x: DeviceId, fd: int, es: seq<T.TimerEvent>, v: T.View)
    requires h != a && h != x && a != x && id != h && id != a && id != x && TimerLeads(id, T.NO_CHILD, es, v)
    requires var t := TwoHubs(id, h, a, fd, LIT)[x := Entry(0, BULB_DEVICE, h, fd)];
             v == T.View(t, true, h, LIT, TIMER_DEVICE | BULB_DEVICE)
    ensures TimerLeads(id, T.NO_CHILD, es + [T.RemovedFrom(a, x)] + [T.Deleted(x)],
                       T.View(TwoHubs(id, h, a, fd, LIT), true, h, LIT, TIMER_DEVICE | BULB_DEVICE))
  {
    var t := v.table;
    BitsOfLit();
    TimerLeadsNext(id, T.NO_CHILD, es, v, T.RemovedFrom(a, x));
    TimerLeadsNext(id, T.NO_CHILD, es + [T.RemovedFrom(a, x)], v, T.Deleted(x));
    NothingAbove(id, h, a, x, t);
    var u := RemoveTree(t, x);
    assert u == TwoHubs(id, h, a, fd, LIT);
    SubTableAcyclic(u, t);
    assert NonEmpty(u, a) && u[a].parent == h;
    assert EmptyUp(u, h) == u;
  }

  /**
   A bulb that moves from one Hub below a Timer to another Hub below it, and is then deleted, leaves the Timer
   declaring a bulb, with nothing but the two Hubs below it.
   */
  lemma MovedInsideIsKept(id: DeviceId, h: DeviceId, a: DeviceId, x: DeviceId, fd: int) returns (es: seq<T.TimerEvent>)
    requires h != a && h != x && a != x && id != h && id != a && id != x
    ensures es == [T.Child(h, HUB_DEVICE, fd), T.Descendant(a, h, HUB_DEVICE)] + MovesInside(h, a, x)
    ensures T.IsRun(id, T.NO_CHILD, es)
    ensures var v := T.Final(id, T.NO_CHILD, es);
            && v.deviceType == TIMER_DEVICE | BULB_DEVICE && v.table.Keys == {h, a}
            && IsHub(v.table[h].deviceType) && IsHub(v.table[a].deviceType)
  {
    var es1 := [T.Child(h, HUB_DEVICE, fd), T.Descendant(a, h, HUB_DEVICE)];
    var v := HubsBelowTimer(id, h, a, fd);
    BulbMovesInside(id, h, a, x, fd, es1, v);
    var es2 := es1 + [T.Descendant(x, a, BULB_DEVICE)] + [T.Descendant(x, h, BULB_DEVICE)];
    var t := TwoHubs(id, h, a, fd, LIT)[x := Entry(0, BULB_DEVICE, h, fd)];
    BulbIsDeleted(id, h, a, x, fd, es2, T.View(t, true, h, LIT, TIMER_DEVICE | BULB_DEVICE));
    es := es2 + [T.RemovedFrom(a, x)] + [T.Deleted(x)];
    assert es == es1 + MovesInside(h, a, x);
    BitsOfLit();
  }
}
