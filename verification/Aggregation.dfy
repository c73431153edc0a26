/**
 Nested Hubs answer an info request, a switch or a delete as if all leaves hung from one Hub: the states are joined,
 the times maximised and the errors disjoined, whatever the nesting and the order of the answers. Only a Hub without
 leaf devices makes a difference: it refuses switches.
 */
module Aggregation {
  import opened Devices
  import opened Protocol
  import opened Broadcasts

  /** A branch without Timers. A Hub's children are listed in the order in which they answer. */
  datatype Branch =
    | Leaf(id: DeviceId, state: U8, time: U16)
    | BrokenLeaf(id: DeviceId, error: Code)
    | Hub(id: DeviceId, children: seq<Branch>)

  ghost predicate WellFormed(b: Branch) {
    match b
    case Leaf(_, _, _) => true
    case BrokenLeaf(_, e) => IsError(e)
    case Hub(_, bs) => forall c | c in bs :: WellFormed(c)
  }

  /** The commands a Hub broadcasts. */
  predicate Gathered(code: Code) { IsInfo(code) || IsSwitch(code) || IsDelete(code) }

  // ---------------------------------------------------------------- what the devices answer

  predicate HasLeaf(b: Branch)
    decreases b
  {
    match b
    case Leaf(_, _, _) => true
    case BrokenLeaf(_, _) => true
    case Hub(_, bs) => exists c | c in bs :: HasLeaf(c)
  }

  /** A Hub declares the leaf type below it, if there is one, and refuses a switch whose label does not suit it. */
  predicate Refuses(code: Code, kind: DeviceType, b: Branch) {
    b.Hub? && IsSwitch(code) && !(HasLeaf(b) && SwitchFits(kind, code))
  }

  function Gather(code: Code, kind: DeviceType, s: Summary, bs: seq<Branch>): Summary
    decreases bs
  {
    if bs == [] then s else Gather(code, kind, Merge(s, Reply(code, kind, bs[0]), bs[0].Hub?), bs[1..])
  }

  /** The response of the top device of a branch over leaves of one kind. */
  function Reply(code: Code, kind: DeviceType, b: Branch): Response
    decreases b
  {
    match b
    case Leaf(id, state, time) => Response(id, code, OK, if IsInfo(code) then [state, time] else [])
    case BrokenLeaf(id, error) => Response(id, code, error, [])
    case Hub(id, bs) =>
      if Refuses(code, kind, b) then Response(id, code, UNEXPECTED_COMMAND, [])
      else if bs == [] then Response(id, code, OK, if IsInfo(code) then [UNDEFINED_STATE, 0] else [])
      else Format(id, Pending(code, [], Gather(code, kind, NO_ANSWERS, bs)), Reply(code, kind, bs[|bs| - 1]))
  }

  // ---------------------------------------------------------------- what should be answered

  function States(b: Branch): set<U8>
    decreases b
  {
    match b
    case Leaf(_, state, _) => {state}
    case BrokenLeaf(_, _) => {}
    case Hub(_, bs) => set c, x | c in bs && x in States(c) :: x
  }

  function Times(b: Branch): set<U16>
    decreases b
  {
    match b
    case Leaf(_, _, time) => {time}
    case BrokenLeaf(_, _) => {}
    case Hub(_, bs) => set c, x | c in bs && x in Times(c) :: x
  }

  ghost predicate SomethingFailed(b: Branch)
    decreases b
  {
    match b
    case Leaf(_, _, _) => false
    case BrokenLeaf(_, _) => true
    case Hub(_, bs) => exists c | c in bs :: SomethingFailed(c)
  }

  /** The branch answers with an error, or reports one. */
  ghost predicate Fails(code: Code, kind: DeviceType, b: Branch)
    decreases b
  {
    match b
    case Leaf(_, _, _) => false
    case BrokenLeaf(_, _) => true
    case Hub(_, bs) => Refuses(code, kind, b) || exists c | c in bs :: Fails(code, kind, c)
  }

  /** The common state of a group: undefined when nobody reports one, manual override when they differ. */
  ghost predicate IsJoin(states: set<U8>, r: U8) {
    var defined := states - {UNDEFINED_STATE};
    if defined == {} then r == UNDEFINED_STATE
    else if forall x, y | x in defined && y in defined :: x == y then r in defined
    else r == MANUAL_OVERRIDE
  }

  ghost predicate IsMax(times: set<U16>, r: U16) {
    (r == 0 || r in times) && forall x | x in times :: x <= r
  }

  ghost predicate Sums(code: Code, s: Summary, states: set<U8>, times: set<U16>, failed: bool) {
    (IsInfo(code) ==> IsJoin(states, s.state) && IsMax(times, s.maxTime)) && (s.hasError <==> failed)
  }

  // ---------------------------------------------------------------- merging is a join

  lemma JoinOfJoins(a: set<U8>, b: set<U8>, x: U8, y: U8)
    requires IsJoin(a, x) && IsJoin(b, y)
    ensures IsJoin(a + b, MergeState(x, y))
  {
    var da, db, d := a - {UNDEFINED_STATE}, b - {UNDEFINED_STATE}, (a + b) - {UNDEFINED_STATE};
    assert d == da + db;
    assert y % 0x100 == y;
    if da == {} {
      assert d == db;
    } else if db == {} {
      assert d == da;
    }
  }

  ghost predicate FailsAmong(code: Code, kind: DeviceType, bs: seq<Branch>) {
    exists c | c in bs :: Fails(code, kind, c)
  }

  ghost function StatesOf(bs: seq<Branch>): set<U8> { set c, x | c in bs && x in States(c) :: x }

  ghost function TimesOf(bs: seq<Branch>): set<U16> { set c, x | c in bs && x in Times(c) :: x }

  /** The answer of a branch carries the join over its leaves, and says whether something below it failed. */
  ghost predicate AnswersFor(code: Code, kind: DeviceType, b: Branch, r: Response) {
    match b
    case Leaf(id, state, time) => r == Response(id, code, OK, if IsInfo(code) then [state, time] else [])
    case BrokenLeaf(id, error) => r == Response(id, code, error, [])
    case Hub(id, bs) =>
      var failure := if FailsAmong(code, kind, bs) then [CHILD_ERROR as int] else [];
      if IsSwitch(code) && !(HasLeaf(b) && SwitchFits(kind, code)) then r == Response(id, code, UNEXPECTED_COMMAND, [])
      else if IsInfo(code) then
        exists state: U8, time: U16 :: IsJoin(States(b), state) && IsMax(Times(b), time) &&
          r == Response(id, code, OK, [state, time] + failure)
      else r == Response(id, code, OK, failure)
  }

  lemma MergeLeaf(code: Code, kind: DeviceType, s: Summary, states: set<U8>, times: set<U16>, failed: bool, b: Branch,
                  r: Response)
    requires Gathered(code) && b.Leaf? && Sums(code, s, states, times, failed) && AnswersFor(code, kind, b, r)
    ensures Sums(code, Merge(s, r, false), states + States(b), times + Times(b), failed)
  {
    if IsInfo(code) {
      assert IsJoin({b.state}, b.state) by {
        assert {b.state} - {UNDEFINED_STATE} == if b.state == UNDEFINED_STATE then {} else {b.state};
      }
      JoinOfJoins(states, {b.state}, s.state, b.state);
    }
  }

  lemma MergeHub(code: Code, kind: DeviceType, s: Summary, states: set<U8>, times: set<U16>, failed: bool, b: Branch,
                 r: Response)
    requires Gathered(code) && b.Hub? && Sums(code, s, states, times, failed) && AnswersFor(code, kind, b, r)
    ensures Sums(code, Merge(s, r, true), states + States(b), times + Times(b), failed || Fails(code, kind, b))
  {
    CodesDiffer(code);
    if IsInfo(code) {
      var failure := if FailsAmong(code, kind, b.children) then [CHILD_ERROR as int] else [];
      var state: U8, time: U16 :| IsJoin(States(b), state) && IsMax(Times(b), time) &&
        r == Response(b.id, code, OK, [state, time] + failure);
      JoinOfJoins(states, States(b), s.state, state);
    }
  }

  lemma CodesDiffer(code: Code)
    ensures IsInfo(code) ==> !IsSwitch(code) && !IsDelete(code)
    ensures IsSwitch(code) ==> !IsDelete(code)
    ensures IsError(UNEXPECTED_COMMAND) && !IsError(OK)
  {
  }

  /** Merging the answer of one more branch accounts for exactly its leaves. */
  lemma MergeAccounts(code: Code, kind: DeviceType, s: Summary, states: set<U8>, times: set<U16>, failed: bool,
                      b: Branch, r: Response)
    requires Gathered(code) && WellFormed(b) && Sums(code, s, states, times, failed) && AnswersFor(code, kind, b, r)
    ensures Sums(code, Merge(s, r, b.Hub?), states + States(b), times + Times(b), failed || Fails(code, kind, b))
  {
    match b
    case Leaf(_, _, _) => MergeLeaf(code, kind, s, states, times, failed, b, r);
    case BrokenLeaf(_, _) => assert states + {} == states && times + {} == times;
    case Hub(_, _) => MergeHub(code, kind, s, states, times, failed, b, r);
  }

  lemma {:induction false} GatherAccounts(code: Code, kind: DeviceType, s: Summary, states: set<U8>, times: set<U16>,
                                          failed: bool, bs: seq<Branch>)
    requires Gathered(code) && (forall c | c in bs :: WellFormed(c)) && Sums(code, s, states, times, failed)
    ensures Sums(code, Gather(code, kind, s, bs), states + StatesOf(bs), times + TimesOf(bs),
                 failed || FailsAmong(code, kind, bs))
    decreases bs
  {
    if bs == [] {
      assert states + StatesOf(bs) == states && times + TimesOf(bs) == times;
    } else {
      var b, rest := bs[0], bs[1..];
      assert bs == [b] + rest;
      Flattens(code, kind, b);
      MergeAccounts(code, kind, s, states, times, failed, b, Reply(code, kind, b));
      GatherAccounts(code, kind, Merge(s, Reply(code, kind, b), b.Hub?), states + States(b), times + Times(b),
                     failed || Fails(code, kind, b), rest);
      AllOf(code, kind, states, times, b, rest);
    }
  }

  lemma AllOf(code: Code, kind: DeviceType, states: set<U8>, times: set<U16>, b: Branch, rest: seq<Branch>)
    ensures (states + States(b)) + StatesOf(rest) == states + StatesOf([b] + rest)
    ensures (times + Times(b)) + TimesOf(rest) == times + TimesOf([b] + rest)
    ensures FailsAmong(code, kind, [b] + rest) <==> Fails(code, kind, b) || FailsAmong(code, kind, rest)
  {
    var bs := [b] + rest;
    assert forall c :: c in bs <==> c == b || c in rest;
    assert StatesOf(bs) == States(b) + StatesOf(rest);
    assert TimesOf(bs) == Times(b) + TimesOf(rest);
  }

  /**
   The reply of a Hub over any nesting of Hubs: to an info request, the join of all answering leaves' states and the
   maximum of their times; and for all three commands, a child error exactly when some branch below it failed.
   */
  lemma {:induction false} Flattens(code: Code, kind: DeviceType, b: Branch)
    requires Gathered(code) && WellFormed(b)
    ensures AnswersFor(code, kind, b, Reply(code, kind, b))
    decreases b
  {
    CodesDiffer(code);
    if b.Hub? && !Refuses(code, kind, b) {
      var bs := b.children;
      if bs == [] {
        assert States(b) == {} && Times(b) == {};
        assert IsJoin(States(b), UNDEFINED_STATE) && IsMax(Times(b), 0);
      } else {
        GatherAccounts(code, kind, NO_ANSWERS, {}, {}, false, bs);
        assert StatesOf(bs) == States(b) && TimesOf(bs) == Times(b);
        assert {} + StatesOf(bs) == States(b) && {} + TimesOf(bs) == Times(b);
        LastAnswer(code, kind, b);
        var s := Gather(code, kind, NO_ANSWERS, bs);
        assert IsInfo(code) ==> IsJoin(States(b), s.state) && IsMax(Times(b), s.maxTime);
      }
    }
  }

  /** If nothing failed, the last answer to a delete, over which the Hub's own is written, has no arguments. */
  lemma {:induction false} LastAnswer(code: Code, kind: DeviceType, b: Branch)
    requires IsDelete(code) ==> b.Hub? && b.children != [] && WellFormed(b)
    ensures IsDelete(code) && !FailsAmong(code, kind, b.children) ==>
              Reply(code, kind, b.children[|b.children| - 1]).arguments == []
    decreases b, 0
  {
    if IsDelete(code) && !FailsAmong(code, kind, b.children) {
      var last := b.children[|b.children| - 1];
      CodesDiffer(code);
      assert last in b.children;
      Flattens(code, kind, last);
    }
  }

  /** Some Hub of the branch has no leaf device below it. */
  ghost predicate HasBareHub(b: Branch)
    decreases b
  {
    match b
    case Leaf(_, _, _) => false
    case BrokenLeaf(_, _) => false
    case Hub(_, bs) => !HasLeaf(b) || exists c | c in bs :: HasBareHub(c)
  }

  /** What fails an info request or a delete is a leaf; a switch whose label suits the leaves fails at bare Hubs too. */
  lemma {:induction false} FailsIff(code: Code, kind: DeviceType, b: Branch)
    requires Gathered(code) && (IsSwitch(code) ==> SwitchFits(kind, code))
    ensures Fails(code, kind, b) <==> SomethingFailed(b) || (IsSwitch(code) && HasBareHub(b))
    decreases b
  {
    if b.Hub? {
      CodesDiffer(code);
      forall c | c in b.children
        ensures Fails(code, kind, c) <==> SomethingFailed(c) || (IsSwitch(code) && HasBareHub(c))
      {
        FailsIff(code, kind, c);
      }
    }
  }

  /** A delete is answered with OK, and with a child error exactly when some leaf failed. */
  lemma DeleteReports(code: Code, kind: DeviceType, id: DeviceId, bs: seq<Branch>)
    requires code & COMMAND_MASK == DELETE && WellFormed(Hub(id, bs))
    ensures Reply(code, kind, Hub(id, bs)) ==
            Response(id, code, OK, if SomethingFailed(Hub(id, bs)) then [CHILD_ERROR as int] else [])
  {
    CodesDiffer(code);
    Flattens(code, kind, Hub(id, bs));
    FailsIff(code, kind, Hub(id, bs));
  }

  /**
   A switch whose label suits the leaves is answered with OK by a Hub that has any, and with a child error exactly
   when some leaf failed or some Hub in between has none.
   */
  lemma SwitchReports(code: Code, kind: DeviceType, id: DeviceId, bs: seq<Branch>)
    requires code & COMMAND_MASK == SWITCH && WellFormed(Hub(id, bs)) && SwitchFits(kind, code) && HasLeaf(Hub(id, bs))
    ensures Reply(code, kind, Hub(id, bs)) ==
            Response(id, code, OK,
              if SomethingFailed(Hub(id, bs)) || HasBareHub(Hub(id, bs)) then [CHILD_ERROR as int] else [])
  {
    CodesDiffer(code);
    Flattens(code, kind, Hub(id, bs));
    FailsIff(code, kind, Hub(id, bs));
  }

  /** A Hub over a bulb that obeys and a Hub without children reports a child error. */
  lemma BareHubFailsSwitch(state: U8, time: U16)
    ensures var b := Hub(1, [Leaf(3, state, time), Hub(2, [])]);
            && !SomethingFailed(b)
            && Reply(SWITCH | SWITCH_POWER | POSITION_ON, BULB_DEVICE, b) ==
               Response(1, SWITCH | SWITCH_POWER | POSITION_ON, OK, [CHILD_ERROR as int])
  {
    var leaf, bare := Leaf(3, state, time), Hub(2, []);
    var b := Hub(1, [leaf, bare]);
    assert leaf in b.children && bare in b.children;
    assert HasLeaf(leaf) && HasBareHub(bare);
    assert SwitchFits(BULB_DEVICE, SWITCH | SWITCH_POWER | POSITION_ON);
    SwitchReports(SWITCH | SWITCH_POWER | POSITION_ON, BULB_DEVICE, 1, [leaf, bare]);
  }

  lemma JoinsAgree(states: set<U8>, x: U8, y: U8, times: set<U16>, s: U16, t: U16)
    requires IsJoin(states, x) && IsJoin(states, y) && IsMax(times, s) && IsMax(times, t)
    ensures x == y && s == t
  {
  }

  /** The same for an info request alone, which bare Hubs answer like any other. */
  lemma SameInfo(code: Code, kind: DeviceType, a: Branch, b: Branch, r: Response, q: Response)
    requires IsInfo(code) && !IsSwitch(code) && a.Hub? && b.Hub?
    requires AnswersFor(code, kind, a, r) && AnswersFor(code, kind, b, q)
    requires States(a) == States(b) && Times(a) == Times(b)
    requires FailsAmong(code, kind, a.children) <==> FailsAmong(code, kind, b.children)
    ensures q == r.(source := b.id)
  {
    var x: U8, s: U16 :| IsJoin(States(a), x) && IsMax(Times(a), s) && r.arguments[..2] == [x, s];
    var y: U8, t: U16 :| IsJoin(States(b), y) && IsMax(Times(b), t) && q.arguments[..2] == [y, t];
    JoinsAgree(States(a), x, y, Times(a), s, t);
  }

  /** Hubs over the same states and times of which both or none reports a failure give the same answer. */
  lemma SameAnswer(code: Code, kind: DeviceType, a: Branch, b: Branch, r: Response, q: Response)
    requires a.Hub? && b.Hub? && AnswersFor(code, kind, a, r) && AnswersFor(code, kind, b, q)
    requires States(a) == States(b) && Times(a) == Times(b) && (HasLeaf(a) <==> HasLeaf(b))
    requires FailsAmong(code, kind, a.children) <==> FailsAmong(code, kind, b.children)
    ensures q == r.(source := b.id)
  {
    CodesDiffer(code);
    if IsInfo(code) {
      SameInfo(code, kind, a, b, r, q);
    }
  }

  /** Nesting does not matter: Hubs over the same leaf states, times and failures give the same reply. */
  lemma NestingDoesNotMatter(code: Code, kind: DeviceType, a: Branch, b: Branch)
    requires Gathered(code) && WellFormed(a) && WellFormed(b) && a.Hub? && b.Hub?
    requires States(a) == States(b) && Times(a) == Times(b) && (SomethingFailed(a) <==> SomethingFailed(b))
    requires IsSwitch(code) ==>
               SwitchFits(kind, code) && HasLeaf(a) && HasLeaf(b) && (HasBareHub(a) <==> HasBareHub(b))
    ensures Reply(code, kind, b) == Reply(code, kind, a).(source := b.id) && Reply(code, kind, a).responseCode == OK
  {
    Flattens(code, kind, a);
    Flattens(code, kind, b);
    FailsIff(code, kind, a);
    FailsIff(code, kind, b);
    CodesDiffer(code);
    if IsInfo(code) {
      SameInfo(code, kind, a, b, Reply(code, kind, a), Reply(code, kind, b));
    }
  }

  /** The order in which children answer does not matter. */
  lemma OrderDoesNotMatter(code: Code, kind: DeviceType, id: DeviceId, bs: seq<Branch>, cs: seq<Branch>)
    requires Gathered(code) && multiset(bs) == multiset(cs) && forall c | c in bs :: WellFormed(c)
    ensures Reply(code, kind, Hub(id, bs)) == Reply(code, kind, Hub(id, cs))
  {
    forall c ensures c in bs <==> c in cs {
      assert c in multiset(bs) <==> c in multiset(cs);
    }
    var a, b := Hub(id, bs), Hub(id, cs);
    assert States(a) == States(b) && Times(a) == Times(b) && (HasLeaf(a) <==> HasLeaf(b));
    assert FailsAmong(code, kind, bs) <==> FailsAmong(code, kind, cs);
    Flattens(code, kind, a);
    Flattens(code, kind, b);
    SameAnswer(code, kind, a, b, Reply(code, kind, a), Reply(code, kind, b));
  }

  // ---------------------------------------------------------------- the broadcast list computes it

  /** The answers of `bs`, in that order, handled by a Hub whose list is `l`. */
  ghost function Serve(code: Code, kind: DeviceType, l: seq<Pending>, bs: seq<Branch>)
    : (seq<Pending>, seq<Pending>)
    decreases |bs|
  {
    if bs == [] then (l, [])
    else
      var (l1, done1) := CreditList(l, Reply(code, kind, bs[0]), bs[0].Hub?);
      var (l2, done2) := Serve(code, kind, l1, bs[1..]);
      (l2, done1 + done2)
  }

  ghost predicate DistinctIds(bs: seq<Branch>) {
    (forall i, j | 0 <= i < j < |bs| :: bs[i].id != bs[j].id) && forall i | 0 <= i < |bs| :: bs[i].id != NO_ID
  }

  /** One broadcast completes at the last answer, in whatever order they come, with the gathered summary. */
  lemma {:induction false} BroadcastGathers(kind: DeviceType, p: Pending, bs: seq<Branch>)
    requires bs != [] && DistinctIds(bs)
    requires forall d | d != NO_ID :: d in p.devices <==> exists b :: b in bs && b.id == d
    ensures var (l, done) := Serve(p.commandCode, kind, [p], bs);
            l == [] && |done| == 1 && done[0].commandCode == p.commandCode
            && done[0].summary == Gather(p.commandCode, kind, p.summary, bs)
    decreases |bs|
  {
    var b, rest, code := bs[0], bs[1..], p.commandCode;
    assert bs == [b] + rest;
    var q := Answered(p, b.id).(summary := Merge(p.summary, Reply(code, kind, b), b.Hub?));
    assert b in bs;
    ClearedDevices(p, bs);
    assert Matches(p, code, b.id, false) && [p][0] == p && [p][1..] == [];
    assert CreditList([p], Reply(code, kind, b), b.Hub?) ==
           (if AllAnswered(q.devices) then ([], [q]) else ([q] + [], []));
    assert [q] + [] == [q];
    if rest == [] {
      assert AllAnswered(q.devices);
      assert Serve(code, kind, [], rest) == ([], []);
    } else {
      assert rest[0] in rest;
      BroadcastGathers(kind, q, rest);
    }
  }

  lemma ClearedDevices(p: Pending, bs: seq<Branch>)
    requires bs != [] && DistinctIds(bs)
    requires forall d | d != NO_ID :: d in p.devices <==> exists b :: b in bs && b.id == d
    ensures bs[0].id in p.devices
    ensures forall d | d != NO_ID :: d in Clear(p.devices, bs[0].id) <==> exists b :: b in bs[1..] && b.id == d
    ensures bs[1..] == [] ==> AllAnswered(Clear(p.devices, bs[0].id))
    ensures bs[1..] != [] ==> !AllAnswered(Clear(p.devices, bs[0].id))
  {
    var x, ds, rest := bs[0].id, Clear(p.devices, bs[0].id), bs[1..];
    assert bs == [bs[0]] + rest;
    assert x in p.devices by {
      assert bs[0] in bs && bs[0].id == x;
    }
    forall d | d != NO_ID ensures d in ds <==> exists b :: b in rest && b.id == d {
      assert d in ds <==> d in p.devices && d != x by {
        if d in ds { var i :| 0 <= i < |ds| && ds[i] == d; assert p.devices[i] == d; }
        if d in p.devices && d != x { var i :| 0 <= i < |p.devices| && p.devices[i] == d; assert ds[i] == d; }
      }
      if d in p.devices && d != x {
        var b :| b in bs && b.id == d;
        assert b in rest;
      }
      if b :| b in rest && b.id == d {
        var i :| 0 <= i < |rest| && rest[i] == b;
        assert bs[i + 1] == b && b in bs;
      }
    }
    if rest != [] {
      assert rest[0] in rest && bs[1] == rest[0];
      assert rest[0].id in ds;
    } else {
      forall i | 0 <= i < |ds| ensures ds[i] == NO_ID {
        assert ds[i] in ds;
      }
    }
  }
}
