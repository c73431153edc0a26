/**
 The Hub's list of broadcasts waiting for answers. The list is modelled as the Hub keeps it and
 compared with a ledger that remembers every broadcast ever made.
 */
module Broadcasts {
  import opened Devices
  import opened Forest
  import opened Protocol

  /** A control device state is an unsigned 8-bit integer. */
  type U8 = i: int | 0 <= i < 0x100

  /** What has been gathered from the answers so far. */
  datatype Summary = Summary(state: U8, maxTime: U16, hasError: bool)

  const NO_ANSWERS := Summary(UNDEFINED_STATE, 0, false)

  /** A broadcast and the children it awaits; an answered slot holds NO_ID. */
  datatype Pending = Pending(commandCode: Code, devices: seq<DeviceId>, summary: Summary)

  // ---------------------------------------------------------------- merging one answer

  /** The state of a group after one more member reports `b`. */
  function MergeState(a: U8, b: U16): U8 {
    if a == UNDEFINED_STATE then b % 0x100
    else if a != b && b != UNDEFINED_STATE then MANUAL_OVERRIDE
    else a
  }

  /** A Hub answers OK even when one of its children failed; it says so in an additional argument. */
  predicate ReportsChildError(r: Response) {
    || (IsInfo(r.commandCode) && |r.arguments| == 3 && r.arguments[2] == CHILD_ERROR as int)
    || (IsSwitch(r.commandCode) && |r.arguments| == 1 && r.arguments[0] == CHILD_ERROR as int)
    || (IsDelete(r.commandCode) && |r.arguments| == 1 && r.arguments[0] == CHILD_ERROR as int)
  }

  function Merge(s: Summary, r: Response, fromHub: bool): Summary {
    var carries := IsInfo(r.commandCode) && |r.arguments| >= 2;
    Summary(
      if carries then MergeState(s.state, r.arguments[0]) else s.state,
      if carries && r.arguments[1] > s.maxTime then r.arguments[1] else s.maxTime,
      s.hasError || IsError(r.responseCode) || (fromHub && ReportsChildError(r)))
  }

  // ---------------------------------------------------------------- the slots of one broadcast

  function Clear(ds: seq<DeviceId>, x: DeviceId): (r: seq<DeviceId>)
    ensures |r| == |ds|
    ensures forall i | 0 <= i < |ds| :: r[i] == if ds[i] == x then NO_ID else ds[i]
  {
    if ds == [] then [] else [if ds[0] == x then NO_ID else ds[0]] + Clear(ds[1..], x)
  }

  ghost predicate AllAnswered(ds: seq<DeviceId>) { forall i | 0 <= i < |ds| :: ds[i] == NO_ID }

  function Answered(p: Pending, x: DeviceId): Pending { p.(devices := Clear(p.devices, x)) }

  /** The first broadcast that awaits `x`, among those of the command unless it is ignored. */
  ghost predicate IsFirstAwaiting(l: seq<Pending>, code: Code, x: DeviceId, anyCommand: bool, i: int) {
    && 0 <= i < |l| && Matches(l[i], code, x, anyCommand)
    && forall j | 0 <= j < i :: !Matches(l[j], code, x, anyCommand)
  }

  predicate Matches(p: Pending, code: Code, x: DeviceId, anyCommand: bool) {
    (anyCommand || p.commandCode == code) && x in p.devices
  }

  // ---------------------------------------------------------------- a child disappears

  /** Every broadcast stops awaiting `x`; the second result lists those this completes, in order. */
  ghost function Depart(l: seq<Pending>, x: DeviceId): (seq<Pending>, seq<Pending>) {
    if l == [] then ([], [])
    else
      var (rest, done) := Depart(l[1..], x);
      var q := Answered(l[0], x);
      if x !in l[0].devices then ([l[0]] + rest, done)
      else if AllAnswered(q.devices) then (rest, [q] + done)
      else ([q] + rest, done)
  }

  function Without<T>(l: seq<T>, i: nat): seq<T>
    requires i < |l|
  {
    l[..i] + l[i + 1..]
  }

  /** Removing or replacing an element of the tail leaves the head in place. */
  lemma TailChanges<T>(l: seq<T>, i: nat, q: T)
    requires 0 < i < |l|
    ensures Without(l, i) == [l[0]] + Without(l[1..], i - 1)
    ensures l[i := q] == [l[0]] + l[1..][i - 1 := q]
  {
  }

  lemma DepartCons(p: Pending, rest: seq<Pending>, x: DeviceId)
    ensures Depart([p] + rest, x) ==
            var (l, done) := Depart(rest, x);
            var q := Answered(p, x);
            if x !in p.devices then ([p] + l, done)
            else if AllAnswered(q.devices) then (l, [q] + done)
            else ([q] + l, done)
  {
    assert ([p] + rest)[1..] == rest;
  }

  /** Handling the first broadcast that awaits `x` leaves the same work for the rest. */
  lemma {:induction false} DepartStep(l: seq<Pending>, x: DeviceId, i: nat)
    requires x != NO_ID && IsFirstAwaiting(l, 0, x, true, i)
    ensures var q := Answered(l[i], x);
            if AllAnswered(q.devices)
            then Depart(l, x).0 == Depart(Without(l, i), x).0 && Depart(l, x).1 == [q] + Depart(Without(l, i), x).1
            else Depart(l, x) == Depart(l[i := q], x)
    decreases i
  {
    var q := Answered(l[i], x);
    if i == 0 {
      assert Without(l, 0) == l[1..];
      assert l[0 := q] == [q] + l[1..];
      DepartCons(q, l[1..], x);
    } else {
      DepartStep(l[1..], x, i - 1);
      TailChanges(l, i, q);
      DepartCons(l[0], Without(l[1..], i - 1), x);
      DepartCons(l[0], l[1..][i - 1 := q], x);
    }
  }

  lemma {:induction false} DepartNothing(l: seq<Pending>, x: DeviceId)
    requires forall j | 0 <= j < |l| :: x !in l[j].devices
    ensures Depart(l, x) == (l, [])
  {
    if l != [] {
      assert l == [l[0]] + l[1..];
      DepartNothing(l[1..], x);
    }
  }

  /** How many broadcasts await `x`: it goes down with each one handled. */
  ghost function CountAwaiting(l: seq<Pending>, x: DeviceId): nat {
    if l == [] then 0 else (if x in l[0].devices then 1 else 0) + CountAwaiting(l[1..], x)
  }

  lemma CountAwaitingCons(p: Pending, rest: seq<Pending>, x: DeviceId)
    ensures CountAwaiting([p] + rest, x) == (if x in p.devices then 1 else 0) + CountAwaiting(rest, x)
  {
    assert ([p] + rest)[1..] == rest;
  }

  lemma {:induction false} CountAwaitingDrops(l: seq<Pending>, x: DeviceId, i: nat)
    requires x != NO_ID && i < |l| && x in l[i].devices
    ensures CountAwaiting(l[i := Answered(l[i], x)], x) == CountAwaiting(Without(l, i), x) == CountAwaiting(l, x) - 1
    decreases i
  {
    var q := Answered(l[i], x);
    assert x !in q.devices;
    if i == 0 {
      assert Without(l, 0) == l[1..];
      assert l[0 := q] == [q] + l[1..];
      CountAwaitingCons(q, l[1..], x);
    } else {
      CountAwaitingDrops(l[1..], x, i - 1);
      TailChanges(l, i, q);
      CountAwaitingCons(l[0], Without(l[1..], i - 1), x);
      CountAwaitingCons(l[0], l[1..][i - 1 := q], x);
    }
  }

  // ---------------------------------------------------------------- the loop that strikes a departed child

  /** One turn of the loop: the first broadcast that awaits `x` stops doing so, and goes if that completes it. */
  function Turn(l: seq<Pending>, x: DeviceId): seq<Pending> {
    if l == [] then []
    else if x in l[0].devices then
      (if Complete(Answered(l[0], x)) then [] else [Answered(l[0], x)]) + l[1..]
    else [l[0]] + Turn(l[1..], x)
  }

  predicate Complete(p: Pending) { forall d | d in p.devices :: d == NO_ID }

  function Turns(l: seq<Pending>, x: DeviceId, n: nat): seq<Pending>
    decreases n
  {
    if n == 0 then l else Turns(Turn(l, x), x, n - 1)
  }

  predicate NobodyAwaits(l: seq<Pending>, x: DeviceId) { forall p | p in l :: x !in p.devices }

  /** After `n` turns the search finds nothing more. */
  predicate EndsAfter(l: seq<Pending>, x: DeviceId, n: nat) { NobodyAwaits(Turns(l, x, n), x) }

  lemma CompleteIsAllAnswered(p: Pending)
    ensures Complete(p) <==> AllAnswered(p.devices)
  {
    assert forall i | 0 <= i < |p.devices| :: p.devices[i] in p.devices;
  }

  /** The in-place search and update of the loop is such a turn. */
  lemma {:induction false} TurnFirst(l: seq<Pending>, x: DeviceId, i: nat)
    requires IsFirstAwaiting(l, 0, x, true, i)
    ensures var q := Answered(l[i], x); Turn(l, x) == if AllAnswered(q.devices) then Without(l, i) else l[i := q]
    decreases i
  {
    var q := Answered(l[i], x);
    CompleteIsAllAnswered(q);
    if i == 0 {
      assert Without(l, 0) == l[1..] && l[0 := q] == [q] + l[1..];
    } else {
      TurnFirst(l[1..], x, i - 1);
      TailChanges(l, i, q);
    }
  }

  lemma {:induction false} FirstAwaiting(l: seq<Pending>, x: DeviceId) returns (i: nat)
    requires !NobodyAwaits(l, x)
    ensures IsFirstAwaiting(l, 0, x, true, i)
  {
    if x in l[0].devices {
      i := 0;
    } else {
      i := FirstAwaiting(l[1..], x);
      i := i + 1;
    }
  }

  /** For any id but the marker every turn makes progress. */
  lemma {:induction false} StrikingEnds(l: seq<Pending>, x: DeviceId) returns (n: nat)
    requires x != NO_ID
    ensures EndsAfter(l, x, n)
    decreases CountAwaiting(l, x)
  {
    if NobodyAwaits(l, x) {
      n := 0;
    } else {
      var i := FirstAwaiting(l, x);
      TurnFirst(l, x, i);
      CountAwaitingDrops(l, x, i);
      n := StrikingEnds(Turn(l, x), x);
      n := n + 1;
    }
  }

  /** For the marker a turn that finds anything changes nothing. */
  lemma {:induction false} MarkerTurn(l: seq<Pending>)
    requires forall i | 0 <= i < |l| :: l[i].devices == [] || !AllAnswered(l[i].devices)
    ensures Turn(l, NO_ID) == l
  {
    if !NobodyAwaits(l, NO_ID) {
      var i := FirstAwaiting(l, NO_ID);
      TurnFirst(l, NO_ID, i);
      assert Answered(l[i], NO_ID) == l[i];
    } else {
      NoTurn(l, NO_ID);
    }
  }

  lemma {:induction false} NoTurn(l: seq<Pending>, x: DeviceId)
    requires forall i | 0 <= i < |l| :: x !in l[i].devices
    ensures Turn(l, x) == l
  {
    if l != [] {
      assert l == [l[0]] + l[1..];
      NoTurn(l[1..], x);
    }
  }

  lemma {:induction false} MarkerTurns(l: seq<Pending>, n: nat)
    requires forall i | 0 <= i < |l| :: l[i].devices == [] || !AllAnswered(l[i].devices)
    ensures Turns(l, NO_ID, n) == l
    decreases n
  {
    if n > 0 {
      MarkerTurn(l);
      MarkerTurns(l, n - 1);
    }
  }

  /** No broadcast holds a slot that looks like `x` without being one. */
  ghost predicate Strikeable(l: seq<Pending>, x: DeviceId) { x != NO_ID || NobodyAwaits(l, NO_ID) }

  /** Once a child has been struck from every broadcast, nobody awaits it. */
  lemma {:induction false} NobodyAwaitsDeparted(l: seq<Pending>, x: DeviceId)
    requires Strikeable(l, x)
    ensures NobodyAwaits(Depart(l, x).0, x)
  {
    if l != [] {
      assert l == [l[0]] + l[1..];
      NobodyAwaitsDeparted(l[1..], x);
    }
  }

  /** On the lists a Hub can hold, the loop ends exactly for ids other than the marker, or when no slot is marked. */
  lemma StrikingEndsIff(l: seq<Pending>, x: DeviceId)
    requires forall i | 0 <= i < |l| :: l[i].devices == [] || !AllAnswered(l[i].devices)
    ensures (exists n: nat :: EndsAfter(l, x, n)) <==> Strikeable(l, x)
  {
    if x != NO_ID {
      var n := StrikingEnds(l, x);
    } else if NobodyAwaits(l, NO_ID) {
      assert EndsAfter(l, NO_ID, 0);
    } else {
      forall n: nat ensures !EndsAfter(l, NO_ID, n) {
        MarkerTurns(l, n);
      }
    }
  }

  function AfterAnswers(ds: seq<DeviceId>, from: seq<DeviceId>): seq<DeviceId> {
    if from == [] then ds else Clear(AfterAnswers(ds, from[..|from| - 1]), from[|from| - 1])
  }

  lemma {:induction false} SlotsAfter(ds: seq<DeviceId>, from: seq<DeviceId>)
    ensures |AfterAnswers(ds, from)| == |ds|
    ensures forall i | 0 <= i < |ds| :: AfterAnswers(ds, from)[i] == if ds[i] in from then NO_ID else ds[i]
  {
    if from != [] {
      SlotsAfter(ds, from[..|from| - 1]);
      assert forall d :: d in from <==> d in from[..|from| - 1] || d == from[|from| - 1];
    }
  }

  /**
   When everybody but one child has answered, the broadcast counts as complete exactly when that child has
   the marker's id.
   */
  lemma CompleteEarlyIff(ds: seq<DeviceId>, from: seq<DeviceId>, x: DeviceId)
    requires x in ds && x !in from && forall d | d in ds :: d == x || d in from
    ensures AllAnswered(AfterAnswers(ds, from)) <==> x == NO_ID
  {
    SlotsAfter(ds, from);
    var i :| 0 <= i < |ds| && ds[i] == x;
    assert AfterAnswers(ds, from)[i] == x;
  }

  // ---------------------------------------------------------------- the aggregate message

  /** The response sent upwards for a completed broadcast; `r` is the response buffer it is written over. */
  function Format(id: DeviceId, p: Pending, r: Response): Response {
    var failed := [CHILD_ERROR as int];
    Response(id, p.commandCode, OK,
      if IsInfo(p.commandCode) then [p.summary.state, p.summary.maxTime] + (if p.summary.hasError then failed else [])
      else if IsSwitch(p.commandCode) then (if p.summary.hasError then failed else [])
      else if IsDelete(p.commandCode) && p.summary.hasError then failed
      else r.arguments)
  }

  /** Several aggregates in a row, each written over the one before. */
  ghost function FormatAll(id: DeviceId, done: seq<Pending>, r: Response): seq<Response> {
    if done == [] then []
    else var first := Format(id, done[0], r); [first] + FormatAll(id, done[1..], first)
  }

  /** A delete without failure is answered over the buffer as it is, arguments included. */
  predicate KeepsBuffer(p: Pending) { p.commandCode & COMMAND_MASK == DELETE && !p.summary.hasError }

  /** A switch or a delete that failed leaves a child error, and nothing else, in the buffer. */
  predicate LeavesError(p: Pending) {
    (p.commandCode & COMMAND_MASK == SWITCH || p.commandCode & COMMAND_MASK == DELETE) && p.summary.hasError
  }

  /** What one aggregate carries. */
  lemma AggregateCarries(id: DeviceId, p: Pending, r: Response)
    ensures var q := Format(id, p, r);
            && q.source == id && q.commandCode == p.commandCode && q.responseCode == OK
            && (LeavesError(p) ==> q.arguments == [CHILD_ERROR as int])
            && (KeepsBuffer(p) ==> q.arguments == r.arguments)
            && (p.commandCode & COMMAND_MASK == SWITCH && !p.summary.hasError ==> q.arguments == [])
            && (p.commandCode & COMMAND_MASK == INFO ==>
                  q.arguments == [p.summary.state, p.summary.maxTime]
                                 + if p.summary.hasError then [CHILD_ERROR as int] else [])
  {
  }

  /** The buffer has been given a child error before `k`, and from then on only deletes without failure. */
  ghost predicate ErrorInBuffer(done: seq<Pending>, r: Response, k: nat)
    requires k <= |done|
  {
    || (exists j | 0 <= j < k :: LeavesError(done[j]) && forall i | j < i < k :: KeepsBuffer(done[i]))
    || (r.arguments == [CHILD_ERROR as int] && forall i | 0 <= i < k :: KeepsBuffer(done[i]))
  }

  /**
   Of the aggregates sent in a row, that of a delete without failure carries a child error exactly when the buffer
   still has the one of an earlier broadcast, or of the response that it held at first.
   */
  lemma {:induction false} DeleteGainsErrorIff(id: DeviceId, done: seq<Pending>, r: Response, k: nat)
    requires k < |done| && KeepsBuffer(done[k])
    requires forall i | 0 <= i < |done| ::
               var c := done[i].commandCode & COMMAND_MASK; c == INFO || c == SWITCH || c == DELETE
    ensures |FormatAll(id, done, r)| == |done|
    ensures FormatAll(id, done, r)[k].arguments == [CHILD_ERROR as int] <==> ErrorInBuffer(done, r, k)
    decreases k
  {
    var first, rest := Format(id, done[0], r), done[1..];
    AggregateCarries(id, done[0], r);
    FormatAllLength(id, rest, first);
    if k > 0 {
      DeleteGainsErrorIff(id, rest, first, k - 1);
      ErrorPassesOn(id, done, r, k);
    }
  }

  lemma {:induction false} FormatAllLength(id: DeviceId, done: seq<Pending>, r: Response)
    ensures |FormatAll(id, done, r)| == |done|
    decreases |done|
  {
    if done != [] {
      FormatAllLength(id, done[1..], Format(id, done[0], r));
    }
  }

  lemma ErrorPassesOn(id: DeviceId, done: seq<Pending>, r: Response, k: nat)
    requires 0 < k <= |done|
    requires var c := done[0].commandCode & COMMAND_MASK; c == INFO || c == SWITCH || c == DELETE
    ensures ErrorInBuffer(done[1..], Format(id, done[0], r), k - 1) <==> ErrorInBuffer(done, r, k)
  {
    var first, rest := Format(id, done[0], r), done[1..];
    AggregateCarries(id, done[0], r);
    assert first.arguments == [CHILD_ERROR as int] <==>
           LeavesError(done[0]) || (KeepsBuffer(done[0]) && r.arguments == [CHILD_ERROR as int]);
    if ErrorInBuffer(rest, first, k - 1) {
      if j :| 0 <= j < k - 1 && LeavesError(rest[j]) && forall i | j < i < k - 1 :: KeepsBuffer(rest[i]) {
        forall i | j + 1 < i < k ensures KeepsBuffer(done[i]) { assert rest[i - 1] == done[i]; }
        assert LeavesError(done[j + 1]);
      } else {
        forall i | 0 < i < k ensures KeepsBuffer(done[i]) { assert rest[i - 1] == done[i]; }
        assert LeavesError(done[0]) || KeepsBuffer(done[0]);
      }
    }
    if ErrorInBuffer(done, r, k) {
      if j :| 0 <= j < k && LeavesError(done[j]) && forall i | j < i < k :: KeepsBuffer(done[i]) {
        forall i | 0 <= i < k - 1 && j <= i ensures KeepsBuffer(rest[i]) { assert rest[i] == done[i + 1]; }
        if j > 0 {
          assert LeavesError(rest[j - 1]);
        }
      } else {
        forall i | 0 <= i < k - 1 ensures KeepsBuffer(rest[i]) { assert rest[i] == done[i + 1]; }
      }
    }
  }

  // ---------------------------------------------------------------- the ledger

  /** One broadcast with its history: who was asked, who still has to answer, and the aggregates sent for it. */
  datatype Broadcast = Broadcast(
    commandCode: Code, asked: set<DeviceId>, awaiting: set<DeviceId>, summary: Summary, aggregates: seq<Summary>)

  /** `x` no longer has to answer; an aggregate goes out when nobody else has to. */
  function Strike(b: Broadcast, x: DeviceId, s: Summary): Broadcast {
    var left := b.awaiting - {x};
    b.(awaiting := left, summary := s, aggregates := if left == {} then b.aggregates + [s] else b.aggregates)
  }

  predicate Owes(b: Broadcast, code: Code, x: DeviceId) { b.commandCode == code && x in b.awaiting }

  /** An answer is credited to the oldest broadcast of its command that still awaits the sender. */
  function Credit(l: seq<Broadcast>, r: Response, fromHub: bool): seq<Broadcast> {
    if l == [] then []
    else if Owes(l[0], r.commandCode, r.source) then
      [Strike(l[0], r.source, Merge(l[0].summary, r, fromHub))] + l[1..]
    else [l[0]] + Credit(l[1..], r, fromHub)
  }

  /** A departed child is struck from every broadcast at once. */
  function DepartAll(l: seq<Broadcast>, x: DeviceId): seq<Broadcast> {
    if l == [] then []
    else [if x in l[0].awaiting then Strike(l[0], x, l[0].summary) else l[0]] + DepartAll(l[1..], x)
  }

  datatype BroadcastEvent =
    | Forward(code: Code, devices: seq<DeviceId>)
    | Reply(response: Response, fromHub: bool)
    | Gone(x: DeviceId)

  /** A broadcast goes to distinct direct children, and the missing id is nobody's id. */
  ghost predicate Possible(e: BroadcastEvent) {
    match e
    case Forward(_, ds) => Distinct(ds) && NO_ID !in ds
    case Reply(r, _) => r.source != NO_ID
    case Gone(x) => x != NO_ID
  }

  function Asked(ds: seq<DeviceId>): set<DeviceId> { set d | d in ds }

  function LedgerStep(l: seq<Broadcast>, e: BroadcastEvent): seq<Broadcast> {
    match e
    case Forward(code, ds) => l + [Broadcast(code, Asked(ds), Asked(ds), NO_ANSWERS, [])]
    case Reply(r, fromHub) => Credit(l, r, fromHub)
    case Gone(x) => DepartAll(l, x)
  }

  // ---------------------------------------------------------------- the list as the Hub keeps it

  /** The list after the event, and the broadcasts whose aggregates are sent, in order. */
  ghost function ListStep(l: seq<Pending>, e: BroadcastEvent): (seq<Pending>, seq<Pending>) {
    match e
    case Forward(code, ds) => (l + [Pending(code, ds, NO_ANSWERS)], [])
    case Reply(r, fromHub) => CreditList(l, r, fromHub)
    case Gone(x) => Depart(l, x)
  }

  ghost function CreditList(l: seq<Pending>, r: Response, fromHub: bool): (seq<Pending>, seq<Pending>) {
    if l == [] then ([], [])
    else if Matches(l[0], r.commandCode, r.source, false) then
      var q := Answered(l[0], r.source).(summary := Merge(l[0].summary, r, fromHub));
      if AllAnswered(q.devices) then (l[1..], [q]) else ([q] + l[1..], [])
    else
      var (rest, done) := CreditList(l[1..], r, fromHub);
      ([l[0]] + rest, done)
  }

  /** What the Hub does with the first match amounts to `CreditList`. */
  lemma {:induction false} CreditFirst(l: seq<Pending>, r: Response, fromHub: bool, i: nat)
    requires IsFirstAwaiting(l, r.commandCode, r.source, false, i)
    ensures var q := Answered(l[i], r.source).(summary := Merge(l[i].summary, r, fromHub));
            CreditList(l, r, fromHub) ==
            if AllAnswered(q.devices) then (Without(l, i), [q]) else (l[i := q], [])
    decreases i
  {
    var q := Answered(l[i], r.source).(summary := Merge(l[i].summary, r, fromHub));
    if i == 0 {
      assert Without(l, 0) == l[1..];
      assert l[0 := q] == [q] + l[1..];
    } else {
      CreditFirst(l[1..], r, fromHub, i - 1);
      TailChanges(l, i, q);
    }
  }

  lemma {:induction false} CreditNothing(l: seq<Pending>, r: Response, fromHub: bool)
    requires forall j | 0 <= j < |l| :: !Matches(l[j], r.commandCode, r.source, false)
    ensures CreditList(l, r, fromHub) == (l, [])
  {
    if l != [] {
      assert l == [l[0]] + l[1..];
      CreditNothing(l[1..], r, fromHub);
    }
  }

  // ---------------------------------------------------------------- the list refines the ledger

  predicate IsOpen(b: Broadcast) { b.awaiting != {} || b.asked == {} }

  ghost predicate Tracks(p: Pending, b: Broadcast) {
    && p.commandCode == b.commandCode && p.summary == b.summary
    && b.awaiting == Asked(p.devices) - {NO_ID}
    && (b.asked == {} <==> p.devices == [])
  }

  /** The list holds exactly the open broadcasts of the ledger, in order. */
  ghost predicate Refines(l: seq<Pending>, ledger: seq<Broadcast>)
    decreases |ledger|
  {
    if ledger == [] then l == []
    else if IsOpen(ledger[0]) then l != [] && Tracks(l[0], ledger[0]) && Refines(l[1..], ledger[1..])
    else Refines(l, ledger[1..])
  }

  /** The aggregates a step adds to the ledger, oldest broadcast first. */
  ghost function Emitted(l: seq<Broadcast>, l': seq<Broadcast>): seq<(Code, Summary)>
    requires |l'| >= |l|
  {
    if l == [] then []
    else
      (if |l'[0].aggregates| > |l[0].aggregates|
       then [(l'[0].commandCode, l'[0].aggregates[|l'[0].aggregates| - 1])] else [])
      + Emitted(l[1..], l'[1..])
  }

  /** What is sent for completed entries of the list. */
  ghost function Aggregates(done: seq<Pending>): seq<(Code, Summary)> {
    if done == [] then [] else [(done[0].commandCode, done[0].summary)] + Aggregates(done[1..])
  }

  lemma {:induction false} EmittedNothing(l: seq<Broadcast>, l': seq<Broadcast>)
    requires l <= l'
    ensures Emitted(l, l') == []
  {
    if l != [] {
      assert l[1..] <= l'[1..];
      EmittedNothing(l[1..], l'[1..]);
    }
  }

  lemma ClearTracks(p: Pending, b: Broadcast, x: DeviceId)
    requires Tracks(p, b) && x != NO_ID && x in p.devices
    ensures Asked(Clear(p.devices, x)) - {NO_ID} == b.awaiting - {x}
    ensures AllAnswered(Clear(p.devices, x)) <==> b.awaiting - {x} == {}
    ensures x in b.awaiting
  {
    var ds := Clear(p.devices, x);
    forall d | d != NO_ID ensures d in ds <==> d in p.devices && d != x {
      if d in ds { var i :| 0 <= i < |ds| && ds[i] == d; assert p.devices[i] == d; }
      if d in p.devices && d != x { var i :| 0 <= i < |p.devices| && p.devices[i] == d; assert ds[i] == d; }
    }
    if AllAnswered(ds) {
      assert forall d | d in ds :: d == NO_ID;
    } else {
      var i :| 0 <= i < |ds| && ds[i] != NO_ID;
      assert ds[i] in Asked(ds);
    }
  }

  /** Striking an awaited child at the head keeps list and ledger in step. */
  lemma StrikeTracks(p: Pending, b: Broadcast, x: DeviceId, s: Summary)
    requires Tracks(p, b) && x != NO_ID && x in p.devices
    ensures var q := Answered(p, x).(summary := s);
            && IsOpen(b) && (IsOpen(Strike(b, x, s)) <==> !AllAnswered(q.devices))
            && Tracks(q, Strike(b, x, s))
            && Strike(b, x, s).aggregates == b.aggregates + (if AllAnswered(q.devices) then [s] else [])
  {
    ClearTracks(p, b, x);
    assert p.devices != [];
  }

  /** The oldest open broadcast gets the answer. */
  lemma CreditHeadRefines(l: seq<Pending>, ledger: seq<Broadcast>, r: Response, fromHub: bool)
    requires ledger != [] && Refines(l, ledger) && r.source != NO_ID
    requires IsOpen(ledger[0]) && Matches(l[0], r.commandCode, r.source, false)
    ensures Refines(CreditList(l, r, fromHub).0, Credit(ledger, r, fromHub))
    ensures |Credit(ledger, r, fromHub)| == |ledger|
    ensures Emitted(ledger, Credit(ledger, r, fromHub)) == Aggregates(CreditList(l, r, fromHub).1)
  {
    StrikeTracks(l[0], ledger[0], r.source, Merge(l[0].summary, r, fromHub));
    EmittedNothing(ledger[1..], ledger[1..]);
  }

  lemma {:induction false} CreditRefines(l: seq<Pending>, ledger: seq<Broadcast>, r: Response, fromHub: bool)
    requires Refines(l, ledger) && r.source != NO_ID
    ensures Refines(CreditList(l, r, fromHub).0, Credit(ledger, r, fromHub))
    ensures |Credit(ledger, r, fromHub)| == |ledger|
    ensures Emitted(ledger, Credit(ledger, r, fromHub)) == Aggregates(CreditList(l, r, fromHub).1)
    decreases |ledger|
  {
    if ledger != [] {
      if !IsOpen(ledger[0]) {
        CreditRefines(l, ledger[1..], r, fromHub);
      } else if Matches(l[0], r.commandCode, r.source, false) {
        CreditHeadRefines(l, ledger, r, fromHub);
      } else {
        CreditRefines(l[1..], ledger[1..], r, fromHub);
      }
    }
  }

  lemma {:induction false} DepartRefines(l: seq<Pending>, ledger: seq<Broadcast>, x: DeviceId)
    requires Refines(l, ledger) && x != NO_ID
    ensures var (l', done) := Depart(l, x);
            var ledger' := DepartAll(ledger, x);
            Refines(l', ledger') && |ledger'| == |ledger| && Emitted(ledger, ledger') == Aggregates(done)
    decreases |ledger|
  {
    if ledger != [] {
      if !IsOpen(ledger[0]) {
        DepartRefines(l, ledger[1..], x);
      } else {
        DepartRefines(l[1..], ledger[1..], x);
        if x in l[0].devices {
          StrikeTracks(l[0], ledger[0], x, l[0].summary);
        }
      }
    }
  }

  lemma {:induction false} ForwardRefines(l: seq<Pending>, ledger: seq<Broadcast>, p: Pending, b: Broadcast)
    requires Refines(l, ledger) && Tracks(p, b) && IsOpen(b)
    ensures Refines(l + [p], ledger + [b])
    decreases |ledger|
  {
    if ledger == [] {
      assert Refines([], []);
      assert (l + [p])[1..] == [] && (ledger + [b])[1..] == [];
    } else {
      assert (ledger + [b])[1..] == ledger[1..] + [b];
      if IsOpen(ledger[0]) {
        assert (l + [p])[1..] == l[1..] + [p];
        ForwardRefines(l[1..], ledger[1..], p, b);
      } else {
        ForwardRefines(l, ledger[1..], p, b);
      }
    }
  }

  /** Every event changes list and ledger alike, and sends exactly the aggregates the ledger records. */
  lemma StepRefines(l: seq<Pending>, ledger: seq<Broadcast>, e: BroadcastEvent)
    requires Refines(l, ledger) && Possible(e)
    ensures var (l', done) := ListStep(l, e);
            var ledger' := LedgerStep(ledger, e);
            Refines(l', ledger') && |ledger'| >= |ledger| && Emitted(ledger, ledger') == Aggregates(done)
  {
    match e
    case Forward(code, ds) =>
      assert ds != [] ==> ds[0] in Asked(ds);
      ForwardRefines(l, ledger, Pending(code, ds, NO_ANSWERS), Broadcast(code, Asked(ds), Asked(ds), NO_ANSWERS, []));
      EmittedNothing(ledger, LedgerStep(ledger, e));
    case Reply(r, fromHub) => CreditRefines(l, ledger, r, fromHub);
    case Gone(x) => DepartRefines(l, ledger, x);
  }

  /** No fully answered broadcast stays in the list. */
  lemma {:induction false} NoneComplete(l: seq<Pending>, ledger: seq<Broadcast>)
    requires Refines(l, ledger)
    ensures forall i | 0 <= i < |l| :: l[i].devices == [] || !AllAnswered(l[i].devices)
    decreases |ledger|
  {
    if ledger != [] {
      if IsOpen(ledger[0]) {
        NoneComplete(l[1..], ledger[1..]);
        if l[0].devices != [] {
          var d :| d in ledger[0].awaiting;
          assert d in l[0].devices;
        }
        assert forall i | 0 < i < |l| :: l[i] == l[1..][i - 1];
      } else {
        NoneComplete(l, ledger[1..]);
      }
    }
  }

  // ---------------------------------------------------------------- exactly once

  /** An aggregate has been sent exactly when somebody was asked and nobody is awaited, and it is the final summary. */
  ghost predicate Once(b: Broadcast) {
    && b.awaiting <= b.asked
    && b.aggregates == if b.asked != {} && b.awaiting == {} then [b.summary] else []
  }

  /** How an event changes a broadcast of the ledger: it may lose one awaited child, and answers when none is left. */
  ghost predicate Progress(b: Broadcast, b': Broadcast) {
    && b'.commandCode == b.commandCode && b'.asked == b.asked && b'.awaiting <= b.awaiting
    && b'.aggregates == b.aggregates + (if b.awaiting != {} && b'.awaiting == {} then [b'.summary] else [])
    && (b'.awaiting == b.awaiting ==> b' == b)
  }

  /** Which broadcast an answer is credited to: the oldest one that owes it, or none. */
  lemma {:induction false} CreditAt(l: seq<Broadcast>, r: Response, fromHub: bool) returns (k: nat)
    ensures k <= |l| && forall i | 0 <= i < k :: !Owes(l[i], r.commandCode, r.source)
    ensures k < |l| ==> Owes(l[k], r.commandCode, r.source)
    ensures Credit(l, r, fromHub) ==
            if k < |l| then l[k := Strike(l[k], r.source, Merge(l[k].summary, r, fromHub))] else l
  {
    if l == [] || Owes(l[0], r.commandCode, r.source) {
      k := 0;
    } else {
      k := CreditAt(l[1..], r, fromHub);
      k := k + 1;
      assert l == [l[0]] + l[1..];
    }
  }

  lemma {:induction false} DepartAt(l: seq<Broadcast>, x: DeviceId)
    ensures |DepartAll(l, x)| == |l|
    ensures forall i | 0 <= i < |l| ::
              DepartAll(l, x)[i] == if x in l[i].awaiting then Strike(l[i], x, l[i].summary) else l[i]
  {
    if l != [] {
      DepartAt(l[1..], x);
    }
  }

  lemma StepProgresses(l: seq<Broadcast>, e: BroadcastEvent)
    ensures |LedgerStep(l, e)| >= |l|
    ensures forall i | 0 <= i < |l| :: Progress(l[i], LedgerStep(l, e)[i])
    ensures forall i | |l| <= i < |LedgerStep(l, e)| ::
              LedgerStep(l, e)[i].awaiting == LedgerStep(l, e)[i].asked && LedgerStep(l, e)[i].aggregates == []
  {
    match e
    case Forward(code, ds) =>
    case Reply(r, fromHub) => var _ := CreditAt(l, r, fromHub);
    case Gone(x) => DepartAt(l, x);
  }

  ghost predicate AllOnce(l: seq<Broadcast>) { forall i | 0 <= i < |l| :: Once(l[i]) }

  lemma StepKeepsOnce(l: seq<Broadcast>, e: BroadcastEvent)
    requires AllOnce(l)
    ensures AllOnce(LedgerStep(l, e))
  {
    StepProgresses(l, e);
    forall i | 0 <= i < |LedgerStep(l, e)| ensures Once(LedgerStep(l, e)[i]) {
      if i < |l| {
        assert Progress(l[i], LedgerStep(l, e)[i]);
      }
    }
  }

  // ---------------------------------------------------------------- first come, first served

  /** Of two broadcasts of one command, the later one awaits whatever the earlier one still does, if it asked it. */
  ghost predicate Served(earlier: Broadcast, later: Broadcast) {
    earlier.commandCode == later.commandCode ==> earlier.awaiting * later.asked <= later.awaiting
  }

  ghost predicate InOrder(l: seq<Broadcast>) {
    forall i, j | 0 <= i < j < |l| :: Served(l[i], l[j])
  }

  lemma ForwardKeepsOrder(l: seq<Broadcast>, b: Broadcast)
    requires InOrder(l) && b.awaiting == b.asked
    ensures InOrder(l + [b])
  {
  }

  /** The oldest broadcast that owes the answer loses `x`, so no earlier one of its command awaits `x`. */
  lemma CreditKeepsOrder(l: seq<Broadcast>, k: nat, x: DeviceId, summary: Summary)
    requires InOrder(l) && k < |l|
    requires forall i | 0 <= i < k :: !Owes(l[i], l[k].commandCode, x)
    ensures InOrder(l[k := Strike(l[k], x, summary)])
  {
    var b := Strike(l[k], x, summary);
    forall i | 0 <= i < k ensures Served(l[i], b) {
      assert Served(l[i], l[k]);
    }
    forall j | k < j < |l| ensures Served(b, l[j]) {
      assert Served(l[k], l[j]);
    }
  }

  lemma DepartKeepsOrder(l: seq<Broadcast>, x: DeviceId)
    requires InOrder(l)
    ensures InOrder(DepartAll(l, x))
  {
    DepartAt(l, x);
    var l' := DepartAll(l, x);
    forall i, j | 0 <= i < j < |l'| ensures Served(l'[i], l'[j]) {
      assert Served(l[i], l[j]);
      assert l'[i].awaiting == l[i].awaiting - {x} && l'[j].awaiting == l[j].awaiting - {x};
    }
  }

  lemma StepKeepsOrder(l: seq<Broadcast>, e: BroadcastEvent)
    requires InOrder(l) && AllOnce(l)
    ensures InOrder(LedgerStep(l, e))
  {
    match e
    case Forward(code, ds) =>
      ForwardKeepsOrder(l, LedgerStep(l, e)[|l|]);
    case Reply(r, fromHub) =>
      var k := CreditAt(l, r, fromHub);
      if k < |l| {
        CreditKeepsOrder(l, k, r.source, Merge(l[k].summary, r, fromHub));
      }
    case Gone(x) =>
      DepartKeepsOrder(l, x);
  }

  /** Requests over growing child sets are answered in the order they came. */
  lemma AnsweredInOrder(l: seq<Broadcast>, i: nat, j: nat)
    requires InOrder(l) && AllOnce(l) && i < j < |l| && l[i].commandCode == l[j].commandCode
    requires l[i].asked != {} && l[i].asked <= l[j].asked && l[j].aggregates != []
    ensures l[i].aggregates != []
  {
    assert Served(l[i], l[j]);
    assert l[i].awaiting * l[j].asked == l[i].awaiting;
  }

  // ---------------------------------------------------------------- runs

  ghost predicate PossibleRun(es: seq<BroadcastEvent>) { forall i | 0 <= i < |es| :: Possible(es[i]) }

  ghost function ListRun(es: seq<BroadcastEvent>): (seq<Pending>, seq<(Code, Summary)>)
    decreases |es|
  {
    if es == [] then ([], [])
    else
      var (l, sent) := ListRun(es[..|es| - 1]);
      var (l', done) := ListStep(l, es[|es| - 1]);
      (l', sent + Aggregates(done))
  }

  function LedgerRun(es: seq<BroadcastEvent>): seq<Broadcast>
    decreases |es|
  {
    if es == [] then [] else LedgerStep(LedgerRun(es[..|es| - 1]), es[|es| - 1])
  }

  /** Everything the ledger has emitted over a run, event by event. */
  ghost function EmittedRun(es: seq<BroadcastEvent>): seq<(Code, Summary)>
    decreases |es|
  {
    if es == [] then []
    else
      StepProgresses(LedgerRun(es[..|es| - 1]), es[|es| - 1]);
      EmittedRun(es[..|es| - 1]) + Emitted(LedgerRun(es[..|es| - 1]), LedgerRun(es))
  }

  /**
   In every run the Hub's list holds exactly the broadcasts still awaiting somebody, the aggregates it
   sends are exactly those of the ledger, and each broadcast over a non-empty set gets exactly one, when
   its last awaited child has answered or gone; requests of one command are served in order.
   */
  lemma {:induction false} ExactlyOnce(es: seq<BroadcastEvent>)
    requires PossibleRun(es)
    ensures Refines(ListRun(es).0, LedgerRun(es))
    ensures ListRun(es).1 == EmittedRun(es)
    ensures AllOnce(LedgerRun(es)) && InOrder(LedgerRun(es))
    decreases |es|
  {
    if es != [] {
      var before, e := es[..|es| - 1], es[|es| - 1];
      ExactlyOnce(before);
      StepRefines(ListRun(before).0, LedgerRun(before), e);
      StepKeepsOnce(LedgerRun(before), e);
      StepKeepsOrder(LedgerRun(before), e);
    }
  }

  // ---------------------------------------------------------------- a failure that nobody reported

  const POWER_ON := SWITCH | SWITCH_POWER | POSITION_ON

  /** A switch and a delete are broadcast to devices 3 and 4; 3 fails the switch and obeys the delete. */
  function Leaking(error: Code): seq<BroadcastEvent> {
    [Forward(POWER_ON, [3, 4]), Forward(DELETE, [3, 4]),
     Reply(Response(3, POWER_ON, error, []), false), Reply(Response(3, DELETE, OK, []), false)]
  }

  lemma RunAppends(es: seq<BroadcastEvent>, e: BroadcastEvent)
    ensures ListRun(es + [e]).0 == ListStep(ListRun(es).0, e).0
  {
    assert (es + [e])[..|es|] == es;
  }

  lemma TwoAsked()
    ensures var asked := [Forward(POWER_ON, [3, 4]), Forward(DELETE, [3, 4])];
            ListRun(asked).0 == [Pending(POWER_ON, [3, 4], NO_ANSWERS), Pending(DELETE, [3, 4], NO_ANSWERS)]
  {
    RunAppends([], Forward(POWER_ON, [3, 4]));
    RunAppends([Forward(POWER_ON, [3, 4])], Forward(DELETE, [3, 4]));
    assert [] + [Forward(POWER_ON, [3, 4])] == [Forward(POWER_ON, [3, 4])];
  }

  /** Device 3 answers both. */
  lemma FirstAnswers(error: Code)
    requires IsError(error)
    ensures var l := [Pending(POWER_ON, [3, 4], NO_ANSWERS), Pending(DELETE, [3, 4], NO_ANSWERS)];
            var failed := Summary(UNDEFINED_STATE, 0, true);
            var m := CreditList(l, Response(3, POWER_ON, error, []), false).0;
            && m == [Pending(POWER_ON, [NO_ID, 4], failed), Pending(DELETE, [3, 4], NO_ANSWERS)]
            && CreditList(m, Response(3, DELETE, OK, []), false).0 ==
               [Pending(POWER_ON, [NO_ID, 4], failed), Pending(DELETE, [NO_ID, 4], NO_ANSWERS)]
  {
    var l := [Pending(POWER_ON, [3, 4], NO_ANSWERS), Pending(DELETE, [3, 4], NO_ANSWERS)];
    var r, q := Response(3, POWER_ON, error, []), Response(3, DELETE, OK, []);
    assert Clear([3, 4], 3) == [NO_ID, 4];
    assert 4 in l[0].devices && [NO_ID, 4][1] != NO_ID;
    CreditFirst(l, r, false, 0);
    var m := CreditList(l, r, false).0;
    CreditFirst(m, q, false, 1);
  }

  lemma LeakingRun(error: Code)
    requires IsError(error)
    ensures PossibleRun(Leaking(error))
    ensures ListRun(Leaking(error)).0 ==
            [Pending(POWER_ON, [NO_ID, 4], Summary(UNDEFINED_STATE, 0, true)), Pending(DELETE, [NO_ID, 4], NO_ANSWERS)]
  {
    var asked := [Forward(POWER_ON, [3, 4]), Forward(DELETE, [3, 4])];
    var e, e' := Reply(Response(3, POWER_ON, error, []), false), Reply(Response(3, DELETE, OK, []), false);
    TwoAsked();
    RunAppends(asked, e);
    RunAppends(asked + [e], e');
    FirstAnswers(error);
    assert asked + [e] + [e'] == Leaking(error);
  }

  /** Then 4 goes: the switch is answered with its child error, and the delete, which nobody failed, with the same. */
  lemma DeleteGainsError(id: DeviceId, error: Code, r: Response)
    requires IsError(error)
    ensures var (l, done) := ListStep(ListRun(Leaking(error)).0, Gone(4));
            && l == [] && |done| == 2 && done[1].commandCode == DELETE && !done[1].summary.hasError
            && FormatAll(id, done, r) == [Response(id, POWER_ON, OK, [CHILD_ERROR as int]),
                                          Response(id, DELETE, OK, [CHILD_ERROR as int])]
  {
    LeakingRun(error);
    var p := Pending(POWER_ON, [NO_ID, 4], Summary(UNDEFINED_STATE, 0, true));
    var q := Pending(DELETE, [NO_ID, 4], NO_ANSWERS);
    assert Clear([NO_ID, 4], 4) == [NO_ID, NO_ID] && 4 in [NO_ID, 4];
    DepartCons(q, [], 4);
    DepartCons(p, [q], 4);
    assert [q] + [] == [q] && [p] + [q] == [p, q];
    var first, second := Answered(p, 4), Answered(q, 4);
    assert first.devices == [NO_ID, NO_ID] && second.devices == [NO_ID, NO_ID];
    assert Depart([], 4) == ([], []) && [second] + [] == [second] && [first] + [second] == [first, second];
    assert Depart([q], 4) == ([], [second]);
    assert Depart([p, q], 4) == ([], [first, second]);
    assert [first, second][1..] == [second] && [second][1..] == [];
    AggregateCarries(id, first, r);
    AggregateCarries(id, second, Format(id, first, r));
    FormatTwo(id, first, second, r);
  }

  lemma FormatTwo(id: DeviceId, p: Pending, q: Pending, r: Response)
    ensures FormatAll(id, [p, q], r) == [Format(id, p, r), Format(id, q, Format(id, p, r))]
  {
    assert [p, q][1..] == [q] && [q][1..] == [];
    assert FormatAll(id, [q], Format(id, p, r)) == [Format(id, q, Format(id, p, r))];
  }
}
