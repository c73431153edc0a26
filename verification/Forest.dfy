/**
 The routing table seen as a finite map from device id to entry. The `parent` fields make it a
 forest; this module defines ancestry, the order of traversal, and proves that the stackless
 successor used by every iteration over the table walks the recursive preorder.
 */
module Forest {
  import opened Devices

  /** What a routing table records about one device. */
  datatype Entry = Entry(pid: int, deviceType: DeviceType, parent: DeviceId, hop: int)

  type Table = map<DeviceId, Entry>

  // ---------------------------------------------------------------- ancestry

  /** The device `n` parent links above `x`. */
  ghost function Up(t: Table, x: DeviceId, n: nat): Option<DeviceId>
    decreases n
  {
    if n == 0 then Some(x)
    else if x !in t then None
    else Up(t, t[x].parent, n - 1)
  }

  /** `x` is an entry somewhere strictly below `a`; `a` need not be an entry itself. */
  ghost predicate Below(t: Table, x: DeviceId, a: DeviceId) {
    exists n: nat :: n > 0 && Up(t, x, n) == Some(a)
  }

  ghost predicate Acyclic(t: Table) {
    forall x | x in t :: !Below(t, x, x)
  }

  lemma BelowUnfold(t: Table, x: DeviceId, a: DeviceId)
    ensures Below(t, x, a) <==> x in t && (t[x].parent == a || Below(t, t[x].parent, a))
  {
    if Below(t, x, a) {
      var n: nat :| n > 0 && Up(t, x, n) == Some(a);
      assert x in t && Up(t, t[x].parent, n - 1) == Some(a);
    }
    if x in t && t[x].parent == a {
      assert Up(t, t[x].parent, 0) == Some(a);
      assert Up(t, x, 1) == Some(a);
    }
    if x in t && Below(t, t[x].parent, a) {
      var n: nat :| n > 0 && Up(t, t[x].parent, n) == Some(a);
      assert Up(t, x, n + 1) == Some(a);
    }
  }

  lemma {:induction false} UpAdd(t: Table, x: DeviceId, m: nat, y: DeviceId, n: nat)
    requires Up(t, x, m) == Some(y)
    ensures Up(t, x, m + n) == Up(t, y, n)
    decreases m
  {
    if m > 0 {
      UpAdd(t, t[x].parent, m - 1, y, n);
    }
  }

  lemma BelowTransitive(t: Table, x: DeviceId, y: DeviceId, a: DeviceId)
    requires Below(t, x, y) && Below(t, y, a)
    ensures Below(t, x, a)
  {
    var m: nat :| m > 0 && Up(t, x, m) == Some(y);
    var n: nat :| n > 0 && Up(t, y, n) == Some(a);
    UpAdd(t, x, m, y, n);
    assert Up(t, x, m + n) == Some(a);
  }

  /** The ancestors of one device form a chain. */
  lemma {:induction false} AncestorsLinear(t: Table, x: DeviceId, m: nat, a: DeviceId, n: nat, b: DeviceId)
    requires Up(t, x, m) == Some(a) && Up(t, x, n) == Some(b)
    ensures a == b || Below(t, a, b) || Below(t, b, a)
    decreases m + n
  {
    if m == 0 {
      assert n == 0 ==> a == b;
      assert n > 0 ==> Below(t, a, b);
    } else if n == 0 {
      assert Below(t, b, a);
    } else {
      AncestorsLinear(t, t[x].parent, m - 1, a, n - 1, b);
    }
  }

  /** Everything strictly below `a`. */
  ghost function Descendants(t: Table, a: DeviceId): set<DeviceId> {
    set x | x in t && Below(t, x, a)
  }

  /** Entries strictly above `x`. */
  ghost function Ancestors(t: Table, x: DeviceId): set<DeviceId> {
    set a | a in t && Below(t, x, a)
  }

  ghost function Height(t: Table, a: DeviceId): nat { |Descendants(t, a)| }

  ghost function Depth(t: Table, x: DeviceId): nat { |Ancestors(t, x)| }

  lemma ProperSubsetIsSmaller<T>(a: set<T>, b: set<T>)
    requires a < b
    ensures |a| < |b|
  {
    assert b == a + (b - a);
    assert |b - a| > 0;
  }

  /** A child sits strictly lower than its parent and has strictly more ancestors. */
  lemma ChildIsDeeper(t: Table, x: DeviceId)
    requires Acyclic(t) && x in t
    ensures Height(t, x) < Height(t, t[x].parent)
    ensures t[x].parent in t ==> Depth(t, t[x].parent) < Depth(t, x)
  {
    var p := t[x].parent;
    BelowUnfold(t, x, p);
    forall y | y in Descendants(t, x) ensures y in Descendants(t, p) {
      BelowTransitive(t, y, x, p);
    }
    assert x in Descendants(t, p) && x !in Descendants(t, x);
    ProperSubsetIsSmaller(Descendants(t, x), Descendants(t, p));
    if p in t {
      forall a | a in Ancestors(t, p) ensures a in Ancestors(t, x) {
        BelowTransitive(t, x, p, a);
      }
      assert p in Ancestors(t, x) && p !in Ancestors(t, p);
      ProperSubsetIsSmaller(Ancestors(t, p), Ancestors(t, x));
    }
  }

  /** Climbing from `x` by parents reaches something that is not recorded. */
  ghost predicate ClimbEnds(t: Table, x: DeviceId) { exists n: nat :: Leaves(t, x, n) }

  ghost predicate Leaves(t: Table, x: DeviceId, n: nat) { Up(t, x, n).Some? && Up(t, x, n).value !in t }

  lemma {:induction false} AcyclicClimbEnds(t: Table, x: DeviceId) returns (n: nat)
    requires Acyclic(t)
    ensures Leaves(t, x, n)
    decreases x in t, Depth(t, x)
  {
    if x !in t {
      n := 0;
    } else {
      ChildIsDeeper(t, x);
      n := AcyclicClimbEnds(t, t[x].parent);
      n := n + 1;
    }
  }

  /** A device below itself is met again and again. */
  lemma {:induction false} ComesBack(t: Table, x: DeviceId, m: nat, k: nat)
    requires m > 0 && Up(t, x, m) == Some(x)
    ensures Up(t, x, m * k) == Some(x)
    decreases k
  {
    if k > 0 {
      ComesBack(t, x, m, k - 1);
      UpAdd(t, x, m * (k - 1), x, m);
      assert m * k == m * (k - 1) + m;
    }
  }

  /**
   Every loop that climbs from a device to the top ends exactly on the acyclic tables: on any other table
   some climb goes on for ever.
   */
  lemma ClimbsEndIff(t: Table)
    ensures Acyclic(t) <==> forall x | x in t :: ClimbEnds(t, x)
  {
    if Acyclic(t) {
      forall x | x in t ensures ClimbEnds(t, x) {
        var n := AcyclicClimbEnds(t, x);
      }
    } else {
      var x :| x in t && Below(t, x, x);
      CycleNeverLeaves(t, x);
    }
  }

  lemma CycleNeverLeaves(t: Table, x: DeviceId)
    requires x in t && Below(t, x, x)
    ensures !ClimbEnds(t, x)
  {
    var m: nat :| m > 0 && Up(t, x, m) == Some(x);
    forall n: nat ensures !Leaves(t, x, n) {
      if Leaves(t, x, n) {
        ComesBack(t, x, m, n + 1);
        assert m * (n + 1) > n by { assert m * (n + 1) >= n + 1; }
        UpAdd(t, x, n, Up(t, x, n).value, m * (n + 1) - n);
      }
    }
  }

  /** Nothing is below two different children of one parent. */
  lemma SiblingsAreDisjoint(t: Table, x: DeviceId, c: DeviceId, d: DeviceId)
    requires Acyclic(t) && c in t && d in t && c != d && t[c].parent == t[d].parent
    requires x == c || Below(t, x, c)
    ensures x != d && !Below(t, x, d)
  {
    if x == d || Below(t, x, d) {
      assert Up(t, x, 0) == Some(x);
      var m: nat :| Up(t, x, m) == Some(c);
      var n: nat :| Up(t, x, n) == Some(d);
      AncestorsLinear(t, x, m, c, n, d);
      if Below(t, c, d) {
        SiblingsNotNested(t, c, d);
      } else {
        SiblingsNotNested(t, d, c);
      }
    }
  }

  lemma SiblingsNotNested(t: Table, c: DeviceId, d: DeviceId)
    requires Acyclic(t) && c in t && d in t && t[c].parent == t[d].parent
    ensures !Below(t, c, d)
  {
    if Below(t, c, d) {
      BelowUnfold(t, c, d);
      BelowUnfold(t, d, t[c].parent);
      if t[c].parent != d {
        BelowTransitive(t, d, t[c].parent, d);
      }
    }
  }

  // ---------------------------------------------------------------- order of children

  ghost predicate IsChildAfter(t: Table, p: DeviceId, k: int, c: DeviceId) {
    c in t && t[c].parent == p && Key(c) > k
  }

  ghost predicate IsLeastKey(s: set<DeviceId>, c: DeviceId) {
    c in s && forall d | d in s :: Key(c) <= Key(d)
  }

  lemma {:induction false} LeastKeyExists(s: set<DeviceId>)
    requires s != {}
    ensures exists c :: IsLeastKey(s, c)
  {
    var c :| c in s;
    var rest := s - {c};
    var least := c;
    if rest != {} {
      LeastKeyExists(rest);
      var d :| IsLeastKey(rest, d);
      least := if Key(d) < Key(c) then d else c;
    }
    assert forall x | x in s :: x == c || x in rest;
    assert IsLeastKey(s, least);
  }

  /** The child of `p` that follows position `k` in bucket order. */
  ghost function NextChild(t: Table, p: DeviceId, k: int): (r: Option<DeviceId>)
    ensures r.Some? ==> IsChildAfter(t, p, k, r.value)
    ensures forall d | IsChildAfter(t, p, k, d) :: r.Some? && Key(r.value) <= Key(d)
  {
    var s := set c | c in t && IsChildAfter(t, p, k, c);
    if s == {} then
      assert forall d | IsChildAfter(t, p, k, d) :: d in s;
      None
    else
      LeastKeyExists(s);
      var c :| IsLeastKey(s, c);
      assert forall d | IsChildAfter(t, p, k, d) :: d in s;
      Some(c)
  }

  /** The two clauses of `NextChild` determine it. */
  lemma NextChildUnique(t: Table, p: DeviceId, k: int, r: Option<DeviceId>)
    requires r.Some? ==> IsChildAfter(t, p, k, r.value)
    requires forall d | IsChildAfter(t, p, k, d) :: r.Some? && Key(r.value) <= Key(d)
    ensures r == NextChild(t, p, k)
  {
    if r.Some? && NextChild(t, p, k).Some? {
      KeyInjective(r.value, NextChild(t, p, k).value);
    }
  }

  /** Every child of `p` after position `k` is in a bucket after `b`, or in bucket `b` from id `low` on. */
  ghost predicate NoneSkipped(t: Table, p: DeviceId, k: int, b: int, low: int) {
    forall c: DeviceId | IsChildAfter(t, p, k, c) :: Hash(c) > b || (Hash(c) == b && c >= low)
  }

  /** A scan in bucket order that skipped nothing has found the next child. */
  lemma ScanFound(t: Table, p: DeviceId, k: int, x: DeviceId)
    requires IsChildAfter(t, p, k, x) && NoneSkipped(t, p, k, Hash(x), x)
    ensures NextChild(t, p, k) == Some(x)
  {
    forall d | IsChildAfter(t, p, k, d) ensures Key(x) <= Key(d) {
      KeyInjective(d, x);
    }
    NextChildUnique(t, p, k, Some(x));
  }

  lemma ScanStart(t: Table, p: DeviceId, last: DeviceId)
    ensures NoneSkipped(t, p, Key(last), Hash(last), last + 1)
  {
    forall c: DeviceId | IsChildAfter(t, p, Key(last), c)
      ensures Hash(c) > Hash(last) || (Hash(c) == Hash(last) && c >= last + 1)
    {
      KeyInjective(last, c);
    }
  }

  /** The direct children of `p` after position `k`, in bucket order. */
  ghost function ChildrenFrom(t: Table, p: DeviceId, k: int): seq<DeviceId>
    decreases 0x10_0000 - k
  {
    match NextChild(t, p, k)
    case None => []
    case Some(c) => [c] + ChildrenFrom(t, p, Key(c))
  }

  ghost function Children(t: Table, p: DeviceId): seq<DeviceId> { ChildrenFrom(t, p, -1) }

  lemma ChildrenStep(t: Table, p: DeviceId, k: int, done: seq<DeviceId>)
    ensures var next := NextChild(t, p, k);
            done + ChildrenFrom(t, p, k) ==
            if next.None? then done else (done + [next.value]) + ChildrenFrom(t, p, Key(next.value))
  {
  }

  /** The list holds exactly the children, in strictly increasing bucket order. */
  lemma {:induction false} ChildrenFromExact(t: Table, p: DeviceId, k: int)
    ensures forall c :: c in ChildrenFrom(t, p, k) <==> IsChildAfter(t, p, k, c)
    ensures InKeyOrder(ChildrenFrom(t, p, k))
    decreases 0x10_0000 - k
  {
    var next := NextChild(t, p, k);
    if next.Some? {
      var c := next.value;
      var rest := ChildrenFrom(t, p, Key(c));
      ChildrenFromExact(t, p, Key(c));
      assert ChildrenFrom(t, p, k) == [c] + rest;
      NextChildFirst(t, p, k, c, rest, [c] + rest);
    }
  }

  /** Strictly ascending in bucket order. */
  ghost predicate InKeyOrder(s: seq<DeviceId>) { forall i, j | 0 <= i < j < |s| :: Key(s[i]) < Key(s[j]) }

  lemma LeastFirst(c: DeviceId, rest: seq<DeviceId>)
    requires InKeyOrder(rest) && forall d | d in rest :: Key(c) < Key(d)
    ensures InKeyOrder([c] + rest)
  {
    var s := [c] + rest;
    forall i, j | 0 <= i < j < |s| ensures Key(s[i]) < Key(s[j]) {
      assert s[j] == rest[j - 1] && (i > 0 ==> s[i] == rest[i - 1]);
    }
  }

  lemma NextChildFirst(t: Table, p: DeviceId, k: int, c: DeviceId, rest: seq<DeviceId>, s: seq<DeviceId>)
    requires NextChild(t, p, k) == Some(c) && forall d :: d in rest <==> IsChildAfter(t, p, Key(c), d)
    requires s == [c] + rest && InKeyOrder(rest)
    ensures forall d :: d in s <==> IsChildAfter(t, p, k, d)
    ensures InKeyOrder(s)
  {
    forall d ensures d in s <==> IsChildAfter(t, p, k, d) {
      if IsChildAfter(t, p, k, d) { KeyInjective(c, d); }
    }
    LeastFirst(c, rest);
  }

  ghost function DirectChildren(t: Table, p: DeviceId): set<DeviceId> { set x | x in t && t[x].parent == p }

  /** The list of children is as long as their set. */
  lemma ChildrenCount(t: Table, p: DeviceId)
    ensures |Children(t, p)| == |DirectChildren(t, p)|
  {
    ChildrenFromExact(t, p, -1);
    forall i, j | 0 <= i < j < |Children(t, p)| ensures Children(t, p)[i] != Children(t, p)[j] {
      assert Key(Children(t, p)[i]) < Key(Children(t, p)[j]);
    }
    DistinctCount(Children(t, p));
    assert DirectChildren(t, p) == Elements(Children(t, p));
  }

  ghost function Elements(s: seq<DeviceId>): set<DeviceId> { set x | x in s }

  lemma {:induction false} DistinctCount(s: seq<DeviceId>)
    requires Distinct(s)
    ensures |Elements(s)| == |s|
  {
    if s != [] {
      DistinctCount(s[1..]);
      assert s == [s[0]] + s[1..];
      assert Elements(s) == Elements(s[1..]) + {s[0]};
      assert s[0] !in s[1..];
    }
  }

  ghost predicate IsEntryAfter(t: Table, k: int, x: DeviceId) { x in t && Key(x) > k }

  /** The entry that follows position `k` in bucket order. */
  ghost function NextEntry(t: Table, k: int): (r: Option<DeviceId>)
    ensures r.Some? ==> IsEntryAfter(t, k, r.value)
    ensures forall d | IsEntryAfter(t, k, d) :: r.Some? && Key(r.value) <= Key(d)
  {
    var s := set x | x in t && IsEntryAfter(t, k, x);
    if s == {} then
      assert forall d | IsEntryAfter(t, k, d) :: d in s;
      None
    else
      LeastKeyExists(s);
      var c :| IsLeastKey(s, c);
      assert forall d | IsEntryAfter(t, k, d) :: d in s;
      Some(c)
  }

  lemma NextEntryUnique(t: Table, k: int, r: Option<DeviceId>)
    requires r.Some? ==> IsEntryAfter(t, k, r.value)
    requires forall d | IsEntryAfter(t, k, d) :: r.Some? && Key(r.value) <= Key(d)
    ensures r == NextEntry(t, k)
  {
    if r.Some? && NextEntry(t, k).Some? {
      KeyInjective(r.value, NextEntry(t, k).value);
    }
  }

  ghost predicate NoEntrySkipped(t: Table, k: int, b: int, low: int) {
    forall x: DeviceId | IsEntryAfter(t, k, x) :: Hash(x) > b || (Hash(x) == b && x >= low)
  }

  lemma EntryScanFound(t: Table, k: int, x: DeviceId)
    requires IsEntryAfter(t, k, x) && NoEntrySkipped(t, k, Hash(x), x)
    ensures NextEntry(t, k) == Some(x)
  {
    forall d | IsEntryAfter(t, k, d) ensures Key(x) <= Key(d) {
      KeyInjective(d, x);
    }
    NextEntryUnique(t, k, Some(x));
  }

  lemma EntryScanStart(t: Table, last: DeviceId)
    ensures NoEntrySkipped(t, Key(last), Hash(last), last + 1)
  {
    forall c: DeviceId | IsEntryAfter(t, Key(last), c)
      ensures Hash(c) > Hash(last) || (Hash(c) == Hash(last) && c >= last + 1)
    {
      KeyInjective(last, c);
    }
  }

  // ---------------------------------------------------------------- preorder and its successor

  /** Children of `p` after position `k`, each followed by everything below it. */
  ghost function PreorderFrom(t: Table, p: DeviceId, k: int): seq<DeviceId>
    requires Acyclic(t)
    decreases Height(t, p), 0x10_0000 - k
  {
    match NextChild(t, p, k)
    case None => []
    case Some(c) =>
      ChildIsDeeper(t, c);
      [c] + PreorderFrom(t, c, -1) + PreorderFrom(t, p, Key(c))
  }

  /** The recursive preorder of everything below `root`. */
  ghost function Preorder(t: Table, root: DeviceId): seq<DeviceId>
    requires Acyclic(t)
  {
    PreorderFrom(t, root, -1)
  }

  /** Where the search resumes once everything below `x` has been returned: climb until a sibling is found. */
  ghost function After(t: Table, root: DeviceId, x: DeviceId): Option<DeviceId>
    requires Acyclic(t) && x in t
    decreases Depth(t, x)
  {
    var p := t[x].parent;
    var sibling := NextChild(t, p, Key(x));
    if sibling.Some? then sibling
    else if p !in t || p == root then None
    else
      ChildIsDeeper(t, x);
      After(t, root, p)
  }

  /** One step of the climb, which always ends because ancestors run out. */
  lemma AfterUnfold(t: Table, root: DeviceId, x: DeviceId)
    requires Acyclic(t) && x in t
    ensures NextChild(t, t[x].parent, Key(x)).Some? ==> After(t, root, x) == NextChild(t, t[x].parent, Key(x))
    ensures NextChild(t, t[x].parent, Key(x)).None? ==>
              After(t, root, x) == if t[x].parent !in t || t[x].parent == root then None
                                   else After(t, root, t[x].parent)
  {
  }

  /** The successor computed without a stack: first child, else resume above. */
  ghost function Successor(t: Table, root: DeviceId, last: Option<DeviceId>): Option<DeviceId>
    requires Acyclic(t) && (last.Some? ==> last.value in t)
  {
    match last
    case None => NextChild(t, root, -1)
    case Some(x) =>
      var child := NextChild(t, x, -1);
      if child.Some? then child else After(t, root, x)
  }

  /** Where the walk goes after the last device below `p`. */
  ghost function Resume(t: Table, root: DeviceId, p: DeviceId): Option<DeviceId>
    requires Acyclic(t) && (p == root || p in t)
  {
    if p == root then None else After(t, root, p)
  }

  ghost function At(s: seq<DeviceId>, i: nat, otherwise: Option<DeviceId>): Option<DeviceId> {
    if i < |s| then Some(s[i]) else otherwise
  }

  /** Device `i` of `s` is succeeded by the next one, and the last by `end`. */
  ghost predicate StepsTo(t: Table, root: DeviceId, s: seq<DeviceId>, end: Option<DeviceId>, i: nat)
    requires Acyclic(t) && i < |s|
  {
    s[i] in t && Successor(t, root, Some(s[i])) == At(s, i + 1, end)
  }

  ghost predicate Walks(t: Table, root: DeviceId, s: seq<DeviceId>, end: Option<DeviceId>)
    requires Acyclic(t)
  {
    forall i | 0 <= i < |s| :: StepsTo(t, root, s, end, i)
  }

  lemma WalksAppend(t: Table, root: DeviceId, a: seq<DeviceId>, b: seq<DeviceId>, end: Option<DeviceId>)
    requires Acyclic(t) && Walks(t, root, a, At(b, 0, end)) && Walks(t, root, b, end)
    ensures Walks(t, root, a + b, end)
  {
    var s := a + b;
    forall i | 0 <= i < |s| ensures StepsTo(t, root, s, end, i) {
      if i < |a| {
        assert StepsTo(t, root, a, At(b, 0, end), i);
        assert s[i] == a[i] && At(s, i + 1, end) == At(a, i + 1, At(b, 0, end));
      } else {
        assert StepsTo(t, root, b, end, i - |a|);
        assert s[i] == b[i - |a|] && At(s, i + 1, end) == At(b, i - |a| + 1, end);
      }
    }
  }

  lemma FirstOfPreorder(t: Table, p: DeviceId, k: int, end: Option<DeviceId>)
    requires Acyclic(t)
    ensures At(PreorderFrom(t, p, k), 0, end) ==
            if NextChild(t, p, k).Some? then NextChild(t, p, k) else end
  {
  }

  /** One child, what is below it, and its later siblings are walked in that order. */
  lemma WalkOneChild(t: Table, root: DeviceId, c: DeviceId, below: seq<DeviceId>, rest: seq<DeviceId>,
                     above: Option<DeviceId>, end: Option<DeviceId>)
    requires Acyclic(t) && c in t
    requires Successor(t, root, Some(c)) == At(below, 0, above) && above == At(rest, 0, end)
    requires Walks(t, root, below, above) && Walks(t, root, rest, end)
    ensures Walks(t, root, [c] + below + rest, end)
  {
    assert Walks(t, root, [c], At(below, 0, above));
    WalksAppend(t, root, [c], below, above);
    WalksAppend(t, root, [c] + below, rest, end);
  }

  /** Inductive form of the traversal theorem, for the part of the walk below one device. */
  lemma {:induction false} SuccessorWalks(t: Table, root: DeviceId, p: DeviceId, k: int)
    requires Acyclic(t)
    requires p == root || (p in t && Below(t, p, root))
    ensures Walks(t, root, PreorderFrom(t, p, k), Resume(t, root, p))
    decreases Height(t, p), 0x10_0000 - k
  {
    var next := NextChild(t, p, k);
    if next.Some? {
      var c := next.value;
      ChildIsDeeper(t, c);
      BelowUnfold(t, c, root);
      SuccessorWalks(t, root, c, -1);
      SuccessorWalks(t, root, p, Key(c));
      FirstOfPreorder(t, p, Key(c), Resume(t, root, p));
      FirstOfPreorder(t, c, -1, After(t, root, c));
      WalkOneChild(t, root, c, PreorderFrom(t, c, -1), PreorderFrom(t, p, Key(c)),
                   After(t, root, c), Resume(t, root, p));
    }
  }

  /** Iterating the stackless successor from nothing yields the recursive preorder and then stops. */
  lemma TraversalIsPreorder(t: Table, root: DeviceId)
    requires Acyclic(t)
    ensures Successor(t, root, None) == At(Preorder(t, root), 0, None)
    ensures Walks(t, root, Preorder(t, root), None)
  {
    SuccessorWalks(t, root, root, -1);
    FirstOfPreorder(t, root, -1, None);
  }

  /** One turn of a loop that collects the walk. */
  lemma WalkPrefix(t: Table, root: DeviceId, done: seq<DeviceId>, x: DeviceId)
    requires Acyclic(t) && done <= Preorder(t, root) && At(Preorder(t, root), |done|, None) == Some(x)
    ensures done + [x] <= Preorder(t, root) && x in t
    ensures Successor(t, root, Some(x)) == At(Preorder(t, root), |done| + 1, None)
  {
    TraversalIsPreorder(t, root);
    assert StepsTo(t, root, Preorder(t, root), None, |done|);
  }

  // ---------------------------------------------------------------- what the preorder contains

  /** Below `p` through a child after position `k`. */
  ghost predicate InPart(t: Table, p: DeviceId, k: int, x: DeviceId) {
    exists c :: IsChildAfter(t, p, k, c) && (x == c || Below(t, x, c))
  }

  lemma {:induction false} InPartSplits(t: Table, p: DeviceId, k: int, c: DeviceId, x: DeviceId)
    requires NextChild(t, p, k) == Some(c)
    ensures InPart(t, p, k, x) <==> x == c || Below(t, x, c) || InPart(t, p, Key(c), x)
  {
    if InPart(t, p, k, x) {
      var d :| IsChildAfter(t, p, k, d) && (x == d || Below(t, x, d));
      KeyInjective(c, d);
      assert d == c || IsChildAfter(t, p, Key(c), d);
    }
    if InPart(t, p, Key(c), x) {
      var d :| IsChildAfter(t, p, Key(c), d) && (x == d || Below(t, x, d));
      assert IsChildAfter(t, p, k, d);
    }
  }

  lemma BelowIsInPart(t: Table, p: DeviceId, x: DeviceId)
    ensures InPart(t, p, -1, x) <==> Below(t, x, p)
  {
    if InPart(t, p, -1, x) {
      var c :| IsChildAfter(t, p, -1, c) && (x == c || Below(t, x, c));
      BelowUnfold(t, c, p);
      if x != c { BelowTransitive(t, x, c, p); }
    }
    if Below(t, x, p) {
      var n: nat :| n > 0 && Up(t, x, n) == Some(p);
      LastStep(t, x, n, p);
    }
  }

  /** A path that ends in `p` goes through a child of `p`. */
  lemma {:induction false} LastStep(t: Table, x: DeviceId, n: nat, p: DeviceId)
    requires n > 0 && Up(t, x, n) == Some(p)
    ensures InPart(t, p, -1, x)
    decreases n
  {
    if n == 1 {
      assert Up(t, t[x].parent, 0) == Some(p);
      assert IsChildAfter(t, p, -1, x);
    } else {
      LastStep(t, t[x].parent, n - 1, p);
      var c :| IsChildAfter(t, p, -1, c) && (t[x].parent == c || Below(t, t[x].parent, c));
      BelowUnfold(t, x, c);
    }
  }

  ghost predicate Distinct(s: seq<DeviceId>) {
    forall i, j | 0 <= i < j < |s| :: s[i] != s[j]
  }

  lemma DistinctAppend(a: seq<DeviceId>, b: seq<DeviceId>)
    requires Distinct(a) && Distinct(b) && forall x | x in a :: x !in b
    ensures Distinct(a + b)
  {
    forall i, j | 0 <= i < j < |a + b| ensures (a + b)[i] != (a + b)[j] {
      if i < |a| <= j {
        assert a[i] in a && (a + b)[j] == b[j - |a|] && b[j - |a|] in b;
      }
    }
  }

  lemma {:induction false} PreorderFromContents(t: Table, p: DeviceId, k: int)
    requires Acyclic(t)
    ensures forall x :: x in PreorderFrom(t, p, k) <==> InPart(t, p, k, x)
    ensures Distinct(PreorderFrom(t, p, k))
    decreases Height(t, p), 0x10_0000 - k
  {
    var next := NextChild(t, p, k);
    if next.Some? {
      var c := next.value;
      ChildIsDeeper(t, c);
      PreorderFromContents(t, c, -1);
      PreorderFromContents(t, p, Key(c));
      var below, rest := PreorderFrom(t, c, -1), PreorderFrom(t, p, Key(c));
      var s := PreorderFrom(t, p, k);
      assert s == [c] + below + rest;
      forall x ensures x in s <==> InPart(t, p, k, x) {
        InPartSplits(t, p, k, c, x);
        BelowIsInPart(t, c, x);
      }
      forall x | x in below ensures x != c && x !in rest {
        BelowIsInPart(t, c, x);
        NotInLaterPart(t, p, c, x);
      }
      NotInLaterPart(t, p, c, c);
      DistinctAppend([c], below);
      DistinctAppend([c] + below, rest);
    } else {
      assert forall x :: !InPart(t, p, k, x);
    }
  }

  lemma NotInLaterPart(t: Table, p: DeviceId, c: DeviceId, x: DeviceId)
    requires Acyclic(t) && c in t && t[c].parent == p && (x == c || Below(t, x, c))
    ensures !InPart(t, p, Key(c), x)
  {
    if InPart(t, p, Key(c), x) {
      var d :| IsChildAfter(t, p, Key(c), d) && (x == d || Below(t, x, d));
      SiblingsAreDisjoint(t, x, c, d);
    }
  }

  /** Parents come first: the parent of every listed device is `p` or listed earlier. */
  ghost predicate ParentsFirst(t: Table, p: DeviceId, s: seq<DeviceId>) {
    forall i | 0 <= i < |s| :: s[i] in t && (t[s[i]].parent == p || t[s[i]].parent in s[..i])
  }

  lemma {:induction false} PreorderFromParentsFirst(t: Table, p: DeviceId, k: int)
    requires Acyclic(t)
    ensures ParentsFirst(t, p, PreorderFrom(t, p, k))
    decreases Height(t, p), 0x10_0000 - k
  {
    var next := NextChild(t, p, k);
    if next.Some? {
      var c := next.value;
      ChildIsDeeper(t, c);
      PreorderFromParentsFirst(t, c, -1);
      PreorderFromParentsFirst(t, p, Key(c));
      var below, rest := PreorderFrom(t, c, -1), PreorderFrom(t, p, Key(c));
      var s := PreorderFrom(t, p, k);
      assert s == [c] + below + rest;
      forall i | 0 <= i < |s|
        ensures s[i] in t && (t[s[i]].parent == p || t[s[i]].parent in s[..i])
      {
        if 0 < i <= |below| {
          assert s[i] == below[i - 1];
          assert s[..i] == [c] + below[..i - 1];
        } else if i > |below| {
          var j := i - 1 - |below|;
          assert s[i] == rest[j];
          assert s[..i] == [c] + below + rest[..j];
        }
      }
    }
  }

  /** The walk returns exactly the devices below `root`, each once and after its parent. */
  lemma PreorderIsExact(t: Table, root: DeviceId)
    requires Acyclic(t)
    ensures forall x :: x in Preorder(t, root) <==> Below(t, x, root)
    ensures Distinct(Preorder(t, root))
    ensures ParentsFirst(t, root, Preorder(t, root))
  {
    PreorderFromContents(t, root, -1);
    PreorderFromParentsFirst(t, root, -1);
    forall x ensures x in Preorder(t, root) <==> Below(t, x, root) {
      BelowIsInPart(t, root, x);
    }
  }

  // ---------------------------------------------------------------- one branch on its own, and whole-table order

  /** `s` records exactly the branch below `x` of `t`, with the same parents. */
  ghost predicate SameBranch(s: Table, t: Table, x: DeviceId) {
    && (forall y :: y in s <==> y in t && Below(t, y, x))
    && (forall y | y in s :: s[y].parent == t[y].parent)
  }

  lemma {:induction false} BranchHasSamePreorder(s: Table, t: Table, x: DeviceId, p: DeviceId, k: int)
    requires Acyclic(s) && Acyclic(t) && SameBranch(s, t, x) && (p == x || Below(t, p, x))
    ensures PreorderFrom(s, p, k) == PreorderFrom(t, p, k)
    decreases Height(t, p), 0x10_0000 - k
  {
    forall c ensures IsChildAfter(s, p, k, c) <==> IsChildAfter(t, p, k, c) {
      BelowUnfold(t, c, x);
    }
    NextChildUnique(s, p, k, NextChild(t, p, k));
    if NextChild(t, p, k).Some? {
      var c := NextChild(t, p, k).value;
      ChildIsDeeper(t, c);
      BelowUnfold(t, c, x);
      BranchHasSamePreorder(s, t, x, c, -1);
      BranchHasSamePreorder(s, t, x, p, Key(c));
    }
  }

  /** All entries after position `k` in bucket order. */
  ghost function EntriesFrom(t: Table, k: int): seq<DeviceId>
    decreases 0x10_0000 - k
  {
    match NextEntry(t, k)
    case None => []
    case Some(x) => [x] + EntriesFrom(t, Key(x))
  }

  /** The list holds every later entry exactly once, in strictly increasing bucket order. */
  lemma {:induction false} EntriesFromExact(t: Table, k: int)
    ensures forall x :: x in EntriesFrom(t, k) <==> IsEntryAfter(t, k, x)
    ensures InKeyOrder(EntriesFrom(t, k))
    decreases 0x10_0000 - k
  {
    var next := NextEntry(t, k);
    if next.Some? {
      var c := next.value;
      var rest := EntriesFrom(t, Key(c));
      EntriesFromExact(t, Key(c));
      assert EntriesFrom(t, k) == [c] + rest;
      NextEntryFirst(t, k, c, rest, [c] + rest);
    }
  }

  lemma NextEntryFirst(t: Table, k: int, c: DeviceId, rest: seq<DeviceId>, s: seq<DeviceId>)
    requires NextEntry(t, k) == Some(c) && forall d :: d in rest <==> IsEntryAfter(t, Key(c), d)
    requires s == [c] + rest && InKeyOrder(rest)
    ensures forall d :: d in s <==> IsEntryAfter(t, k, d)
    ensures InKeyOrder(s)
  {
    forall d ensures d in s <==> IsEntryAfter(t, k, d) {
      if IsEntryAfter(t, k, d) { KeyInjective(c, d); }
    }
    LeastFirst(c, rest);
  }

  lemma EntriesStep(t: Table, k: int, done: seq<DeviceId>)
    ensures var next := NextEntry(t, k);
            done + EntriesFrom(t, k) ==
            if next.None? then done else (done + [next.value]) + EntriesFrom(t, Key(next.value))
  {
  }
}
