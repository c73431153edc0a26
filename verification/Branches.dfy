/** Tables that list exactly a branch of the whole tree, and what moves and deletions in the tree ask of them. */
module Branches {
  import opened Devices
  import opened Forest
  import opened TableOps
  import opened NextHops
  import opened Replay

  /** `s` records devices of `t` with their parents there. */
  ghost predicate Mirrors(s: Table, t: Table) { s.Keys <= t.Keys && forall y | y in s :: s[y].parent == t[y].parent }

  /** `s` lists what hangs from `c` in `t`, directly or deeper. */
  ghost predicate Covers(t: Table, c: DeviceId, s: Table) {
    c !in s && Mirrors(s, t) && forall y {:trigger t[y]} | y in t :: y in s <==> t[y].parent == c || t[y].parent in s
  }

  lemma {:induction false} UpMirrored(s: Table, t: Table, y: DeviceId, n: nat)
    requires Mirrors(s, t) && Up(s, y, n).Some?
    ensures Up(t, y, n) == Up(s, y, n)
    decreases n
  {
    if n > 0 {
      UpMirrored(s, t, s[y].parent, n - 1);
    }
  }

  lemma BelowMirrored(s: Table, t: Table, y: DeviceId, a: DeviceId)
    requires Mirrors(s, t) && Below(s, y, a)
    ensures Below(t, y, a)
  {
    var n: nat :| n > 0 && Up(s, y, n) == Some(a);
    UpMirrored(s, t, y, n);
  }

  lemma MirrorIsAcyclic(s: Table, t: Table)
    requires Mirrors(s, t) && Acyclic(t)
    ensures Acyclic(s)
  {
    forall y | y in s ensures !Below(s, y, y) {
      if Below(s, y, y) { BelowMirrored(s, t, y, y); }
    }
  }

  lemma {:induction false} CoveredIffBelow(t: Table, c: DeviceId, s: Table, y: DeviceId)
    requires Acyclic(t) && Covers(t, c, s) && y in t
    ensures y in s <==> Below(t, y, c)
    decreases Depth(t, y)
  {
    var q := t[y].parent;
    BelowUnfold(t, y, c);
    BelowUnfold(t, q, c);
    if q in t {
      ChildIsDeeper(t, y);
      CoveredIffBelow(t, c, s, q);
    }
  }

  /** So it is the branch below `c`. */
  lemma CoversIsBranch(t: Table, c: DeviceId, s: Table)
    requires Acyclic(t) && Covers(t, c, s)
    ensures SameBranch(s, t, c) && HangsFrom(s, c)
  {
    MirrorIsAcyclic(s, t);
    forall y ensures y in s <==> y in t && Below(t, y, c) {
      if y in t { CoveredIffBelow(t, c, s, y); }
    }
  }

  /** `u` is `t` with `x` below another parent. */
  ghost predicate Rehung(t: Table, u: Table, x: DeviceId, p: DeviceId) {
    x in t && t[x].parent != p && u.Keys == t.Keys
    && forall y | y in t :: u[y].parent == if y == x then p else t[y].parent
  }

  /** A table whose owner is at or above the new parent has to list `x` and what is below `x`. */
  lemma HeardCovers(t: Table, u: Table, c: DeviceId, x: DeviceId, p: DeviceId, r: Table, s: Table, w: Table)
    requires Covers(t, c, r) && Covers(t, x, s) && Rehung(t, u, x, p)
    requires (p == c || p in r) && c != x && c !in s
    requires w.Keys == r.Keys + {x} + s.Keys && forall y | y in w :: w[y].parent == u[y].parent
    ensures Covers(u, c, w)
  {
    assert p in w || p == c;
    forall y | y in u && y != x ensures y in w <==> u[y].parent == c || u[y].parent in w {
      assert u[y].parent == t[y].parent;
      assert y in r <==> t[y].parent == c || t[y].parent in r;
      assert y in s <==> t[y].parent == x || t[y].parent in s;
      assert y in w <==> y in r || y in s;
      assert t[y].parent == x ==> y in s;
    }
  }

  /** One whose owner is neither above the old nor above the new parent stays. */
  lemma UnheardCovers(t: Table, u: Table, c: DeviceId, x: DeviceId, p: DeviceId, r: Table)
    requires Covers(t, c, r) && Rehung(t, u, x, p) && x !in r && p != c && p !in r
    ensures Covers(u, c, r)
  {
  }

  /** One whose owner is above the old parent only has to lose `x` with its branch. */
  lemma LostCovers(t: Table, u: Table, c: DeviceId, x: DeviceId, p: DeviceId, r: Table, w: Table)
    requires Covers(t, c, r) && Rehung(t, u, x, p) && x in r && p != c && p !in r
    requires w.Keys == RemoveTree(r, x).Keys && forall y | y in w :: w[y].parent == r[y].parent
    ensures Covers(u, c, w)
  {
    BelowUnfold(r, c, x);
    forall y | y in u && y != x ensures y in w <==> u[y].parent == c || u[y].parent in w {
      BelowUnfold(r, y, x);
    }
  }

  /** Above `y` the branch below `c` has all of the tree up to `c`. */
  lemma {:induction false} BelowInside(t: Table, c: DeviceId, r: Table, y: DeviceId, x: DeviceId)
    requires Acyclic(t) && Covers(t, c, r) && y in r && Below(t, y, x) && c != x && !Below(t, c, x)
    ensures Below(r, y, x)
    decreases Depth(t, y)
  {
    BelowUnfold(t, y, x);
    BelowUnfold(r, y, x);
    if t[y].parent != x {
      ChildIsDeeper(t, y);
      BelowInside(t, c, r, t[y].parent, x);
    }
  }

  /** When `x` is deleted with its branch, the tables of the others have to lose it too. */
  lemma DeletedCovers(t: Table, u: Table, c: DeviceId, x: DeviceId, r: Table, w: Table)
    requires Acyclic(t) && Covers(t, c, r) && c != x && !Below(t, c, x)
    requires u.Keys == RemoveTree(t, x).Keys && forall y | y in u :: u[y].parent == t[y].parent
    requires w.Keys == RemoveTree(r, x).Keys && forall y | y in w :: w[y].parent == r[y].parent
    ensures Covers(u, c, w)
  {
    forall y | y in r ensures Below(r, y, x) <==> Below(t, y, x) {
      if Below(r, y, x) { BelowMirrored(r, t, y, x); }
      if Below(t, y, x) { BelowInside(t, c, r, y, x); }
    }
    forall y | y in u ensures y in w <==> u[y].parent == c || u[y].parent in w {
      BelowUnfold(t, y, x);
    }
  }

  /** What is not below `x` and does not list it loses nothing. */
  lemma NothingToLose(r: Table, c: DeviceId, x: DeviceId)
    requires HangsFrom(r, c) && x !in r && x != c
    ensures RemoveTree(r, x) == r
  {
    forall y | y in r ensures !Below(r, y, x) {
      NothingBelowFresh(r, c, x, y);
    }
  }

  /** If the moved branch takes the hop of its new parent, and nothing else changes, hops stay right. */
  lemma HeardHops(t: Table, c: DeviceId, x: DeviceId, p: DeviceId, r: Table, s: Table, w: Table, hop: int)
    requires Covers(t, c, r) && Covers(t, x, s) && HopsOk(r) && x in t && p != x && p !in s
    requires w.Keys == r.Keys + {x} + s.Keys
    requires forall y | y in w :: w[y].parent == if y == x then p else t[y].parent
    requires forall y | y in w :: w[y].hop == if y == x || y in s then hop else r[y].hop
    requires p in r ==> hop == r[p].hop
    ensures HopsOk(w)
  {
    forall y | y in w && w[y].parent in w ensures w[y].hop == w[w[y].parent].hop {
      if y != x && y !in s {
        assert t[y].parent != x && t[y].parent !in s;
      }
    }
  }
}
