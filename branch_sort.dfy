/** `branches.sort(key=lambda b: b.commit_date, reverse=True)`: Python's list sort
    with `reverse=True` orders by the key from newest to oldest and is stable, so
    entries with equal dates keep their order. It is modelled by its outcome, a
    stable insertion sort on the commit instant. */
module BranchSort {

  import opened Models

  /** The sort key: the commit instant, by which aware datetimes compare. */
  function Key(b: BranchInfo): int
  {
    Epoch(b.commitDate)
  }

  /** Newest first: no entry is older than an entry after it. */
  predicate NewestFirst(s: seq<BranchInfo>)
  {
    forall i, j :: 0 <= i < j < |s| ==> Key(s[i]) >= Key(s[j])
  }

  /** No entry of `s` is newer than the instant `t`. */
  predicate NoneNewerThan(s: seq<BranchInfo>, t: int)
  {
    forall k :: 0 <= k < |s| ==> Key(s[k]) <= t
  }

  /** Places `x` in front of the first entry that is not newer than it. */
  function Insert(x: BranchInfo, s: seq<BranchInfo>): (r: seq<BranchInfo>)
    ensures multiset(r) == multiset(s) + multiset{x}
  {
    if s == [] || Key(s[0]) <= Key(x) then [x] + s
    else
      assert s == [s[0]] + s[1..];
      [s[0]] + Insert(x, s[1..])
  }

  lemma {:induction false} InsertBounded(x: BranchInfo, s: seq<BranchInfo>, t: int)
    requires Key(x) <= t && NoneNewerThan(s, t)
    ensures NoneNewerThan(Insert(x, s), t)
  {
    if s != [] && Key(s[0]) > Key(x) {
      InsertBounded(x, s[1..], t);
    }
  }

  /** Inserting into a newest-first list keeps it newest first. */
  lemma {:induction false} InsertNewestFirst(x: BranchInfo, s: seq<BranchInfo>)
    requires NewestFirst(s)
    ensures NewestFirst(Insert(x, s))
  {
    if s != [] && Key(s[0]) > Key(x) {
      var rest := s[1..];
      InsertNewestFirst(x, rest);
      InsertBounded(x, rest, Key(s[0]));
    }
  }

  /** The list ordered newest first, entries with equal dates in their original order. */
  function SortNewestFirst(s: seq<BranchInfo>): (r: seq<BranchInfo>)
    ensures NewestFirst(r)
    ensures multiset(r) == multiset(s)
  {
    if s == [] then []
    else
      assert s == [s[0]] + s[1..];
      InsertNewestFirst(s[0], SortNewestFirst(s[1..]));
      Insert(s[0], SortNewestFirst(s[1..]))
  }

  /** Two entries in enumeration order, the second strictly newer: sorting swaps them. */
  lemma SortPair(older: BranchInfo, newer: BranchInfo)
    requires Key(older) < Key(newer)
    ensures SortNewestFirst([older, newer]) == [newer, older]
  {
    assert [older, newer][1..] == [newer];
    assert [newer][1..] == [];
    assert SortNewestFirst([newer]) == Insert(newer, []) == [newer];
    assert Insert(older, [newer]) == [newer] + Insert(older, []);
  }

  /** The entries of `s` whose commit instant is `t`, in their order in `s`. */
  function WithKey(s: seq<BranchInfo>, t: int): seq<BranchInfo>
  {
    if s == [] then []
    else (if Key(s[0]) == t then [s[0]] else []) + WithKey(s[1..], t)
  }

  /** The number of entries of `s` that satisfy `P`. */
  function Count(s: seq<BranchInfo>, P: BranchInfo -> bool): nat
  {
    if s == [] then 0 else (if P(s[0]) then 1 else 0) + Count(s[1..], P)
  }

  lemma WithKeyCons(y: BranchInfo, u: seq<BranchInfo>, t: int)
    ensures WithKey([y] + u, t) == (if Key(y) == t then [y] else []) + WithKey(u, t)
  {
    assert ([y] + u)[1..] == u;
  }

  /** Inserting into a newest-first list puts `x` ahead of every entry with its date. */
  lemma {:induction false} InsertWithKey(x: BranchInfo, s: seq<BranchInfo>, t: int)
    requires NewestFirst(s)
    ensures WithKey(Insert(x, s), t) == (if Key(x) == t then [x] else []) + WithKey(s, t)
  {
    if s == [] || Key(s[0]) <= Key(x) {
      WithKeyCons(x, s, t);
    } else {
      var rest := Insert(x, s[1..]);
      var tail := s[1..];
      assert Insert(x, s) == [s[0]] + rest;
      assert NewestFirst(tail);
      InsertWithKey(x, tail, t);
      WithKeyCons(s[0], rest, t);
      WithKeyCons(s[0], tail, t);
      assert [s[0]] + tail == s;
      if Key(s[0]) == t {
        assert WithKey(rest, t) == WithKey(tail, t);
        assert WithKey(Insert(x, s), t) == [s[0]] + WithKey(tail, t);
      } else {
        assert WithKey(Insert(x, s), t) == WithKey(rest, t);
        assert WithKey(s, t) == WithKey(tail, t);
      }
    }
  }

  /** The sort is stable: for each date, the entries with that date appear in
      the same order before and after sorting. */
  lemma {:induction false} SortIsStable(s: seq<BranchInfo>, t: int)
    ensures WithKey(SortNewestFirst(s), t) == WithKey(s, t)
  {
    if s != [] {
      SortIsStable(s[1..], t);
      InsertWithKey(s[0], SortNewestFirst(s[1..]), t);
    }
  }

  lemma {:induction false} InsertCount(x: BranchInfo, s: seq<BranchInfo>, P: BranchInfo -> bool)
    ensures Count(Insert(x, s), P) == Count(s, P) + (if P(x) then 1 else 0)
  {
    if s == [] || Key(s[0]) <= Key(x) {
      assert ([x] + s)[1..] == s;
    } else {
      var rest := Insert(x, s[1..]);
      assert ([s[0]] + rest)[1..] == rest;
      InsertCount(x, s[1..], P);
    }
  }

  /** Sorting keeps the number of entries that satisfy any property. */
  lemma {:induction false} SortKeepsCount(s: seq<BranchInfo>, P: BranchInfo -> bool)
    ensures Count(SortNewestFirst(s), P) == Count(s, P)
  {
    if s != [] {
      SortKeepsCount(s[1..], P);
      InsertCount(s[0], SortNewestFirst(s[1..]), P);
    }
  }

  /** A list in which at most one entry satisfies `P` has at most one index where it holds. */
  lemma {:induction false} CountAtMostOne(s: seq<BranchInfo>, P: BranchInfo -> bool)
    requires Count(s, P) <= 1
    ensures forall i, j :: 0 <= i < |s| && 0 <= j < |s| && P(s[i]) && P(s[j]) ==> i == j
  {
    if s != [] {
      CountAtMostOne(s[1..], P);
      if P(s[0]) {
        CountZero(s[1..], P);
      }
      assert forall k :: 1 <= k < |s| ==> s[k] == s[1..][k - 1];
    }
  }

  lemma {:induction false} CountZero(s: seq<BranchInfo>, P: BranchInfo -> bool)
    requires Count(s, P) == 0
    ensures forall i :: 0 <= i < |s| ==> !P(s[i])
  {
    if s != [] {
      CountZero(s[1..], P);
      assert forall i :: 1 <= i < |s| ==> s[i] == s[1..][i - 1];
    }
  }

}
