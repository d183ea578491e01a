/** What the branch listing guarantees, proved about its specification
    `ListBranches`, which `GetAllBranches` is proved to compute. */
module ListingProperties {

  import opened Wrappers
  import opened Exceptions
  import opened Strings
  import opened Models
  import opened BranchSort
  import opened GitOperations

  /** A record built from a local branch: not remote, current exactly when its
      name is the current branch's name. */
  predicate LocalRecord(b: BranchInfo, current: string)
  {
    !b.isRemote && b.isCurrent == (b.name == current)
  }

  /** A record built from a remote-tracking ref: remote, never current, and never a "/HEAD" ref. */
  predicate RemoteRecord(b: BranchInfo)
  {
    b.isRemote && !b.isCurrent && !EndsWith(b.name, HeadRefSuffix)
  }

  function IsCurrent(b: BranchInfo): bool
  {
    b.isCurrent
  }

  /** Local branch names are unique, as git's branch names are. */
  predicate UniqueNames(refs: seq<Ref>)
  {
    forall i, j :: 0 <= i < |refs| && 0 <= j < |refs| && refs[i].name == refs[j].name ==> i == j
  }

  /** The number of refs called `name`. */
  function Named(refs: seq<Ref>, name: string): nat
  {
    if refs == [] then 0
    else Named(refs[..|refs| - 1], name) + (if refs[|refs| - 1].name == name then 1 else 0)
  }

  // ---------------------------------------------------------------- what is collected

  /** Every record collected from the local branches comes from a readable branch. */
  lemma {:induction false} LocalEntryOrigin(refs: seq<Ref>, current: string, b: BranchInfo) returns (k: nat)
    requires b in LocalEntries(refs, current)
    ensures k < |refs| && LocalEntry(refs[k], current) == Some(b)
  {
    var init := refs[..|refs| - 1];
    if b in LocalEntries(init, current) {
      k := LocalEntryOrigin(init, current, b);
      assert init[k] == refs[k];
    } else {
      k := |refs| - 1;
    }
  }

  /** Every readable local branch yields a collected record. */
  lemma {:induction false} LocalEntryCollected(refs: seq<Ref>, current: string, k: nat)
    requires k < |refs| && refs[k].commit.Some?
    ensures LocalEntry(refs[k], current).value in LocalEntries(refs, current)
  {
    var init := refs[..|refs| - 1];
    if k < |refs| - 1 {
      assert init[k] == refs[k];
      LocalEntryCollected(init, current, k);
    }
  }

  /** Every record collected from one remote comes from a readable non-HEAD ref. */
  lemma {:induction false} RefEntryOrigin(refs: seq<Ref>, b: BranchInfo) returns (k: nat)
    requires b in RefEntries(refs)
    ensures k < |refs| && RemoteEntry(refs[k]) == Some(b)
  {
    var init := refs[..|refs| - 1];
    if b in RefEntries(init) {
      k := RefEntryOrigin(init, b);
      assert init[k] == refs[k];
    } else {
      k := |refs| - 1;
    }
  }

  lemma {:induction false} RefEntryCollected(refs: seq<Ref>, k: nat)
    requires k < |refs| && RemoteEntry(refs[k]).Some?
    ensures RemoteEntry(refs[k]).value in RefEntries(refs)
  {
    var init := refs[..|refs| - 1];
    if k < |refs| - 1 {
      assert init[k] == refs[k];
      RefEntryCollected(init, k);
    }
  }

  /** Every record collected from the remotes comes from a ref of one of them. */
  lemma {:induction false} RemoteEntryOrigin(remotes: seq<seq<Ref>>, b: BranchInfo) returns (j: nat, k: nat)
    requires b in RemoteEntries(remotes)
    ensures j < |remotes| && k < |remotes[j]| && RemoteEntry(remotes[j][k]) == Some(b)
  {
    var init := remotes[..|remotes| - 1];
    if b in RemoteEntries(init) {
      j, k := RemoteEntryOrigin(init, b);
      assert init[j] == remotes[j];
    } else {
      j := |remotes| - 1;
      k := RefEntryOrigin(remotes[j], b);
    }
  }

  lemma {:induction false} RemoteEntryCollected(remotes: seq<seq<Ref>>, j: nat, k: nat)
    requires j < |remotes| && k < |remotes[j]| && RemoteEntry(remotes[j][k]).Some?
    ensures RemoteEntry(remotes[j][k]).value in RemoteEntries(remotes)
  {
    var init := remotes[..|remotes| - 1];
    if j < |remotes| - 1 {
      assert init[j] == remotes[j];
      RemoteEntryCollected(init, j, k);
    } else {
      RefEntryCollected(remotes[j], k);
    }
  }

  lemma LocalEntryShape(ref: Ref, current: string, b: BranchInfo)
    requires LocalEntry(ref, current) == Some(b)
    ensures LocalRecord(b, current) && b.name == ref.name && '\n' !in b.commitMessage
  {
  }

  lemma RemoteEntryShape(ref: Ref, b: BranchInfo)
    requires RemoteEntry(ref) == Some(b)
    ensures RemoteRecord(b) && b.name == ref.name && '\n' !in b.commitMessage
  {
    var c := ref.commit.value;
    assert b == BranchInfo(ref.name, c.hexsha, c.committed, Summary(c.message), false, true);
    assert !EndsWith(b.name, HeadRefSuffix);
    assert '\n' !in Summary(c.message);
  }

  /** The listing holds exactly the collected records. */
  lemma ListedIffCollected(repo: Repository, includeRemote: bool, b: BranchInfo)
    requires ListBranches(repo, includeRemote).Ok?
    ensures b in ListBranches(repo, includeRemote).value
            <==> b in Collected(repo, CurrentBranch(repo).value, includeRemote)
  {
    var r := ListBranches(repo, includeRemote).value;
    var c := Collected(repo, CurrentBranch(repo).value, includeRemote);
    assert multiset(r) == multiset(c);
    assert b in r <==> b in multiset(r);
    assert b in c <==> b in multiset(c);
  }

  // ---------------------------------------------------------------- counting

  lemma {:induction false} CountAppend(s: seq<BranchInfo>, u: seq<BranchInfo>, P: BranchInfo -> bool)
    ensures Count(s + u, P) == Count(s, P) + Count(u, P)
  {
    if s == [] {
      assert s + u == u;
    } else {
      assert (s + u)[0] == s[0];
      assert (s + u)[1..] == s[1..] + u;
      CountAppend(s[1..], u, P);
    }
  }

  lemma {:induction false} CountNone(s: seq<BranchInfo>, P: BranchInfo -> bool)
    requires forall b :: b in s ==> !P(b)
    ensures Count(s, P) == 0
  {
    if s != [] {
      CountNone(s[1..], P);
    }
  }

  lemma {:induction false} CountSome(s: seq<BranchInfo>, P: BranchInfo -> bool, b: BranchInfo)
    requires b in s && P(b)
    ensures Count(s, P) >= 1
  {
    if s[0] != b {
      CountSome(s[1..], P, b);
    }
  }

  /** Local records marked current are at most as many as the branches with the current name. */
  lemma {:induction false} LocalCurrentCount(refs: seq<Ref>, current: string)
    ensures Count(LocalEntries(refs, current), IsCurrent) <= Named(refs, current)
  {
    if refs != [] {
      var init := refs[..|refs| - 1];
      LocalCurrentCount(init, current);
      CountAppend(LocalEntries(init, current), AsList(LocalEntry(refs[|refs| - 1], current)), IsCurrent);
    }
  }

  lemma {:induction false} NamedNone(refs: seq<Ref>, name: string)
    requires forall k :: 0 <= k < |refs| ==> refs[k].name != name
    ensures Named(refs, name) == 0
  {
    if refs != [] {
      NamedNone(refs[..|refs| - 1], name);
    }
  }

  lemma {:induction false} NamedUnique(refs: seq<Ref>, name: string)
    requires UniqueNames(refs)
    ensures Named(refs, name) <= 1
  {
    if refs != [] {
      var init := refs[..|refs| - 1];
      assert UniqueNames(init);
      NamedUnique(init, name);
      if refs[|refs| - 1].name == name {
        NamedNone(init, name);
      }
    }
  }

  // ---------------------------------------------------------------- the listing

  /** Listing fails with the fetch error wrapping the current-branch error exactly
      when HEAD cannot be read, with
      `NoBranchesFound` exactly when HEAD can be read but nothing was collected,
      and never returns an empty list. */
  lemma ListingErrors(repo: Repository, includeRemote: bool)
    ensures ListBranches(repo, includeRemote)
            == Err(OperationError(FetchFailure + ": " + CurrentBranchFailure))
            <==> repo.head.Unreadable?
    ensures ListBranches(repo, includeRemote).Err? && ListBranches(repo, includeRemote).error.NoBranchesFound?
            <==> !repo.head.Unreadable? && Collected(repo, CurrentBranch(repo).value, includeRemote) == []
    ensures ListBranches(repo, includeRemote).Ok? ==> ListBranches(repo, includeRemote).value != []
  {
    var r := ListBranches(repo, includeRemote);
    if r.Ok? {
      var c := Collected(repo, CurrentBranch(repo).value, includeRemote);
      assert c[0] in multiset(c);
      assert c[0] in multiset(r.value);
    }
  }

  /** The listing is the collected records sorted newest first, a permutation of
      them in which records with the same commit instant keep their collection order. */
  lemma ListingIsStableSort(repo: Repository, includeRemote: bool)
    requires ListBranches(repo, includeRemote).Ok?
    ensures var r := ListBranches(repo, includeRemote).value;
            var c := Collected(repo, CurrentBranch(repo).value, includeRemote);
            && NewestFirst(r)
            && multiset(r) == multiset(c)
            && forall t :: WithKey(r, t) == WithKey(c, t)
  {
    var c := Collected(repo, CurrentBranch(repo).value, includeRemote);
    forall t ensures WithKey(SortNewestFirst(c), t) == WithKey(c, t) {
      SortIsStable(c, t);
    }
  }

  /** Every listed record comes from a readable local branch, or, only when remote
      branches were asked for, from a readable remote-tracking ref that is not a
      "/HEAD" ref; local records are current exactly when they carry the current
      branch's name, remote records never are; no stored message has a line feed. */
  lemma ListingRecords(repo: Repository, includeRemote: bool)
    requires ListBranches(repo, includeRemote).Ok?
    ensures var r := ListBranches(repo, includeRemote).value;
            var current := CurrentBranch(repo).value;
            forall b :: b in r ==>
              && '\n' !in b.commitMessage
              && (!b.isRemote ==> LocalRecord(b, current)
                                  && exists k :: 0 <= k < |repo.branches| && LocalEntry(repo.branches[k], current) == Some(b))
              && (b.isRemote ==> includeRemote && RemoteRecord(b)
                                 && exists j, k :: 0 <= j < |repo.remotes| && 0 <= k < |repo.remotes[j]|
                                                   && RemoteEntry(repo.remotes[j][k]) == Some(b))
  {
    var current := CurrentBranch(repo).value;
    var r := ListBranches(repo, includeRemote).value;
    var c := Collected(repo, current, includeRemote);
    forall b | b in r
      ensures '\n' !in b.commitMessage
      ensures !b.isRemote ==> LocalRecord(b, current)
                              && exists k :: 0 <= k < |repo.branches| && LocalEntry(repo.branches[k], current) == Some(b)
      ensures b.isRemote ==> includeRemote && RemoteRecord(b)
                             && exists j, k :: 0 <= j < |repo.remotes| && 0 <= k < |repo.remotes[j]|
                                               && RemoteEntry(repo.remotes[j][k]) == Some(b)
    {
      ListedIffCollected(repo, includeRemote, b);
      if b in LocalEntries(repo.branches, current) {
        var k := LocalEntryOrigin(repo.branches, current, b);
        LocalEntryShape(repo.branches[k], current, b);
      } else {
        assert includeRemote && b in RemoteEntries(repo.remotes);
        var j, k := RemoteEntryOrigin(repo.remotes, b);
        RemoteEntryShape(repo.remotes[j][k], b);
      }
    }
  }

  /** Nothing readable is lost: every readable local branch is listed, and, when
      remote branches were asked for, every readable ref not ending in "/HEAD". */
  lemma ListingComplete(repo: Repository, includeRemote: bool)
    requires ListBranches(repo, includeRemote).Ok?
    ensures var r := ListBranches(repo, includeRemote).value;
            var current := CurrentBranch(repo).value;
            && (forall k :: 0 <= k < |repo.branches| && repo.branches[k].commit.Some? ==>
                  LocalEntry(repo.branches[k], current).value in r)
            && (includeRemote ==>
                  forall j, k :: 0 <= j < |repo.remotes| && 0 <= k < |repo.remotes[j]|
                                 && repo.remotes[j][k].commit.Some?
                                 && !EndsWith(repo.remotes[j][k].name, HeadRefSuffix) ==>
                    RemoteEntry(repo.remotes[j][k]).value in r)
  {
    var current := CurrentBranch(repo).value;
    var r := ListBranches(repo, includeRemote).value;
    var c := Collected(repo, current, includeRemote);
    forall k | 0 <= k < |repo.branches| && repo.branches[k].commit.Some?
      ensures LocalEntry(repo.branches[k], current).value in r
    {
      var b := LocalEntry(repo.branches[k], current).value;
      LocalEntryCollected(repo.branches, current, k);
      ListedIffCollected(repo, includeRemote, b);
    }
    if includeRemote {
      forall j, k | 0 <= j < |repo.remotes| && 0 <= k < |repo.remotes[j]|
                    && repo.remotes[j][k].commit.Some?
                    && !EndsWith(repo.remotes[j][k].name, HeadRefSuffix)
        ensures RemoteEntry(repo.remotes[j][k]).value in r
      {
        var b := RemoteEntry(repo.remotes[j][k]).value;
        RemoteEntryCollected(repo.remotes, j, k);
        ListedIffCollected(repo, includeRemote, b);
      }
    }
  }

  /** With unique local branch names, at most one listed record is current, and it
      is a local one. */
  lemma AtMostOneCurrent(repo: Repository, includeRemote: bool)
    requires ListBranches(repo, includeRemote).Ok?
    requires UniqueNames(repo.branches)
    ensures var r := ListBranches(repo, includeRemote).value;
            && Count(r, IsCurrent) <= 1
            && (forall i, j :: 0 <= i < |r| && 0 <= j < |r| && r[i].isCurrent && r[j].isCurrent ==> i == j)
            && (forall b :: b in r && b.isCurrent ==> !b.isRemote)
  {
    var current := CurrentBranch(repo).value;
    var r := ListBranches(repo, includeRemote).value;
    var remote := if includeRemote then RemoteEntries(repo.remotes) else [];
    ListingRecords(repo, includeRemote);
    forall b | b in remote ensures !IsCurrent(b) {
      var j, k := RemoteEntryOrigin(repo.remotes, b);
      RemoteEntryShape(repo.remotes[j][k], b);
    }
    CountNone(remote, IsCurrent);
    CountAppend(LocalEntries(repo.branches, current), remote, IsCurrent);
    LocalCurrentCount(repo.branches, current);
    NamedUnique(repo.branches, current);
    SortKeepsCount(Collected(repo, current, includeRemote), IsCurrent);
    CountAtMostOne(r, IsCurrent);
  }

  /** When HEAD is on a readable local branch and local names are unique, exactly
      one listed record is current: that branch's. */
  lemma ExactlyOneCurrent(repo: Repository, includeRemote: bool, k: nat)
    requires UniqueNames(repo.branches)
    requires k < |repo.branches| && repo.branches[k].commit.Some?
    requires repo.head == OnBranch(repo.branches[k].name)
    ensures ListBranches(repo, includeRemote).Ok?
    ensures var r := ListBranches(repo, includeRemote).value;
            && Count(r, IsCurrent) == 1
            && LocalEntry(repo.branches[k], repo.head.name).value in r
            && LocalEntry(repo.branches[k], repo.head.name).value.isCurrent
  {
    var current := repo.head.name;
    var b := LocalEntry(repo.branches[k], current).value;
    LocalEntryCollected(repo.branches, current, k);
    ListingComplete(repo, includeRemote);
    AtMostOneCurrent(repo, includeRemote);
    CountSome(ListBranches(repo, includeRemote).value, IsCurrent, b);
  }

  /** With HEAD detached, no record is current, since no git branch name can
      contain the space of the detached-HEAD marker. */
  lemma DetachedHeadMarksNone(repo: Repository, includeRemote: bool)
    requires ListBranches(repo, includeRemote).Ok?
    requires repo.head.Detached?
    requires forall k :: 0 <= k < |repo.branches| ==> ' ' !in repo.branches[k].name
    ensures forall b :: b in ListBranches(repo, includeRemote).value ==> !b.isCurrent
  {
    forall b | b in ListBranches(repo, includeRemote).value ensures !b.isCurrent {
      ListedIffCollected(repo, includeRemote, b);
      CollectedNotDetached(repo, includeRemote, b);
    }
  }

  lemma CollectedNotDetached(repo: Repository, includeRemote: bool, b: BranchInfo)
    requires forall k :: 0 <= k < |repo.branches| ==> ' ' !in repo.branches[k].name
    requires b in Collected(repo, DetachedHeadName, includeRemote)
    ensures !b.isCurrent
  {
    if b in LocalEntries(repo.branches, DetachedHeadName) {
      var k := LocalEntryOrigin(repo.branches, DetachedHeadName, b);
      LocalEntryShape(repo.branches[k], DetachedHeadName, b);
      assert ' ' !in repo.branches[k].name;
      assert DetachedHeadName[4] == ' ';
      assert b.name != DetachedHeadName;
    } else {
      assert b in RemoteEntries(repo.remotes);
      var j, k := RemoteEntryOrigin(repo.remotes, b);
      RemoteEntryShape(repo.remotes[j][k], b);
    }
  }

  lemma LocalPair(first: Ref, second: Ref, current: string)
    requires first.commit.Some? && second.commit.Some?
    ensures LocalEntries([first, second], current)
            == [LocalEntry(first, current).value, LocalEntry(second, current).value]
  {
    var a := LocalEntry(first, current).value;
    assert [first, second][..1] == [first];
    assert [first][..0] == [];
    assert LocalEntries([first], current) == [] + [a];
  }

  /** Two readable local branches, the current one committed to later: the listing
      is the current branch first, marked current, then the other one. */
  lemma NewerCurrentBranchFirst(repo: Repository, older: Ref, newer: Ref)
    requires repo.branches == [older, newer] && repo.head == OnBranch(newer.name)
    requires older.name != newer.name
    requires older.commit.Some? && newer.commit.Some?
    requires Epoch(older.commit.value.committed) < Epoch(newer.commit.value.committed)
    ensures ListBranches(repo, false)
            == Ok([LocalEntry(newer, newer.name).value, LocalEntry(older, newer.name).value])
    ensures LocalEntry(newer, newer.name).value.isCurrent && !LocalEntry(older, newer.name).value.isCurrent
  {
    var o := LocalEntry(older, newer.name).value;
    var n := LocalEntry(newer, newer.name).value;
    assert CurrentBranch(repo) == Ok(newer.name);
    LocalPair(older, newer, newer.name);
    assert Collected(repo, newer.name, false) == [o, n];
    SortPair(o, n);
  }

}
