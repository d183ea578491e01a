/** What getting a branch's diff and checking a branch out guarantee, proved about
    their specifications `BranchDiff`, `DiffText` and `CheckoutCommandFor`. */
module OperationProperties {

  import opened Wrappers
  import opened Exceptions
  import opened Strings
  import opened GitOperations

  // ---------------------------------------------------------------- diff

  /** Joining two runs of patches is joining each and putting the texts together. */
  lemma {:induction false} ConcatAppend(a: seq<string>, b: seq<string>)
    ensures Concat(a + b) == Concat(a) + Concat(b)
  {
    if b == [] {
      assert a + b == a;
    } else {
      var init := b[..|b| - 1];
      assert (a + b)[..|a + b| - 1] == a + init;
      assert (a + b)[|a + b| - 1] == b[|b| - 1];
      ConcatAppend(a, init);
    }
  }

  /** Leaving out the empty patches does not change the joined text. */
  lemma {:induction false} ConcatSkipsEmpty(patches: seq<string>)
    ensures Concat(NonEmpty(patches)) == Concat(patches)
  {
    if patches != [] {
      var init := patches[..|patches| - 1];
      var last := patches[|patches| - 1];
      var kept := if last == [] then [] else [last];
      ConcatSkipsEmpty(init);
      ConcatAppend(NonEmpty(init), kept);
      assert [last][..0] == [];
      assert Concat(kept) == last;
    }
  }

  /** The joined text is empty exactly when every patch is. */
  lemma {:induction false} ConcatEmptyIff(patches: seq<string>)
    ensures Concat(patches) == [] <==> forall k :: 0 <= k < |patches| ==> patches[k] == []
  {
    if patches != [] {
      var init := patches[..|patches| - 1];
      ConcatEmptyIff(init);
      assert forall k :: 0 <= k < |init| ==> init[k] == patches[k];
    }
  }

  /** The diff shown for a list of patches: the no-changes message when every patch
      is empty, and otherwise all the patches joined in order. */
  lemma DiffTextCases(patches: seq<string>)
    ensures (forall k :: 0 <= k < |patches| ==> patches[k] == []) ==> DiffText(patches) == NoChangesText
    ensures (exists k :: 0 <= k < |patches| && patches[k] != []) ==> DiffText(patches) == Concat(patches)
  {
    ConcatSkipsEmpty(patches);
    ConcatEmptyIff(patches);
  }

  /** A name without '/' that no local branch has cannot be diffed. */
  lemma DiffOfUnknownBranch(repo: Repository, name: string, revParse: string -> Option<Commit>,
                            patchesFor: (Commit, DiffTarget) -> Option<seq<string>>)
    requires '/' !in name
    requires forall k :: 0 <= k < |repo.branches| ==> repo.branches[k].name != name
    ensures BranchDiff(repo, name, revParse, patchesFor) == Err(OperationError(DiffFailure(name)))
  {
  }

  /** A readable local branch that is the first with its name is diffed against its
      first parent, or against the working tree when it has none; the diff is what
      `DiffText` makes of the patches. */
  lemma DiffOfLocalBranch(repo: Repository, k: nat, revParse: string -> Option<Commit>,
                          patchesFor: (Commit, DiffTarget) -> Option<seq<string>>)
    requires k < |repo.branches| && '/' !in repo.branches[k].name
    requires forall m :: 0 <= m < k ==> repo.branches[m].name != repo.branches[k].name
    requires repo.branches[k].commit.Some?
    ensures var c := repo.branches[k].commit.value;
            var target := if c.parents == [] then WorkingTree else ParentCommit(c.parents[0]);
            BranchDiff(repo, repo.branches[k].name, revParse, patchesFor)
            == match patchesFor(c, target)
               case None => Err(OperationError(DiffFailure(repo.branches[k].name)))
               case Some(patches) => Ok(DiffText(patches))
  {
    var name := repo.branches[k].name;
    var found := FindBranch(repo.branches, name);
    var i :| 0 <= i < |repo.branches| && repo.branches[i] == found.value && found.value.name == name
             && forall m :: 0 <= m < i ==> repo.branches[m].name != name;
    if i < k {
      assert repo.branches[i].name == name;
    }
    assert found == Some(repo.branches[k]);
  }

  // ---------------------------------------------------------------- checkout

  /** Checking out "origin/<rest>", where `rest` holds no further "origin/", switches to
      the local branch `rest` when one exists and otherwise creates it tracking the
      remote-tracking ref. */
  lemma TrackingBranchName(repo: Repository, rest: string)
    requires !Occurs(rest, RemotePrefix)
    ensures CheckoutCommandFor(repo, RemotePrefix + rest)
            == if rest in LocalNames(repo.branches) then Switch(rest)
               else CreateTracking(rest, RemotePrefix + rest)
  {
    var name := RemotePrefix + rest;
    assert name[..|RemotePrefix|] == RemotePrefix;
    RemoveAllLeading(RemotePrefix, rest);
    RemoveAllAbsent(rest, RemotePrefix);
  }

  /** Every "origin/" in the name is removed, not only the leading one: for
      "origin/<head>origin/<rest>", with no "origin/" starting inside `head` and none
      in `rest`, the local branch is `head` followed by `rest` (so "origin/feature/origin/x"
      becomes "feature/x"). */
  lemma InnerPrefixAlsoRemoved(repo: Repository, head: string, rest: string)
    requires forall i :: 0 <= i < |head| ==> !OccursAt(head + (RemotePrefix + rest), RemotePrefix, i)
    requires !Occurs(rest, RemotePrefix)
    ensures Target(CheckoutCommandFor(repo, RemotePrefix + head + RemotePrefix + rest)) == head + rest
  {
    var name := RemotePrefix + head + RemotePrefix + rest;
    assert name == RemotePrefix + (head + (RemotePrefix + rest));
    assert name[..|RemotePrefix|] == RemotePrefix;
    RemoveAllLeading(RemotePrefix, head + (RemotePrefix + rest));
    RemoveAllKeeps(head, RemotePrefix + rest, RemotePrefix);
    RemoveAllLeading(RemotePrefix, rest);
    RemoveAllAbsent(rest, RemotePrefix);
  }

  /** Checking out a name that is not under "origin/" switches to it as it is, and
      reports a failed checkout as an operation error naming it. */
  lemma CheckoutOfLocalName(repo: Repository, name: string, run: seq<string> -> RunOutcome)
    requires !StartsWith(name, RemotePrefix)
    ensures CheckoutBranch(repo, name, run)
            == match run([name])
               case Completed => Ok(Switch(name))
               case GitCommandFailed => Err(OperationError("Failed to checkout " + name))
               case OtherFailure => Err(OperationError("Unexpected error during checkout of " + name))
  {
  }

}
