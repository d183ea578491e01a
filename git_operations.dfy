/** The branch manager's operations, with the repository given as a value:
    what HEAD points at, the local branches, and the refs of each remote.
    Library calls whose outcome cannot be derived from that value (resolving
    a revision, producing patches, running `git checkout`) are parameters. */
module GitOperations {

  import opened Wrappers
  import opened Exceptions
  import opened Strings
  import opened Models
  import opened BranchSort

  const DetachedHeadName := "HEAD (detached)"
  const NoChangesText := "No changes in this commit"
  const NoBranchesMessage := "No branches found in repository"
  const CurrentBranchFailure := "Failed to get current branch"
  const FetchFailure := "Failed to fetch branches"
  const RemotePrefix := "origin/"
  const HeadRefSuffix := "/HEAD"

  /** What HEAD points at; `Unreadable` when reading it raises. */
  datatype Head = Detached | OnBranch(name: string) | Unreadable

  /** A commit: its hash, when it was made, its full message and the hashes of its parents. */
  datatype Commit = Commit(hexsha: string, committed: DateTime, message: string, parents: seq<string>)

  /** A branch or remote-tracking ref; `commit` is `None` when reading its commit raises. */
  datatype Ref = Ref(name: string, commit: Option<Commit>)

  /** The repository: HEAD, the local branches, and for each remote its refs. */
  datatype Repository = Repository(head: Head, branches: seq<Ref>, remotes: seq<seq<Ref>>)

  // ---------------------------------------------------------------- current branch

  /** The current branch's name, the detached-HEAD marker, or an operation error. */
  function CurrentBranch(repo: Repository): (r: Result<string>)
    ensures r.Ok? <==> !repo.head.Unreadable?
    ensures repo.head.Detached? ==> r == Ok(DetachedHeadName)
    ensures repo.head.OnBranch? ==> r == Ok(repo.head.name)
    ensures repo.head.Unreadable? ==> r == Err(OperationError(CurrentBranchFailure))
  {
    match repo.head
    case Detached => Ok(DetachedHeadName)
    case OnBranch(name) => Ok(name)
    case Unreadable => Err(OperationError(CurrentBranchFailure))
  }

  // ---------------------------------------------------------------- listing

  /** The stored commit message: the first line of the message without surrounding whitespace. */
  function Summary(message: string): (r: string)
    ensures '\n' !in r
    ensures r <= Strip(message)
    ensures |r| < |Strip(message)| ==> Strip(message)[|r|] == '\n'
  {
    FirstLine(Strip(message))
  }

  function AsList(o: Option<BranchInfo>): seq<BranchInfo>
  {
    match o
    case None => []
    case Some(b) => [b]
  }

  /** The record for a local branch, or nothing when its commit cannot be read. */
  function LocalEntry(ref: Ref, current: string): Option<BranchInfo>
  {
    match ref.commit
    case None => None
    case Some(c) =>
      Some(BranchInfo(ref.name, c.hexsha, c.committed, Summary(c.message), ref.name == current, false))
  }

  /** The record for a remote-tracking ref, or nothing for a ref whose name ends in "/HEAD" and
      for a ref whose commit cannot be read. */
  function RemoteEntry(ref: Ref): Option<BranchInfo>
  {
    if EndsWith(ref.name, HeadRefSuffix) then None
    else match ref.commit
      case None => None
      case Some(c) =>
        Some(BranchInfo(ref.name, c.hexsha, c.committed, Summary(c.message), false, true))
  }

  /** The records collected from the local branches, in enumeration order. */
  function LocalEntries(refs: seq<Ref>, current: string): seq<BranchInfo>
  {
    if refs == [] then []
    else LocalEntries(refs[..|refs| - 1], current) + AsList(LocalEntry(refs[|refs| - 1], current))
  }

  /** The records collected from the refs of one remote, in enumeration order. */
  function RefEntries(refs: seq<Ref>): seq<BranchInfo>
  {
    if refs == [] then []
    else RefEntries(refs[..|refs| - 1]) + AsList(RemoteEntry(refs[|refs| - 1]))
  }

  /** The records collected from all remotes, remote after remote. */
  function RemoteEntries(remotes: seq<seq<Ref>>): seq<BranchInfo>
  {
    if remotes == [] then []
    else RemoteEntries(remotes[..|remotes| - 1]) + RefEntries(remotes[|remotes| - 1])
  }

  /** Everything the listing collects before sorting: local branches first, then,
      when asked for, the remote-tracking refs. */
  function Collected(repo: Repository, current: string, includeRemote: bool): seq<BranchInfo>
  {
    LocalEntries(repo.branches, current) + (if includeRemote then RemoteEntries(repo.remotes) else [])
  }

  /** What listing the branches returns: an operation error wrapping the current
      branch's error when that cannot be determined, `NoBranchesFound` when nothing was collected, and
      otherwise the collected records newest first. */
  function ListBranches(repo: Repository, includeRemote: bool): Result<seq<BranchInfo>>
  {
    match CurrentBranch(repo)
    case Err(cause) => Err(OperationError(FetchFailure + ": " + cause.message))
    case Ok(current) =>
      var collected := Collected(repo, current, includeRemote);
      if collected == [] then Err(NoBranchesFound(NoBranchesMessage))
      else Ok(SortNewestFirst(collected))
  }

  /** The listing's inner loop over the refs of one remote: appends the record of
      every readable ref whose name does not end in "/HEAD", in enumeration order. */
  method AppendRefEntries(start: seq<BranchInfo>, refs: seq<Ref>) returns (branches: seq<BranchInfo>)
    ensures branches == start + RefEntries(refs)
  {
    branches := start;
    for k := 0 to |refs|
      invariant branches == start + RefEntries(refs[..k])
    {
      var ref := refs[k];
      assert refs[..k + 1][..k] == refs[..k];
      assert RefEntries(refs[..k + 1]) == RefEntries(refs[..k]) + AsList(RemoteEntry(ref));
      if EndsWith(ref.name, HeadRefSuffix) {
        continue;
      }
      if ref.commit.None? {
        continue;
      }
      var commit := ref.commit.value;
      var info := BranchInfo(ref.name, commit.hexsha, commit.committed,
                             Summary(commit.message), false, true);
      assert RemoteEntry(ref) == Some(info);
      branches := branches + [info];
    }
    assert refs[..|refs|] == refs;
  }

  /** The listing's outer loop over the remotes, one remote after another. */
  method AppendRemoteEntries(start: seq<BranchInfo>, remotes: seq<seq<Ref>>) returns (branches: seq<BranchInfo>)
    ensures branches == start + RemoteEntries(remotes)
  {
    var added: seq<BranchInfo> := [];
    for j := 0 to |remotes|
      invariant added == RemoteEntries(remotes[..j])
    {
      assert remotes[..j + 1][..j] == remotes[..j];
      assert RemoteEntries(remotes[..j + 1]) == RemoteEntries(remotes[..j]) + RefEntries(remotes[j]);
      added := AppendRefEntries(added, remotes[j]);
    }
    assert remotes[..|remotes|] == remotes;
    branches := start + added;
  }

  /** Builds the branch list entry by entry, skipping what cannot be read, then sorts it. */
  method GetAllBranches(repo: Repository, includeRemote: bool) returns (r: Result<seq<BranchInfo>>)
    ensures r == ListBranches(repo, includeRemote)
  {
    var head := CurrentBranch(repo);
    if head.Err? {
      return Err(OperationError(FetchFailure + ": " + head.error.message));
    }
    var current := head.value;
    var branches: seq<BranchInfo> := [];

    for i := 0 to |repo.branches|
      invariant branches == LocalEntries(repo.branches[..i], current)
    {
      var branch := repo.branches[i];
      assert repo.branches[..i + 1][..i] == repo.branches[..i];
      assert LocalEntries(repo.branches[..i + 1], current)
          == LocalEntries(repo.branches[..i], current) + AsList(LocalEntry(branch, current));
      if branch.commit.None? {
        continue;
      }
      var commit := branch.commit.value;
      var info := BranchInfo(branch.name, commit.hexsha, commit.committed,
                             Summary(commit.message), branch.name == current, false);
      assert LocalEntry(branch, current) == Some(info);
      branches := branches + [info];
    }
    assert repo.branches[..|repo.branches|] == repo.branches;
    if includeRemote {
      branches := AppendRemoteEntries(branches, repo.remotes);
    }

    assert branches == Collected(repo, current, includeRemote);
    if branches == [] {
      return Err(NoBranchesFound(NoBranchesMessage));
    }
    branches := SortNewestFirst(branches);
    return Ok(branches);
  }

  // ---------------------------------------------------------------- diff

  /** What the last commit is diffed against: its first parent, or, for a root
      commit, `diff(None)`, which the library compares with the working tree. */
  datatype DiffTarget = ParentCommit(hexsha: string) | WorkingTree

  function DiffTargetFor(c: Commit): DiffTarget
  {
    if c.parents != [] then ParentCommit(c.parents[0]) else WorkingTree
  }

  /** The first local branch called `name`, if any. */
  function FindBranch(refs: seq<Ref>, name: string): (r: Option<Ref>)
    ensures r.None? <==> forall k :: 0 <= k < |refs| ==> refs[k].name != name
    ensures r.Some? ==> exists k :: 0 <= k < |refs| && refs[k] == r.value && r.value.name == name
                                    && forall m :: 0 <= m < k ==> refs[m].name != name
  {
    if refs == [] then None
    else if refs[0].name == name then Some(refs[0])
    else
      var r := FindBranch(refs[1..], name);
      assert forall k :: 1 <= k < |refs| ==> refs[k] == refs[1..][k - 1];
      r
  }

  /** The branch's tip commit: names with a '/' go through revision parsing
      (`revParse`, the library's resolution), others through the local branch list. */
  function ResolveForDiff(repo: Repository, name: string, revParse: string -> Option<Commit>): Option<Commit>
  {
    if '/' in name then revParse(name)
    else match FindBranch(repo.branches, name)
      case None => None
      case Some(ref) => ref.commit
  }

  /** The patches that are not empty, in order. */
  function NonEmpty(patches: seq<string>): seq<string>
  {
    if patches == [] then []
    else NonEmpty(patches[..|patches| - 1])
         + (if patches[|patches| - 1] == [] then [] else [patches[|patches| - 1]])
  }

  /** The patches joined in order. */
  function Concat(patches: seq<string>): string
  {
    if patches == [] then [] else Concat(patches[..|patches| - 1]) + patches[|patches| - 1]
  }

  /** The diff shown: the non-empty patches joined in order, or the no-changes
      message when that text is empty; never the empty string. */
  function DiffText(patches: seq<string>): (r: string)
    ensures r != []
    ensures Concat(NonEmpty(patches)) != [] ==> r == Concat(NonEmpty(patches))
    ensures r == NoChangesText <==> Concat(NonEmpty(patches)) in {[], NoChangesText}
  {
    var text := Concat(NonEmpty(patches));
    if text != [] then text else NoChangesText
  }

  function DiffFailure(name: string): string
  {
    "Failed to get diff for " + name
  }

  /** What getting a branch's diff returns; `patchesFor` is the library's patch
      generation for a commit and the target it is diffed against. */
  function BranchDiff(repo: Repository, name: string, revParse: string -> Option<Commit>,
                      patchesFor: (Commit, DiffTarget) -> Option<seq<string>>): Result<string>
  {
    match ResolveForDiff(repo, name, revParse)
    case None => Err(OperationError(DiffFailure(name)))
    case Some(c) =>
      match patchesFor(c, DiffTargetFor(c))
      case None => Err(OperationError(DiffFailure(name)))
      case Some(patches) => Ok(DiffText(patches))
  }

  /** Resolves the branch, picks what to diff against, and joins the patch texts. */
  method GetBranchDiff(repo: Repository, name: string, revParse: string -> Option<Commit>,
                       patchesFor: (Commit, DiffTarget) -> Option<seq<string>>)
    returns (r: Result<string>)
    ensures r == BranchDiff(repo, name, revParse, patchesFor)
    ensures r.Ok? ==> r.value != []
    ensures r.Err? ==> r.error == OperationError(DiffFailure(name))
  {
    var commit := ResolveForDiff(repo, name, revParse);
    if commit.None? {
      return Err(OperationError(DiffFailure(name)));
    }
    var c := commit.value;
    var diff := patchesFor(c, DiffTargetFor(c));
    if diff.None? {
      return Err(OperationError(DiffFailure(name)));
    }
    var patches := diff.value;
    var text := "";
    for i := 0 to |patches|
      invariant text == Concat(NonEmpty(patches[..i]))
    {
      assert patches[..i + 1][..i] == patches[..i];
      if patches[i] != [] {
        assert NonEmpty(patches[..i + 1]) == NonEmpty(patches[..i]) + [patches[i]];
        text := text + patches[i];
      } else {
        assert NonEmpty(patches[..i + 1]) == NonEmpty(patches[..i]);
      }
    }
    assert patches[..|patches|] == patches;
    return Ok(if text != [] then text else NoChangesText);
  }

  // ---------------------------------------------------------------- checkout

  /** The `git checkout` issued: a switch to an existing branch, or `-b` creating
      a local branch that starts at (and tracks) a remote-tracking ref. */
  datatype CheckoutCommand = Switch(branch: string) | CreateTracking(local: string, startPoint: string)

  function GitArguments(c: CheckoutCommand): seq<string>
  {
    match c
    case Switch(branch) => [branch]
    case CreateTracking(local, startPoint) => ["-b", local, startPoint]
  }

  /** The branch the command leaves checked out. */
  function Target(c: CheckoutCommand): string
  {
    match c
    case Switch(branch) => branch
    case CreateTracking(local, _) => local
  }

  function LocalNames(refs: seq<Ref>): (names: seq<string>)
    ensures |names| == |refs|
    ensures forall k :: 0 <= k < |refs| ==> names[k] == refs[k].name
  {
    seq(|refs|, k requires 0 <= k < |refs| => refs[k].name)
  }

  /** The command for checking out `name`: a name under "origin/" becomes a local
      name with every "origin/" removed, switched to when a local branch has that
      name and created with `-b` otherwise; any other name is switched to as it is. */
  function CheckoutCommandFor(repo: Repository, name: string): (c: CheckoutCommand)
    ensures !StartsWith(name, RemotePrefix) ==> c == Switch(name)
    ensures StartsWith(name, RemotePrefix) ==> Target(c) == RemoveAll(name, RemotePrefix)
    ensures c.Switch? ==> c.branch == name || c.branch in LocalNames(repo.branches)
    ensures c.CreateTracking? ==> c.local !in LocalNames(repo.branches) && c.startPoint == name
  {
    if StartsWith(name, RemotePrefix) then
      var local := RemoveAll(name, RemotePrefix);
      if local in LocalNames(repo.branches) then Switch(local) else CreateTracking(local, name)
    else Switch(name)
  }

  /** How running `git checkout` ended. */
  datatype RunOutcome = Completed | GitCommandFailed | OtherFailure

  /** Checking out `name` with `run` standing for the `git checkout` subprocess: the
      command issued, or the operation error its failure is reported as. */
  function CheckoutBranch(repo: Repository, name: string, run: seq<string> -> RunOutcome)
    : (r: Result<CheckoutCommand>)
    ensures r.Ok? <==> run(GitArguments(CheckoutCommandFor(repo, name))) == Completed
    ensures r.Ok? ==> r.value == CheckoutCommandFor(repo, name)
    ensures r.Err? ==> r.error.OperationError?
  {
    var command := CheckoutCommandFor(repo, name);
    match run(GitArguments(command))
    case Completed => Ok(command)
    case GitCommandFailed => Err(OperationError("Failed to checkout " + name))
    case OtherFailure => Err(OperationError("Unexpected error during checkout of " + name))
  }

}
