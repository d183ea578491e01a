# g-branches: branch listing, diff and checkout logic in Dafny

g-branches is a terminal tool that lists the branches of a git repository newest
first, shows the diff of a branch's last commit, and checks a branch out. This
project models the tool's core:

- the branch record `BranchInfo` and its three derived views (`models.dfy`);
- `GitBranchManager`'s four operations (`git_operations.dfy`):
  - reading the current branch;
  - collecting, marking, summarising and sorting the branches;
  - choosing and joining a branch's diff;
  - choosing the `git checkout` command.

The repository is a value: HEAD, the local branches, and each remote's refs. A ref whose
commit cannot be read is modelled as `None`.

The model proves what those operations promise:

- The listing is a stable newest-first permutation of what was collected.
- Records are marked current or remote by the source's rules.
- At most one record is current.
- An empty result is an error, never an empty list.
- A diff is never empty.
- Remote names map to local checkout commands by removing every "origin/".

Modules, one concept per file:

| file | module | contents |
|---|---|---|
| `wrappers.dfy` | `Wrappers` | `Option` |
| `exceptions.dfy` | `Exceptions` | the three error kinds as one datatype, and `Result` |
| `strings.dfy` | `Strings` | Python's `strip`, `split("\n")[0]`, `startswith`, `endswith` and `replace(p, "")` |
| `models.dfy` | `Models` | dates, `BranchInfo`, `display_name`, `short_hash`, `formatted_date` |
| `branch_sort.dfy` | `BranchSort` | the stable newest-first sort and its properties |
| `git_operations.dfy` | `GitOperations` | the repository value, the four operations, and the imperative methods proved against their specification functions |
| `listing_properties.dfy` | `ListingProperties` | what the branch listing guarantees |
| `operation_properties.dfy` | `OperationProperties` | what the diff and the checkout guarantee |

Dates are compared by their instant, because Python compares aware datetimes that way.
`Models.Epoch` gives a date's instant: its wall-clock fields minus its UTC offset, in seconds.

The two loops that build text or lists are methods with loop invariants:

- the collection loops of `get_all_branches`;
- the patch-joining loop of `get_branch_diff`.

Each method is proved equal to a specification function. The lemmas are stated about those functions.

## Model

| member | source | states |
|---|---|---|
| Models.DisplayName | src/g_branches/models.py:21-22 | the view is two characters longer than the name; dropping the first two gives the name back; it starts with "* " for the current branch and two spaces otherwise |
| Models.ShortHash | src/g_branches/models.py:27 | the short hash is a prefix of the commit hash, of length 7, or the whole hash when that is shorter |
| Models.FormattedDateRoundTrip | src/g_branches/models.py:32 | for every valid date, the formatted date has 19 characters in the "YYYY-MM-DD HH:MM:SS" layout, and parsing it back gives the year, month, day, hour, minute and second |
| Models.FormattedDateExample | tests/test_models.py:50-59 | 15 January 2024, 10:30:45 is written "2024-01-15 10:30:45" |
| Models.ZeroPadExact | src/g_branches/models.py:32 | a number below 10^width, zero-padded to `width`, has exactly `width` digits, and they read back as the number |
| Models.DecimalRoundTrip | src/g_branches/models.py:32 | reading a number's decimal spelling gives the number |
| Strings.Strip | src/g_branches/git_operations.py:76 | the stripped text is the slice of the input after its leading whitespace, only whitespace follows it, and it neither starts nor ends with whitespace |
| Strings.FirstLine | src/g_branches/git_operations.py:76 | the first line is a prefix of the text, holds no line feed, and is followed by a line feed when it is not all of the text |
| Strings.RemoveAllUnchanged | src/g_branches/git_operations.py:187 | removing a non-empty pattern leaves the text unchanged exactly when the pattern does not occur in it |
| Strings.RemoveAllShrinks | src/g_branches/git_operations.py:187 | removing a pattern that occurs makes the text strictly shorter |
| Strings.RemoveAllKeeps | src/g_branches/git_operations.py:187 | a stretch in which no occurrence of the pattern starts is kept unchanged, and removal goes on after it |
| GitOperations.CurrentBranch | src/g_branches/git_operations.py:32-48 | the result is "HEAD (detached)" for a detached HEAD, the active branch's name otherwise, and an operation error exactly when HEAD cannot be read |
| GitOperations.Summary | src/g_branches/git_operations.py:76 | the stored message holds no line feed, is a prefix of the stripped message, and is followed there by a line feed when shorter |
| GitOperations.AppendRefEntries | src/g_branches/git_operations.py:94-117 | the loop over one remote's refs appends exactly the records `RefEntries` describes: refs ending in "/HEAD" and unreadable refs are skipped |
| GitOperations.AppendRemoteEntries | src/g_branches/git_operations.py:93-117 | the loop over all remotes appends exactly the records `RemoteEntries` describes, remote after remote |
| GitOperations.GetAllBranches | src/g_branches/git_operations.py:50-129 | the method returns exactly `ListBranches`: local records, then remote records when asked for, unreadable ones skipped, `NoBranchesFound` when empty, sorted newest first |
| BranchSort.SortNewestFirst | src/g_branches/git_operations.py:123 | the sorted list is in non-increasing order of commit instant and is a permutation of its input |
| BranchSort.SortIsStable | src/g_branches/git_operations.py:123 | for every commit instant, the entries with that instant keep their relative order through the sort |
| BranchSort.SortKeepsCount | src/g_branches/git_operations.py:123 | sorting keeps the number of entries satisfying any property |
| BranchSort.SortPair | tests/test_git_operations.py:43-44 | two entries, the second strictly newer, come out swapped |
| BranchSort.CountAtMostOne | tests/test_git_operations.py:52-54 | when at most one entry satisfies a property, any two positions where it holds are the same |
| ListingProperties.ListingErrors | src/g_branches/git_operations.py:119-129 | listing fails with "Failed to fetch branches: Failed to get current branch" (the current-branch error re-wrapped) exactly when HEAD cannot be read, and with `NoBranchesFound` exactly when HEAD can be read but nothing was collected; a successful listing is never empty |
| ListingProperties.ListingIsStableSort | src/g_branches/git_operations.py:65-123 | the listing is newest first, a permutation of the collected records, and records with equal instants keep their collection order |
| ListingProperties.ListingRecords | src/g_branches/git_operations.py:76-117 | every listed record comes from a readable local branch, or from a readable remote ref not ending in "/HEAD", and the latter only when remotes were asked for; local records are current exactly when named like the current branch, remote ones never are; no message has a line feed |
| ListingProperties.ListingComplete | src/g_branches/git_operations.py:69-117 | every readable local branch is listed, and, when remotes were asked for, so is every readable remote ref not ending in "/HEAD" |
| ListingProperties.AtMostOneCurrent | src/g_branches/git_operations.py:83-84 | with unique local names, at most one listed record is current, any two current positions coincide, and a current record is local |
| ListingProperties.ExactlyOneCurrent | tests/test_git_operations.py:52-54 | with HEAD on a readable local branch and unique names, exactly one record is current: that branch's |
| ListingProperties.DetachedHeadMarksNone | src/g_branches/git_operations.py:44-45 | with HEAD detached and no space in local names, no listed record is current |
| ListingProperties.NewerCurrentBranchFirst | tests/test_git_operations.py:43-54 | two readable local branches, the current one committed later, are listed current first and marked accordingly |
| ListingProperties.ListedIffCollected | src/g_branches/git_operations.py:119-124 | a record is listed exactly when it was collected |
| GitOperations.FindBranch | src/g_branches/git_operations.py:149 | the lookup finds nothing exactly when no local branch has the name, and otherwise the first branch with it |
| GitOperations.DiffText | src/g_branches/git_operations.py:160-169 | the diff text is never empty; it is the joined non-empty patches when those are not empty; it is the no-changes message exactly when they are empty or spell that message |
| GitOperations.GetBranchDiff | src/g_branches/git_operations.py:131-172 | the method returns exactly `BranchDiff`; a successful diff is not empty, and a failure is the operation error naming the branch |
| OperationProperties.ConcatAppend | src/g_branches/git_operations.py:160-167 | joining two runs of patches is joining each and concatenating |
| OperationProperties.ConcatSkipsEmpty | src/g_branches/git_operations.py:162 | skipping the empty patches does not change the joined text |
| OperationProperties.ConcatEmptyIff | src/g_branches/git_operations.py:169 | the joined text is empty exactly when every patch is |
| OperationProperties.DiffTextCases | src/g_branches/git_operations.py:160-169 | with every patch empty the diff is the no-changes message; otherwise it is all the patches joined in order |
| OperationProperties.DiffOfUnknownBranch | src/g_branches/git_operations.py:148-150 | a name without '/' that no local branch has gives the diff error for that name |
| OperationProperties.DiffOfLocalBranch | src/g_branches/git_operations.py:148-157 | a readable local branch, first with its name, is diffed against its first parent, or with `None` when it has no parent |
| GitOperations.CheckoutCommandFor | src/g_branches/git_operations.py:186-194 | a name not under "origin/" is switched to as given; otherwise the target is the name with every "origin/" removed, switched to only if a local branch has it, else created with `-b` from the original name |
| GitOperations.CheckoutBranch | src/g_branches/git_operations.py:174-201 | checkout succeeds exactly when the chosen `git checkout` completes, returning that command; every failure is an operation error |
| OperationProperties.TrackingBranchName | src/g_branches/git_operations.py:186-192 | "origin/<rest>", with no further "origin/" in rest, switches to local branch rest if it exists and otherwise creates it tracking the remote name |
| OperationProperties.InnerPrefixAlsoRemoved | src/g_branches/git_operations.py:187 | "origin/<head>origin/<rest>", with no "origin/" starting inside head and none in rest, is checked out as local branch head followed by rest: the inner "origin/" is removed too (so "origin/feature/origin/x" becomes "feature/x") |
| OperationProperties.CheckoutOfLocalName | src/g_branches/git_operations.py:193-201 | a name not under "origin/" is checked out as given, with the two failure messages for a git failure and any other failure |

## Left out

- Repository discovery, in `__init__` at src/g_branches/git_operations.py:14-30, is not modelled. The repository is an input value. `RepositoryError` exists only as an error kind.
- GitPython is a foreign library. Its calls become inputs:
  - ref enumeration and reading a ref's commit become the `Repository` value;
  - `repo.commit(name)` becomes the function `revParse`;
  - `commit.diff(...)` patch generation becomes the function `patchesFor`;
  - `repo.git.checkout` becomes the function `run`.
- GitOperations.FindBranch: the source looks a name without '/' up with `repo.branches[name]`. GitPython resolves a string key as an attribute, and the list's own methods come first. So a local branch named after a list method, such as `index`, `count` or `sort`, yields a method instead of the branch, and the source reports the diff error for it. The model finds the branch and diffs it. The library's attribute lookup is not modelled.
- A failure while enumerating `repo.branches` or `remote.refs` is not modelled. Only per-ref failures are modelled.
- The foreign exception text that the source appends to error messages after ": " is dropped. Errors keep the source's own fixed text and the branch name. When HEAD cannot be read, the listing error is the fetch prefix followed by the current-branch prefix, as the source nests them, without the library's text after that.
- Checkout is modelled only as the command chosen and whether it completed. Its effect on the working tree is not modelled.
- Diffing a root commit: the source calls `diff(None)`, which in GitPython compares with the working tree, not with an empty tree. The model follows the code (`WorkingTree`), not the description of an empty-tree diff. Patch texts are opaque strings.
- UTF-8 decoding of byte messages and patches, with replacement characters, is not modelled. Text is taken as already decoded.
- Models.FormattedDate: `strftime` pads years to four digits. Years below 1000 are platform-dependent in Python, and the round trip is stated only for valid dates, whose years are 1 to 9999.
- GitOperations.GetAllBranches: Python sorts the list in place with Timsort. The model sorts by value with a stable insertion sort, so the final ordering is the same. The in-place update of the list is not modelled.
- GitOperations.GetAllBranches: the nested remote loops are two helper methods, `AppendRemoteEntries` and `AppendRefEntries`. Each is proved against its own specification function. The outer loop gathers the remote records in a list of their own and appends that list to the local records at the end. The result and its order are the same as appending each record in turn.
- The user interface (`ui.py`), including its copy of the "origin/" mapping and its 60-character message truncation, is not part of this model. Neither is the command line (`cli.py`).
