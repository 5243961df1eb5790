# Revision diff change list

A model of how GitPlex's revision diff panel (`RevisionDiffPanel`) loads the
list of changes between two commits. It also models the panel's
line-process option, which the diff-options menu selects.

Loading walks the diff entries the tree comparison reports, in scan order,
and keeps at most `MAX_DISPLAY_CHANGES` (500) of them. If none was cut off,
it removes every MODIFY entry whose old and new blobs are both text and
whose line diff is empty under the selected option, and it reports the
length of what is left as the count. If the list was cut off, nothing is
pruned and the count is the full number of entries. The option starts at
`IGNORE_NOTHING`. Clicking a menu item selects that option. Exactly the
selected option's item shows a tick.

Files:

- `changes.dfy` (module `Changes`): the values (`ChangeType`, `DiffEntry`,
  `LineProcessOption`, `ChangesAndCount`). It also holds the specification
  of loading (`Removable`, `Prune`, `Assembled`) and the lemmas about it.
- `panel.dfy` (module `Panel`): the panel as a class. Its mutable
  `lineProcessor` field is changed by `OnClick`, and `Load` reads that
  field. The two loops of `load()` are methods: `CollectChanges` is the
  capped `add` loop and `RemoveUnchanged` is the `Iterator.remove` loop.
  `CollectChanges` is proved to return the capped prefix of the entries,
  and `RemoveUnchanged` to return `Prune` of its input.

Inputs the model takes as parameters:

- The scanned entry list is a `seq<DiffEntry>`. The source calls
  `DiffFormatter.scan` twice, once for `entries` and once for the loop.
  The model assumes both calls return the same list and takes it once.
- Whether a blob is text (`getText() != null`) is a flag on each side of a
  `DiffEntry`.
- Whether `change.getDiffs()` is empty is the function parameter
  `noDiff(entry, option)`. The line-diff algorithm is not part of this
  model.

`load()` returns one list and one count (`ChangesAndCount`). It keeps no
per-entry error markers and no separate display and total counts.

## Model

| member | source | states |
|---|---|---|
| `Changes.Assembled` | gitplex.web/src/main/java/com/pmease/gitplex/web/component/diff/RevisionDiffPanel.java:109-130 | the loaded list never holds more than 500 entries; the count is never less than the list's length; up to the cap the count is the list's length, beyond it the count is the number of entries |
| `Changes.Removable` | gitplex.web/src/main/java/com/pmease/gitplex/web/component/diff/RevisionDiffPanel.java:113-116 | an entry is removable exactly when it is MODIFY, both blobs are text and its diff under the option is empty; a non-MODIFY entry, a binary side or a non-empty diff makes it not removable |
| `Changes.Prune` | gitplex.web/src/main/java/com/pmease/gitplex/web/component/diff/RevisionDiffPanel.java:111-119 | pruning never lengthens the list |
| `Changes.PruneIsSubsequence` | gitplex.web/src/main/java/com/pmease/gitplex/web/component/diff/RevisionDiffPanel.java:111-119 | the pruned list is an ordered subsequence of the list it came from |
| `Changes.PruneCounts` | gitplex.web/src/main/java/com/pmease/gitplex/web/component/diff/RevisionDiffPanel.java:111-119 | every occurrence of a removable entry (MODIFY, both sides text, empty diff) is removed; every other entry keeps all its occurrences |
| `Changes.NonModifyKept` | gitplex.web/src/main/java/com/pmease/gitplex/web/component/diff/RevisionDiffPanel.java:113-117 | an ADD, DELETE, RENAME or COPY entry is never removed |
| `Changes.PruneUnique` | gitplex.web/src/main/java/com/pmease/gitplex/web/component/diff/RevisionDiffPanel.java:111-119 | any order-keeping selection that drops exactly the removable entries equals the pruned list |
| `Changes.PruneAppend` | gitplex.web/src/main/java/com/pmease/gitplex/web/component/diff/RevisionDiffPanel.java:111-119 | pruning decides each entry on its own: pruning a concatenation is the concatenation of the pruned parts |
| `Changes.UntruncatedLoad` | gitplex.web/src/main/java/com/pmease/gitplex/web/component/diff/RevisionDiffPanel.java:109-120 | with at most 500 entries, the result is the entry list with exactly the removable entries taken out, the rest in scan order, every non-MODIFY entry present, and the count equals its length |
| `Changes.TruncatedLoad` | gitplex.web/src/main/java/com/pmease/gitplex/web/component/diff/RevisionDiffPanel.java:121-129 | with more than 500 entries, nothing is removed: the list is exactly the first 500 entries in scan order, and the count is the full entry count, larger than the list |
| `Changes.TruncatedIgnoresOption` | gitplex.web/src/main/java/com/pmease/gitplex/web/component/diff/RevisionDiffPanel.java:122-129 | with more than 500 entries, the line-process option does not affect the result |
| `Panel.CollectChanges` | gitplex.web/src/main/java/com/pmease/gitplex/web/component/diff/RevisionDiffPanel.java:62-81 | before pruning, the list is exactly the first min(500, number of entries) entries, in scan order |
| `Panel.RemoveUnchanged` | gitplex.web/src/main/java/com/pmease/gitplex/web/component/diff/RevisionDiffPanel.java:111-119 | the iterator-removal loop leaves exactly the pruned list |
| `Panel.RevisionDiffPanel.Load` | gitplex.web/src/main/java/com/pmease/gitplex/web/component/diff/RevisionDiffPanel.java:55-130 | the loaded list and count are those the specification gives for the selected option: pruned and self-counted when `changes.size() == entries.size()`, otherwise the capped prefix with the entry count |
| `Panel.RevisionDiffPanel.constructor` | gitplex.web/src/main/java/com/pmease/gitplex/web/component/diff/RevisionDiffPanel.java:50-50 | a new panel has `IGNORE_NOTHING` selected, and only that option is ticked |
| `Panel.RevisionDiffPanel.IsTicked` | gitplex.web/src/main/java/com/pmease/gitplex/web/component/diff/RevisionDiffPanel.java:166-169 | an option's menu item is ticked exactly when that option is the selected one |
| `Panel.RevisionDiffPanel.OnClick` | gitplex.web/src/main/java/com/pmease/gitplex/web/component/diff/RevisionDiffPanel.java:166-175 | after a click the field equals the clicked option; `isTicked` holds for that option and for no other |
| `Panel.MenuOptions` | gitplex.web/src/main/java/com/pmease/gitplex/web/component/diff/RevisionDiffPanel.java:158-158 | the menu has one item per option: every option appears, and none appears twice |
| `Panel.OneTicked` | gitplex.web/src/main/java/com/pmease/gitplex/web/component/diff/RevisionDiffPanel.java:158-169 | over a list of distinct options, the ticked ones are exactly the selected option if it is listed, and none otherwise |
| `Panel.RevisionDiffPanel.TickedItems` | gitplex.web/src/main/java/com/pmease/gitplex/web/component/diff/RevisionDiffPanel.java:155-170 | in every state exactly one menu item shows a tick: that of the selected option |

## Left out

- The concurrent pre-loading of diffs through `ForkJoinPool.invokeAll` (lines 83-107) is left out. It only fills the diff cache and does not change the result, so diffs are treated as already computed.
- JGit repository access is left out: opening the repository, `DiffFormatter.scan`, commit-id resolution, `getBlob`, and the `IOException` wrapped in a `RuntimeException`. These are foreign calls. Their results enter as the entry list and the per-entry flags.
- The line-diff algorithm (`BlobChange.getDiffs`, `DiffUtils`, `WordSplitter`) is not part of this model. It is the uninterpreted parameter `noDiff`.
- `BlobChange` is not modelled as a separate value. A change is represented by its `DiffEntry`. The wrapper only adds the two commit names, which are the same for the whole list, and the `getBlob`/`getLineProcessor` hooks, whose effect is captured by the text flags and by `noDiff` applied to the selected option.
- The `LineProcessOption` enum is not part of this model. Only `IGNORE_NOTHING` is named by the modelled code. The other three constructors stand in for the enum's remaining values, and no proof depends on which values those are.
- Wicket rendering is left out: menu labels (`getLabel`), `hide(target)`, `target.add`, `MenuBehavior`, and `onDetach`. The caching in `LoadableDetachableModel` is also left out, so each `Load` call is one `load()`.
- Java `int` sizes are unbounded `nat`s. No list here comes near 2^31 elements.
- `LayoutPage.java` is not part of this model. It holds page layout only.
