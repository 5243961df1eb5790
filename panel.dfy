/**
 * The revision diff panel: its line-process option, changed from the
 * options menu, and the loading of the change list between two commits.
 */
module Panel {
  import opened Changes

  /**
   * The options the menu lists, one item each, as `values()` gives them.
   * The enum's declaration is not part of this model, so this is the
   * model's stand-in value set, not the enum's real list.
   */
  function MenuOptions(): (r: seq<LineProcessOption>)
    ensures forall o :: o in r
    ensures forall i, j :: 0 <= i < j < |r| ==> r[i] != r[j]
  {
    var r := [IgnoreNothing, IgnoreEol, IgnoreEolSpaces, IgnoreChangeSpaces];
    EveryOptionListed(r);
    r
  }

  lemma EveryOptionListed(r: seq<LineProcessOption>)
    requires r == [IgnoreNothing, IgnoreEol, IgnoreEolSpaces, IgnoreChangeSpaces]
    ensures forall o :: o in r
  {
    forall o ensures o in r {
      match o
      case IgnoreNothing => assert r[0] == o;
      case IgnoreEol => assert r[1] == o;
      case IgnoreEolSpaces => assert r[2] == o;
      case IgnoreChangeSpaces => assert r[3] == o;
    }
  }

  /** The options of opts whose menu item shows a tick when current is selected. */
  function TickedAmong(opts: seq<LineProcessOption>, current: LineProcessOption): seq<LineProcessOption>
  {
    if opts == [] then []
    else if opts[0] == current then [opts[0]] + TickedAmong(opts[1..], current)
    else TickedAmong(opts[1..], current)
  }

  /** Among distinct options that include the selected one, exactly that one is ticked. */
  lemma {:induction false} OneTicked(opts: seq<LineProcessOption>, current: LineProcessOption)
    requires forall i, j :: 0 <= i < j < |opts| ==> opts[i] != opts[j]
    ensures TickedAmong(opts, current) == if current in opts then [current] else []
  {
    if opts != [] {
      OneTicked(opts[1..], current);
      if opts[0] == current {
        assert current !in opts[1..] by {
          forall k | 0 <= k < |opts[1..]| ensures opts[1..][k] != current {
            assert opts[1..][k] == opts[k + 1];
          }
        }
      }
    }
  }

  /**
   * The change list shown before pruning: the scanned entries in order,
   * stopping once MAX_DISPLAY_CHANGES have been taken.
   */
  method CollectChanges(entries: seq<DiffEntry>) returns (changes: seq<DiffEntry>)
    ensures |changes| == if |entries| <= MAX_DISPLAY_CHANGES then |entries| else MAX_DISPLAY_CHANGES
    ensures changes == entries[..|changes|]
  {
    changes := [];
    var i := 0;
    while i < |entries|
      invariant 0 <= i <= |entries|
      invariant changes == entries[..i]
      invariant |changes| <= MAX_DISPLAY_CHANGES
    {
      if |changes| < MAX_DISPLAY_CHANGES {
        changes := changes + [entries[i]];
        i := i + 1;
      } else {
        break;
      }
    }
  }

  /**
   * Walks the list with an iterator and removes, in place, every entry that
   * is removable under the option; the result is the pruned list.
   */
  method RemoveUnchanged(list: seq<DiffEntry>, option: LineProcessOption, noDiff: NoDiff)
    returns (changes: seq<DiffEntry>)
    ensures changes == Prune(list, option, noDiff)
  {
    changes := list;
    var j := 0;
    ghost var k := 0;
    assert list[..0] == [];
    while j < |changes|
      invariant 0 <= k <= |list| && |changes| == j + |list| - k
      invariant changes == Prune(list[..k], option, noDiff) + list[k..]
      invariant j == |Prune(list[..k], option, noDiff)|
      decreases |changes| - j
    {
      IteratorStep(list, k, changes, j, option, noDiff);
      if Removable(changes[j], option, noDiff) {
        changes := changes[..j] + changes[j + 1..];
      } else {
        j := j + 1;
      }
      k := k + 1;
    }
    assert list[..k] == list;
  }

  /** Pruning one more element of a list extends the pruned prefix by at most that element. */
  lemma PruneStep(list: seq<DiffEntry>, k: nat, option: LineProcessOption, noDiff: NoDiff)
    requires k < |list|
    ensures Prune(list[..k + 1], option, noDiff)
         == Prune(list[..k], option, noDiff) + if Removable(list[k], option, noDiff) then [] else [list[k]]
  {
    assert list[..k + 1] == list[..k] + [list[k]];
    PruneAppend(list[..k], [list[k]], option, noDiff);
    assert [list[k]][1..] == [];
  }

  /** One iteration of the removal loop keeps the list equal to pruned-so-far plus unvisited. */
  lemma IteratorStep(list: seq<DiffEntry>, k: nat, changes: seq<DiffEntry>, j: nat, option: LineProcessOption, noDiff: NoDiff)
    requires k < |list|
    requires changes == Prune(list[..k], option, noDiff) + list[k..]
    requires j == |Prune(list[..k], option, noDiff)|
    ensures j < |changes| && changes[j] == list[k]
    ensures Removable(list[k], option, noDiff) ==>
      changes[..j] + changes[j + 1..] == Prune(list[..k + 1], option, noDiff) + list[k + 1..]
      && j == |Prune(list[..k + 1], option, noDiff)|
    ensures !Removable(list[k], option, noDiff) ==>
      changes == Prune(list[..k + 1], option, noDiff) + list[k + 1..]
      && j + 1 == |Prune(list[..k + 1], option, noDiff)|
  {
    PruneStep(list, k, option, noDiff);
    assert list[k..] == [list[k]] + list[k + 1..];
    assert changes[..j] == Prune(list[..k], option, noDiff);
    assert changes[j + 1..] == list[k + 1..];
  }

  class RevisionDiffPanel {
    /** The two revisions compared. */
    const oldRev: string
    const newRev: string

    /** The line-process option selected in the menu. */
    var lineProcessor: LineProcessOption

    constructor (oldRev: string, newRev: string)
      ensures this.oldRev == oldRev && this.newRev == newRev
      ensures lineProcessor == IgnoreNothing
      ensures IsTicked(IgnoreNothing) && forall o :: o != IgnoreNothing ==> !IsTicked(o)
    {
      this.oldRev := oldRev;
      this.newRev := newRev;
      lineProcessor := IgnoreNothing;
    }

    /** Whether the menu item of option shows a tick. */
    predicate IsTicked(option: LineProcessOption): (ticked: bool)
      reads this
      ensures ticked <==> option == lineProcessor
    {
      lineProcessor == option
    }

    /** The menu items that show a tick: always just the selected option. */
    function TickedItems(): (r: seq<LineProcessOption>)
      reads this
      ensures r == [lineProcessor]
      ensures forall o :: o in r <==> IsTicked(o)
    {
      OneTicked(MenuOptions(), lineProcessor);
      TickedAmong(MenuOptions(), lineProcessor)
    }

    /** Clicking the menu item of option selects it. */
    method OnClick(option: LineProcessOption)
      modifies this
      ensures lineProcessor == option
      ensures IsTicked(option) && forall o :: o != option ==> !IsTicked(o)
    {
      lineProcessor := option;
    }

    /**
     * Loads the change list for the scanned entries under the selected
     * option: collects up to MAX_DISPLAY_CHANGES entries; if none was cut
     * off, prunes the removable ones and counts what is left, otherwise
     * reports the full entry count. entries stands for what
     * diffFormatter.scan returns for the commits of oldRev and newRev; the
     * comparison itself is not modelled, so it is taken as given.
     */
    method Load(entries: seq<DiffEntry>, noDiff: NoDiff) returns (result: ChangesAndCount)
      ensures result == Assembled(entries, lineProcessor, noDiff)
    {
      var changes := CollectChanges(entries);
      if |changes| == |entries| {
        assert changes == entries;
        changes := RemoveUnchanged(changes, lineProcessor, noDiff);
        result := ChangesAndCount(changes, |changes|);
      } else {
        result := ChangesAndCount(changes, |entries|);
      }
    }
  }
}
