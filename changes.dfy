/**
 * The values a revision diff's change list is made of, and the
 * specification of what loading that list yields: at most
 * MAX_DISPLAY_CHANGES entries in scan order, and, when nothing was cut off,
 * without the MODIFY entries whose text diff is empty under the current
 * line-process option.
 */
module Changes {

  /** Most changes the panel loads and displays. */
  const MAX_DISPLAY_CHANGES: nat := 500

  /** Kind of change the tree comparison reports for one path. */
  datatype ChangeType = Add | Modify | Delete | Rename | Copy

  /**
   * One entry of the tree comparison between the old and the new commit.
   * oldIsText / newIsText say whether the blob on that side decodes as text
   * (its getText() is non-null). The paths only give entries their
   * identity; no operation here interprets them.
   */
  datatype DiffEntry = DiffEntry(
    changeType: ChangeType,
    oldPath: string,
    newPath: string,
    oldIsText: bool,
    newIsText: bool)

  /** How lines are normalised before they are compared. */
  datatype LineProcessOption = IgnoreNothing | IgnoreEol | IgnoreEolSpaces | IgnoreChangeSpaces

  /**
   * Whether the line diff of an entry under an option is empty. The diff
   * algorithm itself is not part of this model; it enters as this function.
   */
  type NoDiff = (DiffEntry, LineProcessOption) -> bool

  /** The loaded change list together with the change count to report. */
  datatype ChangesAndCount = ChangesAndCount(changes: seq<DiffEntry>, count: nat)

  /**
   * An entry the pruning step drops: a modification between two text blobs
   * that shows no difference once lines are processed.
   */
  predicate Removable(e: DiffEntry, option: LineProcessOption, noDiff: NoDiff): (removable: bool)
    ensures removable ==> e.changeType == Modify && e.oldIsText && e.newIsText
    ensures !noDiff(e, option) ==> !removable
    ensures e.changeType == Modify && e.oldIsText && e.newIsText && noDiff(e, option) ==> removable
  {
    e.changeType == Modify && e.oldIsText && e.newIsText && noDiff(e, option)
  }

  /** The entries of s that are not removable, in their original order. */
  function Prune(s: seq<DiffEntry>, option: LineProcessOption, noDiff: NoDiff): (r: seq<DiffEntry>)
    ensures |r| <= |s|
  {
    if s == [] then []
    else if Removable(s[0], option, noDiff) then Prune(s[1..], option, noDiff)
    else [s[0]] + Prune(s[1..], option, noDiff)
  }

  /** t can be obtained from s by deleting elements, keeping the order. */
  predicate SubsequenceOf(t: seq<DiffEntry>, s: seq<DiffEntry>)
    decreases |s|
  {
    if t == [] then true
    else if s == [] then false
    else (t[0] == s[0] && SubsequenceOf(t[1..], s[1..])) || SubsequenceOf(t, s[1..])
  }

  /**
   * What loading the change list yields for the scanned entries: up to the
   * cap, the pruned list counted by its own length; beyond it, the first
   * MAX_DISPLAY_CHANGES entries untouched, with the full entry count.
   */
  function Assembled(entries: seq<DiffEntry>, option: LineProcessOption, noDiff: NoDiff): (r: ChangesAndCount)
    ensures |r.changes| <= MAX_DISPLAY_CHANGES
    ensures |r.changes| <= r.count
    ensures |entries| <= MAX_DISPLAY_CHANGES ==> r.count == |r.changes|
    ensures |entries| > MAX_DISPLAY_CHANGES ==> r.count == |entries|
  {
    if |entries| <= MAX_DISPLAY_CHANGES then
      var kept := Prune(entries, option, noDiff);
      ChangesAndCount(kept, |kept|)
    else
      ChangesAndCount(entries[..MAX_DISPLAY_CHANGES], |entries|)
  }

  // ---------------------------------------------------------------------
  // Properties of pruning
  // ---------------------------------------------------------------------

  /** Pruning a concatenation prunes each part. */
  lemma {:induction false} PruneAppend(a: seq<DiffEntry>, b: seq<DiffEntry>, option: LineProcessOption, noDiff: NoDiff)
    ensures Prune(a + b, option, noDiff) == Prune(a, option, noDiff) + Prune(b, option, noDiff)
  {
    if a != [] {
      assert (a + b)[1..] == a[1..] + b;
      PruneAppend(a[1..], b, option, noDiff);
    } else {
      assert a + b == b;
    }
  }

  /** Pruning keeps the order of what it keeps. */
  lemma {:induction false} PruneIsSubsequence(s: seq<DiffEntry>, option: LineProcessOption, noDiff: NoDiff)
    ensures SubsequenceOf(Prune(s, option, noDiff), s)
  {
    if s != [] {
      PruneIsSubsequence(s[1..], option, noDiff);
      var r := Prune(s, option, noDiff);
      if !Removable(s[0], option, noDiff) {
        assert r[0] == s[0] && r[1..] == Prune(s[1..], option, noDiff);
      } else {
        SubsequenceDropHead(r, s);
      }
    }
  }

  lemma SubsequenceDropHead(t: seq<DiffEntry>, s: seq<DiffEntry>)
    requires s != [] && SubsequenceOf(t, s[1..])
    ensures SubsequenceOf(t, s)
  {
  }

  /**
   * Pruning removes every occurrence of a removable entry and keeps every
   * occurrence of any other entry.
   */
  lemma {:induction false} PruneCounts(s: seq<DiffEntry>, option: LineProcessOption, noDiff: NoDiff, e: DiffEntry)
    ensures multiset(Prune(s, option, noDiff))[e] == if Removable(e, option, noDiff) then 0 else multiset(s)[e]
  {
    if s != [] {
      PruneCounts(s[1..], option, noDiff, e);
      assert s == [s[0]] + s[1..];
      assert multiset(s)[e] == multiset(s[1..])[e] + (if s[0] == e then 1 else 0);
      if !Removable(s[0], option, noDiff) {
        var r := Prune(s[1..], option, noDiff);
        assert multiset([s[0]] + r)[e] == multiset(r)[e] + (if s[0] == e then 1 else 0);
      }
    }
  }

  /** Entries other than modifications are never pruned. */
  lemma NonModifyKept(s: seq<DiffEntry>, option: LineProcessOption, noDiff: NoDiff, i: nat)
    requires i < |s| && s[i].changeType != Modify
    ensures s[i] in Prune(s, option, noDiff)
  {
    PruneCounts(s, option, noDiff, s[i]);
    assert s[i] in multiset(s);
  }

  /** A subsequence holds no more of any element than the sequence it comes from. */
  lemma {:induction false} SubsequenceCounts(t: seq<DiffEntry>, s: seq<DiffEntry>, e: DiffEntry)
    requires SubsequenceOf(t, s)
    ensures multiset(t)[e] <= multiset(s)[e]
    decreases |s|
  {
    if t != [] {
      assert s == [s[0]] + s[1..];
      if t[0] == s[0] && SubsequenceOf(t[1..], s[1..]) {
        SubsequenceCounts(t[1..], s[1..], e);
        assert t == [t[0]] + t[1..];
      } else {
        SubsequenceCounts(t, s[1..], e);
      }
    }
  }

  /**
   * Pruning is the only way to take exactly the removable entries out of a
   * list while keeping the order of the rest: any ordered selection from s
   * that holds each non-removable entry as often as s does and no removable
   * entry is the pruned list.
   */
  lemma {:induction false} PruneUnique(t: seq<DiffEntry>, s: seq<DiffEntry>, option: LineProcessOption, noDiff: NoDiff)
    requires SubsequenceOf(t, s)
    requires forall e :: multiset(t)[e] == if Removable(e, option, noDiff) then 0 else multiset(s)[e]
    ensures t == Prune(s, option, noDiff)
    decreases |s|
  {
    if s == [] {
      assert t == [];
    } else {
      var x := s[0];
      assert s == [x] + s[1..];
      if Removable(x, option, noDiff) {
        if t != [] && t[0] == x {
          assert false;
        }
        assert t == [] || SubsequenceOf(t, s[1..]);
        forall e ensures multiset(t)[e] == if Removable(e, option, noDiff) then 0 else multiset(s[1..])[e] {
          if !Removable(e, option, noDiff) {
            assert e != x;
          }
        }
        PruneUnique(t, s[1..], option, noDiff);
      } else {
        assert multiset(t)[x] == multiset(s[1..])[x] + 1;
        if SubsequenceOf(t, s[1..]) {
          SubsequenceCounts(t, s[1..], x);
          assert false;
        }
        assert t != [] && t[0] == x && SubsequenceOf(t[1..], s[1..]);
        assert t == [x] + t[1..];
        forall e ensures multiset(t[1..])[e] == if Removable(e, option, noDiff) then 0 else multiset(s[1..])[e] {
        }
        PruneUnique(t[1..], s[1..], option, noDiff);
      }
    }
  }

  // ---------------------------------------------------------------------
  // Properties of the loaded result
  // ---------------------------------------------------------------------

  /**
   * When the entries fit under the cap, the loaded list is the entry list
   * with exactly the removable entries taken out, the rest in scan order,
   * and the count is its length.
   */
  lemma UntruncatedLoad(entries: seq<DiffEntry>, option: LineProcessOption, noDiff: NoDiff)
    requires |entries| <= MAX_DISPLAY_CHANGES
    ensures var r := Assembled(entries, option, noDiff);
      && r.count == |r.changes|
      && SubsequenceOf(r.changes, entries)
      && (forall e :: multiset(r.changes)[e] == if Removable(e, option, noDiff) then 0 else multiset(entries)[e])
      && (forall i :: 0 <= i < |entries| && entries[i].changeType != Modify ==> entries[i] in r.changes)
  {
    PruneIsSubsequence(entries, option, noDiff);
    forall e ensures multiset(Prune(entries, option, noDiff))[e] == if Removable(e, option, noDiff) then 0 else multiset(entries)[e] {
      PruneCounts(entries, option, noDiff, e);
    }
    forall i | 0 <= i < |entries| && entries[i].changeType != Modify ensures entries[i] in Prune(entries, option, noDiff) {
      NonModifyKept(entries, option, noDiff, i);
    }
  }

  /**
   * When there are more entries than the cap, nothing is pruned: the list is
   * the first MAX_DISPLAY_CHANGES entries in scan order, and the count is the
   * full number of entries, more than the list holds.
   */
  lemma TruncatedLoad(entries: seq<DiffEntry>, option: LineProcessOption, noDiff: NoDiff)
    requires |entries| > MAX_DISPLAY_CHANGES
    ensures var r := Assembled(entries, option, noDiff);
      && |r.changes| == MAX_DISPLAY_CHANGES
      && r.count == |entries| > |r.changes|
      && forall i :: 0 <= i < |r.changes| ==> r.changes[i] == entries[i]
  {
  }

  /**
   * The line-process option matters only below the cap: with too many
   * entries the loaded result does not depend on it.
   */
  lemma TruncatedIgnoresOption(entries: seq<DiffEntry>, o1: LineProcessOption, o2: LineProcessOption, noDiff: NoDiff)
    requires |entries| > MAX_DISPLAY_CHANGES
    ensures Assembled(entries, o1, noDiff) == Assembled(entries, o2, noDiff)
  {
  }
}
