/**
 * The single-file scenarios of the sync tests, run through the decision rule: a source
 * tree holding one file, einsteiger.php.html, against target trees that hold the same
 * file with the same size, with another size, with another size and a numbered copy
 * already present, or nothing at all. Sizes are symbolic; only their (in)equality matters.
 */
module SyncScenarios {
  import opened Paths
  import opened Syncer
  import opened SyncProperties

  const Page: Path := ["einsteiger.php.html"]
  const PageCopy1: Path := ["einsteiger.php (1).html"]
  const PageCopy2: Path := ["einsteiger.php (2).html"]

  /** The numbered names of the page, as the rename test spells them out, at the root of a tree. */
  lemma PageCopies()
    ensures RenamedPath(Page, 1) == PageCopy1
    ensures RenamedPath(Page, 2) == PageCopy2
  {
    RenameDuplicateFileFirst(Page);
    RenameDuplicateFileSecond(Page);
    assert Parent(Page) == [];
  }

  /** A walk of one entry: the tree after the single action, and that action alone recorded. */
  lemma OneStep(t: Tree, e: SourceEntry, a: Action)
    requires Decide(t.files, t, e) == a
    ensures var r := Run(t.files, t, [e]);
            && r.0 == Apply(t, a)
            && ChangedSources(r.1) == (if a.CopyChanged? then [a.source] else [])
            && ChangedFiles(r.1) == (if a.CopyChanged? then map[a.source := a.dest] else map[])
            && NewSources(r.1) == (if a.CopyNew? then [a.source] else [])
            && NewFiles(r.1) == (if a.CopyNew? then map[a.source := a.source] else map[])
            && NewDirectories(r.1) == (if a.CreateDirectory? then [a.source] else [])
  {
    assert [e] == [] + [e];
    RunAppend(t.files, t, [], e);
    OneAction(a);
  }

  /** What the report records for a single action. */
  lemma OneAction(a: Action)
    ensures ChangedSources([a]) == (if a.CopyChanged? then [a.source] else [])
    ensures ChangedFiles([a]) == (if a.CopyChanged? then map[a.source := a.dest] else map[])
    ensures NewSources([a]) == (if a.CopyNew? then [a.source] else [])
    ensures NewFiles([a]) == (if a.CopyNew? then map[a.source := a.source] else map[])
    ensures NewDirectories([a]) == (if a.CreateDirectory? then [a.source] else [])
  {
    assert [a][..0] == [];
  }

  /** The page, changed, is copied under numbered name n when n is where probing stops and that name is free. */
  lemma DecideCopy(t: Tree, sourceSize: nat, n: nat, dest: Path)
    requires Page in t.files && t.files[Page] != sourceSize
    requires 1 <= n && RenamedPath(Page, n) == dest && dest !in t.files
    requires forall j :: 1 <= j < n ==> Blocked(t.files, Page, sourceSize, j)
    ensures Decide(t.files, t, File(Page, sourceSize)) == CopyChanged(Page, dest, sourceSize)
  {
    ProbeIs(t.files, Page, sourceSize, n);
  }

  /** Same file, same size: nothing is copied, the target still holds one file, the report is empty. */
  lemma SameFileSameSize(size: nat)
    ensures var t := Tree({}, map[Page := size]);
            var r := Run(t.files, t, [File(Page, size)]);
            && r.0 == t && |r.0.files| == 1
            && ChangedSources(r.1) == [] && NewSources(r.1) == [] && NewDirectories(r.1) == []
  {
    var t := Tree({}, map[Page := size]);
    EqualSizesCopyNothing(t, [File(Page, size)]);
  }

  /** Different size: the source is copied beside the old file as "einsteiger.php (1).html", recorded as one changed file. */
  lemma DifferentFileSizeCopy(sourceSize: nat, targetSize: nat)
    requires sourceSize != targetSize
    ensures var t := Tree({}, map[Page := targetSize]);
            var r := Run(t.files, t, [File(Page, sourceSize)]);
            && r.0.files == map[Page := targetSize, PageCopy1 := sourceSize]
            && ChangedSources(r.1) == [Page] && ChangedFiles(r.1) == map[Page := PageCopy1]
            && NewSources(r.1) == [] && NewDirectories(r.1) == []
  {
    var t := Tree({}, map[Page := targetSize]);
    var walk := [File(Page, sourceSize)];
    var a := CopyChanged(Page, PageCopy1, sourceSize);
    PageCopies();
    DecideCopy(t, sourceSize, 1, PageCopy1);
    OneStep(t, File(Page, sourceSize), a);
  }

  /**
   * Existing duplicate: "einsteiger.php (1).html" already holds a copy of the old target
   * file, so probing moves on and the source lands in "einsteiger.php (2).html"; the
   * target then holds three files and the report one changed file.
   */
  lemma RenameWithExistingDuplicates(sourceSize: nat, targetSize: nat)
    requires sourceSize != targetSize
    ensures var t := Tree({}, map[Page := targetSize, PageCopy1 := targetSize]);
            var r := Run(t.files, t, [File(Page, sourceSize)]);
            && r.0.files == map[Page := targetSize, PageCopy1 := targetSize, PageCopy2 := sourceSize]
            && |r.0.files| == 3
            && ChangedSources(r.1) == [Page] && ChangedFiles(r.1) == map[Page := PageCopy2]
            && NewSources(r.1) == [] && NewDirectories(r.1) == []
  {
    var t := Tree({}, map[Page := targetSize, PageCopy1 := targetSize]);
    ExistingDuplicateSkipped(sourceSize, targetSize);
    OneStep(t, File(Page, sourceSize), CopyChanged(Page, PageCopy2, sourceSize));
    PageCopiesDiffer();
    assert Apply(t, CopyChanged(Page, PageCopy2, sourceSize)).files == t.files[PageCopy2 := sourceSize];
  }

  lemma PageCopiesDiffer()
    ensures Page != PageCopy1 && Page != PageCopy2 && PageCopy1 != PageCopy2
    ensures |map[Page := 0, PageCopy1 := 0, PageCopy2 := 0].Keys| == 3
  {
    assert PageCopy1[0][16] != PageCopy2[0][16];
    assert |Page[0]| != |PageCopy1[0]| && |Page[0]| != |PageCopy2[0]|;
    var m1 := map[Page := 0];
    assert PageCopy1 !in m1 && |m1[PageCopy1 := 0]| == 2;
  }

  /** With "einsteiger.php (1).html" holding a file of the old size, probing passes it and stops at 2. */
  lemma ExistingDuplicateSkipped(sourceSize: nat, targetSize: nat)
    requires sourceSize != targetSize
    ensures var t := Tree({}, map[Page := targetSize, PageCopy1 := targetSize]);
            Decide(t.files, t, File(Page, sourceSize)) == CopyChanged(Page, PageCopy2, sourceSize)
  {
    var t := Tree({}, map[Page := targetSize, PageCopy1 := targetSize]);
    PageCopies();
    PageCopiesDiffer();
    assert Blocked(t.files, Page, sourceSize, 1);
    forall j | 1 <= j < 2 ensures Blocked(t.files, Page, sourceSize, j) {
      assert j == 1;
    }
    DecideCopy(t, sourceSize, 2, PageCopy2);
  }

  /** New file: with an empty target the source is copied to the same relative path and recorded as one new file. */
  lemma NewFileCopy(size: nat)
    ensures var t := Tree({}, map[]);
            var r := Run(t.files, t, [File(Page, size)]);
            && r.0.files == map[Page := size]
            && NewSources(r.1) == [Page] && NewFiles(r.1) == map[Page := Page]
            && ChangedSources(r.1) == [] && NewDirectories(r.1) == []
  {
    var t := Tree({}, map[]);
    OneStep(t, File(Page, size), CopyNew(Page, size));
  }
}
