/** The results of one synchronization run: counters and the paths behind them. */
module Reports {
  import opened Sequences
  import opened Paths

  class Report {
    var noOfChangedFiles: int
    var changedFiles: map<Path, Path>
    var noOfNewFiles: int
    var newFiles: map<Path, Path>
    var newDirectories: seq<Path>
    var noOfNewDirectories: int

    /** Every file passed to AddChangedFile so far, in call order (repeats included). */
    ghost var changedHistory: seq<Path>
    /** Every file passed to AddNewFile so far, in call order (repeats included). */
    ghost var newHistory: seq<Path>

    /**
     * Each counter counts the calls of its add method; a map holds one entry per
     * distinct file added (a later put for the same file replaces the earlier one);
     * the directory counter is the length of the directory list.
     */
    ghost predicate Valid()
      reads this
    {
      && noOfChangedFiles == |changedHistory|
      && changedFiles.Keys == Elements(changedHistory)
      && noOfNewFiles == |newHistory|
      && newFiles.Keys == Elements(newHistory)
      && noOfNewDirectories == |newDirectories|
    }

    /** A fresh report: every counter 0, every collection empty. */
    constructor ()
      ensures Valid()
      ensures noOfChangedFiles == 0 && changedFiles == map[] && changedHistory == []
      ensures noOfNewFiles == 0 && newFiles == map[] && newHistory == []
      ensures noOfNewDirectories == 0 && newDirectories == []
    {
      noOfChangedFiles := 0;
      changedFiles := map[];
      noOfNewFiles := 0;
      newFiles := map[];
      newDirectories := [];
      noOfNewDirectories := 0;
      changedHistory := [];
      newHistory := [];
    }

    /** Records a changed file and where its copy went; the new-file and directory records stay as they were. */
    method AddChangedFile(file: Path, newTargetPath: Path)
      requires Valid()
      modifies this
      ensures Valid()
      ensures noOfChangedFiles == old(noOfChangedFiles) + 1
      ensures changedFiles == old(changedFiles)[file := newTargetPath]
      ensures changedHistory == old(changedHistory) + [file]
      ensures noOfNewFiles == old(noOfNewFiles) && newFiles == old(newFiles) && newHistory == old(newHistory)
      ensures noOfNewDirectories == old(noOfNewDirectories) && newDirectories == old(newDirectories)
    {
      noOfChangedFiles := noOfChangedFiles + 1;
      changedFiles := changedFiles[file := newTargetPath];
      ElementsAppend(changedHistory, file);
      changedHistory := changedHistory + [file];
    }

    /** Records a new file and where it was copied; the changed-file and directory records stay as they were. */
    method AddNewFile(file: Path, newTargetPath: Path)
      requires Valid()
      modifies this
      ensures Valid()
      ensures noOfNewFiles == old(noOfNewFiles) + 1
      ensures newFiles == old(newFiles)[file := newTargetPath]
      ensures newHistory == old(newHistory) + [file]
      ensures noOfChangedFiles == old(noOfChangedFiles) && changedFiles == old(changedFiles)
      ensures changedHistory == old(changedHistory)
      ensures noOfNewDirectories == old(noOfNewDirectories) && newDirectories == old(newDirectories)
    {
      noOfNewFiles := noOfNewFiles + 1;
      newFiles := newFiles[file := newTargetPath];
      ElementsAppend(newHistory, file);
      newHistory := newHistory + [file];
    }

    /** Appends a created directory; the earlier entries and both file records stay as they were. */
    method AddNewDirectory(newdir: Path)
      requires Valid()
      modifies this
      ensures Valid()
      ensures noOfNewDirectories == old(noOfNewDirectories) + 1
      ensures newDirectories == old(newDirectories) + [newdir]
      ensures noOfChangedFiles == old(noOfChangedFiles) && changedFiles == old(changedFiles)
      ensures changedHistory == old(changedHistory)
      ensures noOfNewFiles == old(noOfNewFiles) && newFiles == old(newFiles) && newHistory == old(newHistory)
    {
      noOfNewDirectories := noOfNewDirectories + 1;
      newDirectories := newDirectories + [newdir];
    }

    /**
     * The number of AddChangedFile calls. It is never below the number of entries
     * of the changed-file map, and equals it when no file was added twice.
     */
    function GetNoOfChangedFiles(): (n: int)
      reads this
      requires Valid()
      ensures n == |changedHistory|
      ensures |changedFiles| <= n
      ensures Distinct(changedHistory) ==> n == |changedFiles|
    {
      ElementsCardinality(changedHistory);
      noOfChangedFiles
    }

    /**
     * The number of AddNewFile calls. It is never below the number of entries of
     * the new-file map, and equals it when no file was added twice.
     */
    function GetNoOfNewFiles(): (n: int)
      reads this
      requires Valid()
      ensures n == |newHistory|
      ensures |newFiles| <= n
      ensures Distinct(newHistory) ==> n == |newFiles|
    {
      ElementsCardinality(newHistory);
      noOfNewFiles
    }

    /** The number of AddNewDirectory calls, which is the length of the directory list. */
    function GetNoOfNewDirectories(): (n: int)
      reads this
      requires Valid()
      ensures n == |newDirectories|
    {
      noOfNewDirectories
    }

    /** The changed files: one entry for each distinct file passed to AddChangedFile. */
    function GetChangedFiles(): (m: map<Path, Path>)
      reads this
      requires Valid()
      ensures m.Keys == Elements(changedHistory)
      ensures forall f :: f in m ==> m[f] == changedFiles[f]
    {
      changedFiles
    }

    /** The new files: one entry for each distinct file passed to AddNewFile. */
    function GetNewFiles(): (m: map<Path, Path>)
      reads this
      requires Valid()
      ensures m.Keys == Elements(newHistory)
      ensures forall f :: f in m ==> m[f] == newFiles[f]
    {
      newFiles
    }

    /** The created directories in the order they were added, as many as the directory counter says. */
    function GetNewDirectories(): (d: seq<Path>)
      reads this
      requires Valid()
      ensures |d| == noOfNewDirectories
      ensures forall i :: 0 <= i < |d| ==> d[i] == newDirectories[i]
    {
      newDirectories
    }
  }
}
