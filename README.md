# DirectorySyncer in Dafny

A model of the core of DirectorySyncer, a one-way directory synchronizer, with proofs
about the model. It has three parts.

- **`Report`** (`report.dfy`, module `Reports`). This is the accumulator that one
  sync run fills. It holds three counters, a changed-file map and a new-file map (each
  from source path to copy path), and the ordered list of created directories. The
  three `add*` methods update it in place, and the getters only read it.
- **The sync decision rule** (`syncer.dfy`, module `Syncer`). The class comment of
  `DirectorySyncer` describes the rule, and the sync tests pin it down.
  - Step 1 indexes the target tree's files. The class comment keys that index by
    file name and warns that several files may share a name. The model keys it by
    relative path instead, which is what the "keep the subpath" rule needs, so two
    files with the same name in different directories never meet in the index.
  - Step 2 walks the source. A file with the same relative path and the same size is
    skipped. A file with the same path and a different size is copied beside the old
    one as `name (n).ext`. Collision probing picks the first `n` that is free. A file
    absent from the target is copied to the same relative path.
  - Trees live in memory. A file is its relative path and its byte size.
  - `renameDuplicateFile` is in `paths.dfy` (module `Paths`).
  - The walk is proved equal to a pure reference run (`Decide`, `Apply`, `Run`).
    `sync_properties.dfy` proves properties of that run: growth, file counts,
    idempotence, and report counters equal to report map sizes.
    `sync_scenarios.dfy` replays the single-file test scenarios through it.
- **`SyncTableModel`** (`sync_table_model.dfy`, module `SyncTable`). This is the
  read-only table behind the result dialogs.
  - Built from a file map, it has two columns and one row per entry.
  - Built from a directory list, it has one column and one row per directory.
  - The row-building loops are methods, proved against what they build.

Some modelling decisions:

- A path is the sequence of its names, relative to a tree root. On a file system
  whose separator is `/`, `Path.toString()` is those names joined by `/`; the model
  always prints them that way.
- **Renaming.** `renameDuplicateFile(p, n)` inserts `" (n)"` before the last `.` of
  the file name: `einsteiger.php.html` becomes `einsteiger.php (1).html`, and
  `doc.tar.gz` becomes `doc.tar (2).gz`. The repository shows no implementation of it,
  and no example of a name without a dot. For such a name the model appends
  `" (n)"`.
- **The existence test and the live tree.** The test "does this path exist in the
  target" uses the index built in step 1, which is the map the class comment says
  the walk looks files up in. Directory existence and collision probing look at the
  target as the walk has changed it so far.
- **A copy already there.** Probing looks for a numbered copy that already has the
  source's size. When it finds one, the file counts as already synced: nothing is
  copied and nothing is recorded. Neither the class comment nor the tests mention
  this guard; it is the model's own choice (the `AlreadySynced` case of
  `Syncer.Decide`). It is what makes a second run over the same trees copy nothing.
- **Directories.** Each source directory missing from the target is created and
  recorded with `addNewDirectory`. An existing one is left alone. A walk lists only
  the entries below the source root: the root itself stands for the target root,
  which always exists, and is never a walk entry.

## Model

| member | source | states |
|---|---|---|
| Reports.Report.constructor | DirectorySyncer/src/main/java/com/droste/file/report/Report.java:14-19 | a new report has all three counters at 0 and both maps and the directory list empty |
| Reports.Report.AddChangedFile | DirectorySyncer/src/main/java/com/droste/file/report/Report.java:21-24 | the changed counter goes up by exactly one; the changed map gains or replaces the entry file ↦ newTargetPath; the new-file and directory records are unchanged; the report invariant holds |
| Reports.Report.AddNewFile | DirectorySyncer/src/main/java/com/droste/file/report/Report.java:26-29 | the new counter goes up by exactly one; the new map gains or replaces file ↦ newTargetPath; the changed-file and directory records are unchanged; the invariant holds |
| Reports.Report.AddNewDirectory | DirectorySyncer/src/main/java/com/droste/file/report/Report.java:31-34 | the directory counter goes up by one; the directory is appended at the end and earlier entries keep their places; the file records are unchanged; so the counter always equals the list length |
| Reports.Report.GetNoOfChangedFiles | DirectorySyncer/src/main/java/com/droste/file/report/Report.java:36-39 | the counter is the number of addChangedFile calls; it is at least the changed map's size, and equals it when no file was added twice |
| Reports.Report.GetNoOfNewFiles | DirectorySyncer/src/main/java/com/droste/file/report/Report.java:41-44 | the counter is the number of addNewFile calls; it is at least the new map's size, and equals it when no file was added twice |
| Reports.Report.GetNoOfNewDirectories | DirectorySyncer/src/main/java/com/droste/file/report/Report.java:46-49 | the directory counter equals the length of the directory list |
| Reports.Report.GetChangedFiles | DirectorySyncer/src/main/java/com/droste/file/report/Report.java:51-53 | the changed map has exactly one key for each distinct file added, with the value last put for it |
| Reports.Report.GetNewFiles | DirectorySyncer/src/main/java/com/droste/file/report/Report.java:56-58 | the new map has exactly one key for each distinct file added, with the value last put for it |
| Reports.Report.GetNewDirectories | DirectorySyncer/src/main/java/com/droste/file/report/Report.java:60-62 | the list holds the added directories in order, as many as the directory counter says |
| Paths.ParseDecimalString | DirectorySyncer/src/main/java/com/droste/file/DirectorySyncer.java:9-10 | the printed counter in a numbered name reads back as the counter |
| Paths.RenameDuplicateFile | DirectorySyncer/src/test/java/com/droste/file/TestDirectorySyncer.java:64-70 | the renamed file name is longer than the old one by exactly the length of " (n)" |
| Paths.RenameDuplicateFileSplits | DirectorySyncer/src/test/java/com/droste/file/TestDirectorySyncer.java:64-70 | the renamed file keeps the final extension of the old name, and its stem is the old stem followed by " (n)" |
| Paths.LastDotSpec | DirectorySyncer/src/main/java/com/droste/file/DirectorySyncer.java:9 | the final extension starts at a '.' and no '.' follows it |
| Paths.CounterTagHasNoDot | DirectorySyncer/src/main/java/com/droste/file/DirectorySyncer.java:9 | the inserted " (n)" holds no '.', so it never becomes part of the extension |
| Paths.RenameDuplicateFileInjective | DirectorySyncer/src/main/java/com/droste/file/DirectorySyncer.java:9-10 | different counters give different names, so probing never tries a name twice |
| Paths.RenamedPathShape | DirectorySyncer/src/main/java/com/droste/file/DirectorySyncer.java:9 | the numbered copy lands in the same directory as the file, under the renamed name, and never on the file's own path |
| Paths.RenamedPathInjective | DirectorySyncer/src/main/java/com/droste/file/DirectorySyncer.java:9-10 | different counters give different copy paths |
| Paths.RenamePage | DirectorySyncer/src/test/java/com/droste/file/TestDirectorySyncer.java:64-70 | any path to einsteiger.php.html is renamed to einsteiger.php, then " (n)", then .html |
| Paths.RenameDuplicateFileFirst | DirectorySyncer/src/test/java/com/droste/file/TestDirectorySyncer.java:68 | einsteiger.php.html with 1 becomes einsteiger.php (1).html |
| Paths.RenameDuplicateFileSecond | DirectorySyncer/src/test/java/com/droste/file/TestDirectorySyncer.java:69 | einsteiger.php.html with 2 becomes einsteiger.php (2).html |
| Paths.RenameDuplicateFileSeveralDots | DirectorySyncer/src/main/java/com/droste/file/DirectorySyncer.java:9 | the tag goes before the last extension only: doc.tar.gz with 2 becomes doc.tar (2).gz |
| Paths.RenameDuplicateFileOneDot | DirectorySyncer/src/main/java/com/droste/file/DirectorySyncer.java:9 | a name with one extension is tagged before it: doc.html with 1 becomes doc (1).html |
| Syncer.ProbeFrom | DirectorySyncer/src/main/java/com/droste/file/DirectorySyncer.java:9-10 | probing upward from n stops, at the first counter not below n whose numbered name is free or holds a file of the source's size |
| Syncer.Probe | DirectorySyncer/src/main/java/com/droste/file/DirectorySyncer.java:9-10 | the collision counter is the least n ≥ 1 whose numbered name is not taken by a file of another size |
| Syncer.ProbeIs | DirectorySyncer/src/main/java/com/droste/file/DirectorySyncer.java:9-10 | any counter that is unblocked while all below it are blocked is the probe's answer |
| Syncer.Decide | DirectorySyncer/src/main/java/com/droste/file/DirectorySyncer.java:6-12 | a file is skipped exactly when its path is in the index with the same size; it is copied as new exactly when its path is not in the index; otherwise it is copied to the first free numbered name, or counted as already synced when that name holds a file of its size; a directory is created exactly when it is missing |
| Syncer.Apply | DirectorySyncer/src/main/java/com/droste/file/DirectorySyncer.java:9-11 | skips, already-synced files and existing directories leave the target unchanged |
| Syncer.Run | DirectorySyncer/src/main/java/com/droste/file/DirectorySyncer.java:6-12 | a walk yields one action per source entry, in walk order |
| Syncer.RunPrefix | DirectorySyncer/src/main/java/com/droste/file/DirectorySyncer.java:6-12 | walking one more entry applies, to the tree the shorter walk left, the decision taken on that tree, and appends that decision |
| Syncer.DirectorySyncer.constructor | DirectorySyncer/src/test/java/com/droste/file/TestDirectorySyncer.java:41 | a syncer holds the source and target trees it is given |
| Syncer.DirectorySyncer.BuildTargetFileMap | DirectorySyncer/src/main/java/com/droste/file/DirectorySyncer.java:4-5 | the index has exactly one entry per target file, mapping its relative path to its size |
| Syncer.DirectorySyncer.FindFreeCounter | DirectorySyncer/src/main/java/com/droste/file/DirectorySyncer.java:9-10 | the probing loop returns the least counter whose numbered name is free or holds a file of the source's size |
| Syncer.DirectorySyncer.HandleChanged | DirectorySyncer/src/main/java/com/droste/file/DirectorySyncer.java:7-10 | a changed file is copied to the first free numbered name and recorded as changed (source ↦ copy), or, when that name already holds its size, nothing is copied or recorded; the new-file and directory records are untouched |
| Syncer.DirectorySyncer.HandleEntry | DirectorySyncer/src/main/java/com/droste/file/DirectorySyncer.java:6-12 | one source entry is handled exactly as the decision rule says, in the target and in the report |
| Syncer.DirectorySyncer.FindAndHandleSourcesInTargetMap | DirectorySyncer/src/main/java/com/droste/file/DirectorySyncer.java:6-12 | the walk leaves the target as the reference run does, and returns a fresh report that records exactly the reference run's changed files, new files and created directories |
| SyncProperties.RunKeys | DirectorySyncer/src/main/java/com/droste/file/DirectorySyncer.java:9-11 | every file in the target after a run was there before, or is at a walked file's path or at one of its numbered names |
| SyncProperties.NewFileIsFree | DirectorySyncer/src/main/java/com/droste/file/DirectorySyncer.java:11 | on a collision-free walk, a new file's path is still free when its turn comes |
| SyncProperties.StepGrows | DirectorySyncer/src/main/java/com/droste/file/DirectorySyncer.java:9-11 | on a collision-free walk, no step loses or overwrites a target file or directory |
| SyncProperties.RunGrows | DirectorySyncer/src/main/java/com/droste/file/DirectorySyncer.java:9-11 | for every walk, the run keeps every file the target had with its size, and every directory it had: a new file goes only to a path missing from the index, a changed file only to a path missing from the live tree |
| SyncProperties.TargetFileCount | DirectorySyncer/src/test/java/com/droste/file/TestDirectorySyncer.java:77-84 | after a collision-free run the target file count is the count before plus the changed copies plus the new copies; the directory count grows by the directories created |
| SyncProperties.DirectoriesCreatedOnce | DirectorySyncer/src/main/java/com/droste/file/report/Report.java:31-34 | no directory is recorded twice, and every recorded directory is in the final target |
| SyncProperties.SourcesFromWalk | DirectorySyncer/src/main/java/com/droste/file/DirectorySyncer.java:6-11 | every recorded changed or new source is a file of the walk |
| SyncProperties.EachFileRecordedOnce | DirectorySyncer/src/test/java/com/droste/file/TestDirectorySyncer.java:145-155 | when no file path occurs twice in the walk, no file is recorded twice, so each report counter equals the size of its map, which is what checkReport asserts |
| SyncProperties.QuietRun | DirectorySyncer/src/main/java/com/droste/file/DirectorySyncer.java:8 | a walk whose every decision is a no-op leaves the target alone and records nothing |
| SyncProperties.EqualSizesCopyNothing | DirectorySyncer/src/test/java/com/droste/file/TestDirectorySyncer.java:47-62 | when every walked file is in the target at its path with its size, and every walked directory exists, nothing is copied, created or recorded |
| SyncProperties.SettledStep | DirectorySyncer/src/main/java/com/droste/file/DirectorySyncer.java:7-10 | what a run did for one entry stays in place in any larger target, so a new decision for that entry is a no-op |
| SyncProperties.SettledAfterRun | DirectorySyncer/src/main/java/com/droste/file/DirectorySyncer.java:7-11 | after a collision-free run, every entry of the walk is a no-op against any target that holds the run's result |
| SyncProperties.SecondRunCopiesNothing | DirectorySyncer/src/main/java/com/droste/file/DirectorySyncer.java:6-12 | after a collision-free run, a second run over the same walk, from the updated target, copies nothing, creates nothing and records nothing |
| SyncScenarios.PageCopies | DirectorySyncer/src/test/java/com/droste/file/TestDirectorySyncer.java:99 | the first and second numbered copies of einsteiger.php.html at the target root are einsteiger.php (1).html and einsteiger.php (2).html |
| SyncScenarios.OneStep | DirectorySyncer/src/main/java/com/droste/file/DirectorySyncer.java:6-12 | a one-entry walk leaves the target as its single action does, and records exactly that action |
| SyncScenarios.DecideCopy | DirectorySyncer/src/main/java/com/droste/file/DirectorySyncer.java:9-10 | a changed page is copied under the numbered name where probing stops, when that name is free |
| SyncScenarios.SameFileSameSize | DirectorySyncer/src/test/java/com/droste/file/TestDirectorySyncer.java:47-62 | the same file with the same size is not copied; the target keeps one file; no changed files, new files or directories are recorded |
| SyncScenarios.DifferentFileSizeCopy | DirectorySyncer/src/test/java/com/droste/file/TestDirectorySyncer.java:90-106 | with a different size, a copy of the source's size appears as einsteiger.php (1).html; exactly one changed entry maps the page to it; nothing new is recorded |
| SyncScenarios.PageCopiesDiffer | DirectorySyncer/src/test/java/com/droste/file/TestDirectorySyncer.java:81-82 | the page and its first two numbered names are three different paths |
| SyncScenarios.ExistingDuplicateSkipped | DirectorySyncer/src/test/java/com/droste/file/TestDirectorySyncer.java:72-81 | when einsteiger.php (1).html already holds a file of another size, the changed page goes to einsteiger.php (2).html |
| SyncScenarios.RenameWithExistingDuplicates | DirectorySyncer/src/test/java/com/droste/file/TestDirectorySyncer.java:72-88 | with an existing (1) copy, the source is copied to (2); the target holds 3 files; exactly one changed entry maps the page to the (2) copy |
| SyncScenarios.NewFileCopy | DirectorySyncer/src/test/java/com/droste/file/TestDirectorySyncer.java:108-121 | with an empty target, the page is copied to the same relative path with its size and recorded as exactly one new file |
| SyncRun.Sync | DirectorySyncer/src/main/java/com/droste/SyncerApplication.java:101-104 | for any source, indexing the target and then walking the source leaves the target as the reference run does and returns a fresh report recording exactly that run; when no file path occurs twice in the walk, each report counter equals the size of its map, as checkReport asserts |
| SyncTable.SpaceTerminatedAppend | directorysyncergui/DirectorySyncerSwing/src/main/java/com/droste/dirsync/gui/SyncTableModel.java:84-87 | rendering a concatenation of path lists is the concatenation of their renderings |
| SyncTable.SpaceTerminatedAt | directorysyncergui/DirectorySyncerSwing/src/main/java/com/droste/dirsync/gui/SyncTableModel.java:86 | each target path appears right after the rendering of the paths before it, followed by exactly one space |
| SyncTable.SyncTableModel.FromFiles | directorysyncergui/DirectorySyncerSwing/src/main/java/com/droste/dirsync/gui/SyncTableModel.java:17-21 | a table built from a map has the two columns "Location in source folder" and "Location in target folder", and one row per entry, each row holding the printed key and its value |
| SyncTable.SyncTableModel.FromDirectories | directorysyncergui/DirectorySyncerSwing/src/main/java/com/droste/dirsync/gui/SyncTableModel.java:24-28 | a table built from a directory list has the one column "New Directories", and one row per directory, in list order |
| SyncTable.SyncTableModel.GetRowCount | directorysyncergui/DirectorySyncerSwing/src/main/java/com/droste/dirsync/gui/SyncTableModel.java:30-33 | the row count is the number of rows built |
| SyncTable.SyncTableModel.GetColumnCount | directorysyncergui/DirectorySyncerSwing/src/main/java/com/droste/dirsync/gui/SyncTableModel.java:35-38 | the column count is the header's length |
| SyncTable.SyncTableModel.GetValueAt | directorysyncergui/DirectorySyncerSwing/src/main/java/com/droste/dirsync/gui/SyncTableModel.java:40-43 | the lookup succeeds exactly inside the row's bounds; in a valid table, exactly below the row count and the column count |
| SyncTable.SyncTableModel.IsCellEditable | directorysyncergui/DirectorySyncerSwing/src/main/java/com/droste/dirsync/gui/SyncTableModel.java:45-48 | no cell is editable |
| SyncTable.SyncTableModel.GetColumnName | directorysyncergui/DirectorySyncerSwing/src/main/java/com/droste/dirsync/gui/SyncTableModel.java:55-58 | a column name exists exactly below the column count, and is that header entry |
| SyncTable.SyncTableModel.GetTableHeader | directorysyncergui/DirectorySyncerSwing/src/main/java/com/droste/dirsync/gui/SyncTableModel.java:60-65 | the file-table header is "Location in source folder", "Location in target folder" |
| SyncTable.SyncTableModel.ToTableHeader | directorysyncergui/DirectorySyncerSwing/src/main/java/com/droste/dirsync/gui/SyncTableModel.java:104-108 | a one-column header holding the given name |
| SyncTable.SyncTableModel.GetChangedFiles | directorysyncergui/DirectorySyncerSwing/src/main/java/com/droste/dirsync/gui/SyncTableModel.java:67-76 | one row per map entry, each key exactly once, each row the printed key and its value |
| SyncTable.SyncTableModel.GetConcatenatedFileNames | directorysyncergui/DirectorySyncerSwing/src/main/java/com/droste/dirsync/gui/SyncTableModel.java:78-91 | one row per map entry, each key exactly once, each row the printed key and the text of its target paths (JoinTargetPaths) |
| SyncTable.SyncTableModel.EntryOrder | directorysyncergui/DirectorySyncerSwing/src/main/java/com/droste/dirsync/gui/SyncTableModel.java:69 | a map's entries are visited once each: the visit order lists every key exactly once and nothing else |
| SyncTable.SyncTableModel.JoinTargetPaths | directorysyncergui/DirectorySyncerSwing/src/main/java/com/droste/dirsync/gui/SyncTableModel.java:84-86 | the string builder ends up holding every target path, printed and followed by one space, in list order |
| SyncTable.SyncTableModel.ToTableContent | directorysyncergui/DirectorySyncerSwing/src/main/java/com/droste/dirsync/gui/SyncTableModel.java:93-102 | one single-cell row per directory, holding its printed path, in list order |

## Left out

- File system I/O is not modelled: reading and copying bytes, walking real directories, and
  `Files.size`. A file is its relative path and its byte size, and a copy puts the
  source's size at the destination path.
- Copy options and overwrites are not modelled. Suppose a source file new to the target
  has the same path as a numbered copy made earlier in the same run. The model then
  overwrites that copy. This needs a source file named like `x (1).ext` next to a
  changed `x.ext`. The overwrite never touches a file the target had before the run
  (`SyncProperties.RunGrows` holds for every walk), but the lemmas below assume walks
  where it cannot happen (`CollisionFree`: no file path twice, and none a numbered
  form of another).
- SyncProperties.NewFileIsFree: holds only on collision-free walks, because a new file
  may land on a numbered copy made earlier in the same run.
- SyncProperties.StepGrows: holds only on collision-free walks, because such a step may
  overwrite a numbered copy made earlier in the same run.
- SyncProperties.TargetFileCount: holds only on collision-free walks, because an
  overwrite adds a recorded copy but no file.
- SyncProperties.SettledAfterRun: holds only on collision-free walks, because an
  overwritten copy no longer has the size that made its entry a no-op.
- SyncProperties.SecondRunCopiesNothing: holds only on collision-free walks. From the
  target `{x.ext: 5}`, the walk `[x.ext: 10, x (1).ext: 20]` copies `x.ext` again on
  the second run, to `x (2).ext`.
- The platform's path separator is not modelled. Where it is `\` (Windows), the
  table cells built from `Path.toString()` hold `\`-separated paths; the model prints
  `/` everywhere.
- A run aborted by an I/O failure is not modelled. The Java sync steps throw
  `IOException`, and the frames report "Syncing failed", leaving the copies made so
  far in place. The model's walk always runs to the end.
- Matching relative paths case-insensitively, content hashing, relocation detection,
  simulate mode, ignore lists and empty-directory cleanup are not modelled. None of
  them is in the modelled code or the sync tests.
- The file-name keyed index of step 1 is not modelled: the lookup by file name, and
  the loss of all but one entry when several target files share a name. The index is
  keyed by relative path.
- The getters' live views are not modelled. The Java getters return unmodifiable views
  that follow later `add*` calls. The model's getters return the values at the time of
  the call. No caller reads a report before the run ends.
- Report fields for sync time and source/target counts are not modelled. The modelled
  `Report` class does not have them.
- Reports.Report.AddChangedFile: does not model the Java `int` counter wrapping after 2^31 − 1 additions; the counter is unbounded.
- Reports.Report.AddNewFile: does not model the Java `int` counter wrapping after 2^31 − 1 additions; the counter is unbounded.
- Reports.Report.AddNewDirectory: does not model the Java `int` counter wrapping after 2^31 − 1 additions; the counter is unbounded.
- `getColumnClass` is not modelled. It returns a Java `Class` object, which has no
  counterpart here.
- The Swing `AbstractTableModel` superclass is not modelled, and neither are its
  listeners and events.
- Map iteration order is not modelled. `GetChangedFiles` and `GetConcatenatedFileNames`
  visit the keys in an unspecified order (`keys`), and nothing is claimed about it.
- The GUI frame and the command-line entry point are not modelled. They only call the
  two sync steps and show the report.
- The test fixture counts are not modelled: 8 target files, 19 after the sync, 2
  changed and 9 new. They depend on fixture directories whose contents are not part of
  this model.
