/**
 * The one-way directory sync: index the target tree's files, then walk the source
 * tree and, file by file, skip it (same relative path, same size), copy it under a
 * numbered name (same relative path, different size) or copy it to the same relative
 * path (absent from the target). Trees are in memory: a file is its relative path
 * and its byte size.
 */
module Syncer {
  import opened Paths
  import opened Reports

  /**
   * One entry of the source walk; a directory comes before the files under it. A walk
   * lists only what lies below the source root: the root stands for the target root,
   * which always exists, so it is never an entry.
   */
  datatype SourceEntry = Directory(path: Path) | File(path: Path, size: nat)

  /** The target tree: its directories below the root and its files with their sizes. */
  datatype Tree = Tree(directories: set<Path>, files: map<Path, nat>)

  /** What the sync does with one source entry. */
  datatype Action =
    | Skip(source: Path)                               // same path, same size: nothing to do
    | CopyChanged(source: Path, dest: Path, size: nat) // same path, other size: copy under a numbered name
    | AlreadySynced(source: Path, dest: Path)          // a numbered copy of this size is already there
    | CopyNew(source: Path, size: nat)                 // not in the target: copy, keeping the subpath
    | CreateDirectory(source: Path)                    // mirrored directory missing: create it
    | DirectoryExists(source: Path)                    // mirrored directory already there

  /** A no-op leaves the target tree and the report alone. */
  predicate IsNoOp(a: Action) {
    a.Skip? || a.AlreadySynced? || a.DirectoryExists?
  }

  // ----- collision probing -----

  /** Numbered name n is taken by a file of another size, so probing must go on past it. */
  predicate Blocked(files: map<Path, nat>, p: Path, size: nat, n: nat) {
    RenamedPath(p, n) in files && files[RenamedPath(p, n)] != size
  }

  /** The numbered names tried before n. */
  ghost function Probed(p: Path, n: nat): set<Path> {
    set j | 1 <= j < n :: RenamedPath(p, j)
  }

  lemma RenamedNotProbed(p: Path, n: nat)
    ensures RenamedPath(p, n) !in Probed(p, n)
  {
    if RenamedPath(p, n) in Probed(p, n) {
      var j :| 1 <= j < n && RenamedPath(p, j) == RenamedPath(p, n);
      RenamedPathInjective(p, j, n);
    }
  }

  /** Trying a taken numbered name leaves fewer target files still to try. */
  lemma ProbeShrinks(files: map<Path, nat>, p: Path, n: nat)
    requires 1 <= n && RenamedPath(p, n) in files
    ensures files.Keys - Probed(p, n + 1) < files.Keys - Probed(p, n)
  {
    RenamedNotProbed(p, n);
    assert Probed(p, n + 1) == Probed(p, n) + {RenamedPath(p, n)};
  }

  /**
   * Probing upward from n: the first counter, not below n, whose numbered name is
   * free or holds a file of the source's size. It exists because the tree has
   * finitely many files and distinct counters give distinct names.
   */
  function ProbeFrom(files: map<Path, nat>, p: Path, size: nat, n: nat): (k: nat)
    requires 1 <= n
    requires forall j :: 1 <= j < n ==> Blocked(files, p, size, j)
    ensures n <= k && !Blocked(files, p, size, k)
    ensures forall j :: 1 <= j < k ==> Blocked(files, p, size, j)
    decreases files.Keys - Probed(p, n)
  {
    if Blocked(files, p, size, n) then
      ProbeShrinks(files, p, n);
      ProbeFrom(files, p, size, n + 1)
    else
      n
  }

  /** The collision counter for a changed file: the least n >= 1 not blocked. */
  function Probe(files: map<Path, nat>, p: Path, size: nat): (k: nat)
    ensures 1 <= k && !Blocked(files, p, size, k)
    ensures forall j :: 1 <= j < k ==> Blocked(files, p, size, j)
  {
    ProbeFrom(files, p, size, 1)
  }

  /** Being the least unblocked counter pins the probe down. */
  lemma ProbeIs(files: map<Path, nat>, p: Path, size: nat, n: nat)
    requires 1 <= n && !Blocked(files, p, size, n)
    requires forall j :: 1 <= j < n ==> Blocked(files, p, size, j)
    ensures Probe(files, p, size) == n
  {
  }

  // ----- the decision rule -----

  /**
   * The decision for one source entry. `snapshot` is the target file map built
   * before the walk; `target` is the target tree as the walk has left it so far.
   */
  function Decide(snapshot: map<Path, nat>, target: Tree, e: SourceEntry): (a: Action)
    ensures a.source == e.path
    ensures a.Skip? <==> e.File? && e.path in snapshot && snapshot[e.path] == e.size
    ensures a.CopyNew? <==> e.File? && e.path !in snapshot
    ensures a.CopyNew? ==> a.size == e.size
    ensures (a.CopyChanged? || a.AlreadySynced?) <==> e.File? && e.path in snapshot && snapshot[e.path] != e.size
    ensures a.CopyChanged? || a.AlreadySynced? ==>
              a.dest == RenamedPath(e.path, Probe(target.files, e.path, e.size))
    ensures a.CopyChanged? ==> a.dest !in target.files && a.size == e.size
    ensures a.AlreadySynced? ==> a.dest in target.files && target.files[a.dest] == e.size
    ensures a.CreateDirectory? <==> e.Directory? && e.path !in target.directories
  {
    match e
    case Directory(d) =>
      if d in target.directories then DirectoryExists(d) else CreateDirectory(d)
    case File(p, size) =>
      if p !in snapshot then CopyNew(p, size)
      else if snapshot[p] == size then Skip(p)
      else
        var dest := RenamedPath(p, Probe(target.files, p, size));
        if dest in target.files then AlreadySynced(p, dest) else CopyChanged(p, dest, size)
  }

  /** The target tree after an action: a copy adds or replaces one file, a creation adds one directory. */
  function Apply(target: Tree, a: Action): (t: Tree)
    ensures IsNoOp(a) ==> t == target
  {
    match a
    case CopyChanged(_, dest, size) => target.(files := target.files[dest := size])
    case CopyNew(p, size) => target.(files := target.files[p := size])
    case CreateDirectory(d) => target.(directories := target.directories + {d})
    case _ => target
  }

  /** A whole walk: the final target tree and one action per source entry, in walk order. */
  function Run(snapshot: map<Path, nat>, target: Tree, entries: seq<SourceEntry>): (r: (Tree, seq<Action>))
    ensures |r.1| == |entries|
  {
    if entries == [] then (target, [])
    else
      var before := Run(snapshot, target, entries[..|entries| - 1]);
      var a := Decide(snapshot, before.0, entries[|entries| - 1]);
      (Apply(before.0, a), before.1 + [a])
  }

  /** Extending a walk by one entry adds that entry's decision, taken on the tree the walk left. */
  lemma RunAppend(snapshot: map<Path, nat>, target: Tree, entries: seq<SourceEntry>, e: SourceEntry)
    ensures var before := Run(snapshot, target, entries);
            var a := Decide(snapshot, before.0, e);
            Run(snapshot, target, entries + [e]) == (Apply(before.0, a), before.1 + [a])
  {
    assert (entries + [e])[..|entries|] == entries;
  }

  /** The same for the prefixes of one walk. */
  lemma RunPrefix(snapshot: map<Path, nat>, target: Tree, entries: seq<SourceEntry>, i: nat)
    requires i < |entries|
    ensures var before := Run(snapshot, target, entries[..i]);
            var a := Decide(snapshot, before.0, entries[i]);
            Run(snapshot, target, entries[..i + 1]) == (Apply(before.0, a), before.1 + [a])
  {
    assert entries[..i + 1] == entries[..i] + [entries[i]];
    RunAppend(snapshot, target, entries[..i], entries[i]);
  }

  // ----- what the report records for a sequence of actions -----

  /** The sources of the changed-file copies, in order. */
  function ChangedSources(acts: seq<Action>): seq<Path> {
    if acts == [] then []
    else
      var a := acts[|acts| - 1];
      ChangedSources(acts[..|acts| - 1]) + if a.CopyChanged? then [a.source] else []
  }

  /** The changed-file map: source to numbered copy, a later entry for a source replacing an earlier one. */
  function ChangedFiles(acts: seq<Action>): map<Path, Path> {
    if acts == [] then map[]
    else
      var a := acts[|acts| - 1];
      var m := ChangedFiles(acts[..|acts| - 1]);
      if a.CopyChanged? then m[a.source := a.dest] else m
  }

  /** The sources of the new-file copies, in order. */
  function NewSources(acts: seq<Action>): seq<Path> {
    if acts == [] then []
    else
      var a := acts[|acts| - 1];
      NewSources(acts[..|acts| - 1]) + if a.CopyNew? then [a.source] else []
  }

  /** The new-file map: source to copy, which keeps the same relative path. */
  function NewFiles(acts: seq<Action>): map<Path, Path> {
    if acts == [] then map[]
    else
      var a := acts[|acts| - 1];
      var m := NewFiles(acts[..|acts| - 1]);
      if a.CopyNew? then m[a.source := a.source] else m
  }

  /** The directories created, in order. */
  function NewDirectories(acts: seq<Action>): seq<Path> {
    if acts == [] then []
    else
      var a := acts[|acts| - 1];
      NewDirectories(acts[..|acts| - 1]) + if a.CreateDirectory? then [a.source] else []
  }

  /** The report holds exactly what the actions record. */
  ghost predicate Records(report: Report, acts: seq<Action>)
    reads report
  {
    && report.Valid()
    && report.changedHistory == ChangedSources(acts) && report.changedFiles == ChangedFiles(acts)
    && report.newHistory == NewSources(acts) && report.newFiles == NewFiles(acts)
    && report.newDirectories == NewDirectories(acts)
  }

  /**
   * One sync between a source tree and a target tree. The trees stand for the two
   * roots given to the constructor; the target tree is changed in place by the
   * copies and directory creations of a run.
   */
  class DirectorySyncer {
    const source: seq<SourceEntry>
    var target: Tree

    constructor (source: seq<SourceEntry>, target: Tree)
      ensures this.source == source && this.target == target
    {
      this.source := source;
      this.target := target;
    }

    /** Step 1: index every file of the target tree by its relative path, with its size. */
    method BuildTargetFileMap() returns (m: map<Path, nat>)
      ensures m == target.files
      ensures |m| == |target.files|
    {
      m := map[];
      var remaining := target.files.Keys;
      while remaining != {}
        invariant remaining <= target.files.Keys
        invariant m.Keys == target.files.Keys - remaining
        invariant forall f :: f in m ==> m[f] == target.files[f]
        decreases remaining
      {
        var f :| f in remaining;
        m := m[f := target.files[f]];
        remaining := remaining - {f};
      }
    }

    /**
     * Collision detection for a changed file of the given size: counts up from 1
     * until the numbered name is free or already holds a file of that size.
     */
    method FindFreeCounter(p: Path, size: nat) returns (n: nat)
      ensures 1 <= n && !Blocked(target.files, p, size, n)
      ensures forall j :: 1 <= j < n ==> Blocked(target.files, p, size, j)
    {
      n := 1;
      while RenamedPath(p, n) in target.files && target.files[RenamedPath(p, n)] != size
        invariant 1 <= n
        invariant forall j :: 1 <= j < n ==> Blocked(target.files, p, size, j)
        decreases target.files.Keys - Probed(p, n)
      {
        ProbeShrinks(target.files, p, n);
        n := n + 1;
      }
    }

    /**
     * A file whose path is in the target with another size: copy it beside the
     * existing one under the first free numbered name and record it as changed,
     * unless a numbered copy of the same size is already there.
     */
    method HandleChanged(file: Path, size: nat, report: Report) returns (ghost a: Action)
      requires report.Valid()
      modifies this, report
      ensures a.source == file
      ensures a.CopyChanged? || a.AlreadySynced?
      ensures a.dest == RenamedPath(file, Probe(old(target).files, file, size))
      ensures a.CopyChanged? <==> a.dest !in old(target).files
      ensures a.CopyChanged? ==> a.size == size
      ensures target == Apply(old(target), a)
      ensures report.Valid()
      ensures a.CopyChanged? ==>
                && report.changedHistory == old(report.changedHistory) + [file]
                && report.changedFiles == old(report.changedFiles)[file := a.dest]
      ensures !a.CopyChanged? ==>
                report.changedHistory == old(report.changedHistory) && report.changedFiles == old(report.changedFiles)
      ensures report.newHistory == old(report.newHistory) && report.newFiles == old(report.newFiles)
      ensures report.newDirectories == old(report.newDirectories)
    {
      var n := FindFreeCounter(file, size);
      ProbeIs(target.files, file, size, n);
      var dest := RenamedPath(file, n);
      if dest in target.files {
        a := AlreadySynced(file, dest);
      } else {
        target := target.(files := target.files[dest := size]);
        report.AddChangedFile(file, dest);
        a := CopyChanged(file, dest, size);
      }
    }

    /** One source entry: the decision rule carried out on the target tree and recorded in the report. */
    method HandleEntry(targetMap: map<Path, nat>, e: SourceEntry, report: Report, ghost acts: seq<Action>)
      returns (ghost a: Action)
      requires Records(report, acts)
      modifies this, report
      ensures a == Decide(targetMap, old(target), e)
      ensures target == Apply(old(target), a)
      ensures Records(report, acts + [a])
    {
      a := Decide(targetMap, target, e);
      assert (acts + [a])[..|acts|] == acts;
      match e {
        case Directory(d) =>
          if d !in target.directories {
            target := target.(directories := target.directories + {d});
            report.AddNewDirectory(d);
          }
        case File(p, size) =>
          if p in targetMap {
            if targetMap[p] != size {
              ghost var b := HandleChanged(p, size, report);
              assert b.CopyChanged? <==> a.CopyChanged?;
              assert b == a;
            }
          } else {
            target := target.(files := target.files[p := size]);
            report.AddNewFile(p, p);
          }
      }
    }

    /**
     * Step 2: walk the source. `targetMap` is the index step 1 built; the target
     * tree changes as files are copied and directories created. The report holds
     * exactly what the decision rule records, and the target ends as the rule leaves it.
     */
    method FindAndHandleSourcesInTargetMap(targetMap: map<Path, nat>) returns (report: Report)
      modifies this
      ensures fresh(report)
      ensures target == Run(targetMap, old(target), source).0
      ensures Records(report, Run(targetMap, old(target), source).1)
    {
      report := new Report();
      ghost var acts: seq<Action> := [];
      var i := 0;
      while i < |source|
        invariant 0 <= i <= |source|
        invariant target == Run(targetMap, old(target), source[..i]).0
        invariant acts == Run(targetMap, old(target), source[..i]).1
        invariant Records(report, acts)
      {
        RunPrefix(targetMap, old(target), source, i);
        ghost var a := HandleEntry(targetMap, source[i], report, acts);
        acts := acts + [a];
        i := i + 1;
      }
      assert source[..|source|] == source;
    }
  }
}
