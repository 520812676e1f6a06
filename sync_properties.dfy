/**
 * What a run of the decision rule guarantees: the target only grows, it grows by
 * exactly the copies the report records, and a second run over the same trees copies
 * nothing.
 * A run here starts from the snapshot of the target it works on: Run(t.files, t, walk).
 */
module SyncProperties {
  import opened Sequences
  import opened Paths
  import opened Syncer

  /** `q` is a numbered form of `p`. */
  ghost predicate IsRenamedForm(q: Path, p: Path) {
    exists n: nat :: 1 <= n && q == RenamedPath(p, n)
  }

  /** A walk of a real source tree: no file path occurs twice. */
  ghost predicate DistinctFiles(walk: seq<SourceEntry>) {
    forall i, j :: 0 <= i < |walk| && 0 <= j < |walk| && i != j && walk[i].File? && walk[j].File? ==>
      walk[i].path != walk[j].path
  }

  /**
   * A walk where, besides, no file path is a
   * numbered form of another file's path, so no copy can land on a path that a later
   * source file is copied to.
   */
  ghost predicate CollisionFree(walk: seq<SourceEntry>) {
    forall i, j :: 0 <= i < |walk| && 0 <= j < |walk| && i != j && walk[i].File? && walk[j].File? ==>
      walk[i].path != walk[j].path && !IsRenamedForm(walk[j].path, walk[i].path)
  }

  /** `q` is where some file of the walk could be copied to. */
  ghost predicate CopyTarget(walk: seq<SourceEntry>, q: Path) {
    exists i :: 0 <= i < |walk| && walk[i].File? && (q == walk[i].path || IsRenamedForm(q, walk[i].path))
  }

  function Init<T>(s: seq<T>): seq<T>
    requires s != []
  {
    s[..|s| - 1]
  }

  lemma CollisionFreePrefix(walk: seq<SourceEntry>)
    requires walk != [] && CollisionFree(walk)
    ensures CollisionFree(Init(walk))
  {
    var w := Init(walk);
    forall i, j | 0 <= i < |w| && 0 <= j < |w| && i != j && w[i].File? && w[j].File?
      ensures w[i].path != w[j].path && !IsRenamedForm(w[j].path, w[i].path)
    {
      assert w[i] == walk[i] && w[j] == walk[j];
    }
  }

  /** Every file of the target after a run was there before or is a copy of a walked file. */
  lemma {:induction false} RunKeys(snapshot: map<Path, nat>, t: Tree, walk: seq<SourceEntry>)
    ensures forall q :: q in Run(snapshot, t, walk).0.files ==> q in t.files || CopyTarget(walk, q)
  {
    if walk != [] {
      var w, e := Init(walk), walk[|walk| - 1];
      RunKeys(snapshot, t, w);
      var before := Run(snapshot, t, w).0;
      var a := Decide(snapshot, before, e);
      forall q | q in Run(snapshot, t, walk).0.files ensures q in t.files || CopyTarget(walk, q) {
        if q in before.files {
          if q !in t.files {
            var i :| 0 <= i < |w| && w[i].File? && (q == w[i].path || IsRenamedForm(q, w[i].path));
            assert walk[i] == w[i];
          }
        } else if a.CopyChanged? {
          var n := Probe(before.files, e.path, e.size);
          assert IsRenamedForm(q, e.path);
        } else {
          assert q == e.path;
        }
      }
    }
  }

  /** On a collision-free walk, a new file's path is still free when its turn comes. */
  lemma NewFileIsFree(t: Tree, walk: seq<SourceEntry>)
    requires walk != [] && CollisionFree(walk)
    ensures var before := Run(t.files, t, Init(walk)).0;
            var a := Decide(t.files, before, walk[|walk| - 1]);
            a.CopyNew? ==> a.source !in before.files
  {
    var w, e := Init(walk), walk[|walk| - 1];
    var before := Run(t.files, t, w).0;
    var a := Decide(t.files, before, e);
    if a.CopyNew? && a.source in before.files {
      RunKeys(t.files, t, w);
      var i :| 0 <= i < |w| && w[i].File? && (e.path == w[i].path || IsRenamedForm(e.path, w[i].path));
      assert false;
    }
  }

  /** On a collision-free walk, each step keeps every file the target already had, with its size. */
  lemma StepGrows(t: Tree, walk: seq<SourceEntry>)
    requires walk != [] && CollisionFree(walk)
    ensures var before := Run(t.files, t, Init(walk)).0;
            var after := Run(t.files, t, walk).0;
            SubMap(before.files, after.files) && before.directories <= after.directories
  {
    NewFileIsFree(t, walk);
  }

  /**
   * A run never loses or overwrites a file or a directory the target had: a new file
   * goes to a path missing from the snapshot, a changed file to a path missing from
   * the live tree.
   */
  lemma {:induction false} RunGrows(t: Tree, walk: seq<SourceEntry>)
    ensures SubMap(t.files, Run(t.files, t, walk).0.files)
    ensures t.directories <= Run(t.files, t, walk).0.directories
  {
    if walk != [] {
      RunGrows(t, Init(walk));
    }
  }

  /**
   * After a collision-free run, the target holds as many files as before plus one per
   * changed copy plus one per new copy, and as many directories as before plus the ones created.
   */
  lemma {:induction false} TargetFileCount(t: Tree, walk: seq<SourceEntry>)
    requires CollisionFree(walk)
    ensures var r := Run(t.files, t, walk);
            |r.0.files| == |t.files| + |ChangedSources(r.1)| + |NewSources(r.1)|
    ensures var r := Run(t.files, t, walk);
            |r.0.directories| == |t.directories| + |NewDirectories(r.1)|
  {
    if walk != [] {
      var w := Init(walk);
      CollisionFreePrefix(walk);
      TargetFileCount(t, w);
      NewFileIsFree(t, walk);
      var acts := Run(t.files, t, walk).1;
      assert Init(acts) == Run(t.files, t, w).1;
    }
  }

  /** A directory is created at most once in a run, and every created directory is in the final tree. */
  lemma {:induction false} DirectoriesCreatedOnce(snapshot: map<Path, nat>, t: Tree, walk: seq<SourceEntry>)
    ensures var r := Run(snapshot, t, walk);
            Distinct(NewDirectories(r.1)) && Elements(NewDirectories(r.1)) <= r.0.directories
  {
    if walk != [] {
      var w := Init(walk);
      DirectoriesCreatedOnce(snapshot, t, w);
      var r := Run(snapshot, t, walk);
      var before := Run(snapshot, t, w);
      assert Init(r.1) == before.1;
      ElementsAppend(NewDirectories(before.1), walk[|walk| - 1].path);
    }
  }

  /** `x` is the path of a file of the walk. */
  ghost predicate WalkedFile(walk: seq<SourceEntry>, x: Path) {
    exists i :: 0 <= i < |walk| && walk[i].File? && walk[i].path == x
  }

  /** The changed and new sources of a run are paths of files of the walk. */
  lemma {:induction false} SourcesFromWalk(snapshot: map<Path, nat>, t: Tree, walk: seq<SourceEntry>)
    ensures forall x :: x in ChangedSources(Run(snapshot, t, walk).1) ==> WalkedFile(walk, x)
    ensures forall x :: x in NewSources(Run(snapshot, t, walk).1) ==> WalkedFile(walk, x)
  {
    if walk != [] {
      var w, e := Init(walk), walk[|walk| - 1];
      SourcesFromWalk(snapshot, t, w);
      var acts := Run(snapshot, t, walk).1;
      var earlier := Run(snapshot, t, w).1;
      assert Init(acts) == earlier;
      forall x | WalkedFile(w, x) ensures WalkedFile(walk, x) {
        var i :| 0 <= i < |w| && w[i].File? && w[i].path == x;
        assert walk[i] == w[i];
      }
      var a := acts[|acts| - 1];
      if a.CopyChanged? || a.CopyNew? {
        assert e.File? && a.source == e.path;
        assert WalkedFile(walk, e.path);
      }
    }
  }

  lemma DistinctFilesPrefix(walk: seq<SourceEntry>)
    requires walk != [] && DistinctFiles(walk)
    ensures DistinctFiles(Init(walk))
  {
    var w := Init(walk);
    forall i, j | 0 <= i < |w| && 0 <= j < |w| && i != j && w[i].File? && w[j].File?
      ensures w[i].path != w[j].path
    {
      assert w[i] == walk[i] && w[j] == walk[j];
    }
  }

  /**
   * When no file path occurs twice in the walk, no file is recorded twice, so the
   * report's counters equal the sizes of its maps: the agreement the sync tests check
   * after every run.
   */
  lemma {:induction false} EachFileRecordedOnce(t: Tree, walk: seq<SourceEntry>)
    requires DistinctFiles(walk)
    ensures var acts := Run(t.files, t, walk).1;
            Distinct(ChangedSources(acts)) && Distinct(NewSources(acts))
  {
    if walk != [] {
      var w, e := Init(walk), walk[|walk| - 1];
      DistinctFilesPrefix(walk);
      EachFileRecordedOnce(t, w);
      SourcesFromWalk(t.files, t, w);
      var acts := Run(t.files, t, walk).1;
      var before := Run(t.files, t, w).1;
      assert Init(acts) == before;
      var a := acts[|acts| - 1];
      if a.CopyChanged? {
        assert e.File? && a.source == e.path;
        assert e.path !in ChangedSources(before);
        DistinctAppend(ChangedSources(before), e.path);
      } else if a.CopyNew? {
        assert e.File? && a.source == e.path;
        assert e.path !in NewSources(before);
        DistinctAppend(NewSources(before), e.path);
      }
    }
  }

  /** A run whose every decision is a no-op leaves the target alone and records nothing. */
  lemma {:induction false} QuietRun(snapshot: map<Path, nat>, t: Tree, walk: seq<SourceEntry>)
    requires forall i :: 0 <= i < |walk| ==> IsNoOp(Decide(snapshot, t, walk[i]))
    ensures var r := Run(snapshot, t, walk);
            && r.0 == t
            && ChangedSources(r.1) == [] && ChangedFiles(r.1) == map[]
            && NewSources(r.1) == [] && NewFiles(r.1) == map[]
            && NewDirectories(r.1) == []
  {
    if walk != [] {
      var w := Init(walk);
      forall i | 0 <= i < |w| ensures IsNoOp(Decide(snapshot, t, w[i])) {
        assert w[i] == walk[i];
      }
      QuietRun(snapshot, t, w);
      var acts := Run(snapshot, t, walk).1;
      assert Init(acts) == Run(snapshot, t, w).1;
      assert IsNoOp(Decide(snapshot, t, walk[|walk| - 1]));
    }
  }

  /**
   * Equal-size no-op: when every walked file is in the target at the same path with the
   * same size and every walked directory exists, nothing is copied, created or recorded.
   */
  lemma EqualSizesCopyNothing(t: Tree, walk: seq<SourceEntry>)
    requires forall i :: 0 <= i < |walk| && walk[i].File? ==>
               walk[i].path in t.files && t.files[walk[i].path] == walk[i].size
    requires forall i :: 0 <= i < |walk| && walk[i].Directory? ==> walk[i].path in t.directories
    ensures var r := Run(t.files, t, walk);
            && r.0 == t
            && ChangedSources(r.1) == [] && NewSources(r.1) == [] && NewDirectories(r.1) == []
  {
    forall i | 0 <= i < |walk| ensures IsNoOp(Decide(t.files, t, walk[i])) {
      var a := Decide(t.files, t, walk[i]);
      assert !a.CopyNew? && !a.CreateDirectory?;
    }
    QuietRun(t.files, t, walk);
  }

  /**
   * Every entry of a collision-free walk is settled in any tree that holds the run's
   * result: each file is there with its size (at its own path, or at the numbered path
   * collision probing finds first), and each directory exists.
   */
  lemma {:induction false} SettledAfterRun(t: Tree, walk: seq<SourceEntry>, t1: Tree)
    requires CollisionFree(walk)
    requires SubMap(Run(t.files, t, walk).0.files, t1.files)
    requires Run(t.files, t, walk).0.directories <= t1.directories
    ensures forall i :: 0 <= i < |walk| ==> IsNoOp(Decide(t1.files, t1, walk[i]))
  {
    if walk != [] {
      var w, e := Init(walk), walk[|walk| - 1];
      var before := Run(t.files, t, w).0;
      var after := Run(t.files, t, walk).0;
      var a := Decide(t.files, before, e);
      CollisionFreePrefix(walk);
      StepGrows(t, walk);
      RunGrows(t, w);
      SettledAfterRun(t, w, t1);
      forall i | 0 <= i < |walk| ensures IsNoOp(Decide(t1.files, t1, walk[i])) {
        if i < |w| {
          assert walk[i] == w[i];
        } else {
          assert walk[i] == e;
          SettledStep(t.files, before, e, t1);
        }
      }
    }
  }

  /** One entry: what a run did for it is still in place in a larger tree, so a new decision is a no-op. */
  lemma SettledStep(snapshot: map<Path, nat>, before: Tree, e: SourceEntry, t1: Tree)
    requires SubMap(snapshot, before.files)
    requires SubMap(Apply(before, Decide(snapshot, before, e)).files, t1.files)
    requires Apply(before, Decide(snapshot, before, e)).directories <= t1.directories
    requires SubMap(before.files, Apply(before, Decide(snapshot, before, e)).files)
    ensures IsNoOp(Decide(t1.files, t1, e))
  {
    var a := Decide(snapshot, before, e);
    var after := Apply(before, a);
    var b := Decide(t1.files, t1, e);
    if a.CopyChanged? || a.AlreadySynced? {
      var n := Probe(before.files, e.path, e.size);
      forall j | 1 <= j < n ensures Blocked(t1.files, e.path, e.size, j) {
        assert Blocked(before.files, e.path, e.size, j);
      }
      assert after.files[a.dest] == e.size;
      ProbeIs(t1.files, e.path, e.size, n);
    }
    assert !b.CopyNew? && !b.CreateDirectory? && !b.CopyChanged?;
  }

  /**
   * Idempotence: after a collision-free run, a second run over the same walk, starting
   * from the snapshot of the updated target, copies nothing, creates nothing and records nothing.
   */
  lemma SecondRunCopiesNothing(t: Tree, walk: seq<SourceEntry>)
    requires CollisionFree(walk)
    ensures var t1 := Run(t.files, t, walk).0;
            var r := Run(t1.files, t1, walk);
            && r.0 == t1
            && ChangedSources(r.1) == [] && NewSources(r.1) == [] && NewDirectories(r.1) == []
  {
    var t1 := Run(t.files, t, walk).0;
    SettledAfterRun(t, walk, t1);
    QuietRun(t1.files, t1, walk);
  }
}
