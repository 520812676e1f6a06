/**
 * A whole sync as the GUI and the command-line frame start it: index the target,
 * then walk the source against that index.
 */
module SyncRun {
  import opened Reports
  import opened Syncer
  import opened SyncProperties

  /**
   * Both steps on one syncer, for any source. The target ends as the reference run
   * leaves it, and when no file path occurs twice in the walk (as in any real source
   * tree) each report counter equals the size of its map.
   */
  method Sync(syncer: DirectorySyncer) returns (report: Report)
    modifies syncer
    ensures fresh(report) && report.Valid()
    ensures syncer.target == Run(old(syncer.target).files, old(syncer.target), syncer.source).0
    ensures Records(report, Run(old(syncer.target).files, old(syncer.target), syncer.source).1)
    ensures DistinctFiles(syncer.source) ==> report.GetNoOfChangedFiles() == |report.GetChangedFiles()|
    ensures DistinctFiles(syncer.source) ==> report.GetNoOfNewFiles() == |report.GetNewFiles()|
  {
    var targetMap := syncer.BuildTargetFileMap();
    report := syncer.FindAndHandleSourcesInTargetMap(targetMap);
    if DistinctFiles(syncer.source) {
      EachFileRecordedOnce(old(syncer.target), syncer.source);
    }
  }
}
