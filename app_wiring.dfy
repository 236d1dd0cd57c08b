/** Two computations of the UI event handlers: the single/multi-page mode flag, and the report
    that consolidates a multi-page deployment. */
module AppWiring {
  import opened Wrappers
  import opened Seqs
  import opened Text
  import opened Webflow
  import opened DeployerTypes
  import opened KeyRouter
  import opened Orchestration

  /** `keys.some(key => key.includes('.'))`. */
  predicate HasPagePrefixes(keys: seq<string>)
  {
    exists i | 0 <= i < |keys| :: '.' in keys[i]
  }

  /** On the keys of the loaded content (in any order), the handlers choose the multi-page mode
      exactly when the deployer's key router finds at least one target page. */
  lemma ModeFlagMatchesRouter(d: WordingData, keys: seq<string>)
    requires forall k :: k in keys <==> k in d.content
    ensures HasPagePrefixes(keys) <==> TargetPages(Some(d)) != {}
  {
    TargetPagesEmptyIff(d);
    if HasPagePrefixes(keys) {
      var i :| 0 <= i < |keys| && '.' in keys[i];
      assert keys[i] in keys;
    }
    if TargetPages(Some(d)) != {} {
      var k :| k in d.content && '.' in k;
      var i :| 0 <= i < |keys| && keys[i] == k;
    }
  }

  /** The report the deploy handler shows after a multi-page deployment: only counters, with
      `total_keys` the sum of the three summary totals, and the per-page reports attached. */
  function ConsolidatedReport(siteId: string, result: DeployAllResult, stamp: Stamp): DeploymentReport
  {
    var s := result.summary;
    DeploymentReport(stamp.deploymentId, siteId, stamp.timestamp, DecimalText(s.totalPages) + " pages",
                     [], [], [], Stats(s.totalApplied + s.totalFailed + s.totalMissing,
                                       s.totalApplied, s.totalFailed, s.totalMissing),
                     Some(result.reports))
  }

  /** The consolidated counters are the sums of the per-page counters, and its `total_keys` is
      never below the sum of the per-page `total_keys` (it also counts the failures that left
      no report line). */
  lemma ConsolidatedTotals(d: WordingData, items: seq<Item>, clock: nat -> Stamp, stamp: Stamp)
    ensures var result := DeployAll(Some(d), items, None, clock);
            && result.Ok?
            && var c := ConsolidatedReport(d.siteId, result.value, stamp);
               var rs := result.value.reports;
               && c.stats.applied == SumOf(rs, AppliedOf)
               && c.stats.failed == SumOf(rs, FailedOf)
               && c.stats.missing == SumOf(rs, MissingCountOf)
               && c.stats.totalKeys == c.stats.applied + c.stats.failed + c.stats.missing
               && c.stats.totalKeys >= SumOf(rs, TotalKeysOf)
               && c.multiPageReports == Some(rs)
  {
    DeploySummarySpec(d, Selected(d, items), clock);
  }
}
