/**
 * The billing report handler: locates the newest cost-and-usage archive, totals
 * its rows by the requested metric, picks the last complete day, optionally prunes
 * the month's older reports, and answers with the figures.
 */
module BillingHandler {
  import opened Options
  import opened ObjectStore
  import opened Metric
  import opened Aggregation
  import opened Locate
  import opened Prune

  /** Deployment settings: where the reports live and whether older ones are deleted. */
  datatype Config = Config(reportRoot: string, deleteOldReports: bool)

  /** The deployed settings. */
  const DefaultConfig := Config("reports/billing-homeassistant-export/", true)

  /**
   * Opens an archive body and yields the records of its first CSV member; `None`
   * where the body is not a readable archive or has no member.
   */
  type ArchiveReader = Payload -> Option<seq<Row>>

  /** The figures of a successful run, before they are rounded and serialised. */
  datatype Report = Report(
    totalSpend: real,
    lastDaySpend: real,
    latestDay: Option<string>,
    metricUsed: string,
    latestReport: string,
    reportTimestamp: string,
    oldReportsDeleted: seq<string>)

  /** A 404 answer with its error text, the exception an unreadable archive raises, or a 200 answer. */
  datatype Response = NotFound(error: string) | ArchiveFailure | Processed(report: Report)

  /** Deleting under no prefix leaves the store as it was. */
  lemma WithoutNoDirs(objects: map<string, Payload>)
    ensures WithoutDirs(objects, []) == objects
  {
  }

  /** One invocation of the handler for `metricUsed` against `store`. */
  method LambdaHandler(store: Store, config: Config, metricUsed: string, parse: NumberParser,
                       readArchive: ArchiveReader) returns (response: Response)
    modifies store
    ensures match LocateLatestReport(old(store.objects), config.reportRoot)
            case Failure(e) => response == NotFound(ErrorMessage(e)) && store.objects == old(store.objects)
            case Success(loc) =>
              && loc.zipKey in old(store.objects)
              && match readArchive(old(store.objects)[loc.zipKey])
                 case None => response == ArchiveFailure && store.objects == old(store.objects)
                 case Some(rows) =>
                   var deleted := if config.deleteOldReports then ReportsToPrune(old(store.objects), loc.monthDir) else [];
                   var choice := SelectDay(DailyTotals(rows, metricUsed, parse));
                   && response == Processed(Report(TotalSpend(rows, metricUsed, parse), choice.lastDaySpend,
                                                   choice.latestDay, metricUsed, loc.zipKey, loc.reportTimestamp, deleted))
                   && store.objects == WithoutDirs(old(store.objects), deleted)
                   // the report just processed, its archive included, survives the pruning
                   && forall k :: k in old(store.objects) && loc.reportDir <= k ==> k in store.objects
    ensures !config.deleteOldReports ==> store.objects == old(store.objects)
    ensures response.Processed? && !config.deleteOldReports ==> response.report.oldReportsDeleted == []
  {
    var located := LocateLatestReport(store.objects, config.reportRoot);
    if located.Failure? {
      return NotFound(ErrorMessage(located.error));
    }
    var loc := located.value;
    var archive := readArchive(store.objects[loc.zipKey]);
    if archive.None? {
      return ArchiveFailure;
    }
    var totalSpend, dailyTotals := AggregateRows(archive.value, metricUsed, parse);
    var choice := SelectDay(dailyTotals);
    var oldReportsDeleted := [];
    if config.deleteOldReports {
      oldReportsDeleted := PruneOldReports(store, loc.monthDir);
      PruneEffect(old(store.objects), loc.monthDir);
    } else {
      WithoutNoDirs(store.objects);
    }
    response := Processed(Report(totalSpend, choice.lastDaySpend, choice.latestDay, metricUsed,
                                 loc.zipKey, loc.reportTimestamp, oldReportsDeleted));
  }
}
