/**
 * The "find latest" walk: the greatest month prefix under the report root, the
 * greatest report prefix inside that month, and the greatest `.zip` key inside
 * that report, each chosen as the last element of the sorted listing. An empty
 * listing at any level ends the walk with a "not found" error.
 */
module Locate {
  import opened Options
  import opened LexOrder
  import opened Text
  import opened ObjectStore

  /** The archive extension. */
  const ZipSuffix := ".zip"

  /** The three ways the walk can find nothing; each is answered with status 404. */
  datatype NotFound = NoMonthlyDirectories | NoReportSubdirectories | NoZipFiles

  /** The error text the handler answers each "not found" with. */
  function ErrorMessage(e: NotFound): string {
    match e
    case NoMonthlyDirectories => "No monthly directories found"
    case NoReportSubdirectories => "No report subdirectories found"
    case NoZipFiles => "No CUR zip files found"
  }

  /** The month prefix, the report prefix, its label and the archive key the walk settled on. */
  datatype Located = Located(monthDir: string, reportDir: string, reportTimestamp: string, zipKey: string)

  /** `sorted(listing)[-1]`, or `None` for an empty listing. */
  function Latest(listing: set<string>): (r: Option<string>)
    ensures r.None? <==> listing == {}
    ensures r.Some? ==> IsGreatest(r.value, listing)
  {
    if listing == {} then None
    else
      var sorted := SortedList(listing);
      LastOfSortedIsGreatest(listing);
      Some(sorted[|sorted| - 1])
  }

  /** The keys under `dir` that end with `.zip`. */
  function ZipKeys(objects: map<string, Payload>, dir: string): set<string> {
    set k | k in KeysUnder(objects, dir) && EndsWith(k, ZipSuffix)
  }

  /** The three-level walk from the report root down to the newest archive. */
  function LocateLatestReport(objects: map<string, Payload>, root: string): (r: Result<Located, NotFound>)
    ensures r == Failure(NoMonthlyDirectories) <==> CommonPrefixes(objects, root) == {}
    ensures forall m :: IsGreatest(m, CommonPrefixes(objects, root)) ==>
              (r == Failure(NoReportSubdirectories) <==> CommonPrefixes(objects, m) == {})
    ensures forall m, d :: IsGreatest(m, CommonPrefixes(objects, root)) && IsGreatest(d, CommonPrefixes(objects, m)) ==>
              (r == Failure(NoZipFiles) <==> ZipKeys(objects, d) == {})
    ensures r.Success? ==>
              && IsGreatest(r.value.monthDir, CommonPrefixes(objects, root))
              && IsGreatest(r.value.reportDir, CommonPrefixes(objects, r.value.monthDir))
              && IsGreatest(r.value.zipKey, ZipKeys(objects, r.value.reportDir))
              && r.value.zipKey in objects && r.value.reportDir <= r.value.zipKey
              && EndsWith(r.value.zipKey, ZipSuffix)
              && r.value.reportTimestamp == LastSegment(r.value.reportDir, Delimiter)
              && Delimiter !in r.value.reportTimestamp
  {
    GreatestIsUnique(CommonPrefixes(objects, root));
    match Latest(CommonPrefixes(objects, root))
    case None => Failure(NoMonthlyDirectories)
    case Some(monthDir) =>
      GreatestIsUnique(CommonPrefixes(objects, monthDir));
      match Latest(CommonPrefixes(objects, monthDir))
      case None => Failure(NoReportSubdirectories)
      case Some(reportDir) =>
        var reportTimestamp := LastSegment(reportDir, Delimiter);
        match Latest(ZipKeys(objects, reportDir))
        case None => Failure(NoZipFiles)
        case Some(zipKey) => Success(Located(monthDir, reportDir, reportTimestamp, zipKey))
  }

  /**
   * The month and report prefixes are nested one level apart, and when the
   * report's segment is non-empty its label is exactly that segment.
   */
  lemma LocatedPrefixesNest(objects: map<string, Payload>, root: string)
    requires LocateLatestReport(objects, root).Success?
    ensures var loc := LocateLatestReport(objects, root).value;
            && IsChildPrefix(loc.monthDir, root)
            && IsChildPrefix(loc.reportDir, loc.monthDir)
            && (|loc.reportDir| > |loc.monthDir| + 1 ==>
                  loc.reportDir == loc.monthDir + loc.reportTimestamp + [Delimiter])
  {
    var loc := LocateLatestReport(objects, root).value;
    CommonPrefixShape(objects, root, loc.monthDir);
    CommonPrefixShape(objects, loc.monthDir, loc.reportDir);
    if |loc.reportDir| > |loc.monthDir| + 1 {
      var seg := loc.reportDir[|loc.monthDir|..|loc.reportDir| - 1];
      assert loc.reportDir == loc.monthDir + seg + [Delimiter];
      LastSegmentOfChild(loc.monthDir, seg, Delimiter);
    }
  }

  /** Of the month prefixes `A/`, `B/` and `C/`, the walk takes `C/`. */
  lemma ThreeMonthsPickTheLast()
    ensures Latest({"A/", "B/", "C/"}) == Some("C/")
  {
    LexLeAtFirstDifference("C/", "A/", 0);
    LexLeAtFirstDifference("C/", "B/", 0);
  }
}
