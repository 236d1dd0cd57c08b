/** The records the deployer reads and produces. */
module DeployerTypes {
  import opened Wrappers

  /** The loaded wording: site id, schema version, optional update date, and the key/value content. */
  datatype WordingData = WordingData(
    siteId: string,
    version: string,
    updatedAt: Option<string>,
    content: map<string, string>)

  /** One tagged element found by a scan. */
  datatype ScannedElement = ScannedElement(key: string, selector: string, mode: string)

  /** One line of a preview: the scanned key and, when the content has it, its new value. */
  datatype ChangeRecord = ChangeRecord(key: string, hasValue: bool, newValue: Option<string>)

  datatype Status = Success | Error | Warning

  datatype ChangeReport = ChangeReport(
    key: string,
    oldValue: string,
    newValue: string,
    elementSelector: string,
    status: Status,
    message: Option<string>)

  datatype Stats = Stats(totalKeys: nat, applied: nat, failed: nat, missing: nat)

  datatype DeploymentReport = DeploymentReport(
    deploymentId: string,
    siteId: string,
    timestamp: string,
    pageName: string,
    changes: seq<ChangeReport>,
    warnings: seq<string>,
    errors: seq<string>,
    stats: Stats,
    multiPageReports: Option<seq<DeploymentReport>>)

  datatype ScanProgress = ScanProgress(currentPage: string, completed: nat, total: nat)

  /** The result of `previewChanges`; the unused keys are a set (their array order is not modelled). */
  datatype Preview = Preview(changes: seq<ChangeRecord>, missingKeys: seq<string>, unusedKeys: set<string>)

  datatype PageStats = PageStats(total: nat, withValue: nat, missing: nat)

  datatype PagePreview = PagePreview(
    pageName: string,
    changes: seq<ChangeRecord>,
    missingKeys: seq<string>,
    stats: PageStats)

  datatype ScanSummary = ScanSummary(
    totalPages: nat,
    totalElements: nat,
    totalWithValue: nat,
    totalMissing: nat,
    unusedKeys: set<string>)

  datatype ScanAllResult = ScanAllResult(pagesPreviews: seq<PagePreview>, summary: ScanSummary)

  datatype DeploySummary = DeploySummary(
    totalPages: nat,
    successPages: nat,
    totalApplied: nat,
    totalFailed: nat,
    totalMissing: nat)

  datatype DeployAllResult = DeployAllResult(reports: seq<DeploymentReport>, summary: DeploySummary)

  /** The clock readings a report is stamped with (`dep-${Date.now()}` and the ISO timestamp). */
  datatype Stamp = Stamp(deploymentId: string, timestamp: string)

  const KeyAttribute: string := "data-wording-key"
  const ModeAttribute: string := "data-wording-mode"
  const DefaultMode: string := "text"
  const HtmlMode: string := "html"
  const AttrModePrefix: string := "attr:"
  const NotLoaded: string := "Aucune donnée de wording chargée"
  const CurrentPageName: string := "Page courante"
  const UnknownPageName: string := "Page inconnue"
  const DoneLabel: string := "Terminé"
}
