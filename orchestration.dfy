/** The multi-page orchestration of `SiteDeployer.scanAllPages` and `deployToAllPages`, as
    specifications: which pages are processed, what each processed page contributes, the
    summaries, the progress notifications, and the texts a deployment leaves behind. */
module Orchestration {
  import opened Wrappers
  import opened Seqs
  import opened Text
  import opened Webflow
  import opened DeployerTypes
  import opened KeyRouter
  import opened PageMatch
  import opened Scanning
  import opened Diffing
  import opened Applying

  /** A page entry of `getAllPagesAndFolders()` with its position in that list. */
  datatype PageRef = PageRef(index: nat, page: Page)

  /** `pagesAndFolders.filter(item => item.type === 'Page')`, each page with its position. */
  function AllPages(items: seq<Item>): seq<PageRef>
  {
    if items == [] then []
    else
      var n := |items| - 1;
      AllPages(items[..n]) + (if items[n].PageItem? then [PageRef(n, items[n].page)] else [])
  }

  predicate RefersTo(items: seq<Item>, r: PageRef)
  {
    r.index < |items| && items[r.index] == PageItem(r.page)
  }

  /** The page list holds exactly the page entries, each with its true position, in the order of
      the host's list. */
  lemma {:induction false} AllPagesSpec(items: seq<Item>)
    ensures forall r | r in AllPages(items) :: RefersTo(items, r)
    ensures forall i | 0 <= i < |items| && items[i].PageItem? :: PageRef(i, items[i].page) in AllPages(items)
    ensures forall a, b | 0 <= a < b < |AllPages(items)| :: AllPages(items)[a].index < AllPages(items)[b].index
    ensures forall r | r in AllPages(items) :: r.index < |items|
    decreases |items|
  {
    if items != [] {
      var n := |items| - 1;
      var prefix := items[..n];
      AllPagesSpec(prefix);
      forall r | r in AllPages(prefix) ensures RefersTo(items, r) {
        assert prefix[r.index] == items[r.index];
      }
      forall i | 0 <= i < n && items[i].PageItem? ensures PageRef(i, items[i].page) in AllPages(items) {
        assert prefix[i] == items[i];
      }
    }
  }

  /** The name the target filter matches: `getName()`, else `getSlug()`, else the page is
      skipped (`continue`). */
  function FilterName(p: Page): Option<string>
  {
    match p.name
    case Ok(n) => Some(n)
    case Err(_) =>
      match p.slug
      case Ok(s) => Some(s)
      case Err(_) => None
  }

  /** The name a processed page is reported and announced under: `getName()`, else `getSlug()`,
      else "Page inconnue". */
  function Label(p: Page): string
  {
    match FilterName(p)
    case Some(n) => n
    case None => UnknownPageName
  }

  /** `Array.from(targetPages).some(target => isPageMatch(pageName, target))`. */
  predicate IsTarget(pageName: string, targets: set<string>)
  {
    exists t | t in targets :: IsPageMatch(pageName, t)
  }

  function Keep(targets: set<string>): PageRef -> bool
  {
    (r: PageRef) => FilterName(r.page).Some? && IsTarget(FilterName(r.page).value, targets)
  }

  /** `pagesToProcess`: every page when no key names a page, else the pages whose name (or slug)
      matches a target token. */
  function Selected(d: WordingData, items: seq<Item>): seq<PageRef>
  {
    var targets := TargetPages(Some(d));
    if targets == {} then AllPages(items) else Filter(AllPages(items), Keep(targets))
  }

  /** `a` comes before `b` in the host's list. */
  predicate Earlier(a: PageRef, b: PageRef)
  {
    a.index < b.index
  }

  /** Page selection: the processed pages are pages of the host at their true positions, in the
      host's order; without page-prefixed keys they are all the pages; with them, a page is
      processed exactly when it has a name or slug and that name matches some target token.
      Membership and order together fix the sequence. */
  lemma SelectedSpec(d: WordingData, items: seq<Item>)
    ensures forall r | r in Selected(d, items) :: RefersTo(items, r)
    ensures |Selected(d, items)| <= |AllPages(items)|
    ensures forall a, b | 0 <= a < b < |Selected(d, items)| ::
              Selected(d, items)[a].index < Selected(d, items)[b].index
    ensures TargetPages(Some(d)) == {} ==> Selected(d, items) == AllPages(items)
    ensures TargetPages(Some(d)) != {} ==>
              forall r :: r in Selected(d, items) <==>
                r in AllPages(items) && FilterName(r.page).Some?
                && exists t | t in TargetPages(Some(d)) :: IsPageMatch(FilterName(r.page).value, t)
  {
    AllPagesSpec(items);
    FilterSpec(AllPages(items), Keep(TargetPages(Some(d))));
    if TargetPages(Some(d)) != {} {
      FilterKeepsOrder(AllPages(items), Keep(TargetPages(Some(d))), Earlier);
    }
  }

  /** The processed pages are pages of the host, at their true positions. */
  lemma SelectedAreHostPages(d: WordingData, items: seq<Item>)
    ensures forall r | r in Selected(d, items) :: RefersTo(items, r)
  {
    AllPagesSpec(items);
    FilterSpec(AllPages(items), Keep(TargetPages(Some(d))));
  }

  /** With page-prefixed keys, the page at position `i` whose name (or slug) matches the token of
      the dotted key `key` is processed. */
  lemma KeyedPageIsSelected(d: WordingData, items: seq<Item>, i: nat, key: string)
    requires i < |items| && items[i].PageItem?
    requires key in d.content && '.' in key
    requires FilterName(items[i].page).Some? && IsPageMatch(FilterName(items[i].page).value, Token(key))
    ensures PageRef(i, items[i].page) in Selected(d, items)
  {
    assert Token(key) in TargetPages(Some(d));
    AllPagesSpec(items);
    SelectedSpec(d, items);
  }

  /** With page-prefixed keys, a page whose name and slug both throw is never processed. */
  lemma NamelessPageIsSkipped(d: WordingData, items: seq<Item>, r: PageRef)
    requires TargetPages(Some(d)) != {}
    requires r.page.name.Err? && r.page.slug.Err?
    ensures r !in Selected(d, items)
  {
    SelectedSpec(d, items);
  }

  /** Whether `switchPage` to the page succeeds; a page whose switch throws is skipped. */
  predicate Switched(r: PageRef)
  {
    r.page.switchFailure.None?
  }

  /** The stats of one page preview. */
  function PagePreviewOf(pageName: string, p: Preview): PagePreview
  {
    PagePreview(pageName, p.changes, p.missingKeys,
                PageStats(|p.changes|, CountWithValue(p.changes), |p.missingKeys|))
  }

  /** What a processed page adds to `pagesPreviews`: nothing when its switch throws, else the
      preview of its own elements under its label. */
  function PreviewOf(d: WordingData): PageRef -> Option<PagePreview>
  {
    (r: PageRef) =>
      if Switched(r) then Some(PagePreviewOf(Label(r.page), Diff(d.content, ScanOf(r.page.elements))))
      else None
  }

  function Previews(d: WordingData, pages: seq<PageRef>): seq<PagePreview>
  {
    FilterMap(pages, PreviewOf(d))
  }

  /** `globalUnusedKeys` after the scan loop has seen `pages`. */
  function Unused(d: WordingData, pages: seq<PageRef>): set<string>
  {
    if pages == [] then d.content.Keys
    else
      var r := pages[|pages| - 1];
      var u := Unused(d, pages[..|pages| - 1]);
      if Switched(r) then u - MatchedKeys(Diff(d.content, ScanOf(r.page.elements)).changes) else u
  }

  /** The keys scanned on the pages whose switch succeeded. */
  function ScannedOn(pages: seq<PageRef>): set<string>
  {
    if pages == [] then {}
    else
      var r := pages[|pages| - 1];
      ScannedOn(pages[..|pages| - 1]) + (if Switched(r) then ScannedKeys(ScanOf(r.page.elements)) else {})
  }

  /** A content key is reported unused exactly when no page that was switched to carries it. */
  lemma {:induction false} UnusedSpec(d: WordingData, pages: seq<PageRef>)
    ensures Unused(d, pages) == d.content.Keys - ScannedOn(pages)
    decreases |pages|
  {
    if pages != [] {
      var r := pages[|pages| - 1];
      UnusedSpec(d, pages[..|pages| - 1]);
      if Switched(r) {
        MatchedKeysOfDiff(d.content, ScanOf(r.page.elements));
      }
    }
  }

  function TotalOf(p: PagePreview): nat { p.stats.total }
  function WithValueOf(p: PagePreview): nat { p.stats.withValue }
  function MissingOf(p: PagePreview): nat { p.stats.missing }

  function ScanSummaryOf(d: WordingData, pages: seq<PageRef>): ScanSummary
  {
    var ps := Previews(d, pages);
    ScanSummary(|ps|, SumOf(ps, TotalOf), SumOf(ps, WithValueOf), SumOf(ps, MissingOf), Unused(d, pages))
  }

  function ScanAllError(t: Thrown): string
  {
    "Erreur lors du scan multi-pages: " + MessageOf(t, "erreur inconnue")
  }

  function DeployAllError(t: Thrown): string
  {
    "Erreur lors du déploiement multi-pages: " + MessageOf(t, "erreur inconnue")
  }

  /** `scanAllPages()`: refused without wording, the wrapped error when the page list throws,
      else the previews of the processed pages and their summary. */
  function ScanAll(data: Option<WordingData>, items: seq<Item>, listFailure: Option<Thrown>): Result<ScanAllResult, string>
  {
    match data
    case None => Err(NotLoaded)
    case Some(d) =>
      match listFailure
      case Some(t) => Err(ScanAllError(t))
      case None =>
        var pages := Selected(d, items);
        Ok(ScanAllResult(Previews(d, pages), ScanSummaryOf(d, pages)))
  }

  /** The per-page stats of a preview: every scanned entry is counted once, with a value or
      missing. */
  lemma PagePreviewStats(content: map<string, string>, scanned: seq<ScannedElement>, pageName: string)
    ensures var s := PagePreviewOf(pageName, Diff(content, scanned)).stats;
            s.total == s.withValue + s.missing && s.total == |scanned|
  {
    DiffCounts(content, scanned);
    DiffSpec(content, scanned);
  }

  /** The scan summary: one preview per page whose switch succeeded, and the element total splits
      into those with a value and those missing one. */
  lemma {:induction false} ScanSummarySpec(d: WordingData, pages: seq<PageRef>)
    ensures var s := ScanSummaryOf(d, pages);
            && s.totalPages == Count(pages, Switched) && s.totalPages <= |pages|
            && s.totalElements == s.totalWithValue + s.totalMissing
            && s.unusedKeys == d.content.Keys - ScannedOn(pages)
    decreases |pages|
  {
    UnusedSpec(d, pages);
    if pages != [] {
      var p' := pages[..|pages| - 1];
      var r := pages[|pages| - 1];
      assert pages == p' + [r];
      ScanSummarySpec(d, p');
      FilterMapSnoc(p', r, PreviewOf(d));
      var ps := Previews(d, p');
      if Switched(r) {
        var pp := PagePreviewOf(Label(r.page), Diff(d.content, ScanOf(r.page.elements)));
        assert Previews(d, pages) == ps + [pp];
        PagePreviewStats(d.content, ScanOf(r.page.elements), Label(r.page));
        SumOfSnoc(ps, pp, TotalOf);
        SumOfSnoc(ps, pp, WithValueOf);
        SumOfSnoc(ps, pp, MissingOf);
      } else {
        assert Previews(d, pages) == ps;
      }
    }
  }

  /** The notifications of a run over `pages`: one per page before it is processed, then the
      final "Terminé". */
  function Progress(pages: seq<PageRef>): seq<ScanProgress>
  {
    seq(|pages|, i requires 0 <= i < |pages| => ScanProgress(Label(pages[i].page), i, |pages|))
      + [ScanProgress(DoneLabel, |pages|, |pages|)]
  }

  /** The notifications of `scanAllPages` or `deployToAllPages`: none when the run is refused or
      the page list throws. */
  function RunProgress(data: Option<WordingData>, items: seq<Item>, listFailure: Option<Thrown>): seq<ScanProgress>
  {
    if data.None? || listFailure.Some? then [] else Progress(Selected(data.value, items))
  }

  /** Progress counts up from 0 to the number of processed pages, one step per notification,
      each announcing the page it is about to process, and ends at the total with "Terminé". */
  lemma ProgressSpec(pages: seq<PageRef>)
    ensures |Progress(pages)| == |pages| + 1
    ensures forall i | 0 <= i < |Progress(pages)| ::
              Progress(pages)[i].completed == i && Progress(pages)[i].total == |pages|
    ensures forall i | 0 <= i < |pages| :: Progress(pages)[i].currentPage == Label(pages[i].page)
    ensures Progress(pages)[|pages|] == ScanProgress(DoneLabel, |pages|, |pages|)
  {
  }

  /** The active page after the loop: the last page switched to, else the initial one. */
  function LastActive(pages: seq<PageRef>, active: nat): nat
  {
    if pages == [] then active
    else
      var r := pages[|pages| - 1];
      if Switched(r) then r.index else LastActive(pages[..|pages| - 1], active)
  }

  /** The report of the processed page at loop position `i`, stamped by the clock reading of
      that iteration and renamed to the page's label. */
  function DeployedReport(d: WordingData, r: PageRef, stamp: Stamp): DeploymentReport
  {
    PageReport(d, r.page.elements, stamp).(pageName := Label(r.page))
  }

  /** `reports` after the deploy loop has seen `pages`; `clock(i)` is what `Date.now()` gives in
      the `applyChanges` call of iteration `i`. */
  function DeployReports(d: WordingData, pages: seq<PageRef>, clock: nat -> Stamp): seq<DeploymentReport>
  {
    if pages == [] then []
    else
      var n := |pages| - 1;
      DeployReports(d, pages[..n], clock)
        + (if Switched(pages[n]) then [DeployedReport(d, pages[n], clock(n))] else [])
  }

  function AppliedOf(r: DeploymentReport): nat { r.stats.applied }
  function FailedOf(r: DeploymentReport): nat { r.stats.failed }
  function MissingCountOf(r: DeploymentReport): nat { r.stats.missing }
  function TotalKeysOf(r: DeploymentReport): nat { r.stats.totalKeys }

  /** `report.stats.applied > 0 && report.stats.failed === 0`. */
  function IsCleanPage(r: DeploymentReport): bool
  {
    r.stats.applied > 0 && r.stats.failed == 0
  }

  /** The deploy summary: `totalPages` counts every processed page, switched or not. */
  function DeploySummaryOf(d: WordingData, pages: seq<PageRef>, clock: nat -> Stamp): DeploySummary
  {
    var rs := DeployReports(d, pages, clock);
    DeploySummary(|pages|, Count(rs, IsCleanPage), SumOf(rs, AppliedOf), SumOf(rs, FailedOf), SumOf(rs, MissingCountOf))
  }

  /** `deployToAllPages()`: refused without wording, the wrapped error when the page list throws,
      else the reports of the processed pages and their summary. */
  function DeployAll(data: Option<WordingData>, items: seq<Item>, listFailure: Option<Thrown>, clock: nat -> Stamp)
    : Result<DeployAllResult, string>
  {
    match data
    case None => Err(NotLoaded)
    case Some(d) =>
      match listFailure
      case Some(t) => Err(DeployAllError(t))
      case None =>
        var pages := Selected(d, items);
        Ok(DeployAllResult(DeployReports(d, pages, clock), DeploySummaryOf(d, pages, clock)))
  }

  /** A per-page report as deployed: its own counters are consistent and it carries its page's
      label and the clock reading of its iteration. */
  predicate ReportAccounted(r: DeploymentReport)
  {
    && r.stats.totalKeys == |r.changes| + r.stats.missing
    && r.stats.applied == CountStatus(r.changes, Success)
    && |r.changes| == r.stats.applied + CountStatus(r.changes, Error)
    && CountStatus(r.changes, Error) <= r.stats.failed
  }

  /** Every deployed report comes from a switched page at a loop position, with that page's label
      and that iteration's clock reading; one report per switched page. */
  lemma {:induction false} DeployReportsSpec(d: WordingData, pages: seq<PageRef>, clock: nat -> Stamp)
    ensures |DeployReports(d, pages, clock)| == Count(pages, Switched)
    ensures forall rep | rep in DeployReports(d, pages, clock) ::
              ReportAccounted(rep) && rep.siteId == d.siteId
              && exists i | 0 <= i < |pages| :: Switched(pages[i]) && rep == DeployedReport(d, pages[i], clock(i))
    decreases |pages|
  {
    if pages != [] {
      var n := |pages| - 1;
      var p' := pages[..n];
      assert pages == p' + [pages[n]];
      DeployReportsSpec(d, p', clock);
      forall rep | rep in DeployReports(d, pages, clock)
        ensures ReportAccounted(rep) && rep.siteId == d.siteId
        ensures exists i | 0 <= i < |pages| :: Switched(pages[i]) && rep == DeployedReport(d, pages[i], clock(i))
      {
        if rep in DeployReports(d, p', clock) {
          var i :| 0 <= i < |p'| && Switched(p'[i]) && rep == DeployedReport(d, p'[i], clock(i));
          assert p'[i] == pages[i];
        } else {
          PageReportSpec(d, pages[n].page.elements, clock(n));
        }
      }
    }
  }

  /** The reports are in loop order, one per switched page: the report of the switched page at
      loop position `i` sits after the reports of the switched pages before it, and report `k`
      is the one of the `k`-th switched page. */
  lemma DeployReportsInOrder(d: WordingData, pages: seq<PageRef>, clock: nat -> Stamp)
    ensures |DeployReports(d, pages, clock)| == Count(pages, Switched)
    ensures forall i | 0 <= i < |pages| && Switched(pages[i]) ::
              Count(pages[..i], Switched) < |DeployReports(d, pages, clock)|
              && DeployReports(d, pages, clock)[Count(pages[..i], Switched)] == DeployedReport(d, pages[i], clock(i))
    ensures forall k | 0 <= k < |DeployReports(d, pages, clock)| :: IsReportOfSwitched(d, pages, clock, k)
  {
    DeployReportsLength(d, pages, clock);
    forall i | 0 <= i < |pages| && Switched(pages[i])
      ensures Count(pages[..i], Switched) < |DeployReports(d, pages, clock)|
      ensures DeployReports(d, pages, clock)[Count(pages[..i], Switched)] == DeployedReport(d, pages[i], clock(i))
    {
      DeployReportsAt(d, pages, clock, i);
    }
    forall k | 0 <= k < |DeployReports(d, pages, clock)|
      ensures IsReportOfSwitched(d, pages, clock, k)
    {
      DeployReportsFrom(d, pages, clock, k);
    }
  }

  /** Report `k` is the one of the switched page at some loop position `i` with `k` switched
      pages before it. */
  predicate IsReportOfSwitched(d: WordingData, pages: seq<PageRef>, clock: nat -> Stamp, k: nat)
    requires k < |DeployReports(d, pages, clock)|
  {
    exists i | 0 <= i < |pages| :: Switched(pages[i]) && Count(pages[..i], Switched) == k
      && DeployReports(d, pages, clock)[k] == DeployedReport(d, pages[i], clock(i))
  }

  lemma {:induction false} DeployReportsLength(d: WordingData, pages: seq<PageRef>, clock: nat -> Stamp)
    ensures |DeployReports(d, pages, clock)| == Count(pages, Switched)
    decreases |pages|
  {
    if pages != [] {
      DeployReportsLength(d, pages[..|pages| - 1], clock);
    }
  }

  lemma {:induction false} DeployReportsAt(d: WordingData, pages: seq<PageRef>, clock: nat -> Stamp, i: nat)
    requires i < |pages| && Switched(pages[i])
    ensures Count(pages[..i], Switched) < |DeployReports(d, pages, clock)|
    ensures DeployReports(d, pages, clock)[Count(pages[..i], Switched)] == DeployedReport(d, pages[i], clock(i))
    decreases |pages|
  {
    var n := |pages| - 1;
    var p' := pages[..n];
    DeployReportsLength(d, p', clock);
    if i < n {
      DeployReportsAt(d, p', clock, i);
      assert p'[i] == pages[i];
      assert p'[..i] == pages[..i];
    } else {
      assert pages[..i] == p';
    }
  }

  lemma {:induction false} DeployReportsFrom(d: WordingData, pages: seq<PageRef>, clock: nat -> Stamp, k: nat)
    requires k < |DeployReports(d, pages, clock)|
    ensures exists i | 0 <= i < |pages| :: Switched(pages[i]) && Count(pages[..i], Switched) == k
              && DeployReports(d, pages, clock)[k] == DeployedReport(d, pages[i], clock(i))
    decreases |pages|
  {
    var n := |pages| - 1;
    var p' := pages[..n];
    DeployReportsLength(d, p', clock);
    if k < |DeployReports(d, p', clock)| {
      DeployReportsFrom(d, p', clock, k);
      var i :| 0 <= i < |p'| && Switched(p'[i]) && Count(p'[..i], Switched) == k
               && DeployReports(d, p', clock)[k] == DeployedReport(d, p'[i], clock(i));
      assert p'[i] == pages[i];
      assert p'[..i] == pages[..i];
    } else {
      assert pages[..n] == p';
    }
  }

  /** The deploy summary counts: clean pages are among the reports, the reports among the
      processed pages, and the per-page key totals add up to at most the summed counters (a
      failure without a report, such as a missing element, adds to `failed` but not to
      `total_keys`). */
  lemma {:induction false} DeploySummarySpec(d: WordingData, pages: seq<PageRef>, clock: nat -> Stamp)
    ensures var s := DeploySummaryOf(d, pages, clock);
            var rs := DeployReports(d, pages, clock);
            && s.successPages <= |rs| <= s.totalPages == |pages|
            && SumOf(rs, TotalKeysOf) <= s.totalApplied + s.totalFailed + s.totalMissing
    decreases |pages|
  {
    DeployReportsSpec(d, pages, clock);
    CountAtMost(DeployReports(d, pages, clock), IsCleanPage);
    CountAtMost(pages, Switched);
    TotalKeysBound(DeployReports(d, pages, clock));
  }

  lemma {:induction false} CountAtMost<A>(s: seq<A>, p: A -> bool)
    ensures Count(s, p) <= |s|
    decreases |s|
  {
    if s != [] {
      CountAtMost(s[..|s| - 1], p);
    }
  }

  lemma {:induction false} TotalKeysBound(rs: seq<DeploymentReport>)
    requires forall r | r in rs :: ReportAccounted(r)
    ensures SumOf(rs, TotalKeysOf) <= SumOf(rs, AppliedOf) + SumOf(rs, FailedOf) + SumOf(rs, MissingCountOf)
    decreases |rs|
  {
    if rs != [] {
      var r := rs[|rs| - 1];
      assert r in rs;
      TotalKeysBound(rs[..|rs| - 1]);
    }
  }

  /** The texts after the deploy loop has seen `pages`: each switched page gets its own writes, at
      its own position. */
  function DeployTexts(texts: map<Slot, string>, d: WordingData, pages: seq<PageRef>): map<Slot, string>
  {
    if pages == [] then texts
    else
      var r := pages[|pages| - 1];
      var before := DeployTexts(texts, d, pages[..|pages| - 1]);
      if Switched(r) then Overlay(before, r.index, PageWrites(d.content, r.page.elements)) else before
  }

  /** The texts after `deployToAllPages()`. */
  function DeployAllTexts(data: Option<WordingData>, items: seq<Item>, listFailure: Option<Thrown>,
                          texts: map<Slot, string>): map<Slot, string>
  {
    if data.None? || listFailure.Some? then texts else DeployTexts(texts, data.value, Selected(data.value, items))
  }

  /** Only the pages that were switched to have their texts changed. */
  lemma {:induction false} DeployTextsFrame(texts: map<Slot, string>, d: WordingData, pages: seq<PageRef>, slot: Slot)
    requires forall r | r in pages && Switched(r) :: r.index != slot.item
    ensures (slot in DeployTexts(texts, d, pages)) == (slot in texts)
    ensures slot in texts ==> DeployTexts(texts, d, pages)[slot] == texts[slot]
    decreases |pages|
  {
    if pages != [] {
      var r := pages[|pages| - 1];
      assert r in pages;
      DeployTextsFrame(texts, d, pages[..|pages| - 1], slot);
      if Switched(r) {
        OverlayFrame(DeployTexts(texts, d, pages[..|pages| - 1]), r.index, PageWrites(d.content, r.page.elements), slot);
      }
    }
  }

  /** One more iteration of the scan loop, as each of its running values sees it. */
  lemma ScanLoopStep(d: WordingData, pages: seq<PageRef>, i: nat, active: nat)
    requires i < |pages|
    ensures var r := pages[i];
            && Previews(d, pages[..i + 1])
               == Previews(d, pages[..i]) + (if Switched(r) then [PreviewOf(d)(r).value] else [])
            && Unused(d, pages[..i + 1])
               == (if Switched(r) then Unused(d, pages[..i]) - MatchedKeys(Diff(d.content, ScanOf(r.page.elements)).changes)
                   else Unused(d, pages[..i]))
            && LastActive(pages[..i + 1], active) == (if Switched(r) then r.index else LastActive(pages[..i], active))
            && Progress(pages)[..i + 1] == Progress(pages)[..i] + [ScanProgress(Label(r.page), i, |pages|)]
  {
    assert pages[..i + 1][..i] == pages[..i];
    assert pages[..i + 1] == pages[..i] + [pages[i]];
    FilterMapSnoc(pages[..i], pages[i], PreviewOf(d));
  }

  /** One more iteration of the deploy loop, as each of its running values sees it. */
  lemma DeployLoopStep(d: WordingData, pages: seq<PageRef>, i: nat, active: nat, texts: map<Slot, string>, clock: nat -> Stamp)
    requires i < |pages|
    ensures var r := pages[i];
            && LastActive(pages[..i + 1], active) == (if Switched(r) then r.index else LastActive(pages[..i], active))
            && DeployReports(d, pages[..i + 1], clock)
               == DeployReports(d, pages[..i], clock) + (if Switched(r) then [DeployedReport(d, r, clock(i))] else [])
            && DeployTexts(texts, d, pages[..i + 1])
               == (if Switched(r) then Overlay(DeployTexts(texts, d, pages[..i]), r.index, PageWrites(d.content, r.page.elements))
                   else DeployTexts(texts, d, pages[..i]))
            && Progress(pages)[..i + 1] == Progress(pages)[..i] + [ScanProgress(Label(r.page), i, |pages|)]
  {
    assert pages[..i + 1][..i] == pages[..i];
  }

  /** The notifications once the loop is done: every page's, then "Terminé". */
  lemma ProgressDone(pages: seq<PageRef>)
    ensures Progress(pages)[..|pages|] + [ScanProgress(DoneLabel, |pages|, |pages|)] == Progress(pages)
  {
  }
}
