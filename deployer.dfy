/** `SiteDeployer`: the object that holds the loaded wording and drives the Designer host. Each
    of its operations is proved to compute what the corresponding specification function of the
    scan, diff, apply and orchestration modules says. */
module Deployer {
  import opened Wrappers
  import opened Seqs
  import opened Text
  import opened Webflow
  import opened DeployerTypes
  import opened KeyRouter
  import opened Scanning
  import opened Diffing
  import opened Applying
  import opened Orchestration

  /** The `foundElement` search of `applyChanges`: the first element with custom attributes whose
      listed attributes carry `data-wording-key = key`; a throwing attribute read ends the search
      with its thrown value. */
  method FindElement(els: seq<Element>, key: string) returns (r: Result<Option<nat>, Thrown>)
    ensures r == Resolve(els, key)
  {
    var i := 0;
    while i < |els|
      invariant 0 <= i <= |els|
      invariant ResolveFrom(els, key, i) == Resolve(els, key)
    {
      var el := els[i];
      if el.customAttributes {
        match el.attributes
        case Throws(t) =>
          return Err(t);
        case Nothing =>
        case Listed(attrs) =>
          if HasKey(attrs, key) {
            return Ok(Some(i));
          }
      }
      i := i + 1;
    }
    return Ok(None);
  }

  /** `Set.delete` of every key that got a value in a preview. */
  method RemoveMatched(unused: set<string>, changes: seq<ChangeRecord>) returns (r: set<string>)
    ensures r == unused - MatchedKeys(changes)
  {
    r := unused;
    var i := 0;
    while i < |changes|
      invariant 0 <= i <= |changes|
      invariant r == unused - MatchedKeys(changes[..i])
    {
      assert changes[..i + 1] == changes[..i] + [changes[i]];
      if changes[i].hasValue {
        r := r - {changes[i].key};
      }
      i := i + 1;
    }
    assert changes[..i] == changes;
  }

  /** The target filter of the multi-page operations: pages whose name (or, when `getName()`
      throws, slug) matches a target; a page whose name and slug both throw is skipped. */
  method FilterTargetPages(pages: seq<PageRef>, targets: set<string>) returns (r: seq<PageRef>)
    ensures r == Filter(pages, Keep(targets))
  {
    r := [];
    var i := 0;
    while i < |pages|
      invariant 0 <= i <= |pages|
      invariant r == Filter(pages[..i], Keep(targets))
      decreases |pages| - i
    {
      assert pages[..i + 1][..i] == pages[..i];
      var page := pages[i].page;
      var pageName := "";
      match page.name {
        case Ok(n) =>
          pageName := n;
        case Err(_) =>
          match page.slug {
            case Ok(s) =>
              pageName := s;
            case Err(_) =>
              i := i + 1;
              continue;
          }
      }
      if IsTarget(pageName, targets) {
        r := r + [pages[i]];
      }
      i := i + 1;
    }
    assert pages[..i] == pages;
  }

  /** One iteration of the `applyChanges` loop over the scanned entries: the running lists and
      counters `t` are extended as the iteration does, and a successful write lands in the
      active page's texts. `texts0` are the texts before the loop. */
  method ApplyEntry(webflow: Designer, content: map<string, string>, els: seq<Element>, t: Tally,
                    e: ScannedElement, ghost texts0: map<Slot, string>) returns (t': Tally)
    requires webflow.Valid() && webflow.ActivePage().elements == Ok(els)
    requires webflow.texts == Overlay(texts0, webflow.active, t.writes)
    modifies webflow`texts
    ensures t' == Step(content, els, t, e)
    ensures webflow.texts == Overlay(texts0, webflow.active, t'.writes)
  {
    if e.key !in content {
      return t.(missing := t.missing + 1, warnings := t.warnings + [MissingWarning(e.key)]);
    }
    var v := content[e.key];
    var found := FindElement(els, e.key);
    match found
    case Err(x) =>
      var message := MessageOf(x, UnknownError);
      return t.(failed := t.failed + 1, errors := t.errors + [UpdateError(e.key, message)],
                changes := t.changes + [ChangeReport(e.key, "", v, e.selector, Error, Some(message))]);
    case Ok(None) =>
      return t.(failed := t.failed + 1, errors := t.errors + [NotFoundError(e.key)]);
    case Ok(Some(j)) =>
      ResolveSpec(els, e.key);
      t' := t;
      var thrown: Option<Thrown> := None;
      if e.mode == DefaultMode || e.mode == "" {
        if !els[j].textContent {
          return t.(failed := t.failed + 1, errors := t.errors + [NoTextError(e.key)]);
        }
        thrown := WriteSlot(webflow, j, v, texts0, t'.writes);
      } else if e.mode == HtmlMode {
        t' := t'.(warnings := t'.warnings + [HtmlWarning(e.key)]);
        if els[j].textContent {
          thrown := WriteSlot(webflow, j, v, texts0, t'.writes);
        }
      } else if StartsWith(e.mode, AttrModePrefix) {
        return t.(warnings := t.warnings + [AttrWarning(e.mode[|AttrModePrefix|..], e.key)]);
      }
      if thrown.Some? {
        var message := MessageOf(thrown.value, UnknownError);
        t' := t'.(failed := t'.failed + 1, errors := t'.errors + [UpdateError(e.key, message)],
                  changes := t'.changes + [ChangeReport(e.key, "", v, e.selector, Error, Some(message))]);
      } else {
        if els[j].textContent && (e.mode == DefaultMode || e.mode == "" || e.mode == HtmlMode) {
          t' := t'.(writes := t'.writes + [Write(j, v)]);
        }
        t' := t'.(applied := t'.applied + 1,
                  changes := t'.changes + [ChangeReport(e.key, "", v, e.selector, Success, None)]);
      }
  }

  /** `foundElement.setTextContent(value)`: on success the texts are the overlay of the writes so
      far followed by this one. */
  method WriteSlot(webflow: Designer, j: nat, value: string, ghost texts0: map<Slot, string>, ghost writes: seq<Write>)
    returns (thrown: Option<Thrown>)
    requires webflow.Valid() && webflow.ActivePage().elements.Ok? && j < |webflow.ActivePage().elements.value|
    requires webflow.texts == Overlay(texts0, webflow.active, writes)
    modifies webflow`texts
    ensures thrown == webflow.ActivePage().elements.value[j].writeFailure
    ensures webflow.texts == Overlay(texts0, webflow.active, if thrown.None? then writes + [Write(j, value)] else writes)
  {
    thrown := webflow.SetTextContent(j, value);
    assert (writes + [Write(j, value)])[..|writes|] == writes;
  }

  class SiteDeployer {
    var wordingData: Option<WordingData>

    constructor ()
      ensures wordingData.None?
    {
      wordingData := None;
    }

    /** `loadWordingData(data)`. */
    method LoadWordingData(data: WordingData)
      modifies this
      ensures wordingData == Some(data)
    {
      wordingData := Some(data);
    }

    /** `scanPage()`: the tagged elements of the active page, or nothing when the enumeration or
        an attribute read throws. */
    method ScanPage(webflow: Designer) returns (elements: seq<ScannedElement>, total: nat)
      requires webflow.Valid()
      ensures elements == ScanOf(webflow.ActivePage().elements) && total == |elements|
    {
      var all := webflow.GetAllElements();
      if all.Err? {
        return [], 0;
      }
      var els := all.value;
      elements := [];
      var i := 0;
      while i < |els|
        invariant 0 <= i <= |els|
        invariant forall k | 0 <= k < i :: !ScanThrows(els[k])
        invariant elements == FilterMap(els[..i], EntryOf)
      {
        assert els[..i + 1] == els[..i] + [els[i]];
        FilterMapSnoc(els[..i], els[i], EntryOf);
        var el := els[i];
        if el.customAttributes {
          match el.attributes
          case Throws(_) =>
            return [], 0;
          case Nothing =>
          case Listed(attrs) =>
            var key := FindValue(attrs, KeyAttribute);
            if key.Some? {
              elements := elements + [ScannedElement(key.value, Selector(key.value), ModeOf(attrs))];
            }
        }
        i := i + 1;
      }
      assert els[..i] == els;
      total := |elements|;
    }

    /** `previewChanges()`: refused without wording, else the diff of the active page's scan
        against the content. */
    method PreviewChanges(webflow: Designer) returns (r: Result<Preview, string>)
      requires webflow.Valid()
      ensures wordingData.None? ==> r == Err(NotLoaded)
      ensures wordingData.Some? ==>
                r == Ok(Diff(wordingData.value.content, ScanOf(webflow.ActivePage().elements)))
    {
      if wordingData.None? {
        return Err(NotLoaded);
      }
      var content := wordingData.value.content;
      var scanned, _ := ScanPage(webflow);
      var changes: seq<ChangeRecord> := [];
      var missingKeys: seq<string> := [];
      var unusedKeys := content.Keys;
      var i := 0;
      while i < |scanned|
        invariant 0 <= i <= |scanned|
        invariant Preview(changes, missingKeys, unusedKeys) == Diff(content, scanned[..i])
      {
        assert scanned[..i + 1][..i] == scanned[..i];
        var e := scanned[i];
        if e.key in content {
          changes := changes + [ChangeRecord(e.key, true, Some(content[e.key]))];
          unusedKeys := unusedKeys - {e.key};
        } else {
          changes := changes + [ChangeRecord(e.key, false, None)];
          missingKeys := missingKeys + [e.key];
        }
        i := i + 1;
      }
      assert scanned[..i] == scanned;
      return Ok(Preview(changes, missingKeys, unusedKeys));
    }

    /** `applyChanges()` stamped with `stamp`: refused without wording, else the report of the
        active page, with exactly that report's writes done to the active page's texts. */
    method ApplyChanges(webflow: Designer, stamp: Stamp) returns (r: Result<DeploymentReport, string>)
      requires webflow.Valid()
      modifies webflow`texts
      ensures wordingData.None? ==> r == Err(NotLoaded) && webflow.texts == old(webflow.texts)
      ensures wordingData.Some? ==>
                && r == Ok(PageReport(wordingData.value, webflow.ActivePage().elements, stamp))
                && webflow.texts == Overlay(old(webflow.texts), webflow.active,
                                            PageWrites(wordingData.value.content, webflow.ActivePage().elements))
    {
      if wordingData.None? {
        return Err(NotLoaded);
      }
      var d := wordingData.value;
      var t := Start;
      var scanned, _ := ScanPage(webflow);
      var all := webflow.GetAllElements();
      if all.Err? {
        t := t.(errors := [GlobalError(MessageOf(all.error, UnknownError))]);
      } else {
        var els := all.value;
        var i := 0;
        while i < |scanned|
          invariant 0 <= i <= |scanned|
          invariant webflow.Valid() && webflow.ActivePage().elements == Ok(els)
          invariant t == Plan(d.content, els, scanned[..i])
          invariant webflow.texts == Overlay(old(webflow.texts), webflow.active, t.writes)
        {
          assert scanned[..i + 1][..i] == scanned[..i];
          t := ApplyEntry(webflow, d.content, els, t, scanned[i], old(webflow.texts));
          i := i + 1;
        }
        assert scanned[..i] == scanned;
      }
      r := Ok(DeploymentReport(stamp.deploymentId, d.siteId, stamp.timestamp, CurrentPageName,
                               t.changes, t.warnings, t.errors,
                               Stats(|t.changes| + t.missing, t.applied, t.failed, t.missing), None));
    }

    /** `extractTargetPagesFromKeys()`: the lower-cased first segment of every dotted key. */
    method ExtractTargetPagesFromKeys() returns (r: set<string>)
      ensures r == TargetPages(wordingData)
    {
      if wordingData.None? {
        return {};
      }
      var content := wordingData.value.content;
      r := {};
      var remaining := content.Keys;
      while remaining != {}
        invariant remaining <= content.Keys
        invariant r == set k | k in content && k !in remaining && '.' in k :: Token(k)
        decreases |remaining|
      {
        var key :| key in remaining;
        if '.' in key {
          r := r + {Token(key)};
        }
        remaining := remaining - {key};
      }
    }

    /** The list of pages a multi-page operation processes; `None` when the page list throws,
        with the thrown value. */
    method PagesToProcess(webflow: Designer) returns (r: Result<seq<PageRef>, Thrown>)
      requires wordingData.Some?
      ensures webflow.listFailure.Some? ==> r == Err(webflow.listFailure.value)
      ensures webflow.listFailure.None? ==> r == Ok(Selected(wordingData.value, webflow.items))
    {
      var targets := ExtractTargetPagesFromKeys();
      var list := webflow.GetAllPagesAndFolders();
      if list.Err? {
        return Err(list.error);
      }
      var pages := AllPages(list.value);
      if targets != {} {
        pages := FilterTargetPages(pages, targets);
      }
      return Ok(pages);
    }

    /** `scanAllPages(onProgress)`: the result and the notifications it sends. */
    method ScanAllPages(webflow: Designer) returns (r: Result<ScanAllResult, string>, progress: seq<ScanProgress>)
      requires webflow.Valid()
      modifies webflow`active
      ensures webflow.Valid()
      ensures r == ScanAll(wordingData, webflow.items, webflow.listFailure)
      ensures progress == RunProgress(wordingData, webflow.items, webflow.listFailure)
      ensures webflow.active == if r.Ok? then LastActive(Selected(wordingData.value, webflow.items), old(webflow.active))
                                else old(webflow.active)
    {
      if wordingData.None? {
        return Err(NotLoaded), [];
      }
      var d := wordingData.value;
      var listed := PagesToProcess(webflow);
      if listed.Err? {
        return Err(ScanAllError(listed.error)), [];
      }
      var pages := listed.value;
      SelectedAreHostPages(d, webflow.items);
      var globalUnused := d.content.Keys;
      var previews: seq<PagePreview> := [];
      progress := [];
      var i := 0;
      while i < |pages|
        invariant 0 <= i <= |pages|
        invariant webflow.Valid()
        invariant previews == Previews(d, pages[..i])
        invariant globalUnused == Unused(d, pages[..i])
        invariant progress == Progress(pages)[..i]
        invariant webflow.active == LastActive(pages[..i], old(webflow.active))
      {
        ScanLoopStep(d, pages, i, old(webflow.active));
        var page := pages[i];
        assert page in pages;
        var pageName := Label(page.page);
        progress := progress + [ScanProgress(pageName, i, |pages|)];
        var failure := webflow.SwitchPage(page.index);
        if failure.None? {
          var preview := PreviewChanges(webflow);
          globalUnused := RemoveMatched(globalUnused, preview.value.changes);
          previews := previews + [PagePreviewOf(pageName, preview.value)];
        }
        i := i + 1;
      }
      assert pages[..i] == pages;
      ProgressDone(pages);
      progress := progress + [ScanProgress(DoneLabel, |pages|, |pages|)];
      r := Ok(ScanAllResult(previews, ScanSummary(|previews|, SumOf(previews, TotalOf), SumOf(previews, WithValueOf),
                                                  SumOf(previews, MissingOf), globalUnused)));
    }

    /** One page of `deployToAllPages`: `switchPage`, then `applyChanges` with the report renamed
        to the page's name; nothing when the switch throws. */
    method DeployPage(webflow: Designer, page: PageRef, pageName: string, stamp: Stamp)
      returns (report: Option<DeploymentReport>)
      requires wordingData.Some? && webflow.Valid() && RefersTo(webflow.items, page)
      modifies webflow`active, webflow`texts
      ensures webflow.Valid()
      ensures report == if Switched(page) then Some(PageReport(wordingData.value, page.page.elements, stamp).(pageName := pageName))
                        else None
      ensures webflow.active == if Switched(page) then page.index else old(webflow.active)
      ensures webflow.texts == if Switched(page)
                               then Overlay(old(webflow.texts), page.index, PageWrites(wordingData.value.content, page.page.elements))
                               else old(webflow.texts)
    {
      var failure := webflow.SwitchPage(page.index);
      if failure.Some? {
        return None;
      }
      var applied := ApplyChanges(webflow, stamp);
      return Some(applied.value.(pageName := pageName));
    }

    /** `deployToAllPages(onProgress)`; `clock(i)` is the clock reading of the `applyChanges`
        call in iteration `i`. The texts of exactly the switched pages receive their writes. */
    method DeployToAllPages(webflow: Designer, clock: nat -> Stamp)
      returns (r: Result<DeployAllResult, string>, progress: seq<ScanProgress>)
      requires webflow.Valid()
      modifies webflow`active, webflow`texts
      ensures webflow.Valid()
      ensures r == DeployAll(wordingData, webflow.items, webflow.listFailure, clock)
      ensures progress == RunProgress(wordingData, webflow.items, webflow.listFailure)
      ensures webflow.texts == DeployAllTexts(wordingData, webflow.items, webflow.listFailure, old(webflow.texts))
      ensures webflow.active == if r.Ok? then LastActive(Selected(wordingData.value, webflow.items), old(webflow.active))
                                else old(webflow.active)
    {
      if wordingData.None? {
        return Err(NotLoaded), [];
      }
      var d := wordingData.value;
      var listed := PagesToProcess(webflow);
      if listed.Err? {
        return Err(DeployAllError(listed.error)), [];
      }
      var pages := listed.value;
      SelectedAreHostPages(d, webflow.items);
      var reports: seq<DeploymentReport> := [];
      var totalApplied, totalFailed, totalMissing, successPages := 0, 0, 0, 0;
      progress := [];
      var i := 0;
      while i < |pages|
        invariant 0 <= i <= |pages|
        invariant webflow.Valid()
        invariant reports == DeployReports(d, pages[..i], clock)
        invariant totalApplied == SumOf(reports, AppliedOf)
        invariant totalFailed == SumOf(reports, FailedOf)
        invariant totalMissing == SumOf(reports, MissingCountOf)
        invariant successPages == Count(reports, IsCleanPage)
        invariant progress == Progress(pages)[..i]
        invariant webflow.active == LastActive(pages[..i], old(webflow.active))
        invariant webflow.texts == DeployTexts(old(webflow.texts), d, pages[..i])
      {
        DeployLoopStep(d, pages, i, old(webflow.active), old(webflow.texts), clock);
        var page := pages[i];
        assert page in pages;
        var pageName := Label(page.page);
        progress := progress + [ScanProgress(pageName, i, |pages|)];
        var deployed := DeployPage(webflow, page, pageName, clock(i));
        if deployed.Some? {
          var report := deployed.value;
          SumOfSnoc(reports, report, AppliedOf);
          SumOfSnoc(reports, report, FailedOf);
          SumOfSnoc(reports, report, MissingCountOf);
          CountSnoc(reports, report, IsCleanPage);
          reports := reports + [report];
          totalApplied := totalApplied + report.stats.applied;
          totalFailed := totalFailed + report.stats.failed;
          totalMissing := totalMissing + report.stats.missing;
          if report.stats.applied > 0 && report.stats.failed == 0 {
            successPages := successPages + 1;
          }
        }
        i := i + 1;
      }
      assert pages[..i] == pages;
      ProgressDone(pages);
      progress := progress + [ScanProgress(DoneLabel, |pages|, |pages|)];
      r := Ok(DeployAllResult(reports, DeploySummary(|pages|, successPages, totalApplied, totalFailed, totalMissing)));
    }
  }
}
