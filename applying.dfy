/** The apply engine, `SiteDeployer.applyChanges`, as a specification: how each scanned entry is
    classified, what it adds to the report, and which text slot it writes. */
module Applying {
  import opened Wrappers
  import opened Seqs
  import opened Text
  import opened Webflow
  import opened DeployerTypes
  import opened Scanning
  import opened Diffing

  /** `attrs.some(attr => attr.name === 'data-wording-key' && attr.value === key)`. */
  predicate HasKey(attrs: seq<Attribute>, key: string)
  {
    exists a | a in attrs :: a.name == KeyAttribute && a.value == key
  }

  /** The element carries `data-wording-key = key` as the re-resolution loop sees it. */
  predicate Carries(el: Element, key: string)
  {
    el.customAttributes && el.attributes.Listed? && HasKey(el.attributes.attributes, key)
  }

  /** Re-resolution from position `i` on: the first element that carries the key, nothing, or
      the value thrown by an attribute read met before such an element. */
  function ResolveFrom(els: seq<Element>, key: string, i: nat): Result<Option<nat>, Thrown>
    decreases |els| - i
  {
    if i >= |els| then Ok(None)
    else if ScanThrows(els[i]) then Err(els[i].attributes.thrown)
    else if Carries(els[i], key) then Ok(Some(i))
    else ResolveFrom(els, key, i + 1)
  }

  function Resolve(els: seq<Element>, key: string): Result<Option<nat>, Thrown>
  {
    ResolveFrom(els, key, 0)
  }

  lemma {:induction false} ResolveFromSpec(els: seq<Element>, key: string, i: nat)
    requires i <= |els|
    ensures forall j :: ResolveFrom(els, key, i) == Ok(Some(j)) ==>
              i <= j < |els| && Carries(els[j], key)
              && forall k :: i <= k < j ==> !Carries(els[k], key) && !ScanThrows(els[k])
    ensures ResolveFrom(els, key, i) == Ok(None) <==>
              forall k :: i <= k < |els| ==> !Carries(els[k], key) && !ScanThrows(els[k])
    decreases |els| - i
  {
    if i < |els| {
      ResolveFromSpec(els, key, i + 1);
    }
  }

  /** Re-resolution picks the first element that carries the key (no earlier element carries it
      or throws), and finds nothing exactly when no element carries it or throws. */
  lemma ResolveSpec(els: seq<Element>, key: string)
    ensures forall j :: Resolve(els, key) == Ok(Some(j)) ==>
              j < |els| && Carries(els[j], key)
              && forall k :: 0 <= k < j ==> !Carries(els[k], key) && !ScanThrows(els[k])
    ensures Resolve(els, key) == Ok(None) <==>
              forall k :: 0 <= k < |els| ==> !Carries(els[k], key) && !ScanThrows(els[k])
  {
    ResolveFromSpec(els, key, 0);
  }

  /** A text write the loop performs: element `element` of the active page receives `value`. */
  datatype Write = Write(element: nat, value: string)

  /** The loop's running values: the report lists, the three counters, and the writes done. */
  datatype Tally = Tally(
    changes: seq<ChangeReport>,
    warnings: seq<string>,
    errors: seq<string>,
    applied: nat,
    failed: nat,
    missing: nat,
    writes: seq<Write>)

  const Start: Tally := Tally([], [], [], 0, 0, 0, [])

  function MissingWarning(key: string): string
  {
    "Clé \"" + key + "\" non trouvée dans le JSON"
  }

  function NotFoundError(key: string): string
  {
    "Élément pour la clé \"" + key + "\" non trouvé"
  }

  function NoTextError(key: string): string
  {
    "Impossible de définir le texte pour \"" + key + "\""
  }

  function HtmlWarning(key: string): string
  {
    "Mode HTML pour \"" + key + "\" - utilisation de textContent"
  }

  function AttrWarning(attrName: string, key: string): string
  {
    "Mode attribut \"" + attrName + "\" pour \"" + key + "\" - non encore implémenté"
  }

  function UpdateError(key: string, message: string): string
  {
    "Erreur lors de la mise à jour de \"" + key + "\": " + message
  }

  function GlobalError(message: string): string
  {
    "Erreur globale: " + message
  }

  const UnknownError: string := "Erreur inconnue"

  /** The inner `catch`: one failure, one error line, one error-status report with the message. */
  function Caught(t: Tally, e: ScannedElement, newValue: string, thrown: Thrown): Tally
  {
    var message := MessageOf(thrown, UnknownError);
    t.(failed := t.failed + 1,
       errors := t.errors + [UpdateError(e.key, message)],
       changes := t.changes + [ChangeReport(e.key, "", newValue, e.selector, Error, Some(message))])
  }

  /** `applied++` and a success-status report (the old value is always ""). */
  function Succeeded(t: Tally, e: ScannedElement, newValue: string): Tally
  {
    t.(applied := t.applied + 1,
       changes := t.changes + [ChangeReport(e.key, "", newValue, e.selector, Success, None)])
  }

  /** `setTextContent` on element `j`: a success that records the write, or the caught throw. */
  function WriteText(t: Tally, e: ScannedElement, v: string, els: seq<Element>, j: nat): Tally
    requires j < |els|
  {
    match els[j].writeFailure
    case Some(x) => Caught(t, e, v, x)
    case None => Succeeded(t.(writes := t.writes + [Write(j, v)]), e, v)
  }

  /** One iteration of the loop over the scanned entries, on the elements `els` enumerated
      before the loop. */
  function Step(content: map<string, string>, els: seq<Element>, t: Tally, e: ScannedElement): Tally
  {
    if e.key !in content then
      t.(missing := t.missing + 1, warnings := t.warnings + [MissingWarning(e.key)])
    else
      var v := content[e.key];
      match Resolve(els, e.key)
      case Err(x) => Caught(t, e, v, x)
      case Ok(None) => t.(failed := t.failed + 1, errors := t.errors + [NotFoundError(e.key)])
      case Ok(Some(j)) =>
        ResolveSpec(els, e.key);
        if e.mode == DefaultMode || e.mode == "" then
          if els[j].textContent then WriteText(t, e, v, els, j)
          else t.(failed := t.failed + 1, errors := t.errors + [NoTextError(e.key)])
        else if e.mode == HtmlMode then
          var t' := t.(warnings := t.warnings + [HtmlWarning(e.key)]);
          if els[j].textContent then WriteText(t', e, v, els, j) else Succeeded(t', e, v)
        else if StartsWith(e.mode, AttrModePrefix) then
          t.(warnings := t.warnings + [AttrWarning(e.mode[|AttrModePrefix|..], e.key)])
        else
          Succeeded(t, e, v)
  }

  /** The loop's values after the entries `scanned`. */
  function Plan(content: map<string, string>, els: seq<Element>, scanned: seq<ScannedElement>): Tally
  {
    if scanned == [] then Start
    else Step(content, els, Plan(content, els, scanned[..|scanned| - 1]), scanned[|scanned| - 1])
  }

  /** The report `applyChanges()` returns for a page whose `getAllElements()` gives `elements`:
      the scan never fails, so a failing enumeration surfaces at the second enumeration as the
      "Erreur globale" line. */
  function PageReport(d: WordingData, elements: Result<seq<Element>, Thrown>, stamp: Stamp): DeploymentReport
  {
    match elements
    case Err(x) =>
      DeploymentReport(stamp.deploymentId, d.siteId, stamp.timestamp, CurrentPageName, [], [],
                       [GlobalError(MessageOf(x, UnknownError))], Stats(0, 0, 0, 0), None)
    case Ok(els) =>
      var t := Plan(d.content, els, ScanElements(els));
      DeploymentReport(stamp.deploymentId, d.siteId, stamp.timestamp, CurrentPageName,
                       t.changes, t.warnings, t.errors,
                       Stats(|t.changes| + t.missing, t.applied, t.failed, t.missing), None)
  }

  /** The writes `applyChanges()` performs on a page. */
  function PageWrites(content: map<string, string>, elements: Result<seq<Element>, Thrown>): seq<Write>
  {
    match elements
    case Err(_) => []
    case Ok(els) => Plan(content, els, ScanElements(els)).writes
  }

  /** The text slots after `writes` on the page at position `item`, in order. */
  function Overlay(texts: map<Slot, string>, item: nat, writes: seq<Write>): map<Slot, string>
  {
    if writes == [] then texts
    else
      var w := writes[|writes| - 1];
      Overlay(texts, item, writes[..|writes| - 1])[Slot(item, w.element) := w.value]
  }

  /** The number of reports with status `status`. */
  function CountStatus(changes: seq<ChangeReport>, status: Status): nat
  {
    Count(changes, IsStatus(status))
  }

  function IsStatus(status: Status): ChangeReport -> bool
  {
    (r: ChangeReport) => r.status == status
  }

  /** Two stretches of the loop one after the other. */
  function Combine(t1: Tally, t2: Tally): Tally
  {
    Tally(t1.changes + t2.changes, t1.warnings + t2.warnings, t1.errors + t2.errors,
          t1.applied + t2.applied, t1.failed + t2.failed, t1.missing + t2.missing,
          t1.writes + t2.writes)
  }

  lemma CombineStart(t: Tally)
    ensures Combine(t, Start) == t && Combine(Start, t) == t
  {
    assert t.changes + [] == t.changes && t.warnings + [] == t.warnings;
    assert t.errors + [] == t.errors && t.writes + [] == t.writes;
  }

  lemma CombineAssoc(t1: Tally, t2: Tally, t3: Tally)
    ensures Combine(Combine(t1, t2), t3) == Combine(t1, Combine(t2, t3))
  {
    assert (t1.changes + t2.changes) + t3.changes == t1.changes + (t2.changes + t3.changes);
    assert (t1.warnings + t2.warnings) + t3.warnings == t1.warnings + (t2.warnings + t3.warnings);
    assert (t1.errors + t2.errors) + t3.errors == t1.errors + (t2.errors + t3.errors);
    assert (t1.writes + t2.writes) + t3.writes == t1.writes + (t2.writes + t3.writes);
  }

  /** An iteration only appends to the lists and adds to the counters: what it adds does not
      depend on the earlier iterations. */
  lemma StepIsAppend(content: map<string, string>, els: seq<Element>, t: Tally, e: ScannedElement)
    ensures Step(content, els, t, e) == Combine(t, Step(content, els, Start, e))
  {
    CombineStart(t);
    if e.key in content {
      var v := content[e.key];
      match Resolve(els, e.key) {
        case Err(x) => CaughtIsAppend(t, e, v, x);
        case Ok(None) =>
        case Ok(Some(j)) =>
          ResolveSpec(els, e.key);
          if e.mode == DefaultMode || e.mode == "" {
            if els[j].textContent {
              WriteTextIsAppend(t, e, v, els, j);
            }
          } else if e.mode == HtmlMode {
            var warned := Start.(warnings := [HtmlWarning(e.key)]);
            var t' := t.(warnings := t.warnings + [HtmlWarning(e.key)]);
            assert t' == Combine(t, warned);
            if els[j].textContent {
              WriteTextIsAppend(t', e, v, els, j);
              WriteTextIsAppend(warned, e, v, els, j);
              CombineAssoc(t, warned, WriteText(Start, e, v, els, j));
            } else {
              SucceededIsAppend(t', e, v);
              SucceededIsAppend(warned, e, v);
              CombineAssoc(t, warned, Succeeded(Start, e, v));
            }
          } else if !StartsWith(e.mode, AttrModePrefix) {
            SucceededIsAppend(t, e, v);
          }
      }
    }
  }

  lemma CaughtIsAppend(t: Tally, e: ScannedElement, v: string, x: Thrown)
    ensures Caught(t, e, v, x) == Combine(t, Caught(Start, e, v, x))
  {
  }

  lemma SucceededIsAppend(t: Tally, e: ScannedElement, v: string)
    ensures Succeeded(t, e, v) == Combine(t, Succeeded(Start, e, v))
  {
    assert t.warnings + [] == t.warnings && t.errors + [] == t.errors && t.writes + [] == t.writes;
  }

  lemma WriteTextIsAppend(t: Tally, e: ScannedElement, v: string, els: seq<Element>, j: nat)
    requires j < |els|
    ensures WriteText(t, e, v, els, j) == Combine(t, WriteText(Start, e, v, els, j))
  {
    assert t.warnings + [] == t.warnings && t.errors + [] == t.errors && t.writes + [] == t.writes;
    assert t.changes + [] == t.changes;
  }

  /** Per-element isolation: the run over `a + b` is the run over `a` followed by the run over
      `b` on its own, so nothing an element does (a failure included) changes what any other
      element contributes. */
  lemma {:induction false} PlanSplit(content: map<string, string>, els: seq<Element>,
                                     a: seq<ScannedElement>, b: seq<ScannedElement>)
    ensures Plan(content, els, a + b) == Combine(Plan(content, els, a), Plan(content, els, b))
    decreases |b|
  {
    if b == [] {
      assert a + b == a;
      CombineStart(Plan(content, els, a));
    } else {
      var b' := b[..|b| - 1];
      var e := b[|b| - 1];
      assert (a + b)[..|a + b| - 1] == a + b';
      assert (a + b)[|a + b| - 1] == e;
      PlanSplit(content, els, a, b');
      StepIsAppend(content, els, Plan(content, els, a + b'), e);
      StepIsAppend(content, els, Plan(content, els, b'), e);
      CombineAssoc(Plan(content, els, a), Plan(content, els, b'), Step(content, els, Start, e));
    }
  }

  /** The bookkeeping the loop keeps: `applied` counts the success reports, every other report
      is an error report, every failure adds exactly one error line but not always a report,
      error reports and only they carry a message, no report has status warning, and a write
      happens only on a success. */
  predicate Accounted(t: Tally)
  {
    && t.applied == CountStatus(t.changes, Success)
    && |t.changes| == t.applied + CountStatus(t.changes, Error)
    && CountStatus(t.changes, Error) <= t.failed
    && |t.errors| == t.failed
    && (forall r | r in t.changes :: r.status != Warning && (r.status == Error <==> r.message.Some?))
    && |t.writes| <= t.applied
  }

  lemma CombineAccounted(t1: Tally, t2: Tally)
    requires Accounted(t1) && Accounted(t2)
    ensures Accounted(Combine(t1, t2))
  {
    CountAppend(t1.changes, t2.changes, IsStatus(Success));
    CountAppend(t1.changes, t2.changes, IsStatus(Error));
  }

  lemma OneReport(r: ChangeReport, status: Status)
    ensures CountStatus([r], status) == if r.status == status then 1 else 0
  {
    assert [r] == [] + [r];
    CountSnoc([], r, IsStatus(status));
  }

  lemma StepAccounted(content: map<string, string>, els: seq<Element>, e: ScannedElement)
    ensures Accounted(Step(content, els, Start, e))
  {
    var t := Step(content, els, Start, e);
    if e.key in content {
      var v := content[e.key];
      match Resolve(els, e.key)
      case Err(x) =>
        OneReport(t.changes[0], Success);
        OneReport(t.changes[0], Error);
      case Ok(None) =>
      case Ok(Some(j)) =>
        ResolveSpec(els, e.key);
        if |t.changes| == 1 {
          assert t.changes == [t.changes[0]];
          OneReport(t.changes[0], Success);
          OneReport(t.changes[0], Error);
        }
    }
  }

  /** The loop's bookkeeping holds after any number of entries. */
  lemma {:induction false} PlanAccounted(content: map<string, string>, els: seq<Element>, scanned: seq<ScannedElement>)
    ensures Accounted(Plan(content, els, scanned))
    decreases |scanned|
  {
    if scanned != [] {
      var s' := scanned[..|scanned| - 1];
      var e := scanned[|scanned| - 1];
      PlanAccounted(content, els, s');
      StepIsAppend(content, els, Plan(content, els, s'), e);
      StepAccounted(content, els, e);
      CombineAccounted(Plan(content, els, s'), Step(content, els, Start, e));
    }
  }

  /** `missing` is the number of scanned keys the content lacks (the preview's missing keys of
      the same entries), and each of them has exactly one warning: taken out of the warnings in
      order, the missing-key lines are the preview's missing keys, in order, through
      `MissingWarning`. */
  lemma PlanMissing(content: map<string, string>, els: seq<Element>, scanned: seq<ScannedElement>)
    ensures Plan(content, els, scanned).missing == |FilterMap(scanned, MissingKey(content))|
    ensures Plan(content, els, scanned).missing == |Diff(content, scanned).missingKeys|
    ensures forall i :: 0 <= i < |scanned| && scanned[i].key !in content ==>
              MissingWarning(scanned[i].key) in Plan(content, els, scanned).warnings
    ensures var lines := Filter(Plan(content, els, scanned).warnings, IsMissingLine);
            && |lines| == Plan(content, els, scanned).missing
            && forall k | 0 <= k < |lines| :: lines[k] == MissingWarning(Diff(content, scanned).missingKeys[k])
  {
    MissingCounted(content, els, scanned);
    MissingLinesInOrder(content, els, scanned);
    DiffSpec(content, scanned);
  }

  lemma {:induction false} MissingCounted(content: map<string, string>, els: seq<Element>, scanned: seq<ScannedElement>)
    ensures Plan(content, els, scanned).missing == |FilterMap(scanned, MissingKey(content))|
    ensures forall i :: 0 <= i < |scanned| && scanned[i].key !in content ==>
              MissingWarning(scanned[i].key) in Plan(content, els, scanned).warnings
    decreases |scanned|
  {
    if scanned != [] {
      var s' := scanned[..|scanned| - 1];
      var e := scanned[|scanned| - 1];
      MissingCounted(content, els, s');
      assert scanned == s' + [e];
      FilterMapSnoc(s', e, MissingKey(content));
      StepIsAppend(content, els, Plan(content, els, s'), e);
      forall i | 0 <= i < |scanned| - 1 && scanned[i].key !in content
        ensures MissingWarning(scanned[i].key) in Plan(content, els, scanned).warnings
      {
        assert scanned[i] == s'[i];
      }
    }
  }

  /** Whether a warning line is a missing-key warning: it begins with `Clé "`, which no html or
      attribute warning does. */
  predicate IsMissingLine(w: string)
  {
    StartsWith(w, "Clé \"")
  }

  /** The missing-key lines an entry adds: its warning alone when its key has no value. */
  lemma StepMissingLines(content: map<string, string>, els: seq<Element>, e: ScannedElement)
    ensures Filter(Step(content, els, Start, e).warnings, IsMissingLine)
            == if e.key in content then [] else [MissingWarning(e.key)]
  {
    var ws := Step(content, els, Start, e).warnings;
    if e.key !in content {
      assert ws == [MissingWarning(e.key)];
      MissingLineKept(e.key);
    } else {
      StepModeWarning(content, els, e);
      if ws != [] {
        assert ws == [ws[0]];
        OtherLineDropped(ws[0]);
      }
    }
  }

  /** For a key with a value, an entry adds at most the html or attribute warning, both of which
      begin with `M`. */
  lemma StepModeWarning(content: map<string, string>, els: seq<Element>, e: ScannedElement)
    requires e.key in content
    ensures var ws := Step(content, els, Start, e).warnings;
            |ws| <= 1 && (ws != [] ==> |ws[0]| > 0 && ws[0][0] == 'M')
  {
    match Resolve(els, e.key) {
      case Err(x) =>
      case Ok(None) =>
      case Ok(Some(j)) =>
        ResolveSpec(els, e.key);
        if e.mode == DefaultMode || e.mode == "" {
          assert Step(content, els, Start, e).warnings == [];
        } else if e.mode == HtmlMode {
          assert Step(content, els, Start, e).warnings == [HtmlWarning(e.key)];
        } else if StartsWith(e.mode, AttrModePrefix) {
          AttrModeTouchesNoCounter(content, els, e);
        } else {
          UnknownModeSucceeds(content, els, e);
        }
    }
  }

  lemma MissingLineKept(key: string)
    ensures Filter([MissingWarning(key)], IsMissingLine) == [MissingWarning(key)]
  {
    assert MissingWarning(key)[..5] == "Clé \"";
    assert [MissingWarning(key)][..0] == [];
  }

  lemma OtherLineDropped(w: string)
    requires |w| > 0 && w[0] == 'M'
    ensures Filter([w], IsMissingLine) == []
  {
    assert [w][..0] == [];
  }

  /** Taken out of the warnings in order, the missing-key lines are one per scanned entry whose
      key has no value, in scan order. */
  lemma {:induction false} MissingLinesInOrder(content: map<string, string>, els: seq<Element>,
                                                scanned: seq<ScannedElement>)
    ensures Paired(Filter(Plan(content, els, scanned).warnings, IsMissingLine), FilterMap(scanned, MissingKey(content)))
    decreases |scanned|
  {
    if scanned != [] {
      var s' := scanned[..|scanned| - 1];
      var e := scanned[|scanned| - 1];
      assert scanned == s' + [e];
      MissingLinesInOrder(content, els, s');
      MissingLinesSnoc(content, els, s', e);
      FilterMapSnoc(s', e, MissingKey(content));
      PairedSnoc(Filter(Plan(content, els, s').warnings, IsMissingLine), FilterMap(s', MissingKey(content)),
                 if e.key in content then [] else [e.key]);
    }
  }

  /** One more entry adds its own missing-key line, if any, after those of the earlier ones. */
  lemma MissingLinesSnoc(content: map<string, string>, els: seq<Element>, s: seq<ScannedElement>, e: ScannedElement)
    ensures Filter(Plan(content, els, s + [e]).warnings, IsMissingLine)
            == Filter(Plan(content, els, s).warnings, IsMissingLine)
               + if e.key in content then [] else [MissingWarning(e.key)]
  {
    assert (s + [e])[..|s|] == s;
    var before := Plan(content, els, s);
    var added := Step(content, els, Start, e);
    StepIsAppend(content, els, before, e);
    StepMissingLines(content, els, e);
    FilterAppend(before.warnings, added.warnings, IsMissingLine);
  }

  /** `lines` is `keys` mapped through `MissingWarning`. */
  predicate Paired(lines: seq<string>, keys: seq<string>)
  {
    |lines| == |keys| && forall k | 0 <= k < |keys| :: lines[k] == MissingWarning(keys[k])
  }

  lemma PairedSnoc(lines: seq<string>, keys: seq<string>, more: seq<string>)
    requires Paired(lines, keys) && |more| <= 1
    ensures Paired(lines + (if more == [] then [] else [MissingWarning(more[0])]), keys + more)
  {
  }

  /** A write that throws costs exactly one failure, one error line and one error report, and
      nothing else; with `PlanSplit` the other entries are untouched by it. */
  lemma ThrowingWriteIsContained(content: map<string, string>, els: seq<Element>, e: ScannedElement, j: nat)
    requires e.key in content && Resolve(els, e.key) == Ok(Some(j)) && j < |els|
    requires e.mode == DefaultMode || e.mode == ""
    requires els[j].textContent && els[j].writeFailure.Some?
    ensures var m := MessageOf(els[j].writeFailure.value, UnknownError);
            Step(content, els, Start, e)
            == Tally([ChangeReport(e.key, "", content[e.key], e.selector, Error, Some(m))],
                     [], [UpdateError(e.key, m)], 0, 1, 0, [])
  {
  }

  /** An `attr:` entry adds one warning and touches no counter, report or text. */
  lemma AttrModeTouchesNoCounter(content: map<string, string>, els: seq<Element>, e: ScannedElement)
    requires e.key in content && Resolve(els, e.key).Ok? && Resolve(els, e.key).value.Some?
    requires StartsWith(e.mode, AttrModePrefix)
    ensures Step(content, els, Start, e) == Start.(warnings := [AttrWarning(e.mode[5..], e.key)])
  {
  }

  /** A re-resolution whose attribute read throws is caught like a throwing write. This is `Step`
      on its own: in `PageReport` the host's elements are fixed, so an attribute read that throws
      has already emptied the scan (`ScanFailureIsEmpty`) and this branch is never reached there. */
  lemma ThrowingSearchIsContained(content: map<string, string>, els: seq<Element>, e: ScannedElement, x: Thrown)
    requires e.key in content && Resolve(els, e.key) == Err(x)
    ensures var m := MessageOf(x, UnknownError);
            Step(content, els, Start, e)
            == Tally([ChangeReport(e.key, "", content[e.key], e.selector, Error, Some(m))],
                     [], [UpdateError(e.key, m)], 0, 1, 0, [])
  {
  }

  /** An element that re-resolution does not find costs one failure and one error line, and
      adds no report. */
  lemma NotFoundIsContained(content: map<string, string>, els: seq<Element>, e: ScannedElement)
    requires e.key in content && Resolve(els, e.key) == Ok(None)
    ensures Step(content, els, Start, e) == Tally([], [], [NotFoundError(e.key)], 0, 1, 0, [])
  {
  }

  /** A text-mode element without text support costs one failure and one error line, and adds
      no report and no write. */
  lemma NoTextIsContained(content: map<string, string>, els: seq<Element>, e: ScannedElement, j: nat)
    requires e.key in content && Resolve(els, e.key) == Ok(Some(j)) && j < |els|
    requires e.mode == DefaultMode || e.mode == ""
    requires !els[j].textContent
    ensures Step(content, els, Start, e) == Tally([], [], [NoTextError(e.key)], 0, 1, 0, [])
  {
  }

  /** A mode the loop does not know counts as applied with a success report, and writes
      nothing. */
  lemma UnknownModeSucceeds(content: map<string, string>, els: seq<Element>, e: ScannedElement)
    requires e.key in content && Resolve(els, e.key).Ok? && Resolve(els, e.key).value.Some?
    requires e.mode != DefaultMode && e.mode != "" && e.mode != HtmlMode && !StartsWith(e.mode, AttrModePrefix)
    ensures Step(content, els, Start, e)
            == Tally([ChangeReport(e.key, "", content[e.key], e.selector, Success, None)], [], [], 1, 0, 0, [])
  {
  }

  /** An `html` entry on an element without text support adds its warning and counts as applied
      with a success report, and writes nothing. */
  lemma HtmlWithoutTextSucceeds(content: map<string, string>, els: seq<Element>, e: ScannedElement, j: nat)
    requires e.key in content && Resolve(els, e.key) == Ok(Some(j)) && j < |els|
    requires e.mode == HtmlMode && !els[j].textContent
    ensures Step(content, els, Start, e)
            == Tally([ChangeReport(e.key, "", content[e.key], e.selector, Success, None)],
                     [HtmlWarning(e.key)], [], 1, 0, 0, [])
  {
  }

  /** The failure that a caught exception for `key` carries: the attribute read that threw during
      re-resolution, or the write failure of the element it found. */
  function ThrownBy(els: seq<Element>, key: string): Option<Thrown>
  {
    match Resolve(els, key)
    case Err(x) => Some(x)
    case Ok(None) => None
    case Ok(Some(j)) => if j < |els| then els[j].writeFailure else None
  }

  /** `r` is the error report the inner `catch` makes for entry `e`. */
  predicate ThrownReport(content: map<string, string>, els: seq<Element>, e: ScannedElement, r: ChangeReport)
  {
    && e.key in content
    && ThrownBy(els, e.key).Some?
    && r == ChangeReport(e.key, "", content[e.key], e.selector, Error,
                         Some(MessageOf(ThrownBy(els, e.key).value, UnknownError)))
  }

  /** One entry's error report, if any, comes from an exception. */
  lemma StepErrorsAreThrown(content: map<string, string>, els: seq<Element>, e: ScannedElement)
    ensures forall r | r in Step(content, els, Start, e).changes && r.status == Error ::
              ThrownReport(content, els, e, r)
  {
    if e.key in content {
      var v := content[e.key];
      match Resolve(els, e.key) {
        case Err(x) => ThrowingSearchIsContained(content, els, e, x);
        case Ok(None) => NotFoundIsContained(content, els, e);
        case Ok(Some(j)) =>
          ResolveSpec(els, e.key);
          if e.mode == DefaultMode || e.mode == "" {
            if !els[j].textContent {
              NoTextIsContained(content, els, e, j);
            }
          } else if e.mode == HtmlMode {
            if !els[j].textContent {
              HtmlWithoutTextSucceeds(content, els, e, j);
            }
          } else if StartsWith(e.mode, AttrModePrefix) {
            AttrModeTouchesNoCounter(content, els, e);
          } else {
            UnknownModeSucceeds(content, els, e);
          }
      }
    }
  }

  /** Error reports come only from caught exceptions: each belongs to a scanned entry whose
      re-resolution threw, or whose element's write threw, and carries that exception's message.
      A missing element or one without text support never produces one. */
  lemma {:induction false} ErrorReportsAreThrown(content: map<string, string>, els: seq<Element>,
                                                  scanned: seq<ScannedElement>)
    ensures forall r | r in Plan(content, els, scanned).changes && r.status == Error ::
              exists e | e in scanned :: ThrownReport(content, els, e, r)
    decreases |scanned|
  {
    if scanned != [] {
      var s' := scanned[..|scanned| - 1];
      var e := scanned[|scanned| - 1];
      assert scanned == s' + [e];
      ErrorReportsAreThrown(content, els, s');
      StepIsAppend(content, els, Plan(content, els, s'), e);
      StepErrorsAreThrown(content, els, e);
      forall r | r in Plan(content, els, scanned).changes && r.status == Error
        ensures exists e' | e' in scanned :: ThrownReport(content, els, e', r)
      {
        if r in Plan(content, els, s').changes {
          var e' :| e' in s' && ThrownReport(content, els, e', r);
          assert e' in scanned;
        } else {
          assert ThrownReport(content, els, e, r);
        }
      }
    }
  }

  /** An entry that the loop can write as text: its key has a value, its mode is the default,
      and re-resolution finds an element that supports text. */
  predicate TextWritable(content: map<string, string>, els: seq<Element>, e: ScannedElement)
  {
    && e.key in content
    && (e.mode == DefaultMode || e.mode == "")
    && match Resolve(els, e.key)
       case Ok(Some(j)) => j < |els| && els[j].textContent
       case _ => false
  }

  /** Whether the write for `e` throws. */
  function ThrowsOnWrite(els: seq<Element>): ScannedElement -> bool
  {
    (e: ScannedElement) =>
      match Resolve(els, e.key)
      case Ok(Some(j)) => j < |els| && els[j].writeFailure.Some?
      case _ => false
  }

  /** When every entry is writable, the failures are exactly the throwing writes and every other
      entry is applied, each failure with its own error report: three writable entries of which
      one throws give `applied == 2` and `failed == 1`. */
  lemma {:induction false} WritableEntries(content: map<string, string>, els: seq<Element>, scanned: seq<ScannedElement>)
    requires forall i :: 0 <= i < |scanned| ==> TextWritable(content, els, scanned[i])
    ensures var t := Plan(content, els, scanned);
            && t.failed == Count(scanned, ThrowsOnWrite(els))
            && t.applied + t.failed == |scanned|
            && CountStatus(t.changes, Error) == t.failed
            && t.missing == 0 && t.warnings == []
    decreases |scanned|
  {
    if scanned != [] {
      var s' := scanned[..|scanned| - 1];
      var e := scanned[|scanned| - 1];
      assert scanned == s' + [e];
      WritableEntries(content, els, s');
      CountSnoc(s', e, ThrowsOnWrite(els));
      StepIsAppend(content, els, Plan(content, els, s'), e);
      WritableStep(content, els, e);
      var t1 := Step(content, els, Start, e);
      CountAppend(Plan(content, els, s').changes, t1.changes, IsStatus(Error));
    }
  }

  /** One writable entry on its own: one report, an error exactly when its write throws. */
  lemma WritableStep(content: map<string, string>, els: seq<Element>, e: ScannedElement)
    requires TextWritable(content, els, e)
    ensures var t := Step(content, els, Start, e);
            && t.failed == (if ThrowsOnWrite(els)(e) then 1 else 0)
            && t.applied + t.failed == 1
            && CountStatus(t.changes, Error) == t.failed
            && t.missing == 0 && t.warnings == []
  {
    var j := Resolve(els, e.key).value.value;
    var v := content[e.key];
    ResolveSpec(els, e.key);
    assert Step(content, els, Start, e) == WriteText(Start, e, v, els, j);
    match els[j].writeFailure {
      case Some(x) =>
        var m := MessageOf(x, UnknownError);
        var r := ChangeReport(e.key, "", v, e.selector, Error, Some(m));
        assert WriteText(Start, e, v, els, j).changes == [r];
        OneReport(r, Error);
      case None =>
        var r := ChangeReport(e.key, "", v, e.selector, Success, None);
        assert WriteText(Start, e, v, els, j).changes == [r];
        OneReport(r, Error);
    }
  }

  /** The write an entry makes: its key has a value, its mode is the default, empty or `html`,
      and re-resolution finds an element that supports text and whose write does not throw. */
  function WriteOf(content: map<string, string>, els: seq<Element>): ScannedElement -> Option<Write>
  {
    (e: ScannedElement) =>
      if e.key in content && (e.mode == DefaultMode || e.mode == "" || e.mode == HtmlMode) then
        match Resolve(els, e.key)
        case Ok(Some(j)) =>
          if j < |els| && els[j].textContent && els[j].writeFailure.None?
          then Some(Write(j, content[e.key])) else None
        case _ => None
      else None
  }

  /** The writes are exactly, and in scan order, those of the entries that write. Each one puts
      the value of a key with a value into the element that re-resolution found for that key, and
      did not throw; and every entry that writes has its write among them. */
  lemma PlanWritesSpec(content: map<string, string>, els: seq<Element>, scanned: seq<ScannedElement>)
    ensures Plan(content, els, scanned).writes == FilterMap(scanned, WriteOf(content, els))
    ensures forall w | w in Plan(content, els, scanned).writes ::
              w.element < |els| && els[w.element].textContent && els[w.element].writeFailure.None?
              && exists e | e in scanned :: e.key in content && w.value == content[e.key]
                   && Resolve(els, e.key) == Ok(Some(w.element)) && Carries(els[w.element], e.key)
    ensures forall i | 0 <= i < |scanned| && WriteOf(content, els)(scanned[i]).Some? ::
              WriteOf(content, els)(scanned[i]).value in Plan(content, els, scanned).writes
  {
    WritesSound(content, els, scanned);
    PlanWritesInOrder(content, els, scanned);
    forall i | 0 <= i < |scanned| && WriteOf(content, els)(scanned[i]).Some?
      ensures WriteOf(content, els)(scanned[i]).value in Plan(content, els, scanned).writes
    {
      FilterMapAt(scanned, WriteOf(content, els), i);
    }
  }

  lemma {:induction false} WritesSound(content: map<string, string>, els: seq<Element>, scanned: seq<ScannedElement>)
    ensures forall w | w in Plan(content, els, scanned).writes ::
              w.element < |els| && els[w.element].textContent && els[w.element].writeFailure.None?
              && exists e | e in scanned :: e.key in content && w.value == content[e.key]
                   && Resolve(els, e.key) == Ok(Some(w.element)) && Carries(els[w.element], e.key)
    decreases |scanned|
  {
    if scanned != [] {
      var s' := scanned[..|scanned| - 1];
      var e := scanned[|scanned| - 1];
      assert scanned == s' + [e];
      WritesSound(content, els, s');
      StepIsAppend(content, els, Plan(content, els, s'), e);
      ResolveSpec(els, e.key);
    }
  }

  lemma {:induction false} PlanWritesInOrder(content: map<string, string>, els: seq<Element>, scanned: seq<ScannedElement>)
    ensures Plan(content, els, scanned).writes == FilterMap(scanned, WriteOf(content, els))
    decreases |scanned|
  {
    if scanned != [] {
      var s' := scanned[..|scanned| - 1];
      var e := scanned[|scanned| - 1];
      assert scanned == s' + [e];
      PlanWritesInOrder(content, els, s');
      StepIsAppend(content, els, Plan(content, els, s'), e);
      StepWrites(content, els, e);
      FilterMapSnoc(s', e, WriteOf(content, els));
    }
  }

  /** One entry writes exactly its `WriteOf`. */
  lemma StepWrites(content: map<string, string>, els: seq<Element>, e: ScannedElement)
    ensures Step(content, els, Start, e).writes
            == if WriteOf(content, els)(e).Some? then [WriteOf(content, els)(e).value] else []
  {
    if e.key in content {
      match Resolve(els, e.key) {
        case Err(x) =>
        case Ok(None) =>
        case Ok(Some(j)) =>
          ResolveSpec(els, e.key);
          if (e.mode == DefaultMode || e.mode == "") && els[j].textContent && els[j].writeFailure.None? {
            TextWriteSucceeds(content, els, e, j);
          } else if e.mode == HtmlMode && els[j].textContent && els[j].writeFailure.None? {
            HtmlWriteSucceeds(content, els, e, j);
          }
      }
    }
  }

  /** A text-mode entry whose element supports text and does not throw sets the element's text to
      the content value: one success report, `applied` 1, and the write. */
  lemma TextWriteSucceeds(content: map<string, string>, els: seq<Element>, e: ScannedElement, j: nat)
    requires e.key in content && Resolve(els, e.key) == Ok(Some(j)) && j < |els|
    requires e.mode == DefaultMode || e.mode == ""
    requires els[j].textContent && els[j].writeFailure.None?
    ensures Step(content, els, Start, e)
            == Tally([ChangeReport(e.key, "", content[e.key], e.selector, Success, None)],
                     [], [], 1, 0, 0, [Write(j, content[e.key])])
  {
  }

  /** An `html` entry on such an element adds its warning and writes the value as text. */
  lemma HtmlWriteSucceeds(content: map<string, string>, els: seq<Element>, e: ScannedElement, j: nat)
    requires e.key in content && Resolve(els, e.key) == Ok(Some(j)) && j < |els|
    requires e.mode == HtmlMode
    requires els[j].textContent && els[j].writeFailure.None?
    ensures Step(content, els, Start, e)
            == Tally([ChangeReport(e.key, "", content[e.key], e.selector, Success, None)],
                     [HtmlWarning(e.key)], [], 1, 0, 0, [Write(j, content[e.key])])
  {
  }

  /** After the writes of a run, the element an entry writes holds that entry's content value,
      unless a later entry writes the same element. */
  lemma WrittenValueLands(texts: map<Slot, string>, item: nat, content: map<string, string>,
                          els: seq<Element>, scanned: seq<ScannedElement>, i: nat)
    requires i < |scanned| && WriteOf(content, els)(scanned[i]).Some?
    requires forall m | i < m < |scanned| && WriteOf(content, els)(scanned[m]).Some? ::
               WriteOf(content, els)(scanned[m]).value.element != WriteOf(content, els)(scanned[i]).value.element
    ensures var slot := Slot(item, WriteOf(content, els)(scanned[i]).value.element);
            var after := Overlay(texts, item, Plan(content, els, scanned).writes);
            slot in after && after[slot] == content[scanned[i].key]
  {
    var f := WriteOf(content, els);
    var writes := Plan(content, els, scanned).writes;
    PlanWritesInOrder(content, els, scanned);
    FilterMapAt(scanned, f, i);
    var k := |FilterMap(scanned[..i], f)|;
    assert writes[k] == f(scanned[i]).value;
    forall m | k < m < |writes| ensures writes[m].element != writes[k].element {
      FilterMapFrom(scanned, f, m);
      var i' :| 0 <= i' < |scanned| && f(scanned[i']) == Some(writes[m]) && |FilterMap(scanned[..i'], f)| == m;
      if i' < i {
        FilterMapOrder(scanned, f, i', i);
      }
    }
    OverlayLastWrite(texts, item, writes, k);
  }

  /** The invariants of a page report: `total_keys` is the reports plus the missing keys, each
      success is counted in `applied`, each failure has its error line, error reports carry their
      message, and the missing count is the preview's; a failing enumeration gives the lone
      global error line and zero counters. */
  lemma PageReportSpec(d: WordingData, elements: Result<seq<Element>, Thrown>, stamp: Stamp)
    ensures var r := PageReport(d, elements, stamp);
            && r.siteId == d.siteId && r.deploymentId == stamp.deploymentId
            && r.timestamp == stamp.timestamp && r.multiPageReports.None?
            && r.stats.totalKeys == |r.changes| + r.stats.missing
            && r.stats.applied == CountStatus(r.changes, Success)
            && |r.changes| == r.stats.applied + CountStatus(r.changes, Error)
            && CountStatus(r.changes, Error) <= r.stats.failed
            && (forall c | c in r.changes :: c.status != Warning && (c.status == Error <==> c.message.Some?))
            && |r.errors| == (if elements.Ok? then r.stats.failed else 1)
            && r.stats.missing == |Diff(d.content, ScanOf(elements)).missingKeys|
            && (elements.Err? ==> r.changes == [] && r.warnings == [] && r.stats == Stats(0, 0, 0, 0)
                                  && r.errors == [GlobalError(MessageOf(elements.error, UnknownError))])
  {
    match elements
    case Err(_) =>
      assert Diff(d.content, []).missingKeys == [];
    case Ok(els) =>
      PlanAccounted(d.content, els, ScanElements(els));
      PlanMissing(d.content, els, ScanElements(els));
  }

  /** Writes on the page at `item` leave every slot of every other page as it was, and every
      written slot ends up present. */
  lemma OverlayFrame(texts: map<Slot, string>, item: nat, writes: seq<Write>, slot: Slot)
    ensures (slot.item != item || forall w | w in writes :: w.element != slot.element) ==>
              (slot in Overlay(texts, item, writes)) == (slot in texts)
              && (slot in texts ==> Overlay(texts, item, writes)[slot] == texts[slot])
    ensures forall w | w in writes :: Slot(item, w.element) in Overlay(texts, item, writes)
    ensures forall k | 0 <= k < |writes| && slot == Slot(item, writes[k].element)
                       && (forall m | k < m < |writes| :: writes[m].element != writes[k].element) ::
              slot in Overlay(texts, item, writes) && Overlay(texts, item, writes)[slot] == writes[k].value
  {
    if slot.item != item || forall w | w in writes :: w.element != slot.element {
      OverlayUntouched(texts, item, writes, slot);
    }
    OverlayWritten(texts, item, writes);
    forall k | 0 <= k < |writes| && slot == Slot(item, writes[k].element)
               && (forall m | k < m < |writes| :: writes[m].element != writes[k].element)
      ensures slot in Overlay(texts, item, writes) && Overlay(texts, item, writes)[slot] == writes[k].value
    {
      OverlayLastWrite(texts, item, writes, k);
    }
  }

  lemma {:induction false} OverlayUntouched(texts: map<Slot, string>, item: nat, writes: seq<Write>, slot: Slot)
    requires slot.item != item || forall w | w in writes :: w.element != slot.element
    ensures (slot in Overlay(texts, item, writes)) == (slot in texts)
    ensures slot in texts ==> Overlay(texts, item, writes)[slot] == texts[slot]
    decreases |writes|
  {
    if writes != [] {
      var n := |writes| - 1;
      assert writes[n] in writes;
      forall w | w in writes[..n] ensures w in writes {
      }
      OverlayUntouched(texts, item, writes[..n], slot);
    }
  }

  lemma {:induction false} OverlayWritten(texts: map<Slot, string>, item: nat, writes: seq<Write>)
    ensures forall w | w in writes :: Slot(item, w.element) in Overlay(texts, item, writes)
    decreases |writes|
  {
    if writes != [] {
      var n := |writes| - 1;
      OverlayWritten(texts, item, writes[..n]);
      forall w | w in writes ensures Slot(item, w.element) in Overlay(texts, item, writes) {
        if w != writes[n] {
          assert w in writes[..n];
        }
      }
    }
  }

  lemma {:induction false} OverlayLastWrite(texts: map<Slot, string>, item: nat, writes: seq<Write>, k: nat)
    requires k < |writes| && forall m | k < m < |writes| :: writes[m].element != writes[k].element
    ensures Slot(item, writes[k].element) in Overlay(texts, item, writes)
    ensures Overlay(texts, item, writes)[Slot(item, writes[k].element)] == writes[k].value
    decreases |writes|
  {
    var n := |writes| - 1;
    if k < n {
      var prefix := writes[..n];
      assert prefix[k] == writes[k];
      forall m | k < m < n ensures prefix[m].element != prefix[k].element {
        assert prefix[m] == writes[m];
      }
      OverlayLastWrite(texts, item, prefix, k);
    }
  }
}
