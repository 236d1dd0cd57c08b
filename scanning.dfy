/** The page scanner, `SiteDeployer.scanPage`, as a specification: which elements of the active
    page yield a scanned entry, and what that entry holds. */
module Scanning {
  import opened Wrappers
  import opened Seqs
  import opened Webflow
  import opened DeployerTypes

  /** `attrs.find(attr => attr.name === name)?.value`. */
  function FindValue(attrs: seq<Attribute>, name: string): Option<string>
  {
    if attrs == [] then None
    else if attrs[0].name == name then Some(attrs[0].value)
    else FindValue(attrs[1..], name)
  }

  function Selector(key: string): string
  {
    "[data-wording-key=\"" + key + "\"]"
  }

  /** `wordingModeAttr?.value || 'text'`: an absent or empty mode becomes "text". */
  function ModeOf(attrs: seq<Attribute>): string
  {
    match FindValue(attrs, ModeAttribute)
    case Some(v) => if v != "" then v else DefaultMode
    case None => DefaultMode
  }

  /** The entry an element contributes: one when it has custom attributes, they can be listed,
      and one of them is `data-wording-key`. */
  function EntryOf(el: Element): Option<ScannedElement>
  {
    if el.customAttributes && el.attributes.Listed? then
      match FindValue(el.attributes.attributes, KeyAttribute)
      case Some(key) => Some(ScannedElement(key, Selector(key), ModeOf(el.attributes.attributes)))
      case None => None
    else None
  }

  /** Reading this element's attributes throws during the scan. */
  predicate ScanThrows(el: Element)
  {
    el.customAttributes && el.attributes.Throws?
  }

  /** The entries of a scan of `els`: none at all as soon as one attribute read throws. */
  function ScanElements(els: seq<Element>): seq<ScannedElement>
  {
    if exists i | 0 <= i < |els| :: ScanThrows(els[i]) then [] else FilterMap(els, EntryOf)
  }

  /** `scanPage()` on a page whose `getAllElements()` gives `elements`. */
  function ScanOf(elements: Result<seq<Element>, Thrown>): seq<ScannedElement>
  {
    match elements
    case Err(_) => []
    case Ok(els) => ScanElements(els)
  }

  /** Exactly one entry per tagged element, in enumeration order: element `i`'s entry sits at the
      position given by the number of tagged elements before it, and every entry is some tagged
      element's. */
  lemma ScanOneEntryPerTaggedElement(els: seq<Element>, i: nat, key: string)
    requires forall k :: 0 <= k < |els| ==> !ScanThrows(els[k])
    requires i < |els| && els[i].customAttributes && els[i].attributes.Listed?
    requires FindValue(els[i].attributes.attributes, KeyAttribute) == Some(key)
    ensures |FilterMap(els[..i], EntryOf)| < |ScanElements(els)|
    ensures ScanElements(els)[|FilterMap(els[..i], EntryOf)|]
            == ScannedElement(key, Selector(key), ModeOf(els[i].attributes.attributes))
  {
    FilterMapAt(els, EntryOf, i);
  }

  /** The converse, by position: entry `k` is the entry of a tagged element with exactly `k`
      tagged elements before it. */
  lemma ScanEntriesComeFromTaggedElements(els: seq<Element>, k: nat)
    requires k < |ScanElements(els)|
    ensures exists i :: 0 <= i < |els| && els[i].customAttributes && els[i].attributes.Listed?
              && FindValue(els[i].attributes.attributes, KeyAttribute) == Some(ScanElements(els)[k].key)
              && ScanElements(els)[k] == ScannedElement(ScanElements(els)[k].key, Selector(ScanElements(els)[k].key),
                                                        ModeOf(els[i].attributes.attributes))
              && |FilterMap(els[..i], EntryOf)| == k
  {
    FilterMapFrom(els, EntryOf, k);
  }

  /** An element the scan keeps: it has custom attributes, they can be listed, and one of them
      is `data-wording-key`. */
  predicate IsTagged(el: Element)
  {
    el.customAttributes && el.attributes.Listed? && FindValue(el.attributes.attributes, KeyAttribute).Some?
  }

  /** When no attribute read throws, there are exactly as many entries as tagged elements, so
      with `ScanOneEntryPerTaggedElement` every tagged element has exactly one entry. */
  lemma {:induction false} ScanCountsTaggedElements(els: seq<Element>)
    requires forall k :: 0 <= k < |els| ==> !ScanThrows(els[k])
    ensures |ScanElements(els)| == Count(els, IsTagged)
    decreases |els|
  {
    if els != [] {
      var n := |els| - 1;
      assert forall k :: 0 <= k < n ==> els[..n][k] == els[k];
      ScanCountsTaggedElements(els[..n]);
    }
  }

  /** Entries follow the order of the elements: a tagged element's entry comes before the entry
      of any later element. */
  lemma ScanKeepsElementOrder(els: seq<Element>, i: nat, j: nat)
    requires i < j <= |els| && IsTagged(els[i])
    ensures |FilterMap(els[..i], EntryOf)| < |FilterMap(els[..j], EntryOf)|
  {
    FilterMapOrder(els, EntryOf, i, j);
  }

  /** Every scanned entry has a non-empty mode, so the `!mode` test of the apply loop never fires. */
  lemma ScannedModesAreNotEmpty(elements: Result<seq<Element>, Thrown>, e: ScannedElement)
    requires e in ScanOf(elements)
    ensures e.mode != ""
  {
    var els := elements.value;
    FilterMapMember(els, EntryOf, e);
  }

  /** A failing `getAllElements()` or a throwing attribute read gives an empty scan. */
  lemma ScanFailureIsEmpty(elements: Result<seq<Element>, Thrown>)
    requires elements.Err? || exists i | 0 <= i < |elements.value| :: ScanThrows(elements.value[i])
    ensures ScanOf(elements) == []
  {
  }
}
