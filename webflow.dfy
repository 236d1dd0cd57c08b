/** An abstract model of the Webflow Designer host that the deployer drives: the site's pages and
    folders, each page's elements with their capability flags and custom attributes, the active
    page, and the text content of every element. Every host call that can throw carries the
    value it throws. */
module Webflow {
  import opened Wrappers

  /** A thrown value: an `Error` object with its message, or anything else. */
  datatype Thrown = ErrorValue(message: string) | OtherValue

  /** `error instanceof Error ? error.message : fallback`. */
  function MessageOf(t: Thrown, fallback: string): string
  {
    match t
    case ErrorValue(m) => m
    case OtherValue => fallback
  }

  datatype Attribute = Attribute(name: string, value: string)

  /** What `getAllCustomAttributes()` gives: a list, a null value, or a thrown value. */
  datatype AttributeRead = Listed(attributes: seq<Attribute>) | Nothing | Throws(thrown: Thrown)

  /** A host element: its `customAttributes` and `textContent` capability flags, its attributes,
      and whether `setTextContent` throws on it. */
  datatype Element = Element(
    customAttributes: bool,
    textContent: bool,
    attributes: AttributeRead,
    writeFailure: Option<Thrown>)

  /** A page: `getName()` and `getSlug()` (either may throw), what `getAllElements()` gives while
      it is the active page, and whether `switchPage` to it throws. */
  datatype Page = Page(
    name: Result<string, Thrown>,
    slug: Result<string, Thrown>,
    elements: Result<seq<Element>, Thrown>,
    switchFailure: Option<Thrown>)

  /** An entry of `getAllPagesAndFolders()`: a `Page`, or anything else (a folder). */
  datatype Item = PageItem(page: Page) | FolderItem

  /** The text slot of element `element` of the page at position `item`. */
  datatype Slot = Slot(item: nat, element: nat)

  /** The host. Its structure is fixed during a run; the active page and the texts change. */
  class Designer {
    const items: seq<Item>
    const listFailure: Option<Thrown>
    var active: nat
    var texts: map<Slot, string>

    ghost predicate Valid()
      reads this
    {
      active < |items| && items[active].PageItem?
    }

    constructor (items: seq<Item>, listFailure: Option<Thrown>, active: nat, texts: map<Slot, string>)
      requires active < |items| && items[active].PageItem?
      ensures Valid()
      ensures this.items == items && this.listFailure == listFailure
      ensures this.active == active && this.texts == texts
    {
      this.items := items;
      this.listFailure := listFailure;
      this.active := active;
      this.texts := texts;
    }

    function ActivePage(): Page
      reads this
      requires Valid()
    {
      items[active].page
    }

    /** `webflow.getAllElements()`: the elements of the active page. */
    method GetAllElements() returns (r: Result<seq<Element>, Thrown>)
      requires Valid()
      ensures r == ActivePage().elements
    {
      r := items[active].page.elements;
    }

    /** `webflow.getAllPagesAndFolders()`. */
    method GetAllPagesAndFolders() returns (r: Result<seq<Item>, Thrown>)
      ensures listFailure.Some? ==> r == Err(listFailure.value)
      ensures listFailure.None? ==> r == Ok(items)
    {
      if listFailure.Some? {
        r := Err(listFailure.value);
      } else {
        r := Ok(items);
      }
    }

    /** `webflow.switchPage(page)` for the page at position `i`. */
    method SwitchPage(i: nat) returns (failure: Option<Thrown>)
      requires Valid() && i < |items| && items[i].PageItem?
      modifies this`active
      ensures Valid()
      ensures failure == items[i].page.switchFailure
      ensures active == if failure.None? then i else old(active)
    {
      failure := items[i].page.switchFailure;
      if failure.None? {
        active := i;
      }
    }

    /** `el.setTextContent(value)` on element `j` of the active page. */
    method SetTextContent(j: nat, value: string) returns (failure: Option<Thrown>)
      requires Valid() && ActivePage().elements.Ok? && j < |ActivePage().elements.value|
      modifies this`texts
      ensures failure == ActivePage().elements.value[j].writeFailure
      ensures texts == if failure.None? then old(texts)[Slot(active, j) := value] else old(texts)
    {
      failure := items[active].page.elements.value[j].writeFailure;
      if failure.None? {
        texts := texts[Slot(active, j) := value];
      }
    }
  }
}
