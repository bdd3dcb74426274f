/**
 * The parts of the host page the aggregation reads and writes: result
 * headings (`h3`), result containers (`div.g`, `div.tF2Cxc`, `div.MjjYud`),
 * and the results regions that fetched items are appended to.
 *
 * Selector queries (`querySelector`, `closest`) belong to the browser; the
 * model receives what they observe as data (`Features`), and keeps as
 * objects only what the scripts change in place: headings, the containers'
 * `data-g100-found` mark and the regions' children.
 */
module Dom {
  import opened Text

  datatype Option<+T> = None | Some(value: T)

  /** An `<a>` element: its `href` attribute as written, and the absolute URL `a.href` resolves it to. */
  datatype Anchor = Anchor(attr: string, href: string)

  /** Matched by `a[href^="http"], a[href^="/url?"]`: an absolute link or a redirect link. */
  predicate IsResultLink(a: Anchor) {
    StartsWith(a.attr, "http") || StartsWith(a.attr, "/url?")
  }

  /** The index of the first result link of a list of anchors (its length when there is none). */
  function FirstResultLinkIndex(anchors: seq<Anchor>): (r: nat)
    ensures r <= |anchors|
    ensures r < |anchors| ==> IsResultLink(anchors[r])
    ensures forall j :: 0 <= j < r ==> !IsResultLink(anchors[j])
  {
    if anchors == [] || IsResultLink(anchors[0]) then 0 else 1 + FirstResultLinkIndex(anchors[1..])
  }

  /** `el.querySelector('a[href^="http"], a[href^="/url?"]')`: the first result link in document order. */
  function FirstResultLink(anchors: seq<Anchor>): (r: Option<Anchor>)
    ensures r.None? <==> forall i :: 0 <= i < |anchors| ==> !IsResultLink(anchors[i])
    ensures r.Some? ==> IsResultLink(r.value)
    ensures r.Some? ==> exists i :: 0 <= i < |anchors| && anchors[i] == r.value
                                  && forall j :: 0 <= j < i ==> !IsResultLink(anchors[j])
  {
    var i := FirstResultLinkIndex(anchors);
    if i < |anchors| then Some(anchors[i]) else None
  }

  /** `[role="button"][aria-expanded]`: a disclosure control (question and accordion widgets). */
  const DisclosureButton := "[role=\"button\"][aria-expanded]"

  /** What the selector queries observe about one element. */
  datatype Features = Features(
    inside: set<string>,    // selectors some descendant matches: `el.querySelector(sel)` finds something
    around: set<string>,    // selectors the element or an ancestor matches: `el.closest(sel)` finds something
    text: string,           // `el.textContent`
    anchors: seq<Anchor>)   // the `<a>` descendants, in document order

  /** A child of a heading: a rank marker (`span.result-number`) or anything else, by its text. */
  datatype Child = Marker(mark: string) | Content(text: string)

  /** The concatenated text of a list of children (`textContent`). */
  function TextOf(cs: seq<Child>): string {
    if cs == [] then []
    else (match cs[0] case Marker(l) => l case Content(t) => t) + TextOf(cs[1..])
  }

  /** The children that are not rank markers, in their order. */
  function Unmarked(cs: seq<Child>): (r: seq<Child>)
    ensures |r| <= |cs|
    ensures forall i :: 0 <= i < |r| ==> r[i].Content?
  {
    if cs == [] then []
    else (if cs[0].Marker? then [] else [cs[0]]) + Unmarked(cs[1..])
  }

  /** Removing markers from marker-free children changes nothing. */
  lemma {:induction false} UnmarkedOfContent(cs: seq<Child>)
    requires forall i :: 0 <= i < |cs| ==> cs[i].Content?
    ensures Unmarked(cs) == cs
  {
    if cs != [] {
      UnmarkedOfContent(cs[1..]);
    }
  }

  /** The label written into a rank marker: the rank, a period and a space. */
  function RankLabel(n: nat): string {
    Decimal(n) + ". "
  }

  /** An `h3` of the page. */
  class HeadingNode {
    const title: string                // its text, rank markers left out
    const ownerAnchors: seq<Anchor>    // the links of its nearest enclosing result container
    const inDiv: bool                  // whether `closest('div')` finds an ancestor
    var children: seq<Child>
    var strayMarkers: nat              // rank markers under that `div` ancestor but outside this heading
    var numbered: Option<string>       // attribute data-g100-numbered
    var processed: Option<string>      // attribute data-g100-processed

    /** The heading's non-marker children spell its title. */
    ghost predicate Valid()
      reads this
    {
      TextOf(Unmarked(children)) == title
    }

    /** `textContent` of the heading, rank markers included. */
    function TextContent(): string
      reads this
    {
      TextOf(children)
    }

    /** A heading parsed from fetched markup: its text, and the links of the result element holding it. */
    constructor (title: string, ownerAnchors: seq<Anchor>)
      ensures Valid()
      ensures this.title == title && this.ownerAnchors == ownerAnchors && inDiv
      ensures children == [Content(title)] && strayMarkers == 0
      ensures numbered == None && processed == None
    {
      this.title := title;
      this.ownerAnchors := ownerAnchors;
      inDiv := true;
      children := [Content(title)];
      strayMarkers := 0;
      numbered := None;
      processed := None;
    }

    /**
     * `addNumberToResult(h3, n)`: drop every old marker of the heading and
     * of its nearest `div`, insert one marker `n. ` as the first child, and
     * record the rank and the processed flag as attributes.
     */
    method AddNumber(n: nat)
      requires Valid()
      modifies this
      ensures Valid()
      ensures |children| >= 1 && children[0] == Marker(RankLabel(n))
      ensures forall i :: 1 <= i < |children| ==> children[i].Content?
      ensures children[1..] == Unmarked(old(children))
      ensures TextContent() == RankLabel(n) + title
      ensures strayMarkers == if inDiv then 0 else old(strayMarkers)
      ensures numbered == Some(Decimal(n)) && processed == Some("true")
    {
      children := Unmarked(children);
      if inDiv {
        strayMarkers := 0;
      }
      var span := Marker(RankLabel(n));
      if children != [] {
        children := [span] + children;
      } else {
        children := children + [span];
      }
      UnmarkedOfContent(children[1..]);
      assert Unmarked(children) == children[1..];
      numbered := Some(Decimal(n));
      processed := Some("true");
    }
  }

  /** Numbering a heading again leaves exactly what numbering it once with the new rank would. */
  lemma RenumberForgetsOldRank(cs: seq<Child>, m: nat, n: nat)
    ensures [Marker(RankLabel(n))] + Unmarked([Marker(RankLabel(m))] + Unmarked(cs))
         == [Marker(RankLabel(n))] + Unmarked(cs)
  {
    assert ([Marker(RankLabel(m))] + Unmarked(cs))[1..] == Unmarked(cs);
    UnmarkedOfContent(Unmarked(cs));
  }

  /** `querySelector('h3:not([data-g100-numbered])')` over a list of headings in document order. */
  function FirstUnnumbered(hs: seq<HeadingNode>): (r: Option<HeadingNode>)
    reads set h | h in hs
    ensures r.Some? ==> r.value.numbered.None?
    ensures r.Some? ==> exists i :: 0 <= i < |hs| && hs[i] == r.value
                                  && forall j :: 0 <= j < i ==> hs[j].numbered.Some?
    ensures r.None? ==> forall h :: h in hs ==> h.numbered.Some?
  {
    if hs == [] then None
    else if hs[0].numbered.None? then Some(hs[0])
    else FirstUnnumbered(hs[1..])
  }

  /** The first un-numbered heading depends on the headings' `data-g100-numbered` attributes alone. */
  twostate lemma {:induction false} FirstUnnumberedUnchanged(hs: seq<HeadingNode>)
    requires forall h :: h in hs ==> h.numbered == old(h.numbered)
    ensures FirstUnnumbered(hs) == old(FirstUnnumbered(hs))
  {
    if hs != [] {
      FirstUnnumberedUnchanged(hs[1..]);
    }
  }

  /** A result container element (`div.g`, `div.tF2Cxc` or `div.MjjYud`). */
  class ContainerNode {
    const parsedHeading: Option<HeadingNode>   // for an element built from fetched markup: its `h3`
    var found: bool                            // attribute data-g100-found

    /** An element built from fetched markup around the heading `h3`. */
    constructor (h3: HeadingNode)
      ensures parsedHeading == Some(h3) && !found
    {
      parsedHeading := Some(h3);
      found := false;
    }
  }

  /** A results region of the page; `children` are the result elements appended to it. */
  class Region {
    var children: seq<ContainerNode>
  }

  /** A result container of the live page, as the classifier sees it. */
  datatype Container = Container(
    node: ContainerNode,
    processed: Option<string>,      // `getAttribute('data-g100-processed')`
    features: Features,
    h3s: seq<HeadingNode>,          // its `h3` descendants, in document order
    heading: Option<HeadingNode>)   // `querySelector('h3:not([data-g100-numbered])')` before the run

  /** A result container parsed from a fetched page: what it observes, and the texts of its `h3`s. */
  datatype Fragment = Fragment(features: Features, headings: seq<string>)

  /** The live page. */
  class Document {
    const headings: set<HeadingNode>        // every `h3` of the page
    const containers: seq<Container>        // `querySelectorAll('div.g, div.tF2Cxc, div.MjjYud')`
    const regions: map<string, Region>      // each results-region selector that matches, with its first match

    /** Every heading's non-marker children spell its title. */
    ghost predicate HeadingsValid()
      reads this, headings
    {
      forall h :: h in headings ==> h.Valid()
    }

    /**
     * Before a run: the headings are valid, each container's headings are
     * headings of the page and its un-numbered heading is the first of them
     * without the attribute, and the containers are distinct.
     */
    ghost predicate Valid()
      reads this, headings
    {
      && HeadingsValid()
      && (forall c :: c in containers ==>
            && (forall h :: h in c.h3s ==> h in headings)
            && c.heading == FirstUnnumbered(c.h3s))
      && (forall i, j :: 0 <= i < j < |containers| ==> containers[i].node != containers[j].node)
    }

    /** `document.querySelectorAll('.result-number').forEach(num => num.remove())`. */
    method ClearMarkers()
      requires Valid()
      modifies headings
      ensures Valid()
      ensures forall h :: h in headings ==>
        && h.children == Unmarked(old(h.children)) && h.strayMarkers == 0
        && h.TextContent() == h.title
        && h.numbered == old(h.numbered) && h.processed == old(h.processed)
    {
      forall h | h in headings {
        h.children := Unmarked(h.children);
      }
      forall h | h in headings {
        h.strayMarkers := 0;
      }
      forall h | h in headings ensures h.Valid() && h.TextContent() == h.title {
        UnmarkedOfContent(h.children);
      }
      forall c | c in containers ensures c.heading == FirstUnnumbered(c.h3s) {
        FirstUnnumberedUnchanged(c.h3s);
      }
    }
  }

  /** The index of the first selector of the list that matches something, if any. */
  function FirstPresent(selectors: seq<string>, present: set<string>): (r: Option<nat>)
    ensures r.Some? ==> r.value < |selectors| && selectors[r.value] in present
                        && forall j :: 0 <= j < r.value ==> selectors[j] !in present
    ensures r.None? ==> forall j :: 0 <= j < |selectors| ==> selectors[j] !in present
  {
    if selectors == [] then None
    else if selectors[0] in present then Some(0)
    else match FirstPresent(selectors[1..], present)
      case None => None
      case Some(i) => Some(i + 1)
  }

  /**
   * `appendToSearchResults(el)`: append `el` to the first region of the
   * ordered selector list that exists; when none exists nothing changes.
   */
  method AppendToSearchResults(doc: Document, selectors: seq<string>, el: ContainerNode)
    returns (placed: Option<nat>)
    modifies doc.regions.Values
    ensures placed == FirstPresent(selectors, doc.regions.Keys)
    ensures placed.Some? ==>
      var r := doc.regions[selectors[placed.value]];
      && r.children == old(r.children) + [el]
      && forall q :: q in doc.regions.Values && q != r ==> q.children == old(q.children)
    ensures placed.None? ==> forall q :: q in doc.regions.Values ==> q.children == old(q.children)
  {
    var i := 0;
    while i < |selectors|
      invariant 0 <= i <= |selectors|
      invariant forall j :: 0 <= j < i ==> selectors[j] !in doc.regions
    {
      if selectors[i] in doc.regions {
        var r := doc.regions[selectors[i]];
        r.children := r.children + [el];
        placed := Some(i);
        assert FirstPresent(selectors, doc.regions.Keys) == placed by {
          FirstPresentIsFirst(selectors, doc.regions.Keys, i);
        }
        return;
      }
      i := i + 1;
    }
    placed := None;
  }

  /** The first present selector is determined by the one found and the absent ones before it. */
  lemma {:induction false} FirstPresentIsFirst(selectors: seq<string>, present: set<string>, i: nat)
    requires i < |selectors| && selectors[i] in present
    requires forall j :: 0 <= j < i ==> selectors[j] !in present
    ensures FirstPresent(selectors, present) == Some(i)
  {
    if i > 0 {
      FirstPresentIsFirst(selectors[1..], present, i - 1);
    }
  }
}
