/**
 * `loadResults`, end to end: without a query nothing happens; otherwise the
 * old rank markers are removed, the current page's results are collected,
 * nine further pages are requested and filtered, everything is merged, and
 * the first 100 items are numbered 1 to 100 in merge order, each fetched
 * one being appended to the page's results region.
 *
 * The network is the parameter `respond`: what each request settles to.
 */
module Aggregation {
  import opened Text
  import opened Dom
  import opened Classifier
  import opened Fetch
  import opened Merge

  /** The results regions `appendToSearchResults` tries, in order. */
  function RegionSelectors(v: Variant): (selectors: seq<string>)
    ensures |selectors| == (if v == ScriptJs then 5 else 4)
    ensures v == ContentJs ==> "#rso" !in selectors
    ensures selectors[|selectors| - 1] == "div[role=\"main\"]"
  {
    match v
    case ScriptJs => ["#rso", "#search", "#center_col", "#main", "div[role=\"main\"]"]
    case ContentJs => ["#search", "#center_col", "#main", "div[role=\"main\"]"]
  }

  /** A heading showing rank `n`: one marker `n. ` first and no other, the attributes set, its title after the marker. */
  ghost predicate RankedAs(h: HeadingNode, n: nat)
    reads h
  {
    && h.Valid()
    && |h.children| >= 1 && h.children[0] == Marker(RankLabel(n))
    && (forall i :: 1 <= i < |h.children| ==> h.children[i].Content?)
    && h.TextContent() == RankLabel(n) + h.title
    && h.numbered == Some(Decimal(n)) && h.processed == Some("true")
  }

  /** The elements that were built, in order. */
  function Placed(placed: seq<Option<ContainerNode>>): (elements: seq<ContainerNode>)
    ensures |elements| <= |placed|
    ensures forall k :: 0 <= k < |elements| ==> Some(elements[k]) in placed
    ensures forall k :: 0 <= k < |placed| && placed[k].Some? ==> placed[k].value in elements
  {
    if placed == [] then []
    else Placed(placed[..|placed| - 1]) + (match placed[|placed| - 1] case Some(el) => [el] case None => [])
  }

  /** Building one more element, or none, extends the built elements by it. */
  lemma PlacedAppend(placed: seq<Option<ContainerNode>>, element: Option<ContainerNode>)
    ensures Placed(placed + [element]) == Placed(placed) + Placed([element])
  {
    assert (placed + [element])[..|placed|] == placed;
  }

  /** Appending a built element to the region extends what `Placed` lists by that element. */
  lemma PlacedExtended(base: seq<ContainerNode>, placed: seq<Option<ContainerNode>>, element: ContainerNode,
                       children: seq<ContainerNode>)
    requires children == base + Placed(placed) + [element]
    ensures children == base + Placed(placed + [Some(element)])
  {
    PlacedAppend(placed, Some(element));
  }

  /** The region `appendToSearchResults` appends to, if any. */
  function Target(doc: Document, selectors: seq<string>): (r: Option<Region>)
    ensures r.Some? ==> r.value in doc.regions.Values
  {
    match FirstPresent(selectors, doc.regions.Keys)
    case Some(i) => Some(doc.regions[selectors[i]])
    case None => None
  }

  /** The heading ranked for an item: the item's own heading, or one parsed from its fetched markup. */
  predicate RankedFrom(e: Entry, h: HeadingNode) {
    match e.origin
    case Current(g) => h == g
    case Fetched(_, f) => f.headings != [] && h.title == f.headings[0] && h.ownerAnchors == f.features.anchors
  }

  /**
   * The fetched branch of the numbering loop, for a fetched item given rank
   * `n`: an element is built around a new heading parsed from the item's
   * markup, the heading is numbered and the element appended to the first
   * results region present.
   */
  method NewResult(doc: Document, selectors: seq<string>, f: Fragment, n: nat)
    returns (h: HeadingNode, element: ContainerNode)
    requires f.headings != []
    modifies doc.regions.Values
    ensures fresh(h) && fresh(element) && element.parsedHeading == Some(h)
    ensures RankedAs(h, n) && h.title == f.headings[0] && h.ownerAnchors == f.features.anchors
    ensures var target := Target(doc, selectors);
      && (target.Some? ==> target.value.children == old(target.value.children) + [element])
      && forall q :: q in doc.regions.Values && Some(q) != target ==> q.children == old(q.children)
  {
    h := new HeadingNode(f.headings[0], f.features.anchors);
    element := new ContainerNode(h);
    h.AddNumber(n);
    var _ := AppendToSearchResults(doc, selectors, element);
  }

  /**
   * The first `|ranked|` items are ranked: item `i` got rank `i + 1` on its
   * heading `ranked[i]`, and `placed[i]` is the element built for it when it
   * was fetched, around a heading that is not one of the page's `headings`.
   */
  ghost predicate AllRanked(entries: seq<Entry>, headings: set<HeadingNode>,
                            ranked: seq<HeadingNode>, placed: seq<Option<ContainerNode>>)
    reads set i | 0 <= i < |ranked| :: ranked[i]
  {
    && |ranked| <= |entries| && |placed| == |ranked|
    && forall i :: 0 <= i < |ranked| ==>
      && RankedAs(ranked[i], i + 1) && RankedFrom(entries[i], ranked[i])
      && (placed[i].Some? <==> entries[i].origin.Fetched?)
      && (placed[i].Some? ==> placed[i].value.parsedHeading == Some(ranked[i]) && ranked[i] !in headings)
  }

  /** Ranking the next item extends the ranked prefix by one. */
  lemma AllRankedAppend(entries: seq<Entry>, headings: set<HeadingNode>,
                        ranked: seq<HeadingNode>, placed: seq<Option<ContainerNode>>,
                        h: HeadingNode, element: Option<ContainerNode>)
    requires AllRanked(entries, headings, ranked, placed) && |ranked| < |entries|
    requires RankedAs(h, |ranked| + 1) && RankedFrom(entries[|ranked|], h)
    requires element.Some? <==> entries[|ranked|].origin.Fetched?
    requires element.Some? ==> element.value.parsedHeading == Some(h) && h !in headings
    ensures AllRanked(entries, headings, ranked + [h], placed + [element])
  {
    var ranked', placed' := ranked + [h], placed + [element];
    forall i | 0 <= i < |ranked'|
      ensures RankedAs(ranked'[i], i + 1) && RankedFrom(entries[i], ranked'[i])
      ensures placed'[i].Some? <==> entries[i].origin.Fetched?
      ensures placed'[i].Some? ==> placed'[i].value.parsedHeading == Some(ranked'[i]) && ranked'[i] !in headings
    {
      if i < |ranked| {
        assert ranked'[i] == ranked[i] && placed'[i] == placed[i];
      }
    }
  }

  /**
   * A page heading not owned by any earlier item is not among the headings
   * ranked so far.
   */
  lemma NotYetRanked(entries: seq<Entry>, headings: set<HeadingNode>,
                     ranked: seq<HeadingNode>, placed: seq<Option<ContainerNode>>, g: HeadingNode)
    requires AllRanked(entries, headings, ranked, placed)
    requires g in headings
    requires forall i :: 0 <= i < |ranked| && entries[i].origin.Current? ==> entries[i].origin.heading != g
    ensures g !in ranked
  {
    forall i | 0 <= i < |ranked| ensures ranked[i] != g {
      if placed[i].None? {
        assert ranked[i] == entries[i].origin.heading;
      }
    }
  }

  /** Headings showing different ranks are different headings. */
  lemma RankedDistinct(entries: seq<Entry>, headings: set<HeadingNode>,
                       ranked: seq<HeadingNode>, placed: seq<Option<ContainerNode>>)
    requires AllRanked(entries, headings, ranked, placed)
    ensures forall i, j :: 0 <= i < j < |ranked| ==> ranked[i] != ranked[j]
  {
    forall i, j | 0 <= i < j < |ranked| ensures ranked[i] != ranked[j] {
      if ranked[i] == ranked[j] {
        DecimalInjective(i + 1, j + 1);
      }
    }
  }

  /**
   * The current branch of the numbering loop: the page's own heading `h`,
   * not ranked before, is numbered `n`; the other headings of the page and
   * the earlier ranks are left as they were.
   */
  method NumberCurrent(doc: Document, h: HeadingNode, n: nat,
                       ghost entries: seq<Entry>, ghost earlier: seq<HeadingNode>, ghost placed: seq<Option<ContainerNode>>)
    requires doc.HeadingsValid() && h in doc.headings && h !in earlier
    requires AllRanked(entries, doc.headings, earlier, placed)
    modifies h
    ensures RankedAs(h, n)
    ensures doc.HeadingsValid()
    ensures AllRanked(entries, doc.headings, earlier, placed)
  {
    h.AddNumber(n);
  }

  /**
   * One step of the numbering loop, for an item given rank `n`: a current
   * item's own heading is numbered; for a fetched item a new element is
   * built, numbered and appended.
   */
  method RankEntry(doc: Document, selectors: seq<string>, e: Entry, n: nat,
                   ghost entries: seq<Entry>, ghost earlier: seq<HeadingNode>, ghost placed: seq<Option<ContainerNode>>,
                   ghost base: seq<ContainerNode>)
    returns (h: HeadingNode, element: Option<ContainerNode>)
    requires doc.HeadingsValid()
    requires e.origin.Current? ==> e.origin.heading in doc.headings && e.origin.heading !in earlier
    requires e.origin.Fetched? ==> e.origin.fragment.headings != []
    requires AllRanked(entries, doc.headings, earlier, placed)
    requires var target := Target(doc, selectors); target.Some? ==> target.value.children == base + Placed(placed)
    modifies (if e.origin.Current? then {e.origin.heading} else {}), doc.regions.Values
    ensures RankedAs(h, n) && RankedFrom(e, h)
    ensures element.Some? <==> e.origin.Fetched?
    ensures element.Some? ==> fresh(h) && fresh(element.value) && element.value.parsedHeading == Some(h) && h !in doc.headings
    ensures var target := Target(doc, selectors);
      && (target.Some? ==> target.value.children == base + Placed(placed + [element]))
      && forall q :: q in doc.regions.Values && Some(q) != target ==> q.children == old(q.children)
    ensures doc.HeadingsValid()
    ensures AllRanked(entries, doc.headings, earlier, placed)
  {
    match e.origin {
      case Current(current) =>
        h := current;
        NumberCurrent(doc, h, n, entries, earlier, placed);
        element := None;
        PlacedAppend(placed, element);
      case Fetched(_, f) =>
        var el;
        h, el := RankFetched(doc, selectors, f, n, entries, earlier, placed, base);
        element := Some(el);
        ghost var target := Target(doc, selectors);
        if target.Some? {
          PlacedExtended(base, placed, el, target.value.children);
        }
    }
  }

  /**
   * The fetched branch of the numbering loop: a new numbered heading and its
   * element, appended to the target region; the page's headings and the
   * earlier ranks are left as they were.
   */
  method RankFetched(doc: Document, selectors: seq<string>, f: Fragment, n: nat,
                     ghost entries: seq<Entry>, ghost earlier: seq<HeadingNode>, ghost placed: seq<Option<ContainerNode>>,
                     ghost base: seq<ContainerNode>)
    returns (h: HeadingNode, element: ContainerNode)
    requires f.headings != []
    requires doc.HeadingsValid() && AllRanked(entries, doc.headings, earlier, placed)
    requires var target := Target(doc, selectors); target.Some? ==> target.value.children == base + Placed(placed)
    modifies doc.regions.Values
    ensures fresh(h) && fresh(element) && element.parsedHeading == Some(h) && h !in doc.headings
    ensures RankedAs(h, n) && h.title == f.headings[0] && h.ownerAnchors == f.features.anchors
    ensures var target := Target(doc, selectors);
      && (target.Some? ==> target.value.children == base + Placed(placed) + [element])
      && forall q :: q in doc.regions.Values && Some(q) != target ==> q.children == old(q.children)
    ensures doc.HeadingsValid() && AllRanked(entries, doc.headings, earlier, placed)
  {
    h, element := NewResult(doc, selectors, f, n);
  }

  /**
   * What the numbering loop needs of the merged list: every current item's
   * heading is on the page, every fetched item has a heading, and no
   * heading of the page appears twice.
   */
  predicate Rankable(entries: seq<Entry>, headings: set<HeadingNode>) {
    && (forall e :: e in entries && e.origin.Current? ==> e.origin.heading in headings)
    && (forall e :: e in entries && e.origin.Fetched? ==> e.origin.fragment.headings != [])
    && (forall i, j :: 0 <= i < j < |entries| && entries[i].origin.Current? && entries[j].origin.Current? ==>
          entries[i].origin.heading != entries[j].origin.heading)
  }

  /**
   * The numbering loop of `loadResults`: the item at index `k` of the merged
   * list, for `k` below 100, gets rank `k + 1`; a current item's own heading
   * is numbered, a fetched item's heading is numbered and its element is
   * appended to the first results region present.  `ranked[k]` is the
   * heading given rank `k + 1` and `placed[k]` the element built for it, if
   * any.
   */
  method WriteResults(doc: Document, selectors: seq<string>, entries: seq<Entry>)
    returns (ranked: seq<HeadingNode>, placed: seq<Option<ContainerNode>>)
    requires doc.HeadingsValid() && Rankable(entries, doc.headings)
    modifies doc.headings, doc.regions.Values
    ensures |ranked| == (if |entries| < Cap then |entries| else Cap) && |placed| == |ranked|
    ensures AllRanked(entries, doc.headings, ranked, placed)
    ensures forall i, j :: 0 <= i < j < |ranked| ==> ranked[i] != ranked[j]
    ensures var target := Target(doc, selectors);
      && (target.Some? ==> target.value.children == old(target.value.children) + Placed(placed))
      && forall q :: q in doc.regions.Values && Some(q) != target ==> q.children == old(q.children)
    ensures doc.HeadingsValid()
  {
    ghost var target := Target(doc, selectors);
    ghost var base := if target.Some? then target.value.children else [];
    ranked := [];
    placed := [];
    var resultNumber := 1;
    var k := 0;
    // Once `resultNumber` passes 100 every later item is skipped, so the
    // walk can stop there.
    while k < |entries| && resultNumber <= Cap
      invariant 0 <= k <= |entries| && k <= Cap
      invariant |ranked| == k && resultNumber == k + 1 && |placed| == k
      invariant AllRanked(entries, doc.headings, ranked, placed)
      invariant target.Some? ==> target.value.children == base + Placed(placed)
      invariant forall q :: q in doc.regions.Values && Some(q) != target ==> q.children == old(q.children)
      invariant doc.HeadingsValid()
    {
      ranked, placed := RankStep(doc, selectors, entries, resultNumber, ranked, placed, base);
      resultNumber := resultNumber + 1;
      k := k + 1;
    }
    RankedDistinct(entries, doc.headings, ranked, placed);
  }

  /**
   * One pass of the numbering loop: the next item of the merged list gets
   * rank `n`, extending the ranked prefix by one; only the target region
   * changes among the regions.
   */
  method RankStep(doc: Document, selectors: seq<string>, entries: seq<Entry>, n: nat,
                  ranked: seq<HeadingNode>, placed: seq<Option<ContainerNode>>, ghost base: seq<ContainerNode>)
    returns (ranked': seq<HeadingNode>, placed': seq<Option<ContainerNode>>)
    requires doc.HeadingsValid() && Rankable(entries, doc.headings)
    requires |ranked| < |entries| && n == |ranked| + 1
    requires AllRanked(entries, doc.headings, ranked, placed)
    requires var target := Target(doc, selectors); target.Some? ==> target.value.children == base + Placed(placed)
    modifies doc.headings, doc.regions.Values
    ensures |ranked'| == |ranked| + 1 && ranked'[..|ranked|] == ranked
    ensures AllRanked(entries, doc.headings, ranked', placed')
    ensures var target := Target(doc, selectors);
      && (target.Some? ==> target.value.children == base + Placed(placed'))
      && forall q :: q in doc.regions.Values && Some(q) != target ==> q.children == old(q.children)
    ensures doc.HeadingsValid()
  {
    var e := entries[|ranked|];
    assert e in entries;
    if e.origin.Current? {
      NotYetRanked(entries, doc.headings, ranked, placed, e.origin.heading);
    }
    var h, element := RankEntry(doc, selectors, e, n, entries, ranked, placed, base);
    AllRankedAppend(entries, doc.headings, ranked, placed, h, element);
    ranked' := ranked + [h];
    placed' := placed + [element];
    assert ranked'[..|ranked|] == ranked;
  }

  /** How a run ends: without a query, or with the number of ranks handed out. */
  datatype Outcome = NoQuery | Complete(count: nat)

  /**
   * The result lists of the nine further pages, as `respond` settles their
   * requests: a failed request or a rate-limit page contributes nothing, and
   * every result is a container of its page that passes the filter.
   */
  function FetchedPages(query: string, respond: Request -> Response): (pages: seq<seq<Fragment>>)
    ensures |pages| == MaxPages
    ensures forall i :: 0 <= i < MaxPages ==> pages[i] == PageResults(respond(Request(query, (i + 1) * 10)))
    ensures forall i, f :: 0 <= i < MaxPages && f in pages[i] ==>
      var resp := respond(Request(query, (i + 1) * 10));
      resp.Page? && !IsRateLimited(resp.html) && f in resp.containers && Kept(f)
  {
    seq(MaxPages, i requires 0 <= i < MaxPages => PageResults(respond(Request(query, (i + 1) * 10))))
  }

  /**
   * The nine page requests of `loadResults`, issued together and awaited in
   * order; each settles to the filtered results of its page.
   */
  method FetchPages(query: string, respond: Request -> Response)
    returns (requests: seq<Request>, pages: seq<seq<Fragment>>)
    ensures |requests| == MaxPages
    ensures forall i :: 0 <= i < |requests| ==> requests[i] == Request(query, (i + 1) * 10)
    ensures pages == FetchedPages(query, respond)
  {
    requests := PageRequests(query);
    pages := [];
    var i := 0;
    while i < |requests|
      invariant 0 <= i <= |requests| && |pages| == i
      invariant forall j :: 0 <= j < i ==> pages[j] == PageResults(respond(requests[j]))
    {
      var results := FetchPageResults(respond(requests[i]));
      pages := pages + [results];
      i := i + 1;
    }
  }

  /** Every heading found on a well-formed page is one of the page's headings. */
  lemma CurrentHeadingsOnPage(doc: Document)
    requires doc.Valid()
    ensures forall h :: h in CurrentHeadings(doc.containers) ==> h in doc.headings
  {
    forall h | h in CurrentHeadings(doc.containers) ensures h in doc.headings {
      CurrentHeadingsSound(doc.containers, h);
      var c :| c in doc.containers && CurrentHeading(c) == Some(h);
    }
  }

  /**
   * The part of `loadResults` before numbering: the old markers are removed,
   * the current results found, the nine further pages requested and
   * filtered, and everything merged into one list fit for numbering.
   */
  method Gather(doc: Document, v: Variant, query: string, respond: Request -> Response)
    returns (requests: seq<Request>, all: seq<Entry>)
    requires doc.Valid()
    modifies doc.headings, set c | c in doc.containers :: c.node
    ensures |requests| == MaxPages
    ensures forall i :: 0 <= i < |requests| ==> requests[i] == Request(query, (i + 1) * 10)
    ensures all == Merged(v, CurrentHeadings(doc.containers), FetchedPages(query, respond))
    ensures forall h :: h in doc.headings ==>
      && h.children == Unmarked(old(h.children)) && h.strayMarkers == 0
      && h.numbered == old(h.numbered) && h.processed == old(h.processed)
    ensures doc.HeadingsValid() && Rankable(all, doc.headings)
    ensures forall c :: c in doc.containers ==> c.node.found == (old(c.node.found) || CurrentHeading(c).Some?)
  {
    doc.ClearMarkers();
    CurrentHeadingsOnPage(doc);
    var existing := FindCurrentResults(doc.containers);
    var pages;
    requests, pages := FetchPages(query, respond);
    all := MergeResults(v, existing, pages);
    MergedOrigins(v, existing, pages);
    MergedHeadingsDistinct(v, existing, pages);
  }

  /**
   * `loadResults`: without a query (`q` absent or empty) nothing changes;
   * otherwise the merged list is gathered and its first 100 items ranked,
   * `min(allResults.length, 100)` being the count the status line reports.
   * `requests` are the page requests issued, `ranked` and `placed` describe
   * the numbering as in `WriteResults`; the network is `respond`.
   */
  method LoadResults(doc: Document, v: Variant, query: Option<string>, respond: Request -> Response)
    returns (outcome: Outcome, requests: seq<Request>, ranked: seq<HeadingNode>, placed: seq<Option<ContainerNode>>)
    requires doc.Valid()
    modifies doc.headings, doc.regions.Values, set c | c in doc.containers :: c.node
    ensures query.None? || query == Some("") ==> outcome == NoQuery && requests == [] && ranked == [] && placed == []
    ensures query.None? || query == Some("") ==>
      unchanged(doc.headings) && unchanged(doc.regions.Values) && unchanged(set c | c in doc.containers :: c.node)
    ensures query.Some? && query != Some("") ==>
      var all := Merged(v, CurrentHeadings(doc.containers), FetchedPages(query.value, respond));
      && outcome == Complete(if |all| < Cap then |all| else Cap)
      && |requests| == MaxPages
      && (forall i :: 0 <= i < MaxPages ==> requests[i] == Request(query.value, (i + 1) * 10))
      && |ranked| == outcome.count
      && AllRanked(all, doc.headings, ranked, placed)
    ensures query.Some? && query != Some("") ==>
      var target := Target(doc, RegionSelectors(v));
      target.Some? ==> target.value.children == old(target.value.children) + Placed(placed)
  {
    if query.None? || query.value == "" {
      return NoQuery, [], [], [];
    }
    var all;
    requests, all := Gather(doc, v, query.value, respond);
    ranked, placed := WriteResults(doc, RegionSelectors(v), all);
    outcome := Complete(if |all| < Cap then |all| else Cap);
  }
}
