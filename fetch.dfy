/**
 * `fetchPageResults(query, start)`: one further result page is requested,
 * a rate-limit page or a failed request yields nothing, and otherwise the
 * page's result containers are filtered down to those worth merging.
 *
 * The network and the HTML parser are outside the model: a request is
 * described by its query and `start` offset, and what came back is given
 * as a `Response` holding the body text and the containers the parser
 * finds in it (`div.g, div.tF2Cxc, div.MjjYud`, in document order).
 */
module Fetch {
  import opened Text
  import opened Dom
  import opened Classifier

  /** `maxPages`: how many further pages are requested. */
  const MaxPages := 9

  /** `/search?q=<query>&start=<start>`. */
  datatype Request = Request(query: string, start: nat)

  /** What one request settled to. */
  datatype Response =
    | Page(html: string, containers: seq<Fragment>)   // the body text, and the result containers parsed from it
    | Failed                                          // the request or reading its body threw

  /**
   * The request loop of `loadResults`: pages 1 to `MaxPages`, page `p`
   * asking for `start = p * 10`, so no request repeats the first page
   * (`start = 0`) or another request.
   */
  method PageRequests(query: string) returns (requests: seq<Request>)
    ensures |requests| == MaxPages
    ensures forall i :: 0 <= i < |requests| ==> requests[i] == Request(query, (i + 1) * 10)
  {
    requests := [];
    var page := 1;
    while page <= MaxPages
      invariant 1 <= page <= MaxPages + 1
      invariant |requests| == page - 1
      invariant forall i :: 0 <= i < |requests| ==> requests[i] == Request(query, (i + 1) * 10)
    {
      requests := requests + [Request(query, page * 10)];
      page := page + 1;
    }
  }

  /** The body is Google's rate-limit or captcha page. */
  predicate IsRateLimited(html: string) {
    Contains(html, "detected unusual traffic") || Contains(html, "captcha")
  }

  /**
   * A parsed container is kept when its text does not say "People also ask"
   * (letter case as written), it has no disclosure control, and it has a
   * heading whose trimmed text is longer than 3 UTF-16 code units and a result link.
   */
  predicate Kept(f: Fragment) {
    && !Contains(f.features.text, "People also ask")
    && DisclosureButton !in f.features.inside
    && |f.headings| > 0
    && FirstResultLink(f.features.anchors).Some?
    && Utf16Length(Trim(f.headings[0])) > 3
  }

  /** `r` is the subsequence of `fs` at the strictly increasing positions `idx`. */
  predicate SubsequenceAt<T(==)>(r: seq<T>, fs: seq<T>, idx: seq<nat>) {
    && |idx| == |r|
    && (forall k :: 0 <= k < |idx| ==> idx[k] < |fs| && r[k] == fs[idx[k]])
    && (forall k, l :: 0 <= k < l < |idx| ==> idx[k] < idx[l])
  }

  /** The positions of the kept containers, in increasing order. */
  function KeptPositions(fs: seq<Fragment>): (idx: seq<nat>)
    ensures forall k :: 0 <= k < |idx| ==> idx[k] < |fs| && Kept(fs[idx[k]])
    ensures forall k, l :: 0 <= k < l < |idx| ==> idx[k] < idx[l]
  {
    if fs == [] then []
    else KeptPositions(fs[..|fs| - 1]) + (if Kept(fs[|fs| - 1]) then [|fs| - 1] else [])
  }

  /** Every position of a container passing the filter is listed. */
  lemma {:induction false} KeptPositionsComplete(fs: seq<Fragment>)
    ensures forall j :: 0 <= j < |fs| && Kept(fs[j]) ==> j in KeptPositions(fs)
  {
    if fs != [] {
      var init, last := fs[..|fs| - 1], fs[|fs| - 1];
      var p := KeptPositions(init);
      KeptPositionsComplete(init);
      assert KeptPositions(fs) == p + (if Kept(last) then [|fs| - 1] else []);
      forall j | 0 <= j < |fs| && Kept(fs[j]) ensures j in KeptPositions(fs) {
        if j < |init| {
          assert init[j] == fs[j] && j in p;
        } else {
          assert fs[j] == last;
        }
      }
    }
  }

  /** The kept containers, in document order. */
  function Filter(fs: seq<Fragment>): (r: seq<Fragment>)
    ensures |r| <= |fs|
    ensures forall f :: f in r <==> f in fs && Kept(f)
  {
    if fs == [] then []
    else Filter(fs[..|fs| - 1]) + (if Kept(fs[|fs| - 1]) then [fs[|fs| - 1]] else [])
  }

  /** The kept containers keep their document order: `Filter` picks them at increasing positions. */
  lemma {:induction false} FilterInOrder(fs: seq<Fragment>)
    ensures SubsequenceAt(Filter(fs), fs, KeptPositions(fs))
  {
    if fs != [] {
      var init, last := fs[..|fs| - 1], fs[|fs| - 1];
      FilterInOrder(init);
      var r0, p0 := Filter(init), KeptPositions(init);
      var r, p := Filter(fs), KeptPositions(fs);
      assert r == r0 + (if Kept(last) then [last] else []);
      assert p == p0 + (if Kept(last) then [|fs| - 1] else []);
      forall k | 0 <= k < |p| ensures r[k] == fs[p[k]] {
        if k < |p0| {
          assert r[k] == r0[k] == init[p0[k]];
        }
      }
    }
  }

  /**
   * What `fetchPageResults` returns for a response: nothing for a failed
   * request or a rate-limit page, and exactly the kept containers otherwise.
   */
  function PageResults(resp: Response): (items: seq<Fragment>)
    ensures resp.Failed? ==> items == []
    ensures resp.Page? && IsRateLimited(resp.html) ==> items == []
    ensures resp.Page? && !IsRateLimited(resp.html) ==>
      |items| <= |resp.containers| && forall f :: f in items <==> f in resp.containers && Kept(f)
  {
    match resp
    case Failed => []
    case Page(html, containers) => if IsRateLimited(html) then [] else Filter(containers)
  }

  /** The results of a page keep the document order of its containers. */
  lemma PageResultsInOrder(resp: Response)
    requires resp.Page? && !IsRateLimited(resp.html)
    ensures SubsequenceAt(PageResults(resp), resp.containers, KeptPositions(resp.containers))
  {
    FilterInOrder(resp.containers);
  }

  /** `fetchPageResults`: the rate-limit test, then one pass over the parsed containers. */
  method FetchPageResults(resp: Response) returns (results: seq<Fragment>)
    ensures results == PageResults(resp)
  {
    if resp.Failed? {
      return [];
    }
    var html := resp.html;
    if Contains(html, "detected unusual traffic") || Contains(html, "captcha") {
      return [];
    }
    var elements := resp.containers;
    results := [];
    var i := 0;
    while i < |elements|
      invariant 0 <= i <= |elements|
      invariant results == Filter(elements[..i])
    {
      var element := elements[i];
      assert elements[..i + 1][..i] == elements[..i];
      i := i + 1;
      if Contains(element.features.text, "People also ask") {
        continue;
      }
      if DisclosureButton in element.features.inside {
        continue;
      }
      if element.headings != [] && FirstResultLink(element.features.anchors).Some?
         && Utf16Length(Trim(element.headings[0])) > 3 {
        results := results + [element];
      }
    }
    assert elements[..i] == elements;
  }

  /**
   * The fetched-page filter matches "People also ask" case-sensitively: a
   * container whose text says "people also ask" is kept from a fetched page,
   * although the classifier of the current page excludes it.
   */
  lemma FetchFilterIsCaseSensitive()
    ensures var f := Fragment(Features({}, {}, "people also ask", [Anchor("http://a", "http://a")]), ["A title"]);
      Kept(f) && IsNonSerpElement(f.features)
  {
    var f := Fragment(Features({}, {}, "people also ask", [Anchor("http://a", "http://a")]), ["A title"]);
    assert Kept(f) by {
      assert IsResultLink(f.features.anchors[0]) by {
        assert "http://a"[..4] == "http";
      }
      assert Trim("A title") == "A title" by {
        assert TrimStart("A title") == "A title";
        assert TrimEnd("A title") == "A title";
      }
      var text := f.features.text;
      assert !StartsWith(text, "People also ask") by {
        assert text[0] != "People also ask"[0];
      }
      NeedleTooLong(text[1..], "People also ask");
    }
    LowerCasePhraseExcluded(f.features);
  }

  /**
   * For a container whose text has no upper-case letter, such as "people also
   * ask", the fetched-page filter decides on the disclosure control, the
   * heading and the link alone.
   */
  lemma LowerCasePhraseIgnored(f: Fragment)
    requires forall i :: 0 <= i < |f.features.text| ==> !IsUpper(f.features.text[i])
    ensures Kept(f) <==>
      && DisclosureButton !in f.features.inside
      && |f.headings| > 0
      && FirstResultLink(f.features.anchors).Some?
      && Utf16Length(Trim(f.headings[0])) > 3
  {
    UpperNeedleNeverInLower(f.features.text, "People also ask", 0);
  }

  lemma LowerCasePhraseExcluded(features: Features)
    requires features.text == "people also ask"
    ensures IsNonSerpElement(features)
  {
    var text := features.text;
    assert Lower(text) == text;
    assert StartsWith(Lower(text), "people also ask");
    NonSerpIff(features);
  }
}
