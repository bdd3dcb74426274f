/**
 * The current-page classifier: `isNonSerpElement`, an ordered list of
 * exclusion checks over a result container, and `findCurrentResults`, which
 * keeps the un-numbered heading of every clean, unprocessed container.
 * script.js and content.js carry the same code here.
 */
module Classifier {
  import opened Text
  import opened Dom

  /** The container classes whose presence around a container marks it as a special block. */
  const SpecialParents: seq<string> :=
    [".related-question-pair", ".knowledge-panel", ".ads-ad", ".shopping-results", ".images"]

  /** One exclusion test over a container. */
  datatype Check =
    | Has(selector: string)                   // `container.querySelector(selector)` finds something
    | Within(selector: string)                // `container.closest(selector)` finds something
    | HasWithin(inner: string, outer: string) // both of the above, for two selectors
    | Says(phrase: string)                    // `container.textContent.toLowerCase().includes(phrase)`

  predicate Holds(check: Check, f: Features) {
    match check
    case Has(s) => s in f.inside
    case Within(s) => s in f.around
    case HasWithin(i, o) => i in f.inside && o in f.around
    case Says(p) => Contains(Lower(f.text), p)
  }

  /**
   * The ad-label phrase exactly as the source spells it: the characters
   * a, d, U+00C2, U+00B7 (the UTF-8 bytes of "ad·" read back as Latin-1).
   */
  const AdLabelAsWritten := "ad\U{00C2}\U{00B7}"

  /** The ad-label phrase the check is after: "ad·", as in the "Ad·" label of text ads. */
  const AdLabel := "ad\U{00B7}"

  /** The checks of `isNonSerpElement`, in the order it applies them, with a given ad-label phrase. */
  function ChecksWith(adLabel: string): (checks: seq<Check>)
    ensures |checks| == 17
  {
    [ Has(DisclosureButton), Has(".related-question-pair"), Says("people also ask"),
      Has("[data-text-ad]"), Says(adLabel), Has(".ads-ad"),
      Has(".shopping-result"),
      HasWithin("[role=\"listitem\"]", "[role=\"list\"]"),
      Has(".knowledge-panel"), Within(".knowledge-panel"),
      HasWithin("img", ".images"),
      Has(".local-result"),
      Within(SpecialParents[0]), Within(SpecialParents[1]), Within(SpecialParents[2]),
      Within(SpecialParents[3]), Within(SpecialParents[4]) ]
  }

  /** Early-return evaluation of a check list: the index of the first check that holds. */
  function FirstHit(checks: seq<Check>, f: Features): (r: Option<nat>)
    ensures r.Some? ==> r.value < |checks| && Holds(checks[r.value], f)
                        && forall j :: 0 <= j < r.value ==> !Holds(checks[j], f)
    ensures r.None? ==> forall j :: 0 <= j < |checks| ==> !Holds(checks[j], f)
  {
    if checks == [] then None
    else if Holds(checks[0], f) then Some(0)
    else match FirstHit(checks[1..], f)
      case None => None
      case Some(i) => Some(i + 1)
  }

  /** `isNonSerpElement` as written: its ad-label check can never fire (see `AdLabelAsWrittenNeverHolds`). */
  predicate IsNonSerpElementAsWritten(f: Features) {
    FirstHit(ChecksWith(AdLabelAsWritten), f).Some?
  }

  /** `isNonSerpElement` with the ad-label check looking for "ad·"; the rest of the model uses this one. */
  predicate IsNonSerpElement(f: Features) {
    FirstHit(ChecksWith(AdLabel), f).Some?
  }

  /** The conditions `isNonSerpElement` tests, as one disjunction with no order among them. */
  predicate Excluded(f: Features) {
    || DisclosureButton in f.inside
    || ".related-question-pair" in f.inside
    || Contains(Lower(f.text), "people also ask")
    || "[data-text-ad]" in f.inside
    || Contains(Lower(f.text), AdLabel)
    || ".ads-ad" in f.inside
    || ".shopping-result" in f.inside
    || ("[role=\"listitem\"]" in f.inside && "[role=\"list\"]" in f.around)
    || ".knowledge-panel" in f.inside
    || ("img" in f.inside && ".images" in f.around)
    || ".local-result" in f.inside
    || (exists i :: 0 <= i < |SpecialParents| && SpecialParents[i] in f.around)
  }

  /**
   * The ordered, early-return check list excludes a container exactly when
   * one of the listed conditions holds of it: the order of the checks does
   * not change the verdict.
   */
  lemma NonSerpIff(f: Features)
    ensures IsNonSerpElement(f) <==> Excluded(f)
  {
    ExcludedIsNonSerp(f);
    NonSerpIsExcluded(f);
  }

  lemma ExcludedIsNonSerp(f: Features)
    ensures Excluded(f) ==> IsNonSerpElement(f)
  {
    if !IsNonSerpElement(f) {
      MissesMarkers(f);
      MissesAds(f);
      MissesPanels(f);
      MissesSpecialParents(f);
    }
  }

  /** No check holds: no disclosure control, question block or question phrase. */
  lemma MissesMarkers(f: Features)
    requires FirstHit(ChecksWith(AdLabel), f).None?
    ensures DisclosureButton !in f.inside && ".related-question-pair" !in f.inside
    ensures !Contains(Lower(f.text), "people also ask")
  {
    var checks := ChecksWith(AdLabel);
    assert !Holds(checks[0], f) && !Holds(checks[1], f) && !Holds(checks[2], f);
  }

  /** No check holds: no ad marker, ad label, ad block or shopping result. */
  lemma MissesAds(f: Features)
    requires FirstHit(ChecksWith(AdLabel), f).None?
    ensures "[data-text-ad]" !in f.inside && !Contains(Lower(f.text), AdLabel)
    ensures ".ads-ad" !in f.inside && ".shopping-result" !in f.inside
  {
    var checks := ChecksWith(AdLabel);
    assert !Holds(checks[3], f) && !Holds(checks[4], f) && !Holds(checks[5], f) && !Holds(checks[6], f);
  }

  /** No check holds: no list item in a list, knowledge panel, image pack or local result. */
  lemma MissesPanels(f: Features)
    requires FirstHit(ChecksWith(AdLabel), f).None?
    ensures !("[role=\"listitem\"]" in f.inside && "[role=\"list\"]" in f.around)
    ensures ".knowledge-panel" !in f.inside && !("img" in f.inside && ".images" in f.around)
    ensures ".local-result" !in f.inside
  {
    var checks := ChecksWith(AdLabel);
    assert !Holds(checks[7], f) && !Holds(checks[8], f) && !Holds(checks[10], f) && !Holds(checks[11], f);
  }

  /** No check holds: no special parent block around the container. */
  lemma MissesSpecialParents(f: Features)
    requires FirstHit(ChecksWith(AdLabel), f).None?
    ensures forall i :: 0 <= i < |SpecialParents| ==> SpecialParents[i] !in f.around
  {
    var checks := ChecksWith(AdLabel);
    assert !Holds(checks[12], f) && !Holds(checks[13], f) && !Holds(checks[14], f);
    assert !Holds(checks[15], f) && !Holds(checks[16], f);
    forall i | 0 <= i < |SpecialParents| ensures SpecialParents[i] !in f.around {
      assert i == 0 || i == 1 || i == 2 || i == 3 || i == 4;
    }
  }

  lemma NonSerpIsExcluded(f: Features)
    ensures IsNonSerpElement(f) ==> Excluded(f)
  {
    var checks := ChecksWith(AdLabel);
    if IsNonSerpElement(f) {
      var j := FirstHit(checks, f).value;
      if 12 <= j {
        assert SpecialParents[j - 12] in f.around;
      }
    }
  }

  /** The ad-label check as written never holds: lower-casing turns U+00C2 into U+00E2. */
  lemma AdLabelAsWrittenNeverHolds(f: Features)
    ensures !Holds(Says(AdLabelAsWritten), f)
  {
    assert IsUpper(AdLabelAsWritten[2]);
    UpperNeedleNeverInLower(Lower(f.text), AdLabelAsWritten, 2);
  }

  /** A container labelled only as a text ad ("Ad· ..."): kept by the code as written, excluded as intended. */
  lemma AdLabelledContainerSlipsThrough()
    ensures var f := Features({}, {}, "Ad\U{00B7} shop", []);
      !IsNonSerpElementAsWritten(f) && IsNonSerpElement(f)
  {
    var f := Features({}, {}, "Ad\U{00B7} shop", []);
    var low := Lower(f.text);
    assert |low| == 8 < |"people also ask"|;
    assert low[..3] == AdLabel by {
      assert low[0] == 'a' && low[1] == 'd' && low[2] == '\U{00B7}';
    }
    ContainsAt(low, AdLabel, 0);
    assert Holds(ChecksWith(AdLabel)[4], f);
    NeedleTooLong(low, "people also ask");
    AdLabelAsWrittenNeverHolds(f);
    OnlyPhrasesCanHold(ChecksWith(AdLabelAsWritten), f);
  }

  /** With no selector matches, only the phrase checks of the list can hold. */
  lemma OnlyPhrasesCanHold(checks: seq<Check>, f: Features)
    requires checks == ChecksWith(AdLabelAsWritten)
    requires f.inside == {} && f.around == {}
    requires !Holds(checks[2], f) && !Holds(checks[4], f)
    ensures FirstHit(checks, f).None?
  {
    PhraseChecksAt(AdLabelAsWritten);
    forall j | 0 <= j < |checks| ensures !Holds(checks[j], f) {
      if j != 2 && j != 4 {
        assert !checks[j].Says?;
      }
    }
  }

  /** Only the third and fifth checks of the list test the container's text. */
  lemma PhraseChecksAt(adLabel: string)
    ensures forall j :: 0 <= j < |ChecksWith(adLabel)| && j != 2 && j != 4 ==> !ChecksWith(adLabel)[j].Says?
  {
  }

  /** Every container the code as written excludes is excluded by the corrected check list too. */
  lemma AsWrittenExcludesNoMore(f: Features)
    ensures IsNonSerpElementAsWritten(f) ==> IsNonSerpElement(f)
  {
    if IsNonSerpElementAsWritten(f) {
      var i := FirstHit(ChecksWith(AdLabelAsWritten), f).value;
      AdLabelAsWrittenNeverHolds(f);
      assert i != 4;
      assert Holds(ChecksWith(AdLabel)[i], f);
    }
  }

  /** `getAttribute(name)` returned a non-empty value. */
  predicate IsSet(attribute: Option<string>) {
    attribute.Some? && attribute.value != ""
  }

  /** A heading's text names a question or related-searches block, in any letter case. */
  predicate NamesWidget(text: string) {
    Contains(Lower(text), "people also ask") || Contains(Lower(text), "related searches")
  }

  /**
   * What `findCurrentResults` keeps of one container: its first un-numbered
   * heading, provided the container is unprocessed, passes the classifier
   * and has a result link, and the heading's trimmed text is longer than 3
   * UTF-16 code units and does not name a widget.
   */
  function CurrentHeading(c: Container): (r: Option<HeadingNode>)
    ensures r.Some? ==>
      && c.heading == r
      && !IsSet(c.processed) && !IsNonSerpElement(c.features)
      && FirstResultLink(c.features.anchors).Some?
      && Utf16Length(Trim(r.value.title)) > 3 && !NamesWidget(Trim(r.value.title))
    ensures
      && c.heading.Some? && !IsSet(c.processed) && !IsNonSerpElement(c.features)
      && FirstResultLink(c.features.anchors).Some?
      && Utf16Length(Trim(c.heading.value.title)) > 3 && !NamesWidget(Trim(c.heading.value.title))
      ==> r == c.heading
  {
    if IsSet(c.processed) || IsNonSerpElement(c.features) then None
    else match c.heading
      case None => None
      case Some(h) =>
        var text := Trim(h.title);
        if Utf16Length(text) > 3 && FirstResultLink(c.features.anchors).Some?
           && !Contains(Lower(text), "people also ask")
           && !Contains(Lower(text), "related searches")
           && DisclosureButton !in c.features.inside
        then Some(h)
        else None
  }

  /** The headings `findCurrentResults` returns, in container order. */
  function CurrentHeadings(cs: seq<Container>): seq<HeadingNode> {
    if cs == [] then []
    else CurrentHeadings(cs[..|cs| - 1]) + (match CurrentHeading(cs[|cs| - 1]) case Some(h) => [h] case None => [])
  }

  /** Every heading found on the current page comes from a clean container and carries a usable title. */
  lemma {:induction false} CurrentHeadingsSound(cs: seq<Container>, h: HeadingNode)
    requires h in CurrentHeadings(cs)
    ensures exists c :: c in cs && CurrentHeading(c) == Some(h)
    ensures Utf16Length(Trim(h.title)) > 3 && !NamesWidget(Trim(h.title))
  {
    var init := cs[..|cs| - 1];
    var last := cs[|cs| - 1];
    if h in CurrentHeadings(init) {
      CurrentHeadingsSound(init, h);
      var c :| c in init && CurrentHeading(c) == Some(h);
      assert c in cs;
    } else {
      assert CurrentHeading(last) == Some(h);
    }
  }

  /**
   * No container with a disclosure control, or whose text mentions
   * "people also ask" in any letter case, yields a current heading.
   */
  lemma WidgetsNeverFound(c: Container)
    requires DisclosureButton in c.features.inside || Contains(Lower(c.features.text), "people also ask")
    ensures CurrentHeading(c).None?
  {
    NonSerpIff(c.features);
  }

  /**
   * `findCurrentResults()`: walks the page's result containers in order,
   * collects the heading each one yields and marks that container as found.
   */
  method FindCurrentResults(cs: seq<Container>) returns (results: seq<HeadingNode>)
    requires forall i, j :: 0 <= i < j < |cs| ==> cs[i].node != cs[j].node
    modifies set c | c in cs :: c.node
    ensures results == CurrentHeadings(cs)
    ensures forall c :: c in cs ==> c.node.found == (old(c.node.found) || CurrentHeading(c).Some?)
  {
    results := [];
    var i := 0;
    while i < |cs|
      invariant 0 <= i <= |cs|
      invariant results == CurrentHeadings(cs[..i])
      invariant forall k :: 0 <= k < |cs| ==> cs[k].node.found == (old(cs[k].node.found) || (k < i && CurrentHeading(cs[k]).Some?))
    {
      var c := cs[i];
      var h := CurrentHeading(c);
      assert cs[..i + 1][..i] == cs[..i];
      if h.Some? {
        results := results + [h.value];
        c.node.found := true;
      }
      forall k | 0 <= k < |cs|
        ensures cs[k].node.found == (old(cs[k].node.found) || (k <= i && CurrentHeading(cs[k]).Some?))
      {
        if k != i {
          assert cs[k].node != c.node;
        }
      }
      i := i + 1;
    }
    assert cs[..i] == cs;
  }
}
