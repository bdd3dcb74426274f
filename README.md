# Google 100 Results: the result-aggregation engine, in Dafny

The browser extension adds a "load 100 results" button to a Google results
page. Its engine, `loadResults`, works in the following steps:

- **Current page.** It clears old rank markers. It then collects the clean
  results already on the page: `findCurrentResults` over the classifier
  `isNonSerpElement`.
- **Further pages.** It requests the nine next result pages, `start` = 10
  to 90. Each page is filtered by `fetchPageResults`.
- **Merge.** Everything is merged into one list with first-seen-wins
  deduplication on a key. Fetched items join only while the list holds
  fewer than 100 items.
- **Ranking.** The first 100 items get ranks 1, 2, … in list order, each
  through `addNumberToResult`. Every fetched item's element is appended to
  the first results region on the page (`appendToSearchResults`).

The engine exists twice, in `script.js` and `content.js`. The copies
differ in two ways that matter to the logic:

- **Dedup key.** `script.js` uses `href|text` when the container has a
  result link, and the text alone otherwise. `content.js` always uses the
  text alone.
- **Region list.** `content.js` leaves `#rso` out of the list of results
  regions.

The model is shared and parameterised by `Merge.Variant`. The two key
definitions are kept apart in `Merge.Key`, and the two region lists in
`Aggregation.RegionSelectors`.

Every `length > 3` test of the scripts compares a count of UTF-16 code
units, as JavaScript's `length` does (`Text.Utf16Length`). Below, a text
"longer than 3" and a "usable" candidate mean one that passes this test.

Modules:

- `Text`: `trim`, `toLowerCase`, `includes`, and the decimal numerals of
  the rank labels.
- `Dom`: the page objects the engine changes in place:
  - headings, with their children, rank markers and attributes
  - result containers, with their `data-g100-found` mark
  - results regions, with their children

  It also holds `addNumberToResult` as `HeadingNode.AddNumber` and
  `appendToSearchResults`. What the selector queries observe is given as
  data (`Features`).
- `Classifier`: `isNonSerpElement`, as an ordered early-return check list
  with an order-free reference definition, and `findCurrentResults`.
- `Fetch`: the request offsets and the filter of `fetchPageResults`. A
  response is its body text plus the containers the parser found in it.
- `Merge`: the merge as a specification (`Merged`, a fold of one
  admission step), the loops of the scripts proved to compute it, and
  lemmas for uniqueness, order, the cap and completeness.
- `Aggregation`: the numbering loop and `loadResults` end to end. A
  heading "shows rank n" (`RankedAs`) when its first child is the marker
  `n. `, all its other children are non-marker content spelling its title,
  and its attributes are set. The network is a parameter `respond` that
  maps each request to its response.

## Model

| member | source | states |
|---|---|---|
| Text.Trim | script.js:199 | the trimmed text is no longer than the input and neither starts nor ends with ECMAScript white space |
| Text.TrimDropsOnlySpace | script.js:199 | `trim` keeps a contiguous infix of its input and every character it drops before or after that infix is white space |
| Text.TrimIdempotent | script.js:199 | a property of `trim`: trimming an already trimmed text changes nothing |
| Text.Lower | script.js:314 | `toLowerCase` keeps the length, maps each capital to the letter 32 code points above it, leaves no upper-case letter and leaves every other character in place |
| Text.LowerIdempotent | script.js:314 | lower-casing lower-cased text changes nothing |
| Text.Utf16Length | script.js:296 | `length` counts UTF-16 code units: as many as the characters when all lie in the Basic Multilingual Plane, and never more than twice that |
| Text.Utf16LengthOfChar | script.js:296 | one character counts 2 code units above U+FFFF and 1 otherwise; with `Text.Utf16LengthAppend` this fixes `length` on every text |
| Text.Utf16LengthAppend | script.js:296 | the `length` of a concatenation is the sum of the lengths |
| Text.AstralPairIsFourUnits | script.js:296 | two characters outside the Basic Multilingual Plane have `length` 4, so they pass a `length > 3` test |
| Text.ContainsAt | script.js:359 | `includes` finds a needle wherever it occurs in the text |
| Text.ContainsFinds | script.js:359 | conversely, whatever `includes` finds occurs at some position of the text |
| Text.NeedleTooLong | script.js:371 | a needle longer than the text is never found |
| Text.UpperNeedleNeverInLower | script.js:317 | a needle holding an upper-case letter is never found in lower-cased text |
| Text.Decimal | script.js:402 | `number.toString()` for a rank is a non-empty string of digits with no leading zero |
| Text.DecimalRoundTrip | script.js:421 | the numeral written into `data-g100-numbered` reads back as the rank |
| Text.DecimalInjective | script.js:421 | different ranks are written as different numerals |
| Dom.FirstResultLink | script.js:198 | the query for `a[href^="http"], a[href^="/url?"]` finds nothing exactly when no anchor is a result link, and otherwise the first result link of the container in document order |
| Dom.HeadingNode.constructor | script.js:234 | a heading parsed from fetched markup holds its title as its only child and has no rank attributes yet |
| Dom.Document.ClearMarkers | script.js:188 | every heading of the page keeps exactly its non-marker children, so its text is its title; stray markers are gone, attributes unchanged, and each container's un-numbered heading stays the same |
| Dom.HeadingNode.AddNumber | script.js:390-425 | afterwards the heading has exactly one marker, `n. `, as its first child, followed by its old non-marker children. Its text is `n. ` plus its title, the markers under its `div` ancestor are gone, and `data-g100-numbered` = n, `data-g100-processed` = "true" |
| Dom.RenumberForgetsOldRank | script.js:391-419 | numbering an already numbered heading leaves the same children as numbering it once with the new rank |
| Dom.FirstUnnumbered | script.js:291 | `h3:not([data-g100-numbered])` yields the first heading in document order without the attribute, or none exactly when every heading has it; `Document.Valid` requires each container's heading to be this one |
| Dom.ContainerNode.constructor | script.js:229-231 | an element built from fetched markup holds its parsed heading and is not marked found |
| Dom.FirstPresent | script.js:436-438 | the chosen selector is present and every selector before it is absent; none is chosen exactly when all are absent |
| Dom.AppendToSearchResults | script.js:427-446 | the element is appended to the region of the first present selector and no other region changes; with no region present nothing changes |
| Classifier.FirstHit | script.js:311-344 | the early-return chain stops at a check that holds and no earlier check holds; it returns false exactly when no check holds |
| Classifier.NonSerpIff | script.js:311-344 | `isNonSerpElement` is true exactly when one of its listed conditions holds, special parents included, whatever the order of the checks |
| Classifier.ExcludedIsNonSerp | script.js:312-341 | each listed condition makes `isNonSerpElement` true |
| Classifier.NonSerpIsExcluded | script.js:312-341 | `isNonSerpElement` is true only when one of the listed conditions holds |
| Classifier.AdLabelAsWrittenNeverHolds | script.js:317 | the ad-label check as written can never fire, for any container text |
| Classifier.AdLabelledContainerSlipsThrough | script.js:317 | a container whose only sign is the "Ad·" label passes the classifier as written but is excluded by the intended check |
| Classifier.AsWrittenExcludesNoMore | script.js:311-344 | every container the code as written excludes is excluded by the corrected classifier too |
| Classifier.CurrentHeading | script.js:286-304 | a container yields a heading exactly when it has an un-numbered heading, is unprocessed, passes the classifier, has a result link, and the heading's trimmed title is longer than 3 and names no widget; the heading yielded is that un-numbered heading |
| Classifier.CurrentHeadingsSound | script.js:281-309 | every heading `findCurrentResults` returns comes from a container that yields it and has a usable title |
| Classifier.WidgetsNeverFound | script.js:297-299 | a container with a disclosure control or saying "people also ask" in any letter case yields no heading |
| Classifier.FindCurrentResults | script.js:281-309 | the loop returns exactly the kept headings in container order, and marks `data-g100-found` on exactly the containers that yielded one |
| Fetch.PageRequests | script.js:209-216 | exactly nine requests, the i-th for `start` = (i + 1) * 10 |
| Fetch.Filter | script.js:367-380 | the kept containers are exactly those of the page that pass the filter, in a list no longer than the page's |
| Fetch.KeptPositions | script.js:367-380 | positions of containers passing the filter, strictly increasing |
| Fetch.KeptPositionsComplete | script.js:367-380 | every position of a container passing the filter is listed, so with `Fetch.FilterInOrder` each passing container is kept once per occurrence |
| Fetch.FilterInOrder | script.js:367-380 | the kept containers are the page's containers at exactly those positions, in document order |
| Fetch.PageResults | script.js:346-388 | a failed request or a rate-limit page yields no result; otherwise exactly the containers passing the filter |
| Fetch.PageResultsInOrder | script.js:362-383 | a page's results are its containers at the positions `Fetch.KeptPositions` lists, in document order |
| Fetch.FetchPageResults | script.js:346-388 | the loop of `fetchPageResults` returns what `PageResults` specifies |
| Fetch.FetchFilterIsCaseSensitive | script.js:371 | a container saying "people also ask" in lower case is kept from a fetched page though the classifier excludes it on the current page |
| Fetch.LowerCasePhraseIgnored | script.js:371-379 | for a container whose text has no upper-case letter, such as "people also ask", the fetched-page filter decides on the disclosure control, heading and link alone |
| Fetch.LowerCasePhraseExcluded | script.js:314 | the classifier excludes any container whose text is "people also ask" |
| Merge.LinkedKeyIdentifies | script.js:200 | two `href|text` keys with no `|` in their URLs are equal only for equal URL and text |
| Merge.PipeInLinkCollides | script.js:238 | a `|` inside a URL lets two different results share a key |
| Merge.VariantsDisagreeOnSameTitle | content.js:167-168 | two results with the same title and different links: script.js keeps both keys apart, content.js merges them |
| Merge.MergeResults | script.js:190-253 | the merge loops compute the specified merged list |
| Merge.MergeCurrent | script.js:196-205 | the seeding loop computes the uncapped fold over the current headings and keeps `processedResults` equal to the keys taken |
| Merge.MergePage | script.js:226-250 | one page's loop computes the capped fold over its candidates and keeps `processedResults` equal to the keys taken |
| Merge.AdmitAllExtends | script.js:239-247 | folding only appends, and each item appended is a candidate with a text longer than 3 and a key new to the starting list |
| Merge.AdmitAllUnique | script.js:201-203 | folding keeps keys unique |
| Merge.AdmitAllComplete | script.js:239 | every candidate with a text longer than 3 has its key in the result unless the capped list is full |
| Merge.AdmitAllCapped | script.js:227 | a capped fold never grows a list past 100 and leaves a full list unchanged |
| Merge.AdmitAllFirstWins | script.js:239-247 | an item the fold adds never comes after another usable candidate with the same key |
| Merge.AdmitAllOrdered | script.js:223-250 | folding ordered candidates after an ordered list that precedes them gives an ordered list |
| Merge.CurrentCandidatesOrdered | script.js:196-205 | the current candidates come in heading order |
| Merge.PageCandidatesOrdered | script.js:226-250 | a page's candidates come in the page's order |
| Merge.FetchedCandidatesOrdered | script.js:223-253 | the fetched candidates come page by page, each page in its own order |
| Merge.MergedSound | script.js:196-250 | every merged item is a candidate from the current or a fetched page, computed from its origin, with a text longer than 3 |
| Merge.MergedUniqueKeys | script.js:190-247 | no two merged items share a key |
| Merge.MergedOrdered | script.js:196-250 | current items first in page order, then fetched items by ascending page and in-page order |
| Merge.MergedOrigins | script.js:240-245 | current items hold headings of the current page; fetched items hold results with a heading from pages 1 to 9 |
| Merge.MergedKeysAreCandidateKeys | script.js:239-246 | every merged key is the key of a candidate with a text longer than 3 |
| Merge.MergedHeadingsDistinct | script.js:196-205 | no heading of the page appears twice in the merged list |
| Merge.CurrentTakesPriority | script.js:196-247 | the current items form a prefix holding every usable current candidate's key; every later item is fetched with a key no current item has |
| Merge.MergedFirstWins | script.js:196-250 | first seen wins: no usable candidate with the key of a merged item comes before it, other than the item itself |
| Merge.MergedWithinCap | script.js:227 | the merged list is no longer than the larger of 100 and the current share; a current share of 100 or more takes no fetched item |
| Merge.MergedComplete | script.js:227-247 | below 100 items the merged keys are exactly the usable candidate keys |
| Merge.MergedCount | script.js:227-247 | with at most 100 current items the merged list holds min(number of usable distinct keys, 100) items |
| Aggregation.RegionSelectors | script.js:428-434 | five regions for script.js, four without `#rso` for content.js, `div[role="main"]` last |
| Aggregation.Placed | script.js:263-266 | every built element is the element of an item that got one, every such element is listed, and there are no more of them than items |
| Aggregation.Target | script.js:436-438 | the region appended to is a region of the page |
| Aggregation.NewResult | script.js:263-266 | a new element around a new heading of the fetched title and links, numbered n and appended to the target region; other regions unchanged |
| Aggregation.RankedDistinct | script.js:257-267 | headings given different ranks are different headings |
| Aggregation.NumberCurrent | script.js:261-262 | the current item's own heading shows rank n and the earlier ranks stand |
| Aggregation.RankFetched | script.js:263-266 | a fetched item's new heading shows rank n, its element extends the target region, and the page's headings and earlier ranks stand |
| Aggregation.RankEntry | script.js:261-266 | the item's heading shows rank n; only fetched items get an element, appended to the target region |
| Aggregation.RankStep | script.js:258-266 | one more item of the merged list is ranked, extending the ranked prefix by one |
| Aggregation.WriteResults | script.js:257-267 | the first min(length, 100) items get ranks 1, 2, … in list order on distinct headings; the target region gains exactly the fetched elements in order; other regions unchanged |
| Aggregation.FetchedPages | script.js:214-219 | a failed request or a rate-limit page contributes no result; every result of page i is a container of the response to the request for `start` = (i + 1) * 10 and passes the fetched-page filter |
| Aggregation.FetchPages | script.js:209-219 | exactly nine requests are issued, the i-th for `start` = (i + 1) * 10, and they settle, in page order, to the specified page results |
| Aggregation.CurrentHeadingsOnPage | script.js:291 | every heading found is a heading of the page |
| Aggregation.Gather | script.js:188-253 | after clearing markers, finding, fetching and merging, the list is the specified merge and fit for numbering; the nine page requests are issued; the found marks are set as specified; every heading of the page has lost all its markers, stray ones included, and kept its attributes |
| Aggregation.LoadResults | script.js:177-279 | without a query no request is issued and nothing changes. Otherwise the nine page requests are issued, the count is min(merged length, 100), that many items are ranked in list order, and the target region gains exactly the fetched elements |

## Left out

- Popup, button creation and styling, startup plumbing, console logging and status text: browser glue with no logic. The status text is display-only. The catch branch's message would be overwritten by the final "Complete!" line.
- The `catch` branch of `loadResults`: `fetchPageResults` catches every error itself, so `Promise.all` never rejects in the modelled code.
- The network, `DOMParser`, `innerHTML`/`outerHTML` round trips, `encodeURIComponent` and `Promise.all` concurrency. Each request's outcome is the parameter `respond`. A fetched page arrives as the containers its parser found, and re-parsing a kept container's markup is taken to give back the same container.
- Selector semantics (`querySelector`, `closest`): what they observe is given as data (`Features`, a container's `h3s`), not computed from a tree.
- Stray rank markers under a heading's `div` ancestor are counted (`strayMarkers`), not placed in a tree.
- `resultElement.style.marginTop` in `appendToSearchResults` is styling and is not modelled.
- Text.Lower: letter-case mapping covers Basic Latin and Latin-1 capitals only, not the full Unicode case tables of `toLowerCase`.
- The numbering loop stops at rank 100 instead of visiting and skipping the remaining items; the skipped visits change nothing.
- A second run on the same page: the model starts from a page state given as `Document`. After a run, `data-g100-processed` is set on headings, while `findCurrentResults` reads it on containers. Fetched elements are appended again, so repeated runs can duplicate them. The model states what one run does.
- Classifier.CurrentHeading: applies the corrected classifier `Classifier.IsNonSerpElement`, and so do `Classifier.FindCurrentResults`, `Aggregation.Gather` and `Aggregation.LoadResults`. With the ad-label check as written (see Findings) a container whose only sign is the "Ad·" label would be kept as a current result as well; `Classifier.AdLabelledContainerSlipsThrough` exhibits one.
- Dom.HeadingNode.AddNumber: the markers it removes from the heading's nearest `div` are the heading's own `strayMarkers`, so the model assumes that no heading ranked earlier, and no marker of one, lies under the nearest `div` of a heading ranked later. On a page where two ranked headings share that `div`, numbering the later one also removes the earlier one's marker (script.js:394-398).
- Aggregation.WriteResults: its statement that every earlier rank stands rests on the same assumption about shared `div` ancestors as `Dom.HeadingNode.AddNumber`.
- Aggregation.LoadResults: the `data-g100-found` marks, the removal of old markers from every heading and the unchanged non-target regions are stated by `Aggregation.Gather` and `Aggregation.WriteResults`, which it calls, not repeated in its own postcondition. Since `Aggregation.WriteResults` does not state what happens to headings it does not rank, no contract of the whole run says that a heading not ranked again is left without markers.
- Aggregation.WriteResults: does not state that the fetched headings and elements are fresh, or that page headings beyond the ranked ones keep their children; `Aggregation.RankEntry` states freshness per step.

## Findings

| source | as written | input that shows it | evidently intended | confidence | as-written member | corrected member |
|---|---|---|---|---|---|---|
| script.js:317 (also content.js:283) | `textContent.toLowerCase().includes('adÂ·')`: the needle holds the capital U+00C2, and text that has been lower-cased never does, so the check never fires | a container with no selector matches whose text is "Ad· shop" | look for "ad·", the lower-cased "Ad·" text-ad label | high; not executed | Classifier.IsNonSerpElementAsWritten, with Classifier.AdLabelledContainerSlipsThrough | Classifier.IsNonSerpElement, with Classifier.NonSerpIff |
