/**
 * The merge phase of `loadResults`: the current page's headings and the
 * results of the fetched pages are folded into one list (`allResults`),
 * first-seen-wins on a key, with the current page taken in full and fetched
 * items taken only while the list holds fewer than 100 entries.
 *
 * `Merged` is the specification: a fold (`AdmitAll`) of one admission step
 * (`Admit`) over the candidates in order; `MergeResults` is the loop of the
 * scripts, proved to compute it, and the lemmas below state what the fold
 * guarantees.
 */
module Merge {
  import opened Text
  import opened Dom

  /** The two copies of the script: they differ in the key and in the regions list. */
  datatype Variant = ScriptJs | ContentJs

  /** Ranks handed out, and the length beyond which fetched items are refused. */
  const Cap := 100

  /**
   * `uniqueKey`: script.js pairs the resolved URL of the container's first
   * result link with the text, `href|text`, and falls back to the text
   * alone; content.js uses the text alone.
   */
  function Key(v: Variant, anchors: seq<Anchor>, text: string): string {
    match v
    case ContentJs => text
    case ScriptJs =>
      match FirstResultLink(anchors)
      case Some(a) => a.href + "|" + text
      case None => text
  }

  /** The index of the first `|` of a string (its length when there is none). */
  function PipeIndex(s: string): (r: nat)
    ensures r <= |s|
    ensures r < |s| ==> s[r] == '|'
    ensures forall i :: 0 <= i < r ==> s[i] != '|'
  {
    if s == [] || s[0] == '|' then 0 else 1 + PipeIndex(s[1..])
  }

  /**
   * A script.js key `href|text` tells apart results that differ in link or
   * in text, provided the URL holds no `|`.
   */
  lemma LinkedKeyIdentifies(href1: string, text1: string, href2: string, text2: string)
    requires '|' !in href1 && '|' !in href2
    requires href1 + "|" + text1 == href2 + "|" + text2
    ensures href1 == href2 && text1 == text2
  {
    var k := href1 + "|" + text1;
    var k2 := href2 + "|" + text2;
    assert PipeIndex(k) == |href1| by {
      assert k[|href1|] == '|';
      assert forall i :: 0 <= i < |href1| ==> k[i] == href1[i];
      PipeIndexIs(k, |href1|);
    }
    assert PipeIndex(k2) == |href2| by {
      assert k2[|href2|] == '|';
      assert forall i :: 0 <= i < |href2| ==> k2[i] == href2[i];
      PipeIndexIs(k2, |href2|);
    }
    assert href1 == k[..|href1|];
    assert href2 == k2[..|href2|];
    assert text1 == k[|href1| + 1..];
    assert text2 == k2[|href2| + 1..];
  }

  lemma {:induction false} PipeIndexIs(s: string, n: nat)
    requires n < |s| && s[n] == '|'
    requires forall i :: 0 <= i < n ==> s[i] != '|'
    ensures PipeIndex(s) == n
  {
    if n > 0 {
      PipeIndexIs(s[1..], n - 1);
    }
  }

  /** With a `|` inside a URL, two different results of script.js share a key. */
  lemma PipeInLinkCollides()
    ensures var a1, a2 := [Anchor("http://x|y", "http://x|y")], [Anchor("http://x", "http://x")];
      Key(ScriptJs, a1, "z") == Key(ScriptJs, a2, "y|z")
  {
    assert "http://x|y"[..4] == "http";
    assert "http://x"[..4] == "http";
    assert "http://x|y" + "|" + "z" == "http://x" + "|" + "y|z";
  }

  /**
   * Two results with the same title and different links: script.js keeps
   * both keys apart, content.js merges them.
   */
  lemma VariantsDisagreeOnSameTitle()
    ensures var a1, a2 := [Anchor("http://a", "http://a")], [Anchor("http://b", "http://b")];
      && Key(ScriptJs, a1, "Title") != Key(ScriptJs, a2, "Title")
      && Key(ContentJs, a1, "Title") == Key(ContentJs, a2, "Title")
  {
    assert "http://a"[..4] == "http";
    assert "http://b"[..4] == "http";
    assert ("http://a" + "|" + "Title")[7] != ("http://b" + "|" + "Title")[7];
  }

  /** Where an item of `allResults` comes from. */
  datatype Origin =
    | Current(heading: HeadingNode)            // a heading of the live page (`source: 'current'`)
    | Fetched(page: nat, fragment: Fragment)   // a result of fetched page `page`, 1 to 9 (`source: 'page<n>'`)

  /** An item of `allResults`: its key, its trimmed heading text, its origin and its index in the list it comes from. */
  datatype Entry = Entry(key: string, text: string, origin: Origin, pos: nat)

  function CurrentEntry(v: Variant, h: HeadingNode, pos: nat): Entry {
    var text := Trim(h.title);
    Entry(Key(v, h.ownerAnchors, text), text, Current(h), pos)
  }

  /** A fetched result yields an item when it has an `h3`; its text is that of the first one. */
  function FetchedEntry(v: Variant, page: nat, f: Fragment, pos: nat): Option<Entry> {
    if f.headings == [] then None
    else
      var text := Trim(f.headings[0]);
      Some(Entry(Key(v, f.features.anchors, text), text, Fetched(page, f), pos))
  }

  /** An item whose key and text are those computed from its origin. */
  predicate WellFormed(v: Variant, e: Entry) {
    match e.origin
    case Current(h) => e == CurrentEntry(v, h, e.pos)
    case Fetched(p, f) => p >= 1 && FetchedEntry(v, p, f, e.pos) == Some(e)
  }

  function Present<T>(o: Option<T>): seq<T> {
    match o
    case Some(x) => [x]
    case None => []
  }

  /** The candidate items of the current page, in the order `findCurrentResults` returned the headings. */
  function CurrentCandidates(v: Variant, hs: seq<HeadingNode>): seq<Entry>
    decreases |hs|
  {
    if hs == [] then []
    else CurrentCandidates(v, hs[..|hs| - 1]) + [CurrentEntry(v, hs[|hs| - 1], |hs| - 1)]
  }

  /** The candidate items of one fetched page, in the page's order. */
  function PageCandidates(v: Variant, page: nat, fs: seq<Fragment>): seq<Entry>
    decreases |fs|
  {
    if fs == [] then []
    else PageCandidates(v, page, fs[..|fs| - 1]) + Present(FetchedEntry(v, page, fs[|fs| - 1], |fs| - 1))
  }

  /** The candidate items of the fetched pages, page 1 first. */
  function FetchedCandidates(v: Variant, pages: seq<seq<Fragment>>): seq<Entry>
    decreases |pages|
  {
    if pages == [] then []
    else FetchedCandidates(v, pages[..|pages| - 1]) + PageCandidates(v, |pages|, pages[|pages| - 1])
  }

  /** `processedResults`: the keys already taken. */
  function Keys(es: seq<Entry>): set<string> {
    set e | e in es :: e.key
  }

  /**
   * One admission step: refused when the list is capped and full, taken
   * when its key is new and its text longer than 3 UTF-16 code units.
   */
  function Admit(acc: seq<Entry>, e: Entry, capped: bool): seq<Entry> {
    if capped && |acc| >= Cap then acc
    else if e.key !in Keys(acc) && Utf16Length(e.text) > 3 then acc + [e]
    else acc
  }

  function AdmitAll(acc: seq<Entry>, cs: seq<Entry>, capped: bool): seq<Entry>
    decreases |cs|
  {
    if cs == [] then acc
    else Admit(AdmitAll(acc, cs[..|cs| - 1], capped), cs[|cs| - 1], capped)
  }

  /** The list after the current page: no cap applies. */
  function Seeded(v: Variant, current: seq<HeadingNode>): seq<Entry> {
    AdmitAll([], CurrentCandidates(v, current), false)
  }

  /** `allResults` once every fetched page has been folded in. */
  function Merged(v: Variant, current: seq<HeadingNode>, pages: seq<seq<Fragment>>): seq<Entry> {
    AdmitAll(Seeded(v, current), FetchedCandidates(v, pages), true)
  }

  /**
   * The merge loops of `loadResults`: the current headings, then each page's
   * results in turn, with the `processedResults` set kept beside the list.
   * Its headings' rank markers were removed just before, so a heading's text
   * is its title.
   */
  method MergeResults(v: Variant, current: seq<HeadingNode>, pages: seq<seq<Fragment>>)
    returns (all: seq<Entry>)
    ensures all == Merged(v, current, pages)
  {
    var seen;
    all, seen := MergeCurrent(v, current);
    ghost var seed := all;
    var p := 0;
    while p < |pages|
      invariant 0 <= p <= |pages|
      invariant all == AdmitAll(seed, FetchedCandidates(v, pages[..p]), true)
      invariant seen == Keys(all)
    {
      ghost var done := FetchedCandidates(v, pages[..p]);
      all, seen := MergePage(v, p + 1, pages[p], all, seen);
      assert pages[..p + 1][..p] == pages[..p];
      assert FetchedCandidates(v, pages[..p + 1]) == done + PageCandidates(v, p + 1, pages[p]);
      AdmitAllAppend(seed, done, PageCandidates(v, p + 1, pages[p]), true);
      p := p + 1;
    }
    assert pages[..p] == pages;
  }

  /** `existingLinks.forEach(...)`: every current heading whose key is new and whose text is longer than 3 UTF-16 code units. */
  method MergeCurrent(v: Variant, current: seq<HeadingNode>) returns (all: seq<Entry>, seen: set<string>)
    ensures all == Seeded(v, current)
    ensures seen == Keys(all)
  {
    all := [];
    seen := {};
    var i := 0;
    assert current[..i] == [];
    while i < |current|
      invariant 0 <= i <= |current|
      invariant all == AdmitAll([], CurrentCandidates(v, current[..i]), false)
      invariant seen == Keys(all)
    {
      var e := CurrentEntry(v, current[i], i);
      CurrentStep(v, current, i);
      if e.key !in seen && Utf16Length(e.text) > 3 {
        KeysAppend(all, e);
        all := all + [e];
        seen := seen + {e.key};
      }
      i := i + 1;
    }
    assert current[..i] == current;
  }

  /** Folding the current candidates up to heading `i` is one more admission step than up to heading `i - 1`. */
  lemma CurrentStep(v: Variant, current: seq<HeadingNode>, i: nat)
    requires i < |current|
    ensures AdmitAll([], CurrentCandidates(v, current[..i + 1]), false)
         == Admit(AdmitAll([], CurrentCandidates(v, current[..i]), false), CurrentEntry(v, current[i], i), false)
  {
    var e := CurrentEntry(v, current[i], i);
    assert current[..i + 1][..i] == current[..i];
    assert CurrentCandidates(v, current[..i + 1]) == CurrentCandidates(v, current[..i]) + Present(Some(e));
    AdmitStep([], CurrentCandidates(v, current[..i]), Some(e), false);
  }

  /**
   * `pageResults.forEach(...)` for page `page`: each result is refused once
   * the list holds 100 items, and otherwise taken when it has a heading and
   * the heading's key is new and its text longer than 3 UTF-16 code units.
   */
  method MergePage(v: Variant, page: nat, results: seq<Fragment>, all0: seq<Entry>, seen0: set<string>)
    returns (all: seq<Entry>, seen: set<string>)
    requires seen0 == Keys(all0)
    ensures all == AdmitAll(all0, PageCandidates(v, page, results), true)
    ensures seen == Keys(all)
  {
    all, seen := all0, seen0;
    var j := 0;
    assert results[..j] == [];
    while j < |results|
      invariant 0 <= j <= |results|
      invariant all == AdmitAll(all0, PageCandidates(v, page, results[..j]), true)
      invariant seen == Keys(all)
    {
      var f := results[j];
      PageCandidatesStep(v, page, results, j);
      AdmitStep(all0, PageCandidates(v, page, results[..j]), FetchedEntry(v, page, f, j), true);
      j := j + 1;
      if |all| >= Cap {
        continue;
      }
      if f.headings != [] {
        var e := FetchedEntry(v, page, f, j - 1).value;
        if e.key !in seen && Utf16Length(e.text) > 3 {
          KeysAppend(all, e);
          all := all + [e];
          seen := seen + {e.key};
        }
      }
    }
    assert results[..j] == results;
  }

  lemma PageCandidatesStep(v: Variant, page: nat, fs: seq<Fragment>, j: nat)
    requires j < |fs|
    ensures PageCandidates(v, page, fs[..j + 1])
         == PageCandidates(v, page, fs[..j]) + Present(FetchedEntry(v, page, fs[j], j))
  {
    assert fs[..j + 1][..j] == fs[..j];
  }

  /** Folding one more candidate, if there is one, is one more admission step. */
  lemma AdmitStep(acc: seq<Entry>, cs: seq<Entry>, o: Option<Entry>, capped: bool)
    ensures AdmitAll(acc, cs + Present(o), capped)
         == if o.Some? then Admit(AdmitAll(acc, cs, capped), o.value, capped) else AdmitAll(acc, cs, capped)
  {
    if o.Some? {
      assert (cs + [o.value])[..|cs|] == cs;
    } else {
      assert cs + [] == cs;
    }
  }

  lemma KeysAppend(es: seq<Entry>, e: Entry)
    ensures Keys(es + [e]) == Keys(es) + {e.key}
  {
    assert forall x :: x in es + [e] <==> x in es || x == e;
  }

  /** Folding over two lists in a row is folding over the first, then over the second. */
  lemma {:induction false} AdmitAllAppend(acc: seq<Entry>, xs: seq<Entry>, ys: seq<Entry>, capped: bool)
    ensures AdmitAll(acc, xs + ys, capped) == AdmitAll(AdmitAll(acc, xs, capped), ys, capped)
    decreases |ys|
  {
    if ys == [] {
      assert xs + ys == xs;
    } else {
      var n := |ys|;
      assert (xs + ys)[..|xs + ys| - 1] == xs + ys[..n - 1];
      AdmitAllAppend(acc, xs, ys[..n - 1], capped);
    }
  }

  /** A list's keys are among the keys of any list it is a prefix of. */
  lemma KeysOfPrefix(a: seq<Entry>, b: seq<Entry>)
    requires |a| <= |b| && b[..|a|] == a
    ensures Keys(a) <= Keys(b)
  {
    forall k | k in Keys(a) ensures k in Keys(b) {
      var e :| e in a && e.key == k;
      var i :| 0 <= i < |a| && a[i] == e;
      assert b[i] == e;
    }
  }

  /**
   * Folding only appends: the list it starts from stays a prefix, and every
   * item added is a candidate with a text longer than 3 UTF-16 code units and a
   * key the starting list did not hold.
   */
  lemma {:induction false} AdmitAllExtends(acc: seq<Entry>, cs: seq<Entry>, capped: bool)
    ensures var r := AdmitAll(acc, cs, capped);
      && |acc| <= |r| <= |acc| + |cs| && r[..|acc|] == acc
      && forall i :: |acc| <= i < |r| ==> r[i] in cs && Utf16Length(r[i].text) > 3 && r[i].key !in Keys(acc)
    decreases |cs|
  {
    if cs != [] {
      var init, last := cs[..|cs| - 1], cs[|cs| - 1];
      AdmitAllExtends(acc, init, capped);
      var r0 := AdmitAll(acc, init, capped);
      var r := Admit(r0, last, capped);
      KeysOfPrefix(acc, r0);
      forall i | |acc| <= i < |r| ensures r[i] in cs && Utf16Length(r[i].text) > 3 && r[i].key !in Keys(acc) {
        if i < |r0| {
          assert r[i] == r0[i];
        } else {
          assert r[i] == last;
        }
      }
    }
  }

  predicate UniqueKeys(es: seq<Entry>) {
    forall i, j :: 0 <= i < j < |es| ==> es[i].key != es[j].key
  }

  /** Folding keeps keys unique. */
  lemma {:induction false} AdmitAllUnique(acc: seq<Entry>, cs: seq<Entry>, capped: bool)
    requires UniqueKeys(acc)
    ensures UniqueKeys(AdmitAll(acc, cs, capped))
    decreases |cs|
  {
    if cs != [] {
      var init, last := cs[..|cs| - 1], cs[|cs| - 1];
      AdmitAllUnique(acc, init, capped);
      var r0 := AdmitAll(acc, init, capped);
      if Admit(r0, last, capped) != r0 {
        assert forall i :: 0 <= i < |r0| ==> r0[i].key in Keys(r0);
      }
    }
  }

  /**
   * Every candidate with a text longer than 3 UTF-16 code units has its key in the
   * folded list, unless the fold is capped and the list reached the cap.
   */
  lemma {:induction false} AdmitAllComplete(acc: seq<Entry>, cs: seq<Entry>, capped: bool, c: Entry)
    requires c in cs && Utf16Length(c.text) > 3
    requires !capped || |AdmitAll(acc, cs, capped)| < Cap
    ensures c.key in Keys(AdmitAll(acc, cs, capped))
    decreases |cs|
  {
    var init, last := cs[..|cs| - 1], cs[|cs| - 1];
    var r0 := AdmitAll(acc, init, capped);
    var r := Admit(r0, last, capped);
    assert |r0| <= |r| && r[..|r0|] == r0;
    KeysOfPrefix(r0, r);
    if c in init {
      AdmitAllComplete(acc, init, capped, c);
    } else {
      assert c == last;
      assert c.key in Keys(r0) || c in r;
    }
  }

  /** A capped fold never grows a list past the cap, and leaves a full list as it is. */
  lemma {:induction false} AdmitAllCapped(acc: seq<Entry>, cs: seq<Entry>)
    ensures |AdmitAll(acc, cs, true)| <= if |acc| >= Cap then |acc| else Cap
    ensures |acc| >= Cap ==> AdmitAll(acc, cs, true) == acc
    decreases |cs|
  {
    if cs != [] {
      AdmitAllCapped(acc, cs[..|cs| - 1]);
    }
  }

  /** A list without duplicate keys has as many keys as items. */
  lemma {:induction false} UniqueKeysCount(es: seq<Entry>)
    requires UniqueKeys(es)
    ensures |Keys(es)| == |es|
    decreases |es|
  {
    if es != [] {
      var init, last := es[..|es| - 1], es[|es| - 1];
      UniqueKeysCount(init);
      assert Keys(es) == Keys(init) + {last.key} by {
        assert es == init + [last];
      }
      forall i | 0 <= i < |init| ensures init[i].key != last.key {
        assert es[i] == init[i];
      }
      assert last.key !in Keys(init);
    }
  }

  /** The stage of an item: 0 for the current page, the page number for a fetched one. */
  function Stage(e: Entry): nat {
    match e.origin
    case Current(_) => 0
    case Fetched(p, _) => p
  }

  /** `a` comes before `b`: an earlier stage, or the same stage and an earlier position. */
  predicate Before(a: Entry, b: Entry) {
    Stage(a) < Stage(b) || (Stage(a) == Stage(b) && a.pos < b.pos)
  }

  predicate Ordered(es: seq<Entry>) {
    forall i, j :: 0 <= i < j < |es| ==> Before(es[i], es[j])
  }

  /** Folding ordered candidates onto an ordered list that comes before them gives an ordered list. */
  lemma {:induction false} AdmitAllOrdered(acc: seq<Entry>, cs: seq<Entry>, capped: bool)
    requires Ordered(acc) && Ordered(cs)
    requires forall a, c :: a in acc && c in cs ==> Before(a, c)
    ensures Ordered(AdmitAll(acc, cs, capped))
    decreases |cs|
  {
    if cs != [] {
      var init, last := cs[..|cs| - 1], cs[|cs| - 1];
      AdmitAllOrdered(acc, init, capped);
      AdmitAllExtends(acc, init, capped);
      var r0 := AdmitAll(acc, init, capped);
      forall i | 0 <= i < |r0| ensures Before(r0[i], last) {
        if i < |acc| {
          assert r0[i] == acc[i];
        } else {
          var k :| 0 <= k < |init| && init[k] == r0[i];
          assert cs[k] == r0[i];
        }
      }
    }
  }

  /**
   * The first candidate with a key wins: an item the fold adds never comes
   * after another candidate with the same key and a text longer than 3
   * UTF-16 code units.
   */
  lemma {:induction false} AdmitAllFirstWins(acc: seq<Entry>, cs: seq<Entry>, capped: bool)
    requires Ordered(cs)
    ensures var r := AdmitAll(acc, cs, capped);
      forall i, k :: 0 <= i < |cs| && |acc| <= k < |r| ==>
        (Utf16Length(cs[i].text) > 3 && cs[i].key == r[k].key && cs[i] != r[k] ==> !Before(cs[i], r[k]))
    decreases |cs|
  {
    if cs != [] {
      var init, last := cs[..|cs| - 1], cs[|cs| - 1];
      assert Ordered(init) by {
        forall i, j | 0 <= i < j < |init| ensures Before(init[i], init[j]) {
          assert init[i] == cs[i] && init[j] == cs[j];
        }
      }
      AdmitAllFirstWins(acc, init, capped);
      AdmitAllExtends(acc, init, capped);
      var r0 := AdmitAll(acc, init, capped);
      var r := Admit(r0, last, capped);
      forall i, k | 0 <= i < |cs| && |acc| <= k < |r|
        ensures Utf16Length(cs[i].text) > 3 && cs[i].key == r[k].key && cs[i] != r[k] ==> !Before(cs[i], r[k])
      {
        if k < |r0| {
          assert r[k] == r0[k];
          if i < |init| {
            assert cs[i] == init[i];
          } else {
            var j :| 0 <= j < |init| && init[j] == r0[k];
            assert cs[j] == r0[k] && Before(cs[j], cs[i]);
          }
        } else {
          assert r[k] == last && last.key !in Keys(r0);
          if i < |init| && Utf16Length(cs[i].text) > 3 {
            assert cs[i] == init[i];
            AdmitAllComplete(acc, init, capped, cs[i]);
            assert cs[i].key != last.key;
          }
        }
      }
    }
  }

  /** A fetched entry, when there is one, carries the page and position it was made from. */
  lemma FetchedEntryShape(v: Variant, page: nat, f: Fragment, pos: nat)
    ensures var o := FetchedEntry(v, page, f, pos);
      o.Some? ==> o.value.origin == Fetched(page, f) && o.value.pos == pos
  {
  }

  /** Every candidate of a page is of that page, at a position within it. */
  lemma {:induction false} PageCandidatesStaged(v: Variant, page: nat, fs: seq<Fragment>)
    ensures forall e :: e in PageCandidates(v, page, fs) ==> Stage(e) == page && e.pos < |fs| && e.origin.Fetched?
    decreases |fs|
  {
    if fs != [] {
      var n := |fs|;
      PageCandidatesStaged(v, page, fs[..n - 1]);
      FetchedEntryShape(v, page, fs[n - 1], n - 1);
    }
  }

  /** The candidates of a page come in the page's order. */
  lemma {:induction false} PageCandidatesOrdered(v: Variant, page: nat, fs: seq<Fragment>)
    ensures Ordered(PageCandidates(v, page, fs))
    decreases |fs|
  {
    if fs != [] {
      var n := |fs|;
      PageCandidatesOrdered(v, page, fs[..n - 1]);
      PageCandidatesStaged(v, page, fs[..n - 1]);
      var a := PageCandidates(v, page, fs[..n - 1]);
      var b := Present(FetchedEntry(v, page, fs[n - 1], n - 1));
      assert PageCandidates(v, page, fs) == a + b;
      FetchedEntryShape(v, page, fs[n - 1], n - 1);
      assert forall e :: e in b ==> Stage(e) == page && e.pos == n - 1;
      OrderedAppend(a, b);
    }
  }

  /** Every fetched candidate is of a page from 1 to the number of pages. */
  lemma {:induction false} FetchedCandidatesStaged(v: Variant, pages: seq<seq<Fragment>>)
    ensures forall e :: e in FetchedCandidates(v, pages) ==> 1 <= Stage(e) <= |pages| && e.origin.Fetched?
    decreases |pages|
  {
    if pages != [] {
      var n := |pages|;
      FetchedCandidatesStaged(v, pages[..n - 1]);
      PageCandidatesStaged(v, n, pages[n - 1]);
    }
  }

  /** The fetched candidates come page by page, each page in its own order. */
  lemma {:induction false} FetchedCandidatesOrdered(v: Variant, pages: seq<seq<Fragment>>)
    ensures Ordered(FetchedCandidates(v, pages))
    decreases |pages|
  {
    if pages != [] {
      var n := |pages|;
      FetchedCandidatesOrdered(v, pages[..n - 1]);
      FetchedCandidatesStaged(v, pages[..n - 1]);
      PageCandidatesOrdered(v, n, pages[n - 1]);
      PageCandidatesStaged(v, n, pages[n - 1]);
      var a, b := FetchedCandidates(v, pages[..n - 1]), PageCandidates(v, n, pages[n - 1]);
      assert FetchedCandidates(v, pages) == a + b;
      OrderedAppend(a, b);
    }
  }

  /** Two ordered lists, the first wholly before the second, make an ordered list. */
  lemma OrderedAppend(a: seq<Entry>, b: seq<Entry>)
    requires Ordered(a) && Ordered(b)
    requires forall x, y :: x in a && y in b ==> Before(x, y)
    ensures Ordered(a + b)
  {
    forall i, j | 0 <= i < j < |a + b| ensures Before((a + b)[i], (a + b)[j]) {
      if j < |a| {
        assert (a + b)[i] == a[i] && (a + b)[j] == a[j];
      } else if i < |a| {
        assert (a + b)[i] == a[i] && (a + b)[j] == b[j - |a|];
        assert a[i] in a && b[j - |a|] in b;
      } else {
        assert (a + b)[i] == b[i - |a|] && (a + b)[j] == b[j - |a|];
      }
    }
  }

  /** Every candidate of a page is computed from its origin. */
  lemma {:induction false} PageCandidatesWellFormed(v: Variant, page: nat, fs: seq<Fragment>)
    requires page >= 1
    ensures forall e :: e in PageCandidates(v, page, fs) ==> WellFormed(v, e)
    decreases |fs|
  {
    if fs != [] {
      var n := |fs|;
      PageCandidatesWellFormed(v, page, fs[..n - 1]);
      var o := FetchedEntry(v, page, fs[n - 1], n - 1);
      assert o.Some? ==> WellFormed(v, o.value);
    }
  }

  /** Every fetched candidate is computed from its origin. */
  lemma {:induction false} FetchedCandidatesWellFormed(v: Variant, pages: seq<seq<Fragment>>)
    ensures forall e :: e in FetchedCandidates(v, pages) ==> WellFormed(v, e)
    decreases |pages|
  {
    if pages != [] {
      FetchedCandidatesWellFormed(v, pages[..|pages| - 1]);
      PageCandidatesWellFormed(v, |pages|, pages[|pages| - 1]);
    }
  }

  /** The `i`-th candidate of the current page holds its `i`-th heading, at position `i`. */
  lemma {:induction false} CurrentCandidatesAt(v: Variant, hs: seq<HeadingNode>)
    ensures |CurrentCandidates(v, hs)| == |hs|
    ensures forall i :: 0 <= i < |hs| ==>
      CurrentCandidates(v, hs)[i].origin == Current(hs[i]) && CurrentCandidates(v, hs)[i].pos == i
    decreases |hs|
  {
    if hs != [] {
      var init := hs[..|hs| - 1];
      var cs, last := CurrentCandidates(v, init), CurrentEntry(v, hs[|hs| - 1], |hs| - 1);
      CurrentCandidatesAt(v, init);
      assert CurrentCandidates(v, hs) == cs + [last];
      forall i | 0 <= i < |hs|
        ensures CurrentCandidates(v, hs)[i].origin == Current(hs[i]) && CurrentCandidates(v, hs)[i].pos == i
      {
        if i < |init| {
          assert CurrentCandidates(v, hs)[i] == cs[i] && init[i] == hs[i];
        } else {
          assert CurrentCandidates(v, hs)[i] == last;
        }
      }
    }
  }

  /** Every candidate of the current page is of stage 0, at a position within the list, and holds one of its headings. */
  lemma CurrentCandidatesStaged(v: Variant, hs: seq<HeadingNode>)
    ensures |CurrentCandidates(v, hs)| == |hs|
    ensures forall e :: e in CurrentCandidates(v, hs) ==>
      Stage(e) == 0 && e.pos < |hs| && e.origin.Current? && e.origin.heading in hs
  {
    var cs := CurrentCandidates(v, hs);
    CurrentCandidatesAt(v, hs);
    forall e | e in cs ensures Stage(e) == 0 && e.pos < |hs| && e.origin.Current? && e.origin.heading in hs {
      var i :| 0 <= i < |cs| && cs[i] == e;
      assert e.origin == Current(hs[i]);
    }
  }

  /** Every candidate of the current page is computed from its heading. */
  lemma {:induction false} CurrentCandidatesWellFormed(v: Variant, hs: seq<HeadingNode>)
    ensures forall e :: e in CurrentCandidates(v, hs) ==> WellFormed(v, e)
    decreases |hs|
  {
    if hs != [] {
      CurrentCandidatesWellFormed(v, hs[..|hs| - 1]);
    }
  }

  /** The candidates of the current page come in the order of the headings. */
  lemma {:induction false} CurrentCandidatesOrdered(v: Variant, hs: seq<HeadingNode>)
    ensures Ordered(CurrentCandidates(v, hs))
    decreases |hs|
  {
    if hs != [] {
      var n := |hs|;
      CurrentCandidatesOrdered(v, hs[..n - 1]);
      CurrentCandidatesStaged(v, hs[..n - 1]);
      var a, b := CurrentCandidates(v, hs[..n - 1]), [CurrentEntry(v, hs[n - 1], n - 1)];
      assert CurrentCandidates(v, hs) == a + b;
      OrderedAppend(a, b);
    }
  }

  /** All valid candidate keys: those of candidates with a text longer than 3 UTF-16 code units. */
  function CandidateKeys(v: Variant, current: seq<HeadingNode>, pages: seq<seq<Fragment>>): set<string> {
    set c | c in CurrentCandidates(v, current) + FetchedCandidates(v, pages) && Utf16Length(c.text) > 3 :: c.key
  }

  /**
   * Every merged item is a candidate of the current page or of a fetched
   * page, computed from its origin, with a text longer than 3 UTF-16 code units.
   */
  lemma MergedSound(v: Variant, current: seq<HeadingNode>, pages: seq<seq<Fragment>>)
    ensures forall e :: e in Merged(v, current, pages) ==>
      && (e in CurrentCandidates(v, current) || e in FetchedCandidates(v, pages))
      && WellFormed(v, e) && Utf16Length(e.text) > 3
  {
    var cur, fet := CurrentCandidates(v, current), FetchedCandidates(v, pages);
    var seed := Seeded(v, current);
    var r := Merged(v, current, pages);
    CurrentCandidatesWellFormed(v, current);
    FetchedCandidatesWellFormed(v, pages);
    AdmitAllExtends([], cur, false);
    AdmitAllExtends(seed, fet, true);
    forall e | e in r ensures (e in cur || e in fet) && Utf16Length(e.text) > 3 {
      var i :| 0 <= i < |r| && r[i] == e;
      if i < |seed| {
        assert e == seed[i];
      }
    }
  }

  /** No key occurs twice in the merged list. */
  lemma MergedUniqueKeys(v: Variant, current: seq<HeadingNode>, pages: seq<seq<Fragment>>)
    ensures UniqueKeys(Merged(v, current, pages))
  {
    var seed := Seeded(v, current);
    AdmitAllUnique([], CurrentCandidates(v, current), false);
    AdmitAllUnique(seed, FetchedCandidates(v, pages), true);
  }

  /**
   * The merged list keeps candidate order: current headings first, then
   * page 1, page 2, ..., each in its own order.
   */
  lemma MergedOrdered(v: Variant, current: seq<HeadingNode>, pages: seq<seq<Fragment>>)
    ensures Ordered(Merged(v, current, pages))
  {
    var cur, fet := CurrentCandidates(v, current), FetchedCandidates(v, pages);
    var seed := Seeded(v, current);
    CurrentCandidatesOrdered(v, current);
    CurrentCandidatesStaged(v, current);
    FetchedCandidatesOrdered(v, pages);
    FetchedCandidatesStaged(v, pages);
    AdmitAllOrdered([], cur, false);
    AdmitAllExtends([], cur, false);
    forall a, c | a in seed && c in fet ensures Before(a, c) {
      var i :| 0 <= i < |seed| && seed[i] == a;
    }
    AdmitAllOrdered(seed, fet, true);
  }

  /**
   * Every current item of the merged list holds one of the current
   * headings, and every fetched item a result with a heading from one of
   * the fetched pages.
   */
  lemma MergedOrigins(v: Variant, current: seq<HeadingNode>, pages: seq<seq<Fragment>>)
    ensures forall e :: e in Merged(v, current, pages) ==>
      && (e.origin.Current? ==> e.origin.heading in current)
      && (e.origin.Fetched? ==> e.origin.fragment.headings != [] && 1 <= e.origin.page <= |pages|)
  {
    MergedSound(v, current, pages);
    CurrentCandidatesStaged(v, current);
    FetchedCandidatesStaged(v, pages);
  }

  /** The keys of the merged list are among the valid candidate keys. */
  lemma MergedKeysAreCandidateKeys(v: Variant, current: seq<HeadingNode>, pages: seq<seq<Fragment>>)
    ensures Keys(Merged(v, current, pages)) <= CandidateKeys(v, current, pages)
  {
    var cur, fet := CurrentCandidates(v, current), FetchedCandidates(v, pages);
    MergedSound(v, current, pages);
    forall k | k in Keys(Merged(v, current, pages)) ensures k in CandidateKeys(v, current, pages) {
      var e :| e in Merged(v, current, pages) && e.key == k;
      assert e in cur + fet;
    }
  }

  /**
   * Two current items of the merged list never share a heading, so no
   * heading is numbered twice.
   */
  lemma MergedHeadingsDistinct(v: Variant, current: seq<HeadingNode>, pages: seq<seq<Fragment>>)
    ensures var r := Merged(v, current, pages);
      forall i, j :: 0 <= i < j < |r| && r[i].origin.Current? && r[j].origin.Current? ==>
        r[i].origin.heading != r[j].origin.heading
  {
    var r := Merged(v, current, pages);
    MergedSound(v, current, pages);
    MergedUniqueKeys(v, current, pages);
    forall i, j | 0 <= i < j < |r| && r[i].origin.Current? && r[j].origin.Current?
      ensures r[i].origin.heading != r[j].origin.heading
    {
      assert r[i] in r && r[j] in r;
      assert r[i].key != r[j].key;
    }
  }

  /**
   * The current page takes priority: its items come first and are all the
   * current candidates worth keeping; every later item is fetched and has a
   * key no current item has, so a fetched duplicate of a current result
   * never takes a rank.
   */
  lemma CurrentTakesPriority(v: Variant, current: seq<HeadingNode>, pages: seq<seq<Fragment>>)
    ensures var seed, r := Seeded(v, current), Merged(v, current, pages);
      && |seed| <= |current| && |seed| <= |r| && r[..|seed|] == seed
      && (forall e :: e in seed ==> e.origin.Current?)
      && (forall c :: c in CurrentCandidates(v, current) && Utf16Length(c.text) > 3 ==> c.key in Keys(seed))
      && (forall i :: |seed| <= i < |r| ==> r[i].origin.Fetched? && r[i].key !in Keys(seed))
  {
    var cur, fet := CurrentCandidates(v, current), FetchedCandidates(v, pages);
    var seed := Seeded(v, current);
    AdmitAllExtends([], cur, false);
    AdmitAllExtends(seed, fet, true);
    FetchedCandidatesStaged(v, pages);
    CurrentCandidatesStaged(v, current);
    forall c | c in cur && Utf16Length(c.text) > 3 ensures c.key in Keys(seed) {
      AdmitAllComplete([], cur, false, c);
    }
    var r := Merged(v, current, pages);
    forall i | |seed| <= i < |r| ensures r[i].origin.Fetched? {
      assert r[i] in fet;
    }
  }

  /**
   * The first occurrence of a key wins: no candidate with a text longer than
   * 3 UTF-16 code units comes before a merged item with the same key, so a
   * later duplicate never takes an earlier one's place.
   */
  lemma MergedFirstWins(v: Variant, current: seq<HeadingNode>, pages: seq<seq<Fragment>>)
    ensures forall e, c ::
      && e in Merged(v, current, pages) && c in CurrentCandidates(v, current) + FetchedCandidates(v, pages)
      && Utf16Length(c.text) > 3 && c.key == e.key && c != e
      ==> !Before(c, e)
  {
    var cur, fet := CurrentCandidates(v, current), FetchedCandidates(v, pages);
    forall e: Entry, c: Entry | e in Merged(v, current, pages) && c in cur + fet
      ensures Utf16Length(c.text) > 3 && c.key == e.key && c != e ==> !Before(c, e)
    {
      var k :| 0 <= k < |Merged(v, current, pages)| && Merged(v, current, pages)[k] == e;
      if c in cur {
        CurrentFirstWins(v, current, pages, k, c);
      } else {
        FetchedFirstWins(v, current, pages, k, c);
      }
    }
  }

  /** No current candidate worth keeping comes before a merged item with its key, other than itself. */
  lemma CurrentFirstWins(v: Variant, current: seq<HeadingNode>, pages: seq<seq<Fragment>>, k: nat, c: Entry)
    requires k < |Merged(v, current, pages)| && c in CurrentCandidates(v, current)
    ensures var e := Merged(v, current, pages)[k];
      Utf16Length(c.text) > 3 && c.key == e.key && c != e ==> !Before(c, e)
  {
    var cur, seed := CurrentCandidates(v, current), Seeded(v, current);
    if k < |seed| {
      CurrentItemAt(v, current, pages, k);
      SeededFirstWins(v, current, k, c);
    } else if Utf16Length(c.text) > 3 {
      AdmitAllComplete([], cur, false, c);
      AdmitAllExtends(seed, FetchedCandidates(v, pages), true);
      assert c.key in Keys(seed) && Merged(v, current, pages)[k].key !in Keys(seed);
    }
  }

  /** Within the current page, no candidate worth keeping comes before an item with its key, other than itself. */
  lemma SeededFirstWins(v: Variant, current: seq<HeadingNode>, k: nat, c: Entry)
    requires k < |Seeded(v, current)| && c in CurrentCandidates(v, current)
    ensures var e := Seeded(v, current)[k];
      Utf16Length(c.text) > 3 && c.key == e.key && c != e ==> !Before(c, e)
  {
    var cur := CurrentCandidates(v, current);
    CurrentCandidatesOrdered(v, current);
    var i :| 0 <= i < |cur| && cur[i] == c;
    AdmitAllFirstWinsAt([], cur, false, i, k);
  }

  /** No fetched candidate worth keeping comes before a merged item with its key, other than itself. */
  lemma FetchedFirstWins(v: Variant, current: seq<HeadingNode>, pages: seq<seq<Fragment>>, k: nat, c: Entry)
    requires k < |Merged(v, current, pages)| && c in FetchedCandidates(v, pages)
    ensures var e := Merged(v, current, pages)[k];
      Utf16Length(c.text) > 3 && c.key == e.key && c != e ==> !Before(c, e)
  {
    var fet, seed := FetchedCandidates(v, pages), Seeded(v, current);
    FetchedCandidatesStaged(v, pages);
    if k < |seed| {
      CurrentItemAt(v, current, pages, k);
    } else {
      FetchedCandidatesOrdered(v, pages);
      var i :| 0 <= i < |fet| && fet[i] == c;
      AdmitAllFirstWinsAt(seed, fet, true, i, k);
    }
  }

  /** `AdmitAllFirstWins` for one candidate and one added item. */
  lemma AdmitAllFirstWinsAt(acc: seq<Entry>, cs: seq<Entry>, capped: bool, i: nat, k: nat)
    requires Ordered(cs) && i < |cs| && |acc| <= k < |AdmitAll(acc, cs, capped)|
    ensures var e := AdmitAll(acc, cs, capped)[k];
      Utf16Length(cs[i].text) > 3 && cs[i].key == e.key && cs[i] != e ==> !Before(cs[i], e)
  {
    AdmitAllFirstWins(acc, cs, capped);
  }

  /** An item of the list before the fetched pages is a current candidate, of stage 0. */
  lemma CurrentItemAt(v: Variant, current: seq<HeadingNode>, pages: seq<seq<Fragment>>, k: nat)
    requires k < |Seeded(v, current)|
    ensures k < |Merged(v, current, pages)| && Merged(v, current, pages)[k] == Seeded(v, current)[k]
    ensures Seeded(v, current)[k] in CurrentCandidates(v, current) && Stage(Seeded(v, current)[k]) == 0
  {
    AdmitAllExtends([], CurrentCandidates(v, current), false);
    AdmitAllExtends(Seeded(v, current), FetchedCandidates(v, pages), true);
    CurrentCandidatesStaged(v, current);
  }

  /**
   * The cap: fetched items only join a list shorter than 100, so the merged
   * list is no longer than 100 or than the current page's share, whichever
   * is larger; a current page with 100 or more items takes no fetched one.
   */
  lemma MergedWithinCap(v: Variant, current: seq<HeadingNode>, pages: seq<seq<Fragment>>)
    ensures var seed, r := Seeded(v, current), Merged(v, current, pages);
      && |r| <= (if |seed| >= Cap then |seed| else Cap)
      && (|seed| >= Cap ==> r == seed)
  {
    AdmitAllCapped(Seeded(v, current), FetchedCandidates(v, pages));
  }

  /** Below the cap, nothing is missing: every candidate worth keeping has its key in the list. */
  lemma MergedComplete(v: Variant, current: seq<HeadingNode>, pages: seq<seq<Fragment>>)
    requires |Merged(v, current, pages)| < Cap
    ensures Keys(Merged(v, current, pages)) == CandidateKeys(v, current, pages)
  {
    var cur, fet := CurrentCandidates(v, current), FetchedCandidates(v, pages);
    var seed := Seeded(v, current);
    var r := Merged(v, current, pages);
    MergedKeysAreCandidateKeys(v, current, pages);
    AdmitAllExtends(seed, fet, true);
    KeysOfPrefix(seed, r);
    forall k | k in CandidateKeys(v, current, pages) ensures k in Keys(r) {
      var c: Entry :| c in cur + fet && Utf16Length(c.text) > 3 && c.key == k;
      if c in cur {
        AdmitAllComplete([], cur, false, c);
      } else {
        AdmitAllComplete(seed, fet, true, c);
      }
    }
  }

  /**
   * How many items the merge yields when the current page holds at most 100
   * of them: as many as there are distinct keys worth keeping, up to 100.
   */
  lemma MergedCount(v: Variant, current: seq<HeadingNode>, pages: seq<seq<Fragment>>)
    requires |Seeded(v, current)| <= Cap
    ensures var n := |CandidateKeys(v, current, pages)|;
      |Merged(v, current, pages)| == if n < Cap then n else Cap
  {
    var r := Merged(v, current, pages);
    var all := CandidateKeys(v, current, pages);
    MergedUniqueKeys(v, current, pages);
    MergedKeysAreCandidateKeys(v, current, pages);
    UniqueKeysCount(r);
    MergedWithinCap(v, current, pages);
    assert Keys(r) <= all;
    if |r| < Cap {
      MergedComplete(v, current, pages);
    } else {
      assert |r| == Cap;
      SubsetCard(Keys(r), all);
    }
  }

  lemma SubsetCard(a: set<string>, b: set<string>)
    requires a <= b
    ensures |a| <= |b|
  {
    assert b == a + (b - a);
  }
}
