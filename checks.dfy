/**
 * The per-entry tests of the filter that are plain computations:
 * choosing the PDF link, the abstract-keyword test and the relevance test.
 */
module Checks {
  import opened Strings
  import opened Entries

  /** What `get_pdf_link_from_entry` answers when no link of the entry is a PDF link. */
  const NoPdfFile: string := "NO PDF FILE"

  /** A link counts as a PDF link when `"pdf"` occurs in its media type. */
  predicate IsPdfLink(link: Link)
  {
    Contains(link.linkType, "pdf")
  }

  /** Position `i` holds the first PDF link of `links`. */
  ghost predicate IsFirstPdfLink(links: seq<Link>, i: int)
  {
    0 <= i < |links| && IsPdfLink(links[i]) &&
    forall j :: 0 <= j < i ==> !IsPdfLink(links[j])
  }

  /** `get_pdf_link_from_entry`: the `href` of the first PDF link, or the sentinel. */
  function PdfLink(links: seq<Link>): (href: string)
    ensures (forall i :: 0 <= i < |links| ==> !IsPdfLink(links[i])) ==> href == NoPdfFile
    ensures forall i :: IsFirstPdfLink(links, i) ==> href == links[i].href
  {
    if links == [] then NoPdfFile
    else if IsPdfLink(links[0]) then links[0].href
    else
      assert forall i :: IsFirstPdfLink(links, i) ==> IsFirstPdfLink(links[1..], i - 1);
      PdfLink(links[1..])
  }

  /** When some link is a PDF link, there is a first one and its `href` is the answer. */
  lemma {:induction false} PdfLinkFindsFirst(links: seq<Link>, k: int)
    requires 0 <= k < |links| && IsPdfLink(links[k])
    ensures exists i :: 0 <= i <= k && IsFirstPdfLink(links, i) && PdfLink(links) == links[i].href
  {
    if IsPdfLink(links[0]) {
      assert IsFirstPdfLink(links, 0);
    } else {
      PdfLinkFindsFirst(links[1..], k - 1);
      var i :| 0 <= i <= k - 1 && IsFirstPdfLink(links[1..], i) && PdfLink(links[1..]) == links[1..][i].href;
      assert IsFirstPdfLink(links, i + 1);
    }
  }

  /** `text.count(word) >= search_words[word]` for one search word. */
  predicate MeetsThreshold(text: string, sw: SearchWord)
  {
    Count(text, sw.word) >= sw.threshold
  }

  /**
   * `check_whether_entry_is_relevant`: walk the search words in order and
   * answer true at the first one whose count reaches its threshold.
   */
  function Relevant(text: string, searchWords: seq<SearchWord>): (r: bool)
    ensures r <==> exists k :: 0 <= k < |searchWords| && MeetsThreshold(text, searchWords[k])
  {
    if searchWords == [] then false
    else if MeetsThreshold(text, searchWords[0]) then true
    else
      assert forall k :: 1 <= k < |searchWords| ==> searchWords[k] == searchWords[1..][k - 1];
      Relevant(text, searchWords[1..])
  }

  /** `sw'` has the same words as `sw`, in the same order, each with a threshold no higher. */
  ghost predicate LowersThresholds(sw: seq<SearchWord>, sw': seq<SearchWord>)
  {
    |sw'| == |sw| &&
    forall k :: 0 <= k < |sw| ==> sw'[k].word == sw[k].word && sw'[k].threshold <= sw[k].threshold
  }

  /** Lowering thresholds never turns a relevant text into an irrelevant one. */
  lemma RelevantMonotone(text: string, sw: seq<SearchWord>, sw': seq<SearchWord>)
    requires LowersThresholds(sw, sw')
    requires Relevant(text, sw)
    ensures Relevant(text, sw')
  {
    var k :| 0 <= k < |sw| && MeetsThreshold(text, sw[k]);
    assert MeetsThreshold(text, sw'[k]);
  }

  /**
   * The dictionary's iteration order does not matter: any reordering of the
   * search words gives the same answer.
   */
  lemma RelevantIgnoresOrder(text: string, sw: seq<SearchWord>, sw': seq<SearchWord>)
    requires multiset(sw) == multiset(sw')
    ensures Relevant(text, sw) == Relevant(text, sw')
  {
    if Relevant(text, sw) {
      var k :| 0 <= k < |sw| && MeetsThreshold(text, sw[k]);
      assert sw[k] in multiset(sw');
      var k' :| 0 <= k' < |sw'| && sw'[k'] == sw[k];
    }
    if Relevant(text, sw') {
      var k :| 0 <= k < |sw'| && MeetsThreshold(text, sw'[k]);
      assert sw'[k] in multiset(sw);
      var k' :| 0 <= k' < |sw| && sw[k'] == sw'[k];
    }
  }

  /**
   * `check_abstract_keywords`: true as soon as one keyword is contained in
   * the abstract text, false if none is (in particular for no keywords).
   */
  function HasAbstractKeyword(text: string, keywords: seq<string>): (r: bool)
    ensures r <==> exists k :: 0 <= k < |keywords| && Contains(text, keywords[k])
  {
    if keywords == [] then false
    else if Contains(text, keywords[0]) then true
    else
      assert forall k :: 1 <= k < |keywords| ==> keywords[k] == keywords[1..][k - 1];
      HasAbstractKeyword(text, keywords[1..])
  }

  /** The abstract test in terms of positions: some keyword starts somewhere in the text. */
  lemma AbstractKeywordOccurs(text: string, keywords: seq<string>)
    ensures HasAbstractKeyword(text, keywords) <==>
            exists k, i :: 0 <= k < |keywords| && OccursAt(text, keywords[k], i)
  {
    forall k | 0 <= k < |keywords| {
      ContainsIffOccurs(text, keywords[k]);
    }
  }
}
