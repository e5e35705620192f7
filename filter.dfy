/**
 * `extract_relevant_entries_from_feed`: walk the feed in order and sort each
 * entry into the good list, the error list, or neither.
 *
 * `Decide` says what the loop body does with one entry; `Collect` carries
 * out a sequence of such decisions and gives both lists as positions in the
 * feed, so that entries equal as values are still told apart. The methods
 * are the Python loops, each proved against these functions.
 */
module Filter {
  import opened Seqs
  import opened Entries
  import opened Checks
  import opened Download

  /** What the PDF reader makes of the downloaded bytes: the text of each page, or an exception. */
  datatype Extraction = Pages(pages: seq<string>) | Unreadable

  type Extractor = Bytes -> Extraction

  /** The number of pages read: the smaller of the page count and `MAX_PAGE_AMOUNT`, and none if that is not positive. */
  function PagesScanned(pageAmount: nat, maxPageAmount: int): (m: nat)
    ensures m <= pageAmount
    ensures maxPageAmount <= 0 ==> m == 0
    ensures maxPageAmount > 0 ==> m == pageAmount || m == maxPageAmount
    ensures m <= maxPageAmount || m == 0
  {
    if maxPageAmount <= 0 then 0
    else if pageAmount <= maxPageAmount then pageAmount
    else maxPageAmount
  }

  /** The texts one after another, as appending them in turn leaves them. */
  function Concat(texts: seq<string>): string
    decreases |texts|
  {
    if texts == [] then "" else Concat(texts[..|texts| - 1]) + texts[|texts| - 1]
  }

  /** The text the relevance test reads: the first `PagesScanned` pages. */
  function PageText(pages: seq<string>, maxPageAmount: int): string
  {
    Concat(pages[..PagesScanned(|pages|, maxPageAmount)])
  }

  lemma {:induction false} ConcatAppend(a: seq<string>, b: seq<string>)
    ensures Concat(a + b) == Concat(a) + Concat(b)
    decreases |b|
  {
    if b == [] {
      assert a + b == a;
    } else {
      var n := |b| - 1;
      assert (a + b)[..|a + b| - 1] == a + b[..n];
      ConcatAppend(a, b[..n]);
    }
  }

  /**
   * The text read is the document's text cut after the last page read:
   * a prefix of all pages' text, and all of it when `MAX_PAGE_AMOUNT`
   * is at least the number of pages.
   */
  lemma PageTextPrefix(pages: seq<string>, maxPageAmount: int)
    ensures PageText(pages, maxPageAmount) <= Concat(pages)
    ensures maxPageAmount >= |pages| ==> PageText(pages, maxPageAmount) == Concat(pages)
  {
    var m := PagesScanned(|pages|, maxPageAmount);
    assert pages == pages[..m] + pages[m..];
    ConcatAppend(pages[..m], pages[m..]);
    assert pages[..|pages|] == pages;
  }

  /** The update check: with `SHOW_UPDATES` off, only entries never updated pass. */
  predicate PassesUpdateCheck(e: Entry, cfg: FilterConfig)
  {
    cfg.showUpdates || e.updated == e.published
  }

  /** The abstract check: with keywords configured, the abstract must contain one. */
  predicate PassesAbstractCheck(e: Entry, cfg: FilterConfig)
  {
    |cfg.abstractKeywords| == 0 || HasAbstractKeyword(e.summary, cfg.abstractKeywords)
  }

  /**
   * What the loop body does with one entry: the download attempts it makes,
   * how often it appends the entry to `error_entries`, and whether it
   * appends it to `good_entries`.
   */
  datatype Decision = Decision(attempts: nat, errorAppends: nat, good: bool)

  /** The loop body for the entry `e` at position `i` of the feed. */
  function Decide(e: Entry, i: nat, cfg: FilterConfig, network: Network, extract: Extractor): Decision
    requires cfg.timeoutAttempts >= 1
  {
    if !PassesUpdateCheck(e, cfg) || !PassesAbstractCheck(e, cfg) then Decision(0, 0, false)
    else
      var link := PdfLink(e.links);
      var r := Retry(network, i, link, cfg.timeoutAttempts);
      if r.errorFlag then Decision(r.attempts, r.errorAppends, false)
      else
        RetryCleanMeansFetched(network, i, link, cfg.timeoutAttempts);
        match extract(r.response.value)
        case Unreadable => Decision(r.attempts, r.errorAppends + 1, false)
        case Pages(pages) =>
          Decision(r.attempts, r.errorAppends, Relevant(PageText(pages, cfg.maxPageAmount), cfg.searchWords))
  }

  /** The two output lists, as positions in the feed. */
  datatype Partition = Partition(good: seq<nat>, errors: seq<nat>)

  /** The decision for every entry of the feed, in feed order. */
  function Decisions(feed: seq<Entry>, cfg: FilterConfig, network: Network, extract: Extractor): (ds: seq<Decision>)
    requires cfg.timeoutAttempts >= 1
  {
    seq(|feed|, i requires 0 <= i < |feed| => Decide(feed[i], i, cfg, network, extract))
  }

  /**
   * The output lists, as feed positions, after the loop has carried out the
   * decisions `ds` for the first `|ds|` entries: the position of each entry
   * is appended as its decision says.
   */
  function Collect(ds: seq<Decision>): (p: Partition)
    ensures forall j :: 0 <= j < |p.good| ==> p.good[j] < |ds|
    ensures forall j :: 0 <= j < |p.errors| ==> p.errors[j] < |ds|
    decreases |ds|
  {
    if ds == [] then Partition([], [])
    else
      var p := Collect(ds[..|ds| - 1]);
      var d := ds[|ds| - 1];
      Partition(p.good + (if d.good then [|ds| - 1] else []), p.errors + Repeat(|ds| - 1, d.errorAppends))
  }

  /** Carrying out one more decision appends to the lists as that decision says. */
  lemma CollectStep(ds: seq<Decision>, i: nat)
    requires i < |ds|
    ensures var p := Collect(ds[..i]);
      Collect(ds[..i + 1]) ==
        Partition(p.good + (if ds[i].good then [i] else []), p.errors + Repeat(i, ds[i].errorAppends))
  {
    assert ds[..i + 1][..i] == ds[..i];
  }

  /** The output lists for the whole feed. */
  function FeedPartition(feed: seq<Entry>, cfg: FilterConfig, network: Network, extract: Extractor): (p: Partition)
    requires cfg.timeoutAttempts >= 1
    ensures forall j :: 0 <= j < |p.good| ==> p.good[j] < |feed|
    ensures forall j :: 0 <= j < |p.errors| ==> p.errors[j] < |feed|
  {
    Collect(Decisions(feed, cfg, network, extract))
  }

  /** The entries of `feed` at positions `idx`, in that order. */
  function Select(feed: seq<Entry>, idx: seq<nat>): seq<Entry>
    requires forall j :: 0 <= j < |idx| ==> idx[j] < |feed|
  {
    seq(|idx|, j requires 0 <= j < |idx| => feed[idx[j]])
  }

  lemma SelectAppend(feed: seq<Entry>, a: seq<nat>, b: seq<nat>)
    requires forall j :: 0 <= j < |a| ==> a[j] < |feed|
    requires forall j :: 0 <= j < |b| ==> b[j] < |feed|
    ensures Select(feed, a + b) == Select(feed, a) + Select(feed, b)
  {
  }

  lemma SelectRepeat(feed: seq<Entry>, i: nat, m: nat)
    requires i < |feed|
    ensures Select(feed, Repeat(i, m)) == Repeat(feed[i], m)
  {
  }

  /** The page loop: append the extracted text of each page read. */
  method ConcatPages(pages: seq<string>, maxPageAmount: int) returns (text: string)
    ensures text == PageText(pages, maxPageAmount)
  {
    var pageCount := PagesScanned(|pages|, maxPageAmount);
    text := "";
    for page := 0 to pageCount
      invariant text == Concat(pages[..page])
    {
      assert pages[..page + 1][..page] == pages[..page];
      text := text + pages[page];
    }
  }

  /**
   * The loop body for the entry `e` at position `i`: `good` and `errors` are
   * the lists so far, and every `continue` of the Python loop is a `return`.
   * The ghost `attempts` counts the download attempts made.
   */
  method ProcessEntry(e: Entry, i: nat, cfg: FilterConfig, network: Network, extract: Extractor,
                      good: seq<Entry>, errors: seq<Entry>)
    returns (goodOut: seq<Entry>, errorsOut: seq<Entry>, ghost attempts: nat)
    requires cfg.timeoutAttempts >= 1
    ensures goodOut == good + (if Decide(e, i, cfg, network, extract).good then [e] else [])
    ensures errorsOut == errors + Repeat(e, Decide(e, i, cfg, network, extract).errorAppends)
    ensures attempts == Decide(e, i, cfg, network, extract).attempts
  {
    goodOut, errorsOut, attempts := good, errors, 0;
    if !cfg.showUpdates {
      if e.updated != e.published {
        return;
      }
    }
    if |cfg.abstractKeywords| > 0 {
      var abstractKeywordFlag := HasAbstractKeyword(e.summary, cfg.abstractKeywords);
      if !abstractKeywordFlag {
        return;
      }
    }
    var pdfLink := PdfLink(e.links);
    var errorWithPdfFlag, response;
    errorsOut, errorWithPdfFlag, response, attempts :=
      DownloadWithRetries(e, i, pdfLink, cfg.timeoutAttempts, network, errors);
    if errorWithPdfFlag {
      return;
    }
    RetryCleanMeansFetched(network, i, pdfLink, cfg.timeoutAttempts);
    match extract(response.value) {
      case Unreadable =>
        errorsOut := errorsOut + [e];
      case Pages(pages) =>
        var text := ConcatPages(pages, cfg.maxPageAmount);
        if Relevant(text, cfg.searchWords) {
          goodOut := goodOut + [e];
        }
    }
  }

  /**
   * `extract_relevant_entries_from_feed`: the good list and the error list
   * are the feed's entries at the positions `FeedPartition` gives.
   */
  method ExtractRelevantEntries(feed: seq<Entry>, cfg: FilterConfig, network: Network, extract: Extractor)
    returns (good: seq<Entry>, errors: seq<Entry>)
    requires cfg.timeoutAttempts >= 1
    ensures var p := FeedPartition(feed, cfg, network, extract);
      good == Select(feed, p.good) && errors == Select(feed, p.errors)
  {
    ghost var ds := Decisions(feed, cfg, network, extract);
    good, errors := [], [];
    for i := 0 to |feed|
      invariant var p := Collect(ds[..i]);
        good == Select(feed, p.good) && errors == Select(feed, p.errors)
    {
      ghost var p := Collect(ds[..i]);
      ghost var d := ds[i];
      ghost var attempts;
      good, errors, attempts := ProcessEntry(feed[i], i, cfg, network, extract, good, errors);
      CollectStep(ds, i);
      SelectAppend(feed, p.good, if d.good then [i] else []);
      SelectAppend(feed, p.errors, Repeat(i, d.errorAppends));
      SelectRepeat(feed, i, d.errorAppends);
    }
    assert ds[..|feed|] == ds;
  }
}
