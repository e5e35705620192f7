# Arxiv filter: the per-entry filtering decision

This project models the filtering core of the arxiv filter script. The script
fetches an arXiv feed for a category. For each entry it decides whether the
entry's PDF is worth reporting, and the relevant and failed entries go into an
HTML report. The model covers that decision and the authors line of the report:

- `Strings`: Python's `in` on strings (`Contains`) and `str.count` (`Count`).
  `Count` finds non-overlapping matches from left to right, and gives
  `len + 1` for the empty pattern.
- `Checks`: `get_pdf_link_from_entry` (`PdfLink`, with the `'NO PDF FILE'`
  sentinel), `check_whether_entry_is_relevant` (`Relevant`) and
  `check_abstract_keywords` (`HasAbstractKeyword`). These are pure functions.
- `Download`: the bounded retry loop. `Retry` is a function that gives the
  loop's state after its passes. `DownloadWithRetries` is the loop itself,
  with `break`, proved against `Retry`.
- `Filter`: the loop of `extract_relevant_entries_from_feed`.
  - `Decide` says what the loop body does with one entry.
  - `Collect` carries out those decisions. It gives the good list and the
    error list as positions in the feed, so two entries that are equal as
    values are still told apart.
  - `ExtractRelevantEntries` (the `for` loop), `ProcessEntry` (its body, where
    each `continue` is a `return`) and `ConcatPages` (the `text +=` loop) are
    methods proved against these functions.
- `FilterProperties`: what the partition guarantees. It covers early
  exclusion, the exact condition for a good entry, how many times an entry is
  in the error list, that no position is in both lists, feed order, and
  monotonicity in the thresholds.
- `Report`: the authors line of `add_entry_to_html`, as a loop
  (`BuildAuthorsString`) proved against a fold (`AuthorsString`).
- `Scenarios`: a three-entry feed worked through the filter, and a feed
  whose only entry lands in the error list twice.

The two side effects the filter depends on are passed in as parameters:

- Downloading is a `Network`. It gives the outcome of attempt `k` for the
  entry at feed position `i`: `Fetched(bytes)`, `TimedOut`, or `Failed` (any
  other exception).
- PDF reading is an `Extractor`. It turns bytes into `Pages(texts)` or
  `Unreadable`.

The `'NO PDF FILE'` sentinel is not a URL: `urlopen` rejects it with an error
that is not a timeout. So `AttemptOutcome` makes every attempt on it `Failed`.

The model follows what the code does, not the idealised behaviour:

- A non-timeout download failure appends the entry to the error list and
  sets the error flag, but does not leave the loop. Later attempts still
  happen, so an entry can be in the error list several times
  (`Scenarios.ErroredTwice`). An entry with no PDF link is in it once per
  attempt.
- The `SEARCH_WORDS` dictionary is a sequence in iteration order.
  `Checks.RelevantIgnoresOrder` shows that the order does not change the answer.

## Model

| member | source | states |
|---|---|---|
| `Strings.ContainsIffOccurs` | arxiv_integrate.py:113-119 | Python's `p in s` holds exactly when `p` occurs at some position of `s` (always for the empty `p`); matching is exact, so case-sensitive |
| `Strings.CountPositiveIffContains` | arxiv_integrate.py:106-110 | `text.count(word)` is positive exactly when the word is contained in the text, for every word including the empty one |
| `Strings.CountBound` | arxiv_integrate.py:106-110 | the counted occurrences do not overlap: count times word length is at most the text length, for every word |
| `Strings.CountPower` | arxiv_integrate.py:106-110 | a non-empty word written `m` times in a row is counted exactly `m` times |
| `Checks.PdfLink` | arxiv_integrate.py:23-28 | the result is the `href` of the first link whose type contains `"pdf"`; with no such link it is `'NO PDF FILE'` |
| `Checks.PdfLinkFindsFirst` | arxiv_integrate.py:23-28 | if any link's type contains `"pdf"`, the first such link, at or before it, is the one whose `href` is returned |
| `Checks.Relevant` | arxiv_integrate.py:106-110 | true iff some search word's count in the text reaches its threshold; false for an empty dictionary |
| `Checks.RelevantMonotone` | arxiv_integrate.py:106-110 | lowering any thresholds keeps a relevant text relevant |
| `Checks.RelevantIgnoresOrder` | arxiv_integrate.py:106-110 | any reordering of the search words gives the same answer |
| `Checks.HasAbstractKeyword` | arxiv_integrate.py:113-119 | true iff some keyword is a substring of the abstract; false for an empty keyword list |
| `Checks.AbstractKeywordOccurs` | arxiv_integrate.py:113-119 | the keyword test holds iff some keyword occurs at some position of the abstract |
| `Download.RetryStaysStopped` | arxiv_integrate.py:62-66 | after the `break` on a successful read, later passes change no loop variable |
| `Download.RetryStopsAtFirstSuccess` | arxiv_integrate.py:62-66 | at most `n` attempts are made; if attempt `j` is the first success the loop stops after `j + 1` attempts with that response; with no success all `n` are made and no response is read |
| `Download.RetryErrorAppends` | arxiv_integrate.py:67-80 | the entry is appended once per non-timeout failure among the attempts made, plus once if the last of the `n` attempts timed out; the error flag is set iff something was appended |
| `Download.RetryAllTimeouts` | arxiv_integrate.py:68-75 | if all `n >= 1` attempts time out, all are made and the entry is appended exactly once, with the flag set |
| `Download.RetryNoPdfFile` | arxiv_integrate.py:59-80 | downloading the `'NO PDF FILE'` sentinel makes all `n` attempts, appends the entry `n` times and sets the flag |
| `Download.RetryCleanMeansFetched` | arxiv_integrate.py:59-83 | with `n >= 1`, a clear error flag means a response was read and nothing was appended |
| `Download.DownloadWithRetries` | arxiv_integrate.py:59-80 | the retry loop ends with the error list extended by `Retry`'s number of copies of the entry, and with the flag, the response and the number of attempts that `Retry` gives |
| `Filter.ConcatPages` | arxiv_integrate.py:90-93 | the loop's text is the concatenation of the first `min(page_amount, max_page_amount)` pages (none when the maximum is not positive) |
| `Filter.PageTextPrefix` | arxiv_integrate.py:90-93 | the scanned text is a prefix of the whole document's text, and all of it when `MAX_PAGE_AMOUNT` is at least the page count |
| `Filter.ProcessEntry` | arxiv_integrate.py:47-99 | one loop body appends the entry to the good list iff `Decide` says so, and appends it to the error list as often as `Decide` says; the attempts made are `Decide`'s |
| `Filter.ExtractRelevantEntries` | arxiv_integrate.py:31-103 | the returned lists are the feed's entries at the positions `FeedPartition` gives: `good_entries`, then `error_entries` |
| `FilterProperties.CollectGoodMembership` | arxiv_integrate.py:42-99 | feed position `i` is in the good list iff its decision is good |
| `FilterProperties.CollectErrorMultiplicity` | arxiv_integrate.py:42-99 | feed position `i` is in the error list exactly as many times as its decision appends it |
| `FilterProperties.EarlyExclusion` | arxiv_integrate.py:47-56 | an entry that is an update while `SHOW_UPDATES` is off, or whose abstract contains none of the configured keywords, is in neither list and has no download attempt |
| `FilterProperties.GoodIff` | arxiv_integrate.py:82-95 | an entry is good iff it passes both early checks, the download loop ends without the error flag, the PDF reads and the scanned text is relevant |
| `FilterProperties.ErrorMultiplicity` | arxiv_integrate.py:62-99 | an entry that passed the early checks is in the error list once per non-timeout failure, plus once for a last-attempt timeout, and then not good; with a clean download it is there once if the PDF is unreadable, else not at all |
| `FilterProperties.AllTimeoutsErrorOnce` | arxiv_integrate.py:68-75 | an entry whose every download attempt times out is in the error list exactly once, after `TIMEOUT_ATTEMPTS` attempts, and is not good |
| `FilterProperties.MissingPdfLinkErrors` | arxiv_integrate.py:23-28 | an entry without a PDF link that passes the early checks is in the error list `TIMEOUT_ATTEMPTS` times and is not good |
| `FilterProperties.GoodAndErrorsDisjoint` | arxiv_integrate.py:82-99 | no feed position is in both the good list and the error list |
| `FilterProperties.PartitionInFeedOrder` | arxiv_integrate.py:42-99 | the good list is strictly increasing in feed position and the error list non-decreasing, so both keep feed order |
| `FilterProperties.DecideMonotone` | arxiv_integrate.py:94-95 | lowering thresholds changes no attempt count and no error append for an entry, and keeps a good entry good |
| `FilterProperties.ThresholdMonotone` | arxiv_integrate.py:94-95 | over the whole feed, lowering thresholds leaves the error list unchanged and every good entry good |
| `Report.BuildAuthorsString` | arxiv_integrate.py:140-142 | the `+=` loop produces `AuthorsString` of the authors |
| `Report.AuthorsStringTrailingSeparator` | arxiv_integrate.py:140-142 | with at least one author the line is the names joined by `", "` in author order, followed by a trailing `", "` |
| `Report.AuthorsStringAppend` | arxiv_integrate.py:140-142 | the line for two author lists one after the other is their two lines concatenated |
| `Report.AuthorsStringLength` | arxiv_integrate.py:140-142 | the line's length is the total length of the names plus two per author |
| `Scenarios.ScenarioThreeEntries` | arxiv_integrate.py:42-99 | an updated entry and an off-topic entry are dropped; an entry whose page says "quantum" five times, against threshold 3, is the only good entry; the error list is empty |
| `Scenarios.ErroredTwice` | arxiv_integrate.py:76-80 | two non-timeout failures followed by a success put the entry in the error list twice and not in the good list |

## Left out

- `run_query` (arxiv_integrate.py:11-20): the HTTP request and the feed parsing are network I/O and a foreign library. The feed is a given sequence of `Entry` records.
- `urlopen(...).read()` and the `'timed out' in str(e)` test (arxiv_integrate.py:64-68): network I/O. Each attempt's outcome is supplied by the `Network` parameter, already sorted into timeout and other failure. `timeoutInterval` is kept in `FilterConfig`, but only `urlopen` would read it.
- PyPDF2 (arxiv_integrate.py:89-93) is a foreign parser and becomes the `Extractor` parameter. An exception while reading any page is `Unreadable`: the code then discards the partial text and appends the entry to the error list, as for a failure at open.
- Writing and deleting `temp.pdf` (arxiv_integrate.py:85-88, 101-102): file-system I/O. The downloaded bytes go straight to the `Extractor`.
- `print_entries_to_html` and the rest of `add_entry_to_html` (arxiv_integrate.py:122-148, apart from 140-142): HTML templating and file output. Only the output path, `<category>_<date>.html` (arxiv_integrate.py:133), reads the wall clock; the headings do not. The `links[0]` and `links[1]` lookups there belong to rendering.
- Loading settings with `configparser` and `ast.literal_eval`, the global `config`, and the loop over categories (arxiv_integrate.py:14-15, 36-41, 151-173): configuration I/O. The settings are the explicit `FilterConfig` record.
- Progress and error output with `print`, the `printed_entry_flag` that only controls printing, and `time.sleep(5)` (arxiv_integrate.py:44-45, 69-72, 77-78, 97-98, 166): observable side effects only.
- `timeout_attempts <= 0` (arxiv_integrate.py:62, 65, 86): `response` is a local assigned only inside the retry loop, so with no attempts it is never bound. The file write at line 86 lies outside the `try` at line 87. It raises `UnboundLocalError` at the first entry that passes the early checks, and that ends the whole run. The model does not capture that crash: `Decide`, `Decisions`, `FeedPartition`, `ProcessEntry`, `ExtractRelevantEntries` and the lemmas about them require `timeoutAttempts >= 1`.
- Python's dynamic errors are not modelled: a missing dictionary key (such as a link without `type`), an `IndexError`, or thresholds that are not integers. Every field is present and every threshold is an integer.
