/**
 * The records the filter works on: feed entries as the feed parser
 * delivers them, and the settings the filter reads from its configuration.
 */
module Entries {

  /** One element of an entry's `authors` list; only `name` is read. */
  datatype Author = Author(name: string)

  /** One element of an entry's `links` list: its media `type` and its `href`. */
  datatype Link = Link(linkType: string, href: string)

  /** One paper of the feed. */
  datatype Entry = Entry(
    title: string,
    authors: seq<Author>,
    published: string,
    updated: string,
    summary: string,
    links: seq<Link>)

  /** One key of the `SEARCH_WORDS` dictionary with its minimum occurrence count. */
  datatype SearchWord = SearchWord(word: string, threshold: int)

  /**
   * The settings the filter reads: `SHOW_UPDATES`, `ABSTRACT_KEYWORDS`,
   * `MAX_PAGE_AMOUNT`, `SEARCH_WORDS` (in the dictionary's iteration order),
   * `TIMEOUT_INTERVAL` and `TIMEOUT_ATTEMPTS`.
   */
  datatype FilterConfig = FilterConfig(
    showUpdates: bool,
    abstractKeywords: seq<string>,
    maxPageAmount: int,
    searchWords: seq<SearchWord>,
    timeoutInterval: int,
    timeoutAttempts: int)
}
