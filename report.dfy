/**
 * The one computation of the report that is not templating: the authors
 * line of `add_entry_to_html`, built by appending each author's name and
 * `", "` in author order.
 */
module Report {
  import opened Entries

  const Separator: string := ", "

  /** The authors line after the loop has appended the given authors. */
  function AuthorsString(authors: seq<Author>): string
    decreases |authors|
  {
    if authors == [] then ""
    else AuthorsString(authors[..|authors| - 1]) + authors[|authors| - 1].name + Separator
  }

  /** The loop that appends each author's name and the separator to the line. */
  method BuildAuthorsString(authors: seq<Author>) returns (authorsString: string)
    ensures authorsString == AuthorsString(authors)
  {
    authorsString := "";
    for k := 0 to |authors|
      invariant authorsString == AuthorsString(authors[..k])
    {
      assert authors[..k + 1][..k] == authors[..k];
      authorsString := authorsString + authors[k].name + Separator;
    }
    assert authors[..|authors|] == authors;
  }

  /** The names joined by `", "` with nothing after the last one. */
  function JoinNames(authors: seq<Author>): string
    decreases |authors|
  {
    if authors == [] then ""
    else if |authors| == 1 then authors[0].name
    else authors[0].name + Separator + JoinNames(authors[1..])
  }

  /** Total length of the names. */
  function NamesLength(authors: seq<Author>): nat
    decreases |authors|
  {
    if authors == [] then 0 else |authors[0].name| + NamesLength(authors[1..])
  }

  /** The line for a concatenation of author lists is the concatenation of their lines. */
  lemma {:induction false} AuthorsStringAppend(a: seq<Author>, b: seq<Author>)
    ensures AuthorsString(a + b) == AuthorsString(a) + AuthorsString(b)
    decreases |b|
  {
    if b == [] {
      assert a + b == a;
    } else {
      var n := |b| - 1;
      assert (a + b)[..|a + b| - 1] == a + b[..n];
      assert (a + b)[|a + b| - 1] == b[n];
      AuthorsStringAppend(a, b[..n]);
    }
  }

  /**
   * With at least one author the line is the names joined by `", "` in
   * author order, followed by a trailing `", "`.
   */
  lemma {:induction false} AuthorsStringTrailingSeparator(authors: seq<Author>)
    requires authors != []
    ensures AuthorsString(authors) == JoinNames(authors) + Separator
    decreases |authors|
  {
    if |authors| == 1 {
      assert authors[..0] == [];
    } else {
      var rest := authors[1..];
      assert authors == [authors[0]] + rest;
      AuthorsStringAppend([authors[0]], rest);
      assert [authors[0]][..0] == [];
      AuthorsStringTrailingSeparator(rest);
    }
  }

  /** The line holds every name plus two characters per author. */
  lemma {:induction false} AuthorsStringLength(authors: seq<Author>)
    ensures |AuthorsString(authors)| == NamesLength(authors) + 2 * |authors|
    decreases |authors|
  {
    if authors != [] {
      var rest := authors[1..];
      assert authors == [authors[0]] + rest;
      AuthorsStringAppend([authors[0]], rest);
      assert [authors[0]][..0] == [];
      AuthorsStringLength(rest);
    }
  }
}
