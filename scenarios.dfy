/**
 * A three-entry feed worked through the filter, with updates hidden,
 * `"quantum"` as the abstract keyword and `{"quantum": 3}` as search words:
 * an updated entry and an entry whose abstract misses the keyword are
 * dropped, and the entry whose first page says "quantum" five times is the
 * one good entry. A last scenario shows that failures other than timeouts
 * do not end the retry loop.
 */
module Scenarios {
  import opened Strings
  import opened Entries
  import opened Checks
  import opened Download
  import opened Filter

  const Cfg: FilterConfig := FilterConfig(false, ["quantum"], 1, [SearchWord("quantum", 3)], 10, 3)

  const PdfOf: Link := Link("application/pdf", "http://arxiv.org/pdf/1")

  const Updated: Entry := Entry("a", [], "2020", "2021", "quantum", [PdfOf])
  const OffTopic: Entry := Entry("b", [], "2020", "2020", "cats", [PdfOf])
  const OnTopic: Entry := Entry("c", [], "2020", "2020", "quantum", [PdfOf])

  /** Every download succeeds at the first attempt. */
  function AlwaysFetched(i: nat, k: nat): Attempt { Fetched([]) }

  /** Every downloaded PDF has one page saying "quantum" five times. */
  function FivePages(data: Bytes): Extraction { Pages([Power("quantum", 5)]) }

  lemma UpdatedDropped()
    ensures Decide(Updated, 0, Cfg, AlwaysFetched, FivePages) == Decision(0, 0, false)
  {
    assert !PassesUpdateCheck(Updated, Cfg);
  }

  lemma OffTopicDropped()
    ensures Decide(OffTopic, 1, Cfg, AlwaysFetched, FivePages) == Decision(0, 0, false)
  {
    assert !Contains("cats", "quantum");
    assert !PassesAbstractCheck(OffTopic, Cfg);
  }

  lemma OnTopicLink()
    ensures PdfLink(OnTopic.links) == PdfOf.href
  {
    assert OccursAt("application/pdf", "pdf", 12);
    ContainsIffOccurs("application/pdf", "pdf");
  }

  lemma OnTopicDownload()
    ensures Retry(AlwaysFetched, 2, PdfOf.href, 3) == RetryState(1, 0, false, Some([]), true)
  {
    assert RetryAfter(AlwaysFetched, 2, PdfOf.href, 3, 1).stopped;
    RetryStaysStopped(AlwaysFetched, 2, PdfOf.href, 3, 1, 3);
  }

  lemma OnTopicRelevant()
    ensures Relevant(PageText([Power("quantum", 5)], 1), Cfg.searchWords)
  {
    CountPower("quantum", 5);
    assert [Power("quantum", 5)][..1] == [Power("quantum", 5)];
    assert PageText([Power("quantum", 5)], 1) == Power("quantum", 5);
  }

  lemma OnTopicKept()
    ensures Decide(OnTopic, 2, Cfg, AlwaysFetched, FivePages) == Decision(1, 0, true)
  {
    assert "quantum" <= "quantum";
    assert PassesAbstractCheck(OnTopic, Cfg);
    OnTopicLink();
    OnTopicDownload();
    OnTopicRelevant();
  }

  lemma ThreeDecisions()
    ensures Decisions([Updated, OffTopic, OnTopic], Cfg, AlwaysFetched, FivePages) ==
      [Decision(0, 0, false), Decision(0, 0, false), Decision(1, 0, true)]
  {
    var ds := Decisions([Updated, OffTopic, OnTopic], Cfg, AlwaysFetched, FivePages);
    UpdatedDropped();
    OffTopicDropped();
    OnTopicKept();
    assert ds[0] == Decision(0, 0, false);
    assert ds[1] == Decision(0, 0, false);
    assert ds[2] == Decision(1, 0, true);
  }

  lemma ScenarioThreeEntries()
    ensures FeedPartition([Updated, OffTopic, OnTopic], Cfg, AlwaysFetched, FivePages) == Partition([2], [])
  {
    var ds := Decisions([Updated, OffTopic, OnTopic], Cfg, AlwaysFetched, FivePages);
    ThreeDecisions();
    assert ds[..0] == [];
    CollectStep(ds, 0);
    CollectStep(ds, 1);
    CollectStep(ds, 2);
    assert ds[..3] == ds;
  }

  /** The first two attempts fail with an error other than a timeout; the third succeeds. */
  function FailTwiceThenFetch(i: nat, k: nat): Attempt { if k < 2 then Failed else Fetched([]) }

  /** A non-timeout failure does not end the loop: both failures append, and the third attempt is still made. */
  lemma FailuresDoNotStopTheLoop()
    ensures Retry(FailTwiceThenFetch, 0, PdfOf.href, 3) == RetryState(3, 2, true, Some([]), true)
  {
  }

  /** So the one entry of this feed is in the error list twice, and not in the good list. */
  lemma ErroredTwice()
    ensures FeedPartition([OnTopic], Cfg, FailTwiceThenFetch, FivePages) == Partition([], [0, 0])
  {
    assert "quantum" <= "quantum";
    assert PassesAbstractCheck(OnTopic, Cfg);
    OnTopicLink();
    FailuresDoNotStopTheLoop();
    var ds := Decisions([OnTopic], Cfg, FailTwiceThenFetch, FivePages);
    assert |ds| == 1 && ds[0] == Decide(OnTopic, 0, Cfg, FailTwiceThenFetch, FivePages);
    assert ds == [Decision(3, 2, false)];
    assert ds[..0] == [];
    CollectStep(ds, 0);
    assert ds[..1] == ds;
  }
}
