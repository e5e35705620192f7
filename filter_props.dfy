/**
 * What the partition of the feed guarantees: where each entry ends up,
 * that the two lists never share an entry and keep feed order, and how the
 * outcome changes when thresholds are lowered.
 */
module FilterProperties {
  import opened Seqs
  import opened Strings
  import opened Entries
  import opened Checks
  import opened Download
  import opened Filter

  /** Position `i` is in the good list exactly when decision `i` says so. */
  lemma {:induction false} CollectGoodMembership(ds: seq<Decision>, i: nat)
    requires i < |ds|
    ensures i in Collect(ds).good <==> ds[i].good
    decreases |ds|
  {
    var n := |ds| - 1;
    var p := Collect(ds[..n]);
    assert Collect(ds).good == p.good + (if ds[n].good then [n] else []);
    if i < n {
      CollectGoodMembership(ds[..n], i);
      assert ds[..n][i] == ds[i];
    } else {
      assert i !in p.good;
    }
  }

  /** The last decision adds its appends to the count of its own position only. */
  lemma CollectErrorsLast(ds: seq<Decision>, i: nat)
    requires ds != []
    ensures var n := |ds| - 1;
      multiset(Collect(ds).errors)[i] ==
        multiset(Collect(ds[..n]).errors)[i] + (if i == n then ds[n].errorAppends else 0)
  {
    var n := |ds| - 1;
    assert Collect(ds).errors == Collect(ds[..n]).errors + Repeat(n, ds[n].errorAppends);
    RepeatAppendMultiplicity(Collect(ds[..n]).errors, n, ds[n].errorAppends, i);
  }

  /** Position `i` is in the error list as often as decision `i` appends it. */
  lemma {:induction false} CollectErrorMultiplicity(ds: seq<Decision>, i: nat)
    requires i < |ds|
    ensures multiset(Collect(ds).errors)[i] == ds[i].errorAppends
    decreases |ds|
  {
    var n := |ds| - 1;
    CollectErrorsLast(ds, i);
    if i < n {
      CollectErrorMultiplicity(ds[..n], i);
      assert ds[..n][i] == ds[i];
    } else {
      assert i !in Collect(ds[..n]).errors;
    }
  }

  /**
   * Position `i` is in the good list exactly when decision `i` says so, and
   * in the error list as often as decision `i` appends it.
   */
  lemma CollectMembership(ds: seq<Decision>, i: nat)
    requires i < |ds|
    ensures i in Collect(ds).good <==> ds[i].good
    ensures multiset(Collect(ds).errors)[i] == ds[i].errorAppends
  {
    CollectGoodMembership(ds, i);
    CollectErrorMultiplicity(ds, i);
  }

  /** `CollectMembership` for the decisions of the whole feed. */
  lemma FeedMembership(feed: seq<Entry>, cfg: FilterConfig, network: Network, extract: Extractor, i: nat)
    requires cfg.timeoutAttempts >= 1 && i < |feed|
    ensures var p := FeedPartition(feed, cfg, network, extract);
      var d := Decide(feed[i], i, cfg, network, extract);
      (i in p.good <==> d.good) && multiset(p.errors)[i] == d.errorAppends
  {
    CollectMembership(Decisions(feed, cfg, network, extract), i);
  }

  /**
   * An entry that fails the update check or the abstract check is in
   * neither list, and no download is attempted for it.
   */
  lemma EarlyExclusion(feed: seq<Entry>, cfg: FilterConfig, network: Network, extract: Extractor, i: nat)
    requires cfg.timeoutAttempts >= 1 && i < |feed|
    requires (!cfg.showUpdates && feed[i].updated != feed[i].published) ||
             (|cfg.abstractKeywords| > 0 &&
              forall k :: 0 <= k < |cfg.abstractKeywords| ==> !Contains(feed[i].summary, cfg.abstractKeywords[k]))
    ensures var p := FeedPartition(feed, cfg, network, extract);
      i !in p.good && i !in p.errors && Decide(feed[i], i, cfg, network, extract).attempts == 0
  {
    FeedMembership(feed, cfg, network, extract, i);
  }

  /**
   * An entry is in the good list exactly when it passes both early checks,
   * the download loop ends without the error flag, the PDF can be read and
   * the text of the pages read is relevant.
   */
  lemma GoodIff(feed: seq<Entry>, cfg: FilterConfig, network: Network, extract: Extractor, i: nat)
    requires cfg.timeoutAttempts >= 1 && i < |feed|
    ensures var p := FeedPartition(feed, cfg, network, extract);
      var r := Retry(network, i, PdfLink(feed[i].links), cfg.timeoutAttempts);
      i in p.good <==>
        && PassesUpdateCheck(feed[i], cfg)
        && PassesAbstractCheck(feed[i], cfg)
        && !r.errorFlag
        && r.response.Some?
        && extract(r.response.value).Pages?
        && Relevant(PageText(extract(r.response.value).pages, cfg.maxPageAmount), cfg.searchWords)
  {
    FeedMembership(feed, cfg, network, extract, i);
    RetryCleanMeansFetched(network, i, PdfLink(feed[i].links), cfg.timeoutAttempts);
  }

  /**
   * How often an entry that passed the early checks is in the error list:
   * each non-timeout download failure adds one, a timeout on the last
   * attempt adds one, and an unreadable PDF adds one when the download was
   * clean. An entry in the error list is never in the good list.
   */
  lemma ErrorMultiplicity(feed: seq<Entry>, cfg: FilterConfig, network: Network, extract: Extractor, i: nat)
    requires cfg.timeoutAttempts >= 1 && i < |feed|
    requires PassesUpdateCheck(feed[i], cfg) && PassesAbstractCheck(feed[i], cfg)
    ensures var p := FeedPartition(feed, cfg, network, extract);
      var link := PdfLink(feed[i].links);
      var r := Retry(network, i, link, cfg.timeoutAttempts);
      && (r.errorFlag ==>
            multiset(p.errors)[i] ==
              FailuresBefore(network, i, link, r.attempts) +
              (if LastAttemptTimedOut(network, i, link, cfg.timeoutAttempts, r.attempts) then 1 else 0)
            && i !in p.good)
      && (!r.errorFlag ==>
            && r.response.Some?
            && multiset(p.errors)[i] == (if extract(r.response.value).Unreadable? then 1 else 0))
  {
    FeedMembership(feed, cfg, network, extract, i);
    RetryErrorAppends(network, i, PdfLink(feed[i].links), cfg.timeoutAttempts);
    RetryCleanMeansFetched(network, i, PdfLink(feed[i].links), cfg.timeoutAttempts);
  }

  /**
   * An entry whose PDF download times out on every attempt is in the error
   * list exactly once, after `TIMEOUT_ATTEMPTS` attempts, and not in the good list.
   */
  lemma AllTimeoutsErrorOnce(feed: seq<Entry>, cfg: FilterConfig, network: Network, extract: Extractor, i: nat)
    requires cfg.timeoutAttempts >= 1 && i < |feed|
    requires PassesUpdateCheck(feed[i], cfg) && PassesAbstractCheck(feed[i], cfg)
    requires PdfLink(feed[i].links) != NoPdfFile
    requires forall k :: 0 <= k < cfg.timeoutAttempts ==> network(i, k) == TimedOut
    ensures var p := FeedPartition(feed, cfg, network, extract);
      multiset(p.errors)[i] == 1 && i !in p.good &&
      Decide(feed[i], i, cfg, network, extract).attempts == cfg.timeoutAttempts
  {
    FeedMembership(feed, cfg, network, extract, i);
    RetryAllTimeouts(network, i, PdfLink(feed[i].links), cfg.timeoutAttempts);
  }

  /**
   * An entry without a PDF link that passes the early checks is attempted
   * `TIMEOUT_ATTEMPTS` times, lands in the error list once per attempt, and
   * never in the good list.
   */
  lemma MissingPdfLinkErrors(feed: seq<Entry>, cfg: FilterConfig, network: Network, extract: Extractor, i: nat)
    requires cfg.timeoutAttempts >= 1 && i < |feed|
    requires PassesUpdateCheck(feed[i], cfg) && PassesAbstractCheck(feed[i], cfg)
    requires forall k :: 0 <= k < |feed[i].links| ==> !IsPdfLink(feed[i].links[k])
    ensures var p := FeedPartition(feed, cfg, network, extract);
      multiset(p.errors)[i] == cfg.timeoutAttempts && i !in p.good &&
      Decide(feed[i], i, cfg, network, extract).attempts == cfg.timeoutAttempts
  {
    FeedMembership(feed, cfg, network, extract, i);
    RetryNoPdfFile(network, i, cfg.timeoutAttempts);
  }

  /** No position of the feed is in both lists. */
  lemma GoodAndErrorsDisjoint(feed: seq<Entry>, cfg: FilterConfig, network: Network, extract: Extractor, i: nat)
    requires cfg.timeoutAttempts >= 1
    ensures var p := FeedPartition(feed, cfg, network, extract);
      !(i in p.good && i in p.errors)
  {
    var p := FeedPartition(feed, cfg, network, extract);
    if i in p.good {
      var j :| 0 <= j < |p.good| && p.good[j] == i;
      FeedMembership(feed, cfg, network, extract, i);
      RetryCleanMeansFetched(network, i, PdfLink(feed[i].links), cfg.timeoutAttempts);
    }
  }

  /** Both lists keep feed order; the good list holds each position at most once. */
  lemma {:induction false} CollectInFeedOrder(ds: seq<Decision>)
    ensures var p := Collect(ds);
      && (forall a, b :: 0 <= a < b < |p.good| ==> p.good[a] < p.good[b])
      && (forall a, b :: 0 <= a < b < |p.errors| ==> p.errors[a] <= p.errors[b])
    decreases |ds|
  {
    if ds != [] {
      var n := |ds| - 1;
      var p := Collect(ds[..n]);
      var pk := Collect(ds);
      assert ds[..n + 1] == ds;
      CollectStep(ds, n);
      CollectInFeedOrder(ds[..n]);
      forall a, b | 0 <= a < b < |pk.good| ensures pk.good[a] < pk.good[b] {
        if b >= |p.good| {
          assert pk.good[b] == n;
          assert pk.good[a] == p.good[a];
        }
      }
      forall a, b | 0 <= a < b < |pk.errors| ensures pk.errors[a] <= pk.errors[b] {
        if b >= |p.errors| {
          assert pk.errors[b] == n;
          if a < |p.errors| {
            assert pk.errors[a] == p.errors[a];
          }
        }
      }
    }
  }

  /** Feed order for the lists of the whole feed. */
  lemma PartitionInFeedOrder(feed: seq<Entry>, cfg: FilterConfig, network: Network, extract: Extractor)
    requires cfg.timeoutAttempts >= 1
    ensures var p := FeedPartition(feed, cfg, network, extract);
      && (forall a, b :: 0 <= a < b < |p.good| ==> p.good[a] < p.good[b])
      && (forall a, b :: 0 <= a < b < |p.errors| ==> p.errors[a] <= p.errors[b])
  {
    var ds := Decisions(feed, cfg, network, extract);
    CollectInFeedOrder(ds);
    assert FeedPartition(feed, cfg, network, extract) == Collect(ds);
  }

  /** `cfg'` is `cfg` with some search-word thresholds lowered. */
  ghost predicate LowersConfig(cfg: FilterConfig, cfg': FilterConfig)
  {
    cfg' == cfg.(searchWords := cfg'.searchWords) && LowersThresholds(cfg.searchWords, cfg'.searchWords)
  }

  /** Lowering thresholds changes no download and no error, and only adds good entries. */
  lemma DecideMonotone(e: Entry, i: nat, cfg: FilterConfig, cfg': FilterConfig, network: Network, extract: Extractor)
    requires cfg.timeoutAttempts >= 1 && LowersConfig(cfg, cfg')
    ensures var d := Decide(e, i, cfg, network, extract);
      var d' := Decide(e, i, cfg', network, extract);
      d'.attempts == d.attempts && d'.errorAppends == d.errorAppends && (d.good ==> d'.good)
  {
    var d := Decide(e, i, cfg, network, extract);
    if d.good {
      var r := Retry(network, i, PdfLink(e.links), cfg.timeoutAttempts);
      RetryCleanMeansFetched(network, i, PdfLink(e.links), cfg.timeoutAttempts);
      RelevantMonotone(PageText(extract(r.response.value).pages, cfg.maxPageAmount),
                       cfg.searchWords, cfg'.searchWords);
    }
  }

  /** `ds'` makes the same downloads and errors as `ds`, and is good wherever `ds` is. */
  ghost predicate WeakerDecisions(ds: seq<Decision>, ds': seq<Decision>)
  {
    |ds'| == |ds| &&
    forall i :: 0 <= i < |ds| ==>
      ds'[i].errorAppends == ds[i].errorAppends && (ds[i].good ==> ds'[i].good)
  }

  lemma {:induction false} CollectMonotone(ds: seq<Decision>, ds': seq<Decision>)
    requires WeakerDecisions(ds, ds')
    ensures Collect(ds').errors == Collect(ds).errors
    ensures forall i :: i in Collect(ds).good ==> i in Collect(ds').good
    decreases |ds|
  {
    if ds != [] {
      var n := |ds| - 1;
      assert WeakerDecisions(ds[..n], ds'[..n]);
      CollectMonotone(ds[..n], ds'[..n]);
      assert ds[..n + 1] == ds;
      assert ds'[..n + 1] == ds';
      CollectStep(ds, n);
      CollectStep(ds', n);
    }
  }

  /**
   * Relevance is monotone in the thresholds over the whole feed: after
   * lowering thresholds the error list is the same and every good entry is
   * still good.
   */
  lemma ThresholdMonotone(feed: seq<Entry>, cfg: FilterConfig, cfg': FilterConfig,
                          network: Network, extract: Extractor)
    requires cfg.timeoutAttempts >= 1 && LowersConfig(cfg, cfg')
    ensures var p := FeedPartition(feed, cfg, network, extract);
      var p' := FeedPartition(feed, cfg', network, extract);
      p'.errors == p.errors && forall i :: i in p.good ==> i in p'.good
  {
    var ds := Decisions(feed, cfg, network, extract);
    var ds' := Decisions(feed, cfg', network, extract);
    forall i | 0 <= i < |feed|
      ensures ds'[i].errorAppends == ds[i].errorAppends && (ds[i].good ==> ds'[i].good)
    {
      DecideMonotone(feed[i], i, cfg, cfg', network, extract);
    }
    CollectMonotone(ds, ds');
  }
}
