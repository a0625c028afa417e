/** The two ends of `Engine.Run`: the history filter that decides which domains are tested, and the
    collector that sorts their results into country pools, the failure list and the statistics. */
module EngineRun {
  import opened ProbeEngine
  import S = Stages

  type Pools = map<string, seq<string>>

  function Pool(pools: Pools, country: string): seq<string> {
    if country in pools then pools[country] else []
  }

  function Appended(pools: Pools, country: string, domain: string): Pools {
    pools[country := Pool(pools, country) + [domain]]
  }

  // ---------------------------------------------------------------------------------------------
  // The history filter

  /** What the stored history says; a domain may be in several of its parts. */
  datatype History = History(succeeded: map<string, string>, blocked: set<string>, failedRecently: set<string>)

  const NO_HISTORY: History := History(map[], {}, {})

  predicate Known(h: History, d: string) { d in h.succeeded || d in h.blocked || d in h.failedRecently }

  /** The domains without a usable history, in input order. */
  function Untested(h: History, domains: seq<string>): seq<string> {
    if domains == [] then []
    else
      var n := |domains| - 1;
      Untested(h, domains[..n]) + if Known(h, domains[n]) then [] else [domains[n]]
  }

  /** The domains that succeeded in `country` before, in input order. */
  function Remembered(h: History, domains: seq<string>, country: string): seq<string> {
    if domains == [] then []
    else
      var n := |domains| - 1;
      Remembered(h, domains[..n], country)
      + if domains[n] in h.succeeded && h.succeeded[domains[n]] == country then [domains[n]] else []
  }

  /** The pools hold exactly the remembered successes. */
  ghost predicate Recalls(classic: Pools, h: History, domains: seq<string>) {
    forall country :: Pool(classic, country) == Remembered(h, domains, country)
  }

  lemma RecallsNext(classic: Pools, h: History, domains: seq<string>, i: nat)
    requires i < |domains| && Recalls(classic, h, domains[..i])
    ensures domains[i] in h.succeeded ==> Recalls(Appended(classic, h.succeeded[domains[i]], domains[i]), h, domains[..i + 1])
    ensures domains[i] !in h.succeeded ==> Recalls(classic, h, domains[..i + 1])
    ensures Untested(h, domains[..i + 1]) == Untested(h, domains[..i]) + if Known(h, domains[i]) then [] else [domains[i]]
  {
    assert domains[..i + 1][..i] == domains[..i];
    forall country
      ensures domains[i] in h.succeeded ==>
                Pool(Appended(classic, h.succeeded[domains[i]], domains[i]), country) == Remembered(h, domains[..i + 1], country)
      ensures domains[i] !in h.succeeded ==> Pool(classic, country) == Remembered(h, domains[..i + 1], country)
    {
      assert Pool(classic, country) == Remembered(h, domains[..i], country);
    }
  }

  /** How far the filter has come: what it has put aside, skipped and filed after `i` domains. */
  ghost predicate Filtered(h: History, domains: seq<string>, i: nat, toTest: seq<string>, skipped: nat, classic: Pools) {
    && i <= |domains| && toTest == Untested(h, domains[..i]) && |toTest| + skipped == i
    && Recalls(classic, h, domains[..i])
  }

  lemma FilteredNext(h: History, domains: seq<string>, i: nat, toTest: seq<string>, skipped: nat, classic: Pools)
    requires Filtered(h, domains, i, toTest, skipped, classic) && i < |domains|
    ensures var d := domains[i];
            if d in h.succeeded then Filtered(h, domains, i + 1, toTest, skipped + 1, Appended(classic, h.succeeded[d], d))
            else if Known(h, d) then Filtered(h, domains, i + 1, toTest, skipped + 1, classic)
            else Filtered(h, domains, i + 1, toTest + [d], skipped, classic)
  {
    RecallsNext(classic, h, domains, i);
  }

  lemma FilteredAll(h: History, domains: seq<string>, toTest: seq<string>, skipped: nat, classic: Pools)
    requires Filtered(h, domains, |domains|, toTest, skipped, classic)
    ensures toTest == Untested(h, domains) && |toTest| + skipped == |domains| && Recalls(classic, h, domains)
  {
    assert domains[..|domains|] == domains;
  }

  function Used(forceRetry: bool, h: History): History { if forceRetry then NO_HISTORY else h }

  lemma ForcedFilter(domains: seq<string>, h: History)
    ensures Untested(Used(true, h), domains) == domains == [] + domains
    ensures Recalls(map[], Used(true, h), domains)
  {
    NothingKnown(domains);
  }

  /** Every domain is either tested or skipped, and exactly those that succeeded before go straight
      to a classic pool. Forcing a retry ignores the history. */
  method FilterHistory(domains: seq<string>, forceRetry: bool, h: History) returns (toTest: seq<string>, skipped: nat, classic: Pools)
    ensures toTest == Untested(Used(forceRetry, h), domains)
    ensures |toTest| + skipped == |domains|
    ensures forceRetry ==> toTest == domains && skipped == 0
    ensures Recalls(classic, Used(forceRetry, h), domains)
  {
    toTest, skipped, classic := [], 0, map[];
    if forceRetry {
      toTest := toTest + domains;
      ForcedFilter(domains, h);
      return;
    }
    assert domains[..0] == [];
    for i := 0 to |domains|
      invariant Filtered(h, domains, i, toTest, skipped, classic)
    {
      var d := domains[i];
      FilteredNext(h, domains, i, toTest, skipped, classic);
      if d in h.succeeded {
        classic := Appended(classic, h.succeeded[d], d);
        skipped := skipped + 1;
        continue;
      }
      if d in h.blocked {
        skipped := skipped + 1;
        continue;
      }
      if d in h.failedRecently {
        skipped := skipped + 1;
        continue;
      }
      toTest := toTest + [d];
    }
    FilteredAll(h, domains, toTest, skipped, classic);
  }

  lemma {:induction false} NothingKnown(domains: seq<string>)
    ensures Untested(NO_HISTORY, domains) == domains
    ensures forall country :: Remembered(NO_HISTORY, domains, country) == []
  {
    if domains != [] {
      var n := |domains| - 1;
      NothingKnown(domains[..n]);
      assert domains == domains[..n] + [domains[n]];
    }
  }

  lemma {:induction false} UntestedMeaning(h: History, domains: seq<string>)
    ensures forall d :: d in Untested(h, domains) <==> d in domains && !Known(h, d)
  {
    if domains != [] {
      var n := |domains| - 1;
      UntestedMeaning(h, domains[..n]);
      assert domains == domains[..n] + [domains[n]];
    }
  }

  // ---------------------------------------------------------------------------------------------
  // The collector

  /** Where the collector files a result. */
  datatype Bin = PqPool(country: string) | ClassicPool(country: string) | FailedList

  function BinOf(r: JobResult): Bin {
    if !r.success then FailedList else if r.isPq then PqPool(r.country) else ClassicPool(r.country)
  }

  /** The domains whose result belongs in a bin, in the order the results came. */
  function Filed(results: seq<JobResult>, bin: Bin): seq<string> {
    if results == [] then []
    else
      var n := |results| - 1;
      Filed(results[..n], bin) + if BinOf(results[n]) == bin then [results[n].domain] else []
  }

  function Successes(results: seq<JobResult>): nat {
    if results == [] then 0 else Successes(results[..|results| - 1]) + if results[|results| - 1].success then 1 else 0
  }

  /** Everything the collector has filed. */
  datatype Bins = Bins(pq: Pools, classic: Pools, failed: seq<string>)

  function ContentOf(b: Bins, bin: Bin): seq<string> {
    match bin
    case PqPool(country) => Pool(b.pq, country)
    case ClassicPool(country) => Pool(b.classic, country)
    case FailedList => b.failed
  }

  function FiledInto(b: Bins, r: JobResult): Bins {
    match BinOf(r)
    case PqPool(country) => b.(pq := Appended(b.pq, country, r.domain))
    case ClassicPool(country) => b.(classic := Appended(b.classic, country, r.domain))
    case FailedList => b.(failed := b.failed + [r.domain])
  }

  function AllFiledInto(b: Bins, results: seq<JobResult>): Bins {
    if results == [] then b else FiledInto(AllFiledInto(b, results[..|results| - 1]), results[|results| - 1])
  }

  /** Filing results one by one adds to each bin exactly the domains that belong there. */
  lemma {:induction false} AllFiledContent(b: Bins, results: seq<JobResult>, bin: Bin)
    ensures ContentOf(AllFiledInto(b, results), bin) == ContentOf(b, bin) + Filed(results, bin)
  {
    if results != [] { AllFiledContent(b, results[..|results| - 1], bin); }
  }

  class Collector {
    var pq: Pools
    var classic: Pools
    var failed: seq<string>
    var success: nat
    var failures: nat

    constructor (remembered: Pools)
      ensures pq == map[] && classic == remembered && failed == [] && success == 0 && failures == 0
    {
      pq, classic, failed, success, failures := map[], remembered, [], 0, 0;
    }

    function View(): Bins
      reads this
    {
      Bins(pq, classic, failed)
    }

    function Content(bin: Bin): seq<string>
      reads this
    {
      ContentOf(View(), bin)
    }

    /** A result goes to its own bin and to no other. */
    method Collect(r: JobResult)
      modifies this
      ensures View() == FiledInto(old(View()), r)
      ensures Content(BinOf(r)) == old(Content(BinOf(r))) + [r.domain]
      ensures forall bin | bin != BinOf(r) :: Content(bin) == old(Content(bin))
      ensures success == old(success) + (if r.success then 1 else 0)
      ensures failures == old(failures) + (if r.success then 0 else 1)
    {
      if r.success {
        if r.isPq {
          pq := Appended(pq, r.country, r.domain);
        } else {
          classic := Appended(classic, r.country, r.domain);
        }
        success := success + 1;
      } else {
        failed := failed + [r.domain];
        failures := failures + 1;
      }
    }

    method CollectAll(results: seq<JobResult>)
      modifies this
      ensures forall bin :: Content(bin) == old(Content(bin)) + Filed(results, bin)
      ensures success == old(success) + Successes(results)
      ensures success + failures == old(success + failures) + |results|
    {
      for i := 0 to |results|
        invariant View() == AllFiledInto(old(View()), results[..i])
        invariant success == old(success) + Successes(results[..i])
        invariant success + failures == old(success + failures) + i
      {
        Collect(results[i]);
        assert results[..i + 1][..i] == results[..i];
      }
      assert results[..|results|] == results;
      forall bin ensures Content(bin) == old(Content(bin)) + Filed(results, bin) {
        AllFiledContent(old(View()), results, bin);
      }
    }
  }

  // ---------------------------------------------------------------------------------------------
  // The order of the results does not matter

  ghost function FiledOne(r: JobResult, bin: Bin): multiset<string> {
    if BinOf(r) == bin then multiset{r.domain} else multiset{}
  }

  lemma RemovedBeforeLast(s: seq<JobResult>, j: nat)
    requires j < |s| - 1
    ensures S.RemovedAt(s, j) == S.RemovedAt(s[..|s| - 1], j) + [s[|s| - 1]]
  {
  }

  lemma FiledSnoc(results: seq<JobResult>, r: JobResult, bin: Bin)
    ensures multiset(Filed(results + [r], bin)) == multiset(Filed(results, bin)) + FiledOne(r, bin)
  {
    assert (results + [r])[..|results|] == results;
  }

  lemma {:induction false} FiledRemoved(results: seq<JobResult>, j: nat, bin: Bin)
    requires j < |results|
    ensures multiset(Filed(results, bin)) == multiset(Filed(S.RemovedAt(results, j), bin)) + FiledOne(results[j], bin)
  {
    var n := |results| - 1;
    var before, r := results[..n], results[n];
    assert results == before + [r];
    FiledSnoc(before, r, bin);
    if j == n {
      assert S.RemovedAt(results, j) == before;
    } else {
      FiledRemoved(before, j, bin);
      RemovedBeforeLast(results, j);
      FiledSnoc(S.RemovedAt(before, j), r, bin);
    }
  }

  lemma {:induction false} FiledPermutation(s: seq<JobResult>, t: seq<JobResult>, bin: Bin)
    requires multiset(s) == multiset(t)
    ensures multiset(Filed(s, bin)) == multiset(Filed(t, bin))
  {
    if s == [] {
      assert |multiset(t)| == 0;
    } else {
      var n := |s| - 1;
      assert s[n] in multiset(t);
      var j :| 0 <= j < |t| && t[j] == s[n];
      S.RemovedBag(s, n);
      S.RemovedBag(t, j);
      S.CancelOne(multiset(S.RemovedAt(s, n)), multiset(S.RemovedAt(t, j)), s[n]);
      FiledRemoved(s, n, bin);
      FiledRemoved(t, j, bin);
      FiledPermutation(S.RemovedAt(s, n), S.RemovedAt(t, j), bin);
    }
  }

  lemma {:induction false} SuccessesAndFailures(results: seq<JobResult>)
    ensures Successes(results) + |Filed(results, FailedList)| == |results|
  {
    if results != [] { SuccessesAndFailures(results[..|results| - 1]); }
  }

  lemma {:induction false} FiledMeaning(results: seq<JobResult>, bin: Bin)
    ensures forall d :: d in Filed(results, bin) <==> exists k :: 0 <= k < |results| && results[k].domain == d && BinOf(results[k]) == bin
  {
    if results != [] {
      var n := |results| - 1;
      FiledMeaning(results[..n], bin);
      forall d ensures d in Filed(results, bin) <==> exists k :: 0 <= k < |results| && results[k].domain == d && BinOf(results[k]) == bin {
        if d in Filed(results[..n], bin) {
          var k :| 0 <= k < n && results[..n][k].domain == d && BinOf(results[..n][k]) == bin;
          assert results[k].domain == d && BinOf(results[k]) == bin;
        }
        if k :| 0 <= k < |results| && results[k].domain == d && BinOf(results[k]) == bin {
          if k < n { assert results[..n][k] == results[k]; }
        }
      }
    }
  }

  // ---------------------------------------------------------------------------------------------
  // The whole run

  /** Whatever the schedule of an uncancelled run that is done, what the collector has filed is, bin by
      bin, a permutation of what testing the domains one after the other would have filed; the
      statistics are the same, and they account for every domain. */
  lemma RunMatchesSequentialRun(c: Config, schedule: seq<Action>, bin: Bin)
    requires c.workers >= 1 && After(c, schedule).Reaches?
    requires !After(c, schedule).state.cancelled && After(c, schedule).state.done
    ensures var results := After(c, schedule).state.results.answers;
            && multiset(Filed(results, bin)) == multiset(Filed(AllExpected(c), bin))
            && Successes(results) == Successes(AllExpected(c))
            && Successes(results) + |Filed(results, FailedList)| == |c.domains|
  {
    EveryDomainOnce(c, schedule);
    var results := After(c, schedule).state.results.answers;
    FiledPermutation(results, AllExpected(c), bin);
    FiledPermutation(results, AllExpected(c), FailedList);
    SuccessesAndFailures(results);
    SuccessesAndFailures(AllExpected(c));
    assert |multiset(Filed(results, FailedList))| == |multiset(Filed(AllExpected(c), FailedList))|;
  }

  /** A domain ends up in a bin exactly when it was tested and its verdict belongs there, hence in
      exactly one bin. */
  lemma FiledExactlyWhereExpected(c: Config, schedule: seq<Action>, bin: Bin, d: string)
    requires c.workers >= 1 && After(c, schedule).Reaches?
    requires !After(c, schedule).state.cancelled && After(c, schedule).state.done
    ensures d in Filed(After(c, schedule).state.results.answers, bin) <==> d in c.domains && BinOf(Expected(c.world, d)) == bin
  {
    RunMatchesSequentialRun(c, schedule, bin);
    var filed, all := Filed(After(c, schedule).state.results.answers, bin), AllExpected(c);
    assert d in filed <==> d in multiset(filed);
    assert d in Filed(all, bin) <==> d in multiset(Filed(all, bin));
    ExpectedFiled(c, bin, d);
  }

  lemma ExpectedFiled(c: Config, bin: Bin, d: string)
    ensures d in Filed(AllExpected(c), bin) <==> d in c.domains && BinOf(Expected(c.world, d)) == bin
  {
    FiledMeaning(AllExpected(c), bin);
    if d in c.domains {
      var k :| 0 <= k < |c.domains| && c.domains[k] == d;
      assert AllExpected(c)[k].domain == d;
    }
  }

  /** What the history alone puts in a bin. */
  function RememberedIn(h: History, domains: seq<string>, bin: Bin): seq<string> {
    if bin.ClassicPool? then Remembered(h, domains, bin.country) else []
  }

  lemma {:induction false} RememberedMeaning(h: History, domains: seq<string>, country: string, d: string)
    ensures d in Remembered(h, domains, country) <==> d in domains && d in h.succeeded && h.succeeded[d] == country
  {
    if domains != [] {
      var n := |domains| - 1;
      RememberedMeaning(h, domains[..n], country, d);
      assert domains == domains[..n] + [domains[n]];
    }
  }

  /** A run of the engine over these domains, from the history it looks at to the end. */
  ghost predicate Completed(h: History, domains: seq<string>, c: Config, schedule: seq<Action>) {
    && c.workers >= 1 && c.domains == Untested(h, domains)
    && After(c, schedule).Reaches? && !After(c, schedule).state.cancelled && After(c, schedule).state.done
  }

  /** What a bin holds at the end: the remembered successes, then in some order the tested domains
      whose verdict belongs there. */
  ghost predicate HoldsAtEnd(h: History, domains: seq<string>, c: Config, bin: Bin, content: seq<string>) {
    exists tested :: content == RememberedIn(h, domains, bin) + tested && multiset(tested) == multiset(Filed(AllExpected(c), bin))
  }

  /** Where a domain ends up: with an earlier success, in the classic pool of that country; otherwise,
      unless the history rules it out, where its verdict puts it. */
  ghost predicate BelongsIn(h: History, w: World, d: string, bin: Bin) {
    if d in h.succeeded then bin == ClassicPool(h.succeeded[d])
    else !Known(h, d) && BinOf(Expected(w, d)) == bin
  }

  lemma FinalContent(h: History, domains: seq<string>, c: Config, schedule: seq<Action>, bin: Bin, content: seq<string>)
    requires Completed(h, domains, c, schedule)
    requires content == RememberedIn(h, domains, bin) + Filed(After(c, schedule).state.results.answers, bin)
    ensures HoldsAtEnd(h, domains, c, bin, content)
    ensures forall d :: d in content <==> d in domains && BelongsIn(h, c.world, d, bin)
  {
    RunMatchesSequentialRun(c, schedule, bin);
    UntestedMeaning(h, domains);
    forall d ensures d in content <==> d in domains && BelongsIn(h, c.world, d, bin) {
      FiledExactlyWhereExpected(c, schedule, bin, d);
      if bin.ClassicPool? { RememberedMeaning(h, domains, bin.country, d); }
    }
  }

  /** A domain is tested if a retry is forced or no part of the history has it. */
  ghost predicate IsTested(forceRetry: bool, h: History, d: string) {
    forceRetry || (d !in h.succeeded && d !in h.blocked && d !in h.failedRecently)
  }

  lemma TestedExactly(forceRetry: bool, h: History, domains: seq<string>, d: string)
    ensures d in Untested(Used(forceRetry, h), domains) <==> d in domains && IsTested(forceRetry, h, d)
    ensures forceRetry ==> Untested(Used(forceRetry, h), domains) == domains
  {
    UntestedMeaning(Used(forceRetry, h), domains);
    NothingKnown(domains);
  }

  lemma PlaceMeaning(forceRetry: bool, h: History, w: World, d: string, country: string)
    ensures var v := Expected(w, d);
            var used := Used(forceRetry, h);
            && (BelongsIn(used, w, d, PqPool(country)) <==>
                  IsTested(forceRetry, h, d) && v.success && v.isPq && v.country == country)
            && (BelongsIn(used, w, d, ClassicPool(country)) <==>
                  || (!forceRetry && d in h.succeeded && h.succeeded[d] == country)
                  || (IsTested(forceRetry, h, d) && v.success && !v.isPq && v.country == country))
            && (BelongsIn(used, w, d, FailedList) <==> IsTested(forceRetry, h, d) && !v.success)
  {
  }

  ghost predicate Has(pools: Pools, country: string, d: string) { country in pools && d in pools[country] }

  /** The post-quantum pool of a country has the tested domains that succeeded there with a
      post-quantum handshake; its classic pool has those without one and, unless a retry is forced,
      the earlier successes of that country; the failures are the tested domains that did not succeed. */
  ghost predicate FiledRight(domains: seq<string>, forceRetry: bool, h: History, w: World, b: Bins) {
    && (forall country, d ::
          Has(b.pq, country, d) <==>
            && d in domains && IsTested(forceRetry, h, d)
            && Expected(w, d).success && Expected(w, d).isPq && Expected(w, d).country == country)
    && (forall country, d ::
          Has(b.classic, country, d) <==>
            && d in domains
            && (|| (!forceRetry && d in h.succeeded && h.succeeded[d] == country)
                || (IsTested(forceRetry, h, d) && Expected(w, d).success && !Expected(w, d).isPq && Expected(w, d).country == country)))
    && (forall d :: d in b.failed <==> d in domains && IsTested(forceRetry, h, d) && !Expected(w, d).success)
  }

  /** Every domain is in exactly the bin it belongs in. */
  ghost predicate InRightBins(used: History, domains: seq<string>, w: World, b: Bins) {
    forall bin, d :: d in ContentOf(b, bin) <==> d in domains && BelongsIn(used, w, d, bin)
  }

  lemma BinsFiledRight(domains: seq<string>, forceRetry: bool, h: History, w: World, b: Bins)
    requires InRightBins(Used(forceRetry, h), domains, w, b)
    ensures FiledRight(domains, forceRetry, h, w, b)
  {
    forall country, d
      ensures Has(b.pq, country, d) <==>
                d in domains && IsTested(forceRetry, h, d)
                && Expected(w, d).success && Expected(w, d).isPq && Expected(w, d).country == country
    {
      PlaceMeaning(forceRetry, h, w, d, country);
      assert Has(b.pq, country, d) <==> d in ContentOf(b, PqPool(country));
    }
    forall country, d
      ensures Has(b.classic, country, d) <==> d in domains && BelongsIn(Used(forceRetry, h), w, d, ClassicPool(country))
    {
      assert Has(b.classic, country, d) <==> d in ContentOf(b, ClassicPool(country));
    }
    forall country, d { PlaceMeaning(forceRetry, h, w, d, country); }
    forall d ensures d in b.failed <==> d in domains && IsTested(forceRetry, h, d) && !Expected(w, d).success {
      PlaceMeaning(forceRetry, h, w, d, "");
      assert d in b.failed <==> d in ContentOf(b, FailedList);
    }
  }

  /** Every bin has the remembered successes and then the results that belong there. */
  ghost predicate Settled(used: History, domains: seq<string>, results: seq<JobResult>, b: Bins) {
    forall bin :: ContentOf(b, bin) == RememberedIn(used, domains, bin) + Filed(results, bin)
  }

  /** What is known of the bins once the collector has every result. */
  lemma BinsAtEnd(domains: seq<string>, forceRetry: bool, h: History, c: Config, schedule: seq<Action>, b: Bins)
    requires Completed(Used(forceRetry, h), domains, c, schedule)
    requires Settled(Used(forceRetry, h), domains, After(c, schedule).state.results.answers, b)
    ensures forall bin :: HoldsAtEnd(Used(forceRetry, h), domains, c, bin, ContentOf(b, bin))
    ensures InRightBins(Used(forceRetry, h), domains, c.world, b)
    ensures FiledRight(domains, forceRetry, h, c.world, b)
  {
    forall bin
      ensures HoldsAtEnd(Used(forceRetry, h), domains, c, bin, ContentOf(b, bin))
      ensures forall d :: d in ContentOf(b, bin) <==> d in domains && BelongsIn(Used(forceRetry, h), c.world, d, bin)
    {
      FinalContent(Used(forceRetry, h), domains, c, schedule, bin, ContentOf(b, bin));
    }
    BinsFiledRight(domains, forceRetry, h, c.world, b);
  }

  lemma CountsAtEnd(domains: seq<string>, forceRetry: bool, h: History, c: Config, schedule: seq<Action>)
    requires Completed(Used(forceRetry, h), domains, c, schedule)
    ensures var results := After(c, schedule).state.results.answers;
            Successes(results) == Successes(AllExpected(c)) && |results| == |Untested(Used(forceRetry, h), domains)|
    ensures forceRetry ==> c.domains == domains
  {
    RunMatchesSequentialRun(c, schedule, FailedList);
    EveryDomainOnce(c, schedule);
    TestedExactly(forceRetry, h, domains, "");
  }

  method FilterAndCollect(domains: seq<string>, forceRetry: bool, h: History, results: seq<JobResult>)
    returns (collector: Collector, skipped: nat)
    ensures fresh(collector) && Settled(Used(forceRetry, h), domains, results, collector.View())
    ensures |Untested(Used(forceRetry, h), domains)| + skipped == |domains| && (forceRetry ==> skipped == 0)
    ensures collector.success == Successes(results) && collector.success + collector.failures == |results|
  {
    var toTest, classic;
    toTest, skipped, classic := FilterHistory(domains, forceRetry, h);
    collector := new Collector(classic);
    ghost var used := Used(forceRetry, h);
    assert forall bin :: collector.Content(bin) == RememberedIn(used, domains, bin);
    collector.CollectAll(results);
    assert forall bin :: ContentOf(collector.View(), bin) == collector.Content(bin);
  }

  /** `Engine.Run` from end to end: filter, test, collect. `results` are what the machine delivered on
      some uncancelled schedule. Every domain is accounted for, every bin holds what it should, and a
      domain is in a bin exactly when the history or its verdict puts it there. */
  method RunEngine(domains: seq<string>, forceRetry: bool, h: History, results: seq<JobResult>, ghost c: Config, ghost schedule: seq<Action>)
    returns (collector: Collector, skipped: nat)
    requires Completed(Used(forceRetry, h), domains, c, schedule) && results == After(c, schedule).state.results.answers
    ensures fresh(collector)
    ensures forall bin :: HoldsAtEnd(Used(forceRetry, h), domains, c, bin, ContentOf(collector.View(), bin))
    ensures InRightBins(Used(forceRetry, h), domains, c.world, collector.View())
    ensures FiledRight(domains, forceRetry, h, c.world, collector.View())
    ensures forceRetry ==> skipped == 0 && c.domains == domains
    ensures collector.success == Successes(AllExpected(c))
    ensures collector.success + collector.failures + skipped == |domains|
  {
    collector, skipped := FilterAndCollect(domains, forceRetry, h, results);
    CountsAtEnd(domains, forceRetry, h, c, schedule);
    BinsAtEnd(domains, forceRetry, h, c, schedule, collector.View());
  }
}
