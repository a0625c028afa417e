/** Weighted selection of DNS servers in the Go engine: health counters give each server a weight,
    and servers are drawn without replacement in proportion to it.

    Weights and draws are exact reals; the 32-bit counters wrap around as in the source. */
module WeightedDns {
  import opened Wrappers

  const HEALTH_EPSILON: real := 10.0
  const MAX_CONSECUTIVE_FAIL: nat := 3
  const WEIGHT_DECAY: real := 0.5
  const MIN_WEIGHT: real := 0.05
  const RECOVERY_BOOST: real := 1.5
  const U32: nat := 0x1_0000_0000

  datatype Health = Health(successes: nat, failures: nat, consecutive: nat, weight: real)

  const UNKNOWN: Health := Health(0, 0, 0, 0.0)

  // ---------------------------------------------------------------------------------------------
  // Weights

  function Power(base: real, k: nat): real { if k == 0 then 1.0 else base * Power(base, k - 1) }

  lemma {:induction false} PowerOfDecay(k: nat)
    ensures 0.0 < Power(WEIGHT_DECAY, k) <= 1.0
  {
    if k > 0 { PowerOfDecay(k - 1); }
  }

  function Decayed(base: real, consecutive: nat): real {
    if consecutive >= MAX_CONSECUTIVE_FAIL then base * Power(WEIGHT_DECAY, consecutive - MAX_CONSECUTIVE_FAIL + 1) else base
  }

  /** The weight of a server; every server keeps at least `MIN_WEIGHT`, so none is ever ruled out. */
  function Weight(h: Health): (w: real)
    ensures w >= MIN_WEIGHT
  {
    var total := (h.successes + h.failures) % U32;
    if total == 0 then 1.0 / HEALTH_EPSILON
    else
      var base := Decayed(h.successes as real / (total as real + HEALTH_EPSILON), h.consecutive);
      if base < MIN_WEIGHT then MIN_WEIGHT else base
  }

  /** As long as the counters have not wrapped, a weight is a fraction. */
  lemma WeightBelowOne(h: Health)
    requires h.successes + h.failures < U32
    ensures Weight(h) < 1.0
  {
    var total := h.successes + h.failures;
    if total > 0 {
      var base := h.successes as real / (total as real + HEALTH_EPSILON);
      QuotientBelowOne(h.successes as real, total as real + HEALTH_EPSILON);
      DecayedBelow(base, h.consecutive);
    }
  }

  lemma DecayedBelow(base: real, consecutive: nat)
    requires 0.0 <= base
    ensures Decayed(base, consecutive) <= base
  {
    if consecutive >= MAX_CONSECUTIVE_FAIL {
      var k := consecutive - MAX_CONSECUTIVE_FAIL + 1;
      PowerOfDecay(k);
    }
  }

  lemma QuotientBelowOne(a: real, b: real)
    requires 0.0 <= a < b
    ensures 0.0 <= a / b < 1.0
  {
  }

  // What a weight means.

  lemma {:induction false} PowerNext(k: nat)
    ensures Power(WEIGHT_DECAY, k + 1) == Power(WEIGHT_DECAY, k) / 2.0
  {
  }

  /** Until three failures in a row, the weight is the share of successes, counting ten extra
      lookups, but at least the minimum; a server without history weighs a tenth. */
  lemma WeightIsSuccessShare(h: Health)
    requires h.consecutive < 3
    ensures var total := (h.successes + h.failures) % 0x1_0000_0000;
            if total == 0 then Weight(h) == 0.1
            else
              var share := h.successes as real / (total + 10) as real;
              Weight(h) == if share < 0.05 then 0.05 else share
  {
    var total := (h.successes + h.failures) % 0x1_0000_0000;
    assert total as real + 10.0 == (total + 10) as real;
  }

  /** From the third on, one more failure in a row halves the weight, down to the minimum. */
  lemma FailureInARowHalves(successes: nat, failures: nat, consecutive: nat, recorded: real)
    requires (successes + failures) % 0x1_0000_0000 != 0 && consecutive >= 2
    ensures var before := Weight(Health(successes, failures, consecutive, recorded));
            var after := Weight(Health(successes, failures, consecutive + 1, recorded));
            after == if before / 2.0 < 0.05 then 0.05 else before / 2.0
  {
    var total := (successes + failures) % U32;
    var base := successes as real / (total as real + HEALTH_EPSILON);
    assert base >= 0.0 by { QuotientNotNegative(successes as real, total as real + HEALTH_EPSILON); }
    DecayHalves(base, consecutive);
  }

  lemma QuotientNotNegative(a: real, b: real)
    requires 0.0 <= a && 0.0 < b
    ensures a / b >= 0.0
  {
  }

  lemma DecayHalves(base: real, consecutive: nat)
    requires consecutive >= 2 && base >= 0.0
    ensures Decayed(base, consecutive + 1) == Decayed(base, consecutive) / 2.0
  {
    if consecutive == 2 {
      assert Power(WEIGHT_DECAY, 1) == WEIGHT_DECAY * Power(WEIGHT_DECAY, 0);
      assert Power(WEIGHT_DECAY, 1) == 0.5;
      assert Decayed(base, 3) == base * 0.5;
    } else {
      var k := consecutive - 2;
      PowerNext(k);
      HalfOfProduct(base, Power(WEIGHT_DECAY, k));
    }
  }

  lemma HalfOfProduct(a: real, p: real)
    ensures a * (p / 2.0) == a * p / 2.0
  {
  }

  lemma QuotientMonotone(a: real, c: real, b: real)
    requires a <= c && 0.0 < b
    ensures a / b <= c / b
  {
  }

  lemma ProductMonotone(a: real, c: real, p: real)
    requires a <= c && 0.0 <= p
    ensures a * p <= c * p
  {
  }

  /** Of two servers asked equally often, the one with more successes never weighs less, nor does the
      one with fewer failures in a row. */
  lemma HealthierWeighsMore(a: Health, b: Health)
    requires a.successes + a.failures == b.successes + b.failures < U32
    requires a.successes <= b.successes && a.consecutive >= b.consecutive
    ensures Weight(a) <= Weight(b)
  {
    var total := a.successes + a.failures;
    if total > 0 {
      var d := total as real + HEALTH_EPSILON;
      var x, y := a.successes as real / d, b.successes as real / d;
      QuotientMonotone(a.successes as real, b.successes as real, d);
      QuotientNotNegative(a.successes as real, d);
      DecayMonotone(x, y, a.consecutive, b.consecutive);
    }
  }

  lemma {:induction false} DecayMonotone(x: real, y: real, m: nat, n: nat)
    requires 0.0 <= x <= y && n <= m
    ensures Decayed(x, m) <= Decayed(y, n)
  {
    if m == n {
      var p := Power(WEIGHT_DECAY, if m >= 3 then m - 2 else 0);
      if m >= 3 { PowerOfDecay(m - 2); }
      ProductMonotone(x, y, p);
      assert m >= 3 ==> Decayed(x, m) == x * p && Decayed(y, n) == y * p;
    } else {
      DecayMonotone(x, y, m - 1, n);
      if m > 3 {
        DecayHalves(x, m - 1);
        DecayNotNegative(x, m - 1);
      } else {
        DecayedBelow(x, m);
      }
    }
  }

  lemma DecayNotNegative(base: real, consecutive: nat)
    requires base >= 0.0
    ensures Decayed(base, consecutive) >= 0.0
  {
    if consecutive >= 3 {
      PowerOfDecay(consecutive - 2);
      ProductMonotone(0.0, base, Power(WEIGHT_DECAY, consecutive - 2));
    }
  }

  /** Ninety successes and ten failures give 90/110; four failures in a row then leave a quarter. */
  lemma WeightExamples()
    ensures Weight(Health(90, 10, 0, 0.0)) == 90.0 / 110.0
    ensures Weight(Health(90, 10, 4, 0.0)) == 90.0 / 440.0
    ensures Weight(Health(0, 1, 1, 0.0)) == 0.05
  {
    WeightIsSuccessShare(Health(90, 10, 0, 0.0));
    WeightIsSuccessShare(Health(90, 10, 2, 0.0));
    FailureInARowHalves(90, 10, 2, 0.0);
    FailureInARowHalves(90, 10, 3, 0.0);
    WeightIsSuccessShare(Health(0, 1, 1, 0.0));
  }

  function Updated(h: Health, success: bool): Health {
    if success then
      Health((h.successes + 1) % U32, h.failures, 0, if h.weight * RECOVERY_BOOST > 1.0 then 1.0 else h.weight * RECOVERY_BOOST)
    else
      var h' := h.(consecutive := (h.consecutive + 1) % U32, failures := (h.failures + 1) % U32);
      h'.(weight := Weight(h'))
  }

  class HealthMap {
    var health: map<string, Health>

    constructor ()
      ensures health == map[]
    {
      health := map[];
    }

    method Update(server: string, success: bool)
      modifies this
      ensures health == old(health)[server := Updated(HealthOf(old(health), server), success)]
    {
      var h := if server in health then health[server] else UNKNOWN;
      if success {
        h := h.(consecutive := 0);
        h := h.(successes := (h.successes + 1) % U32);
        var weight := h.weight * RECOVERY_BOOST;
        if weight > 1.0 {
          weight := 1.0;
        }
        h := h.(weight := weight);
      } else {
        h := h.(consecutive := (h.consecutive + 1) % U32);
        h := h.(failures := (h.failures + 1) % U32);
        h := h.(weight := Weight(h));
      }
      health := health[server := h];
    }
  }

  // ---------------------------------------------------------------------------------------------
  // The recorded weight over runs of lookups

  function HealthAfter(outcomes: seq<bool>): Health {
    if outcomes == [] then UNKNOWN else Updated(HealthAfter(outcomes[..|outcomes| - 1]), outcomes[|outcomes| - 1])
  }

  /** Before the counters can wrap, the recorded weight stays in [0, 1] and the counters count. */
  lemma {:induction false} RecordedWeightIsFraction(outcomes: seq<bool>)
    requires |outcomes| < U32
    ensures var h := HealthAfter(outcomes);
            && h.successes + h.failures == |outcomes| && h.consecutive <= h.failures
            && 0.0 <= h.weight <= 1.0
  {
    if outcomes != [] {
      var n := |outcomes| - 1;
      RecordedWeightIsFraction(outcomes[..n]);
      UpdateKeepsFraction(HealthAfter(outcomes[..n]), outcomes[n]);
    }
  }

  lemma UpdateKeepsFraction(h: Health, success: bool)
    requires h.successes + h.failures + 1 < U32 && h.consecutive <= h.failures && 0.0 <= h.weight <= 1.0
    ensures var h' := Updated(h, success);
            && h'.successes + h'.failures == h.successes + h.failures + 1 && h'.consecutive <= h'.failures
            && 0.0 <= h'.weight <= 1.0
  {
    NoWrap(h.successes);
    NoWrap(h.failures);
    NoWrap(h.consecutive);
    if !success { WeightBelowOne(h.(consecutive := h.consecutive + 1, failures := h.failures + 1)); }
  }

  lemma NoWrap(n: nat)
    requires n + 1 < U32
    ensures (n + 1) % U32 == n + 1
  {
  }

  /** How often `success` was the outcome. */
  ghost function Times(outcomes: seq<bool>, success: bool): nat {
    |set i | 0 <= i < |outcomes| && outcomes[i] == success|
  }

  lemma TimesAppend(outcomes: seq<bool>, last: bool, success: bool)
    ensures Times(outcomes + [last], success) == Times(outcomes, success) + if last == success then 1 else 0
  {
    var n := |outcomes|;
    var before := set i | 0 <= i < n && outcomes[i] == success;
    var after := set i | 0 <= i < n + 1 && (outcomes + [last])[i] == success;
    assert after == if last == success then before + {n} else before;
  }

  /** The last `k` outcomes are failures, and what came before them, if anything, was a success. */
  ghost predicate FailuresInARow(outcomes: seq<bool>, k: nat) {
    && k <= |outcomes|
    && (forall i | |outcomes| - k <= i < |outcomes| :: !outcomes[i])
    && (k < |outcomes| ==> outcomes[|outcomes| - k - 1])
  }

  lemma InARowAppend(outcomes: seq<bool>, last: bool, k: nat)
    requires FailuresInARow(outcomes, k)
    ensures FailuresInARow(outcomes + [last], if last then 0 else k + 1)
  {
  }

  lemma UpdatedCounters(h: Health, success: bool)
    requires h.successes + h.failures + 1 < U32 && h.consecutive <= h.failures
    ensures var h' := Updated(h, success);
            && h'.successes == h.successes + (if success then 1 else 0)
            && h'.failures == h.failures + (if success then 0 else 1)
            && h'.consecutive == if success then 0 else h.consecutive + 1
  {
    NoWrap(h.successes);
    NoWrap(h.failures);
    NoWrap(h.consecutive);
  }

  /** The counters of a server count its outcomes, and the third one its failures in a row. */
  lemma {:induction false} CountersCount(outcomes: seq<bool>)
    requires |outcomes| < 0x1_0000_0000
    ensures var h := HealthAfter(outcomes);
            && h.successes == Times(outcomes, true) && h.failures == Times(outcomes, false)
            && FailuresInARow(outcomes, h.consecutive)
  {
    if outcomes != [] {
      var n := |outcomes| - 1;
      var before := outcomes[..n];
      CountersCount(before);
      RecordedWeightIsFraction(before);
      assert outcomes == before + [outcomes[n]];
      TimesAppend(before, outcomes[n], true);
      TimesAppend(before, outcomes[n], false);
      InARowAppend(before, outcomes[n], HealthAfter(before).consecutive);
      UpdatedCounters(HealthAfter(before), outcomes[n]);
    }
  }

  lemma WeightIgnoresRecorded(h: Health, recorded: real)
    ensures Weight(h.(weight := recorded)) == Weight(h)
  {
  }

  lemma HealthAfterOne(outcomes: seq<bool>, last: bool)
    ensures HealthAfter(outcomes + [last]) == Updated(HealthAfter(outcomes), last)
  {
    assert (outcomes + [last])[..|outcomes|] == outcomes;
  }

  /** A success raises the recorded weight by half, up to one; a failure recomputes it. */
  lemma RecordedWeight(outcomes: seq<bool>)
    ensures var before := HealthAfter(outcomes).weight;
            HealthAfter(outcomes + [true]).weight == if 1.5 * before > 1.0 then 1.0 else 1.5 * before
    ensures var h := HealthAfter(outcomes + [false]);
            h.weight == Weight(h)
  {
    HealthAfterOne(outcomes, true);
    HealthAfterOne(outcomes, false);
    var h := HealthAfter(outcomes);
    WeightIgnoresRecorded(Updated(h, false), 0.0);
    WeightIgnoresRecorded(h.(consecutive := (h.consecutive + 1) % U32, failures := (h.failures + 1) % U32), 0.0);
  }

  /** A server that has never failed keeps the recorded weight it started with, which is 0: there is
      nothing for the boost to multiply. */
  lemma {:induction false} NeverFailedNeverBoosted(outcomes: seq<bool>)
    requires forall i | 0 <= i < |outcomes| :: outcomes[i]
    ensures HealthAfter(outcomes).weight == 0.0 && HealthAfter(outcomes).failures == 0
  {
    if outcomes != [] { NeverFailedNeverBoosted(outcomes[..|outcomes| - 1]); }
  }

  function HealthOf(health: map<string, Health>, server: string): Health {
    if server in health then health[server] else UNKNOWN
  }

  // ---------------------------------------------------------------------------------------------
  // The simple specification: draw from a list that shrinks

  datatype Weighted = Weighted(server: string, weight: real)

  ghost function Total(ws: seq<Weighted>): real {
    if ws == [] then 0.0 else Total(ws[..|ws| - 1]) + ws[|ws| - 1].weight
  }

  ghost predicate Positive(ws: seq<Weighted>) { forall i | 0 <= i < |ws| :: ws[i].weight > 0.0 }

  ghost predicate DistinctServers(ws: seq<Weighted>) {
    forall i, j | 0 <= i < j < |ws| :: ws[i].server != ws[j].server
  }

  /** The server whose share of [0, total] contains `r`. */
  ghost predicate Hits(ws: seq<Weighted>, r: real, p: nat) {
    p < |ws| && (p == 0 || Total(ws[..p]) < r) && r <= Total(ws[..p + 1])
  }

  function RemovedAt<T>(s: seq<T>, p: nat): seq<T>
    requires p < |s|
  {
    s[..p] + s[p + 1..]
  }

  function Scaled(u: real, total: real): real { u * total }

  /** A uniform draw `u` in [0, 1), scaled to the total weight, hits position `p`. */
  ghost predicate Picks(ws: seq<Weighted>, u: real, p: nat) { Hits(ws, Scaled(u, Total(ws)), p) }

  /** What is left of `ws` after taking out the given positions one after the other. */
  ghost function Left(ws: seq<Weighted>, picks: seq<nat>): seq<Weighted> {
    if picks == [] then ws
    else
      var n := |picks| - 1;
      var before := Left(ws, picks[..n]);
      if picks[n] < |before| then RemovedAt(before, picks[n]) else before
  }

  ghost predicate DrawnAt(ws: seq<Weighted>, draws: seq<real>, picks: seq<nat>, chosen: seq<string>, k: nat)
    requires k < |chosen| == |picks| <= |draws|
  {
    var left := Left(ws, picks[..k]);
    Picks(left, draws[k], picks[k]) && chosen[k] == left[picks[k]].server
  }

  /** `chosen` is drawn from `ws` one by one without replacement: draw k picks position `picks[k]` of
      the servers still left. */
  ghost predicate Drawn(ws: seq<Weighted>, draws: seq<real>, picks: seq<nat>, chosen: seq<string>) {
    |chosen| == |picks| <= |draws| && forall k | 0 <= k < |chosen| :: DrawnAt(ws, draws, picks, chosen, k)
  }

  // ---------------------------------------------------------------------------------------------
  // The code: a fixed list, a set of used names and a running total

  ghost function Unused(ws: seq<Weighted>, used: set<string>): seq<Weighted> {
    if ws == [] then []
    else Unused(ws[..|ws| - 1], used) + if ws[|ws| - 1].server in used then [] else [ws[|ws| - 1]]
  }

  lemma {:induction false} TotalAppend(ws: seq<Weighted>, vs: seq<Weighted>)
    ensures Total(ws + vs) == Total(ws) + Total(vs)
  {
    if vs == [] {
      assert ws + vs == ws;
    } else {
      var n := |vs| - 1;
      assert (ws + vs)[..|ws + vs| - 1] == ws + vs[..n];
      TotalAppend(ws, vs[..n]);
    }
  }

  lemma {:induction false} TotalPositive(ws: seq<Weighted>)
    requires Positive(ws)
    ensures Total(ws) >= 0.0 && (ws != [] ==> Total(ws) > 0.0)
  {
    if ws != [] { TotalPositive(ws[..|ws| - 1]); }
  }

  /** The walk over the fixed list: the unused part of a prefix is a prefix of the unused part. */
  lemma {:induction false} UnusedSplit(ws: seq<Weighted>, used: set<string>, j: nat)
    requires j <= |ws|
    ensures Unused(ws, used) == Unused(ws[..j], used) + Unused(ws[j..], used)
  {
    if j == |ws| {
      assert ws[..j] == ws && ws[j..] == [];
    } else {
      var n := |ws| - 1;
      UnusedSplit(ws[..n], used, j);
      assert ws[..n][..j] == ws[..j] && ws[..n][j..] == ws[j..][..n - j] && ws[j..][n - j] == ws[n];
    }
  }

  lemma {:induction false} UnusedWithout(ws: seq<Weighted>, used: set<string>, server: string)
    requires forall i | 0 <= i < |ws| :: ws[i].server != server
    ensures Unused(ws, used + {server}) == Unused(ws, used)
  {
    if ws != [] { UnusedWithout(ws[..|ws| - 1], used, server); }
  }

  /** Marking a server as used takes exactly it out of the unused list. */
  lemma MarkUsed(ws: seq<Weighted>, used: set<string>, j: nat)
    requires DistinctServers(ws) && j < |ws| && ws[j].server !in used
    ensures var p := |Unused(ws[..j], used)|;
            && p < |Unused(ws, used)| && Unused(ws, used)[p] == ws[j]
            && Unused(ws, used)[..p] == Unused(ws[..j], used)
            && Unused(ws, used + {ws[j].server}) == RemovedAt(Unused(ws, used), p)
  {
    UnusedAround(ws, used, j);
    UnusedAround(ws, used + {ws[j].server}, j);
    UnusedWithout(ws[..j], used, ws[j].server);
    UnusedWithout(ws[j + 1..], used, ws[j].server);
    SpliceOut(Unused(ws[..j], used), ws[j], Unused(ws[j + 1..], used));
  }

  lemma SpliceOut(a: seq<Weighted>, x: Weighted, b: seq<Weighted>)
    ensures var s := a + [x] + b;
            s[|a|] == x && s[..|a|] == a && RemovedAt(s, |a|) == a + [] + b
  {
  }

  lemma TotalSnoc(a: seq<Weighted>, x: Weighted)
    ensures Total(a + [x]) == Total(a) + x.weight
  {
    assert (a + [x])[..|a|] == a;
  }

  lemma UnusedAround(ws: seq<Weighted>, used: set<string>, j: nat)
    requires j < |ws|
    ensures Unused(ws, used) ==
            Unused(ws[..j], used) + (if ws[j].server in used then [] else [ws[j]]) + Unused(ws[j + 1..], used)
  {
    UnusedSplit(ws, used, j + 1);
    assert ws[..j + 1][..j] == ws[..j];
  }

  lemma {:induction false} UnusedProperties(ws: seq<Weighted>, used: set<string>)
    ensures Positive(ws) ==> Positive(Unused(ws, used))
    ensures forall x :: x in Unused(ws, used) <==> x in ws && x.server !in used
  {
    if ws != [] {
      var n := |ws| - 1;
      UnusedProperties(ws[..n], used);
      assert ws == ws[..n] + [ws[n]];
    }
  }

  lemma UnusedNext(ws: seq<Weighted>, used: set<string>, j: nat)
    requires j < |ws|
    ensures ws[j].server in used ==> Unused(ws[..j + 1], used) == Unused(ws[..j], used)
    ensures ws[j].server !in used ==> Unused(ws[..j + 1], used) == Unused(ws[..j], used) + [ws[j]]
    ensures ws[j].server !in used ==> Total(Unused(ws[..j + 1], used)) == Total(Unused(ws[..j], used)) + ws[j].weight
  {
    assert ws[..j + 1][..j] == ws[..j];
    TotalSnoc(Unused(ws[..j], used), ws[j]);
  }

  lemma HitsAt(ws: seq<Weighted>, r: real, p: nat)
    requires p < |ws| && (p == 0 || Total(ws[..p]) < r) && r <= Total(ws[..p]) + ws[p].weight
    ensures Hits(ws, r, p)
  {
    TotalSnoc(ws[..p], ws[p]);
    assert ws[..p + 1] == ws[..p] + [ws[p]];
  }

  lemma EverythingWalked(ws: seq<Weighted>, used: set<string>, j: nat)
    requires j == |ws|
    ensures Unused(ws[..j], used) == Unused(ws, used)
  {
    assert ws[..j] == ws;
  }

  function Min(a: nat, b: nat): nat { if a <= b then a else b }

  function WeightsOf(servers: seq<string>, health: map<string, Health>): seq<Weighted> {
    seq(|servers|, i requires 0 <= i < |servers| => Weighted(servers[i], Weight(HealthOf(health, servers[i]))))
  }

  ghost predicate DistinctNames(names: seq<string>) { forall i, j | 0 <= i < j < |names| :: names[i] != names[j] }

  lemma {:induction false} NothingUsed(ws: seq<Weighted>)
    ensures Unused(ws, {}) == ws
  {
    if ws != [] {
      NothingUsed(ws[..|ws| - 1]);
      assert ws == ws[..|ws| - 1] + [ws[|ws| - 1]];
    }
  }

  lemma TotalRemoved(ws: seq<Weighted>, p: nat)
    requires p < |ws|
    ensures Total(RemovedAt(ws, p)) == Total(ws) - ws[p].weight
  {
    TotalAround(ws[..p], ws[p], ws[p + 1..]);
    SplitAt(ws, p);
  }

  lemma SplitAt(ws: seq<Weighted>, p: nat)
    requires p < |ws|
    ensures ws[..p] + [ws[p]] + ws[p + 1..] == ws
  {
  }

  lemma TotalAround(a: seq<Weighted>, x: Weighted, b: seq<Weighted>)
    ensures Total(a + [x] + b) == Total(a + b) + x.weight
  {
    TotalAppend(a, b);
    TotalAppend(a + [x], b);
  }

  lemma DrawnExtends(ws: seq<Weighted>, draws: seq<real>, picks: seq<nat>, chosen: seq<string>, p: nat)
    requires Drawn(ws, draws, picks, chosen) && |chosen| < |draws|
    requires Picks(Left(ws, picks), draws[|chosen|], p)
    ensures Drawn(ws, draws, picks + [p], chosen + [Left(ws, picks)[p].server])
    ensures Left(ws, picks + [p]) == RemovedAt(Left(ws, picks), p)
  {
    var n := |chosen|;
    var picks', chosen' := picks + [p], chosen + [Left(ws, picks)[p].server];
    assert picks'[..n] == picks;
    forall k | 0 <= k < n ensures DrawnAt(ws, draws, picks', chosen', k) {
      assert DrawnAt(ws, draws, picks, chosen, k);
      assert picks'[..k] == picks[..k];
    }
  }

  // ---------------------------------------------------------------------------------------------
  // The selection loop over any list of draws

  /** The walk over the fixed list: the first unused server at which the running sum reaches `r`. */
  function FirstHit(ws: seq<Weighted>, used: set<string>, r: real, j: nat, cumulative: real): (hit: Option<nat>)
    requires j <= |ws|
    ensures hit.Some? ==> j <= hit.value < |ws| && ws[hit.value].server !in used
    decreases |ws| - j
  {
    if j == |ws| then None
    else if ws[j].server in used then FirstHit(ws, used, r, j + 1, cumulative)
    else if r <= cumulative + ws[j].weight then Some(j)
    else FirstHit(ws, used, r, j + 1, cumulative + ws[j].weight)
  }

  /** The variables of the loop. */
  datatype Selection = Selection(selected: seq<string>, used: set<string>, total: real)

  ghost function Start(ws: seq<Weighted>): Selection { Selection([], {}, Total(ws)) }

  /** One turn of the loop with the draw `u`; a draw that hits nothing changes nothing. */
  function Turn(ws: seq<Weighted>, s: Selection, u: real): Selection {
    match FirstHit(ws, s.used, Scaled(u, s.total), 0, 0.0)
    case None => s
    case Some(j) =>
      Selection(s.selected + [ws[j].server], s.used + {ws[j].server}, s.total - ws[j].weight)
  }

  predicate Going(ws: seq<Weighted>, count: nat, s: Selection) {
    |s.selected| < count && |s.selected| < |ws|
  }

  predicate IsDraw(u: real) { 0.0 <= u < 1.0 }

  ghost predicate AreDraws(draws: seq<real>) { forall i | 0 <= i < |draws| :: IsDraw(draws[i]) }

  /** The loop after the given draws; once it has ended, further draws are not taken. */
  ghost function Run(ws: seq<Weighted>, count: nat, draws: seq<real>): Selection {
    if draws == [] then Start(ws)
    else
      var s := Run(ws, count, draws[..|draws| - 1]);
      if Going(ws, count, s) then Turn(ws, s, draws[|draws| - 1]) else s
  }

  /** The walk has come to position `j` without reaching `r`. */
  ghost predicate Passed(ws: seq<Weighted>, used: set<string>, r: real, j: nat, cumulative: real) {
    && j <= |ws| && cumulative == Total(Unused(ws[..j], used))
    && (Unused(ws[..j], used) == [] || cumulative < r)
  }

  ghost predicate StopsAt(ws: seq<Weighted>, used: set<string>, r: real, k: nat) {
    && k < |ws| && ws[k].server !in used
    && (Unused(ws[..k], used) == [] || Total(Unused(ws[..k], used)) < r)
    && r <= Total(Unused(ws[..k], used)) + ws[k].weight
  }

  lemma PassOne(ws: seq<Weighted>, used: set<string>, r: real, j: nat, cumulative: real)
    requires j < |ws| && Passed(ws, used, r, j, cumulative)
    ensures ws[j].server in used ==> Passed(ws, used, r, j + 1, cumulative)
    ensures ws[j].server !in used && r > cumulative + ws[j].weight ==> Passed(ws, used, r, j + 1, cumulative + ws[j].weight)
    ensures ws[j].server !in used && r <= cumulative + ws[j].weight ==> StopsAt(ws, used, r, j)
  {
    UnusedNext(ws, used, j);
  }

  lemma {:induction false} FirstHitMeaning(ws: seq<Weighted>, used: set<string>, r: real, j: nat, cumulative: real)
    requires Passed(ws, used, r, j, cumulative)
    ensures match FirstHit(ws, used, r, j, cumulative)
            case None => Passed(ws, used, r, |ws|, Total(Unused(ws[..|ws|], used)))
            case Some(k) => StopsAt(ws, used, r, k)
    decreases |ws| - j
  {
    if j < |ws| {
      PassOne(ws, used, r, j, cumulative);
      if ws[j].server in used {
        FirstHitMeaning(ws, used, r, j + 1, cumulative);
      } else if r > cumulative + ws[j].weight {
        FirstHitMeaning(ws, used, r, j + 1, cumulative + ws[j].weight);
      }
    }
  }

  /** The walk stops at the unused server whose share `r` hits, and finds none only when `r` lies
      beyond all of them. */
  lemma WalkHits(ws: seq<Weighted>, used: set<string>, r: real)
    ensures match FirstHit(ws, used, r, 0, 0.0)
            case None => Unused(ws, used) == [] || Total(Unused(ws, used)) < r
            case Some(k) =>
              && k < |ws| && ws[k].server !in used
              && |Unused(ws[..k], used)| < |Unused(ws, used)|
              && Unused(ws, used)[|Unused(ws[..k], used)|] == ws[k]
              && Hits(Unused(ws, used), r, |Unused(ws[..k], used)|)
  {
    assert ws[..0] == [];
    FirstHitMeaning(ws, used, r, 0, 0.0);
    EverythingWalked(ws, used, |ws|);
    var found := FirstHit(ws, used, r, 0, 0.0);
    if found.Some? {
      var k := found.value;
      UnusedAround(ws, used, k);
      assert Unused(ws, used)[..|Unused(ws[..k], used)|] == Unused(ws[..k], used);
      HitsAt(Unused(ws, used), r, |Unused(ws[..k], used)|);
    }
  }

  function Names(ws: seq<Weighted>): set<string> { set w | w in ws :: w.server }

  /** What every run keeps, whatever the names: the selected servers are distinct and from the list. */
  ghost predicate Consistent(ws: seq<Weighted>, s: Selection) {
    && DistinctNames(s.selected) && (forall n :: n in s.used <==> n in s.selected)
    && s.used <= Names(ws) && |s.used| == |s.selected|
  }

  lemma {:induction false} RunConsistent(ws: seq<Weighted>, count: nat, draws: seq<real>)
    ensures Consistent(ws, Run(ws, count, draws)) && |Run(ws, count, draws).selected| <= Min(count, |ws|)
  {
    if draws != [] {
      var n := |draws| - 1;
      RunConsistent(ws, count, draws[..n]);
    }
  }

  lemma {:induction false} ClosedRun(ws: seq<Weighted>, count: nat, draws: seq<real>, more: seq<real>)
    requires !Going(ws, count, Run(ws, count, draws))
    ensures Run(ws, count, draws + more) == Run(ws, count, draws)
  {
    if more == [] {
      assert draws + more == draws;
    } else {
      assert (draws + more)[..|draws + more| - 1] == draws + more[..|more| - 1];
      ClosedRun(ws, count, draws, more[..|more| - 1]);
    }
  }

  // ---------------------------------------------------------------------------------------------
  // When every draw selects

  /** A draw scaled to the running total stays within the weight that is left. */
  lemma ScaledDrawFits(left: seq<Weighted>, u: real, total: real, r: real)
    requires Positive(left) && left != [] && 0.0 <= u < 1.0 && total == Total(left) && r == Scaled(u, total)
    ensures r <= Total(left)
    ensures forall p :: Picks(left, u, p) <==> Hits(left, r, p)
  {
    TotalPositive(left);
    ScaledBelow(u, total);
  }

  lemma ScaledBelow(u: real, total: real)
    requires 0.0 <= u < 1.0 && total > 0.0
    ensures 0.0 <= Scaled(u, total) < total
  {
    assert (1.0 - u) * total > 0.0;
    assert (1.0 - u) * total == total - u * total;
  }

  /** What distinct names add: the running total is the weight still unused, and the draws so far are
      draws from a list that shrinks. */
  ghost predicate Exact(ws: seq<Weighted>, s: Selection, draws: seq<real>, picks: seq<nat>) {
    && Unused(ws, s.used) == Left(ws, picks) && |Unused(ws, s.used)| == |ws| - |s.selected|
    && s.total == Total(Unused(ws, s.used))
    && Drawn(ws, draws, picks, s.selected)
  }

  /** With the total exact, a draw within reach selects the server it picks from what is left. */
  lemma ExactDrawSelects(ws: seq<Weighted>, s: Selection, draws: seq<real>, picks: seq<nat>) returns (k: nat, p: nat)
    requires Positive(ws) && Exact(ws, s, draws, picks) && |s.selected| < |ws|
    requires |s.selected| < |draws| && IsDraw(draws[|s.selected|])
    ensures FirstHit(ws, s.used, Scaled(draws[|s.selected|], s.total), 0, 0.0) == Some(k)
    ensures k < |ws| && ws[k].server !in s.used && p == |Unused(ws[..k], s.used)| < |Unused(ws, s.used)|
    ensures Unused(ws, s.used)[p] == ws[k] && Picks(Unused(ws, s.used), draws[|s.selected|], p)
  {
    var u := draws[|s.selected|];
    var r := Scaled(u, s.total);
    UnusedProperties(ws, s.used);
    ScaledDrawFits(Unused(ws, s.used), u, s.total, r);
    WalkHits(ws, s.used, r);
    k := FirstHit(ws, s.used, r, 0, 0.0).value;
    p := |Unused(ws[..k], s.used)|;
  }

  lemma TurnKeepsExact(ws: seq<Weighted>, s: Selection, draws: seq<real>, picks: seq<nat>) returns (picks': seq<nat>)
    requires Positive(ws) && DistinctServers(ws) && Exact(ws, s, draws, picks) && |s.selected| < |ws|
    requires |s.selected| < |draws| && IsDraw(draws[|s.selected|])
    ensures var s' := Turn(ws, s, draws[|s.selected|]);
            |s'.selected| == |s.selected| + 1 && Exact(ws, s', draws, picks')
  {
    var k, p := ExactDrawSelects(ws, s, draws, picks);
    MarkUsed(ws, s.used, k);
    TotalRemoved(Unused(ws, s.used), p);
    DrawnExtends(ws, draws, picks, s.selected, p);
    picks' := picks + [p];
  }

  /** Draws left over do not matter to what was drawn. */
  lemma DrawnOfPrefix(ws: seq<Weighted>, draws: seq<real>, more: seq<real>, picks: seq<nat>, chosen: seq<string>)
    requires Drawn(ws, draws, picks, chosen)
    ensures Drawn(ws, draws + more, picks, chosen)
  {
    forall k | 0 <= k < |chosen| ensures DrawnAt(ws, draws + more, picks, chosen, k) {
      assert DrawnAt(ws, draws, picks, chosen, k);
    }
  }

  ghost predicate SafeNames(ws: seq<Weighted>, count: nat) { DistinctServers(ws) || count <= 1 }

  /** With safe names every draw of a run selects a new server, so a run has selected as many servers
      as it was given draws, up to min(count, n). */
  ghost predicate SafeAfter(ws: seq<Weighted>, count: nat, draws: seq<real>, s: Selection, picks: seq<nat>) {
    && |s.selected| == Min(|draws|, Min(count, |ws|)) && Drawn(ws, draws, picks, s.selected)
    && (Going(ws, count, s) || DistinctServers(ws) ==> Exact(ws, s, draws, picks))
  }

  lemma {:induction false} SafeRun(ws: seq<Weighted>, count: nat, draws: seq<real>) returns (picks: seq<nat>)
    requires Positive(ws) && SafeNames(ws, count) && AreDraws(draws)
    ensures SafeAfter(ws, count, draws, Run(ws, count, draws), picks)
  {
    if draws == [] {
      picks := [];
      NothingUsed(ws);
      assert Exact(ws, Start(ws), draws, []);
    } else {
      var n := |draws| - 1;
      var before := Run(ws, count, draws[..n]);
      picks := SafeRun(ws, count, draws[..n]);
      assert draws[..n] + [draws[n]] == draws;
      DrawnOfPrefix(ws, draws[..n], [draws[n]], picks, before.selected);
      if Going(ws, count, before) {
        picks := SafeTurn(ws, count, before, draws, picks);
      }
    }
  }

  lemma SafeTurn(ws: seq<Weighted>, count: nat, s: Selection, draws: seq<real>, picks: seq<nat>) returns (picks': seq<nat>)
    requires Positive(ws) && SafeNames(ws, count) && AreDraws(draws)
    requires Exact(ws, s, draws, picks) && Going(ws, count, s) && |s.selected| < |draws|
    ensures var s' := Turn(ws, s, draws[|s.selected|]);
            && |s'.selected| == |s.selected| + 1 && Drawn(ws, draws, picks', s'.selected)
            && (Going(ws, count, s') || DistinctServers(ws) ==> Exact(ws, s', draws, picks'))
  {
    if DistinctServers(ws) {
      picks' := TurnKeepsExact(ws, s, draws, picks);
    } else {
      var k, p := ExactDrawSelects(ws, s, draws, picks);
      DrawnExtends(ws, draws, picks, s.selected, p);
      picks' := picks + [p];
    }
  }

  /** Every draw of every run selects a new server. */
  ghost predicate EveryDrawSelects(ws: seq<Weighted>, count: nat) {
    forall draws, u | AreDraws(draws) && IsDraw(u) && Going(ws, count, Run(ws, count, draws)) ::
      Selects(ws, Run(ws, count, draws), u)
  }

  ghost predicate Selects(ws: seq<Weighted>, s: Selection, u: real) {
    |Turn(ws, s, u).selected| == |s.selected| + 1
  }

  /** The loop ends after some number of draws, whatever they are. */
  ghost predicate AlwaysEnds(ws: seq<Weighted>, count: nat) {
    exists n: nat :: EndsWithin(ws, count, n)
  }

  ghost predicate EndsWithin(ws: seq<Weighted>, count: nat, n: nat) {
    forall draws | AreDraws(draws) && |draws| >= n :: !Going(ws, count, Run(ws, count, draws))
  }

  lemma SafeDrawSelects(ws: seq<Weighted>, count: nat, draws: seq<real>, u: real)
    requires Positive(ws) && SafeNames(ws, count)
    requires AreDraws(draws) && IsDraw(u) && Going(ws, count, Run(ws, count, draws))
    ensures Selects(ws, Run(ws, count, draws), u)
  {
    var picks := SafeRun(ws, count, draws);
    assert AreDraws(draws + [u]);
    picks := SafeRun(ws, count, draws + [u]);
  }

  lemma SafeEnds(ws: seq<Weighted>, count: nat)
    requires Positive(ws) && SafeNames(ws, count)
    ensures EndsWithin(ws, count, Min(count, |ws|))
  {
    forall draws | AreDraws(draws) && |draws| >= Min(count, |ws|) ensures !Going(ws, count, Run(ws, count, draws)) {
      var picks := SafeRun(ws, count, draws);
    }
  }

  // ---------------------------------------------------------------------------------------------
  // Repeated names

  lemma Unscale(r: real, total: real) returns (u: real)
    requires 0.0 <= r < total
    ensures 0.0 <= u < 1.0 && Scaled(u, total) == r
  {
    u := r / total;
  }

  /** The weight of the servers whose names are used. */
  ghost function UsedWeight(ws: seq<Weighted>, used: set<string>): real {
    if ws == [] then 0.0
    else UsedWeight(ws[..|ws| - 1], used) + if ws[|ws| - 1].server in used then ws[|ws| - 1].weight else 0.0
  }

  lemma {:induction false} TotalSplits(ws: seq<Weighted>, used: set<string>)
    ensures Total(ws) == Total(Unused(ws, used)) + UsedWeight(ws, used)
  {
    if ws != [] {
      var n := |ws| - 1;
      TotalSplits(ws[..n], used);
      UnusedNext(ws, used, n);
      assert ws[..n + 1] == ws;
    }
  }

  lemma {:induction false} UsedNonNegative(ws: seq<Weighted>, used: set<string>)
    requires Positive(ws)
    ensures UsedWeight(ws, used) >= 0.0
  {
    if ws != [] { UsedNonNegative(ws[..|ws| - 1], used); }
  }

  lemma {:induction false} UsedAtLeast(ws: seq<Weighted>, used: set<string>, i: nat)
    requires Positive(ws) && i < |ws| && ws[i].server in used
    ensures UsedWeight(ws, used) >= ws[i].weight
  {
    var n := |ws| - 1;
    if i == n { UsedNonNegative(ws[..n], used); } else { UsedAtLeast(ws[..n], used, i); }
  }

  lemma {:induction false} UsedMoreThan(ws: seq<Weighted>, used: set<string>, i: nat, j: nat)
    requires Positive(ws) && i < j < |ws| && ws[i].server in used && ws[j].server in used
    ensures UsedWeight(ws, used) > ws[i].weight
  {
    var n := |ws| - 1;
    if j == n { UsedAtLeast(ws[..n], used, i); } else { UsedMoreThan(ws[..n], used, i, j); }
  }

  /** Marking one copy of a repeated name hides all copies, but only one weight is subtracted. */
  lemma HiddenWeight(ws: seq<Weighted>, used: set<string>, i: nat, j: nat)
    requires Positive(ws) && i < j < |ws| && ws[i].server in used && ws[j].server in used
    ensures Total(Unused(ws, used)) < Total(ws) - ws[i].weight
  {
    TotalSplits(ws, used);
    UsedMoreThan(ws, used, i, j);
  }

  lemma TotalMonotone(ws: seq<Weighted>, i: nat)
    requires Positive(ws) && i <= |ws|
    ensures Total(ws[..i]) <= Total(ws) && (i < |ws| ==> Total(ws[..i]) < Total(ws))
  {
    assert ws == ws[..i] + ws[i..];
    TotalAppend(ws[..i], ws[i..]);
    TotalPositive(ws[i..]);
  }

  ghost predicate Misses(ws: seq<Weighted>, r: real) { forall p: nat | p < |ws| :: !Hits(ws, r, p) }

  lemma BeyondTotalMisses(ws: seq<Weighted>, r: real)
    requires Positive(ws) && Total(ws) < r
    ensures Misses(ws, r)
  {
    forall p: nat | p < |ws| ensures !Hits(ws, r, p) { TotalMonotone(ws, p + 1); }
  }

  lemma PickEnd(ws: seq<Weighted>, i: nat) returns (u: real)
    requires Positive(ws) && i + 1 < |ws|
    ensures 0.0 <= u < 1.0 && Picks(ws, u, i)
  {
    TotalPositive(ws[..i + 1]);
    TotalMonotone(ws, i + 1);
    assert ws[..i + 1] == ws[..i] + [ws[i]];
    u := Unscale(Total(ws[..i + 1]), Total(ws));
  }

  lemma HitsUnique(ws: seq<Weighted>, r: real, p: nat, q: nat)
    requires Positive(ws) && Hits(ws, r, p) && Hits(ws, r, q)
    ensures p == q
  {
    if p < q { PrefixTotals(ws, p + 1, q); } else if q < p { PrefixTotals(ws, q + 1, p); }
  }

  lemma PrefixTotals(ws: seq<Weighted>, p: nat, q: nat)
    requires Positive(ws) && p <= q <= |ws|
    ensures Total(ws[..p]) <= Total(ws[..q])
  {
    TotalMonotone(ws[..q], p);
    assert ws[..q][..p] == ws[..p];
  }

  lemma FirstPickHits(ws: seq<Weighted>, r: real, i: nat)
    requires Positive(ws) && Hits(ws, r, i)
    ensures FirstHit(ws, {}, r, 0, 0.0) == Some(i)
  {
    NothingUsed(ws);
    WalkHits(ws, {}, r);
    var found := FirstHit(ws, {}, r, 0, 0.0);
    if found.None? {
      TotalMonotone(ws, i + 1);
    } else {
      NothingUsed(ws[..found.value]);
      HitsUnique(ws, r, i, found.value);
    }
  }

  lemma FirstPick(ws: seq<Weighted>, count: nat, u: real, i: nat)
    requires Positive(ws) && count >= 1 && Picks(ws, u, i)
    ensures i < |ws| && Run(ws, count, [u]) == Selection([ws[i].server], {ws[i].server}, Total(ws) - ws[i].weight)
  {
    FirstPickHits(ws, Scaled(u, Total(ws)), i);
    assert Run(ws, count, []) == Start(ws);
    assert [] + [u] == [u];
  }

  /** When less weight is left than the total says, some draw hits nothing. */
  lemma SomeDrawMisses(ws: seq<Weighted>, s: Selection) returns (v: real)
    requires Positive(ws) && Total(Unused(ws, s.used)) < s.total
    ensures IsDraw(v) && Turn(ws, s, v) == s
  {
    var left := Unused(ws, s.used);
    UnusedProperties(ws, s.used);
    TotalPositive(left);
    var r := (Total(left) + s.total) / 2.0;
    v := Unscale(r, s.total);
    BeyondTotalMisses(left, r);
    WalkHits(ws, s.used, r);
  }

  /** Two servers with one name, and at least two to select: some draw picks one copy, and after it
      some draw hits no unused server. */
  lemma RepeatedNameMisses(ws: seq<Weighted>, count: nat, i: nat, j: nat) returns (u: real, v: real)
    requires Positive(ws) && i < j < |ws| && ws[i].server == ws[j].server && count >= 2
    ensures IsDraw(u) && IsDraw(v)
    ensures var s := Run(ws, count, [u]); Going(ws, count, s) && Turn(ws, s, v) == s
  {
    u := PickEnd(ws, i);
    FirstPick(ws, count, u, i);
    HiddenWeight(ws, {ws[i].server}, i, j);
    v := SomeDrawMisses(ws, Run(ws, count, [u]));
  }

  function Copies(v: real, n: nat): seq<real> { seq(n, _ => v) }

  /** A draw that changes nothing can come again and again. */
  lemma {:induction false} MissesForEver(ws: seq<Weighted>, count: nat, u: real, v: real, n: nat)
    requires var s := Run(ws, count, [u]); Going(ws, count, s) && Turn(ws, s, v) == s
    ensures Run(ws, count, [u] + Copies(v, n)) == Run(ws, count, [u])
  {
    if n == 0 {
      assert [u] + Copies(v, n) == [u];
    } else {
      MissesForEver(ws, count, u, v, n - 1);
      assert [u] + Copies(v, n) == ([u] + Copies(v, n - 1)) + [v];
    }
  }

  lemma UnsafeNeverEnds(ws: seq<Weighted>, count: nat, n: nat)
    requires Positive(ws) && !SafeNames(ws, count)
    ensures !EveryDrawSelects(ws, count) && !EndsWithin(ws, count, n)
  {
    var i, j :| 0 <= i < j < |ws| && ws[i].server == ws[j].server;
    var u, v := RepeatedNameMisses(ws, count, i, j);
    assert AreDraws([u]) && !Selects(ws, Run(ws, count, [u]), v);
    MissesForEver(ws, count, u, v, n);
    assert AreDraws([u] + Copies(v, n)) && |[u] + Copies(v, n)| >= n;
  }

  /** Every draw selects a new server, and the loop ends whatever is drawn, exactly when all names
      are distinct or at most one server is wanted. */
  lemma EveryDrawSelectsExactly(ws: seq<Weighted>, count: nat)
    requires Positive(ws)
    ensures EveryDrawSelects(ws, count) <==> DistinctServers(ws) || count <= 1
    ensures AlwaysEnds(ws, count) <==> DistinctServers(ws) || count <= 1
  {
    if SafeNames(ws, count) {
      forall draws, u | AreDraws(draws) && IsDraw(u) && Going(ws, count, Run(ws, count, draws))
        ensures Selects(ws, Run(ws, count, draws), u)
      {
        SafeDrawSelects(ws, count, draws, u);
      }
      SafeEnds(ws, count);
    } else {
      UnsafeNeverEnds(ws, count, 0);
      forall n: nat ensures !EndsWithin(ws, count, n) {
        UnsafeNeverEnds(ws, count, n);
      }
    }
  }

  /** No draws whatever end the loop. */
  ghost predicate NeverEnds(ws: seq<Weighted>, count: nat) {
    forall draws | AreDraws(draws) :: Going(ws, count, Run(ws, count, draws))
  }

  /** A draw of 0 hits the first unused server, if there is one. */
  lemma ZeroSelects(ws: seq<Weighted>, s: Selection)
    requires Positive(ws) && Consistent(ws, s) && |s.selected| < |Names(ws)|
    ensures Selects(ws, s, 0.0)
  {
    if Names(ws) <= s.used { SubsetSize(Names(ws), s.used); }
    var n :| n in Names(ws) && n !in s.used;
    var w :| w in ws && w.server == n;
    UnusedProperties(ws, s.used);
    assert w in Unused(ws, s.used);
    TotalPositive(Unused(ws, s.used));
    WalkHits(ws, s.used, Scaled(0.0, s.total));
  }

  lemma {:induction false} SubsetSize(a: set<string>, b: set<string>)
    requires a <= b
    ensures |a| <= |b|
  {
    if a != {} {
      var x :| x in a;
      SubsetSize(a - {x}, b - {x});
    }
  }

  lemma {:induction false} ZerosSelect(ws: seq<Weighted>, count: nat, n: nat)
    requires Positive(ws) && n <= Min(count, |ws|) <= |Names(ws)|
    ensures |Run(ws, count, Copies(0.0, n)).selected| == n
  {
    if n > 0 {
      ZerosSelect(ws, count, n - 1);
      var draws := Copies(0.0, n - 1);
      assert Copies(0.0, n) == draws + [0.0];
      RunConsistent(ws, count, draws);
      ZeroSelects(ws, Run(ws, count, draws));
    }
  }

  /** The loop can never end, whatever is drawn, exactly when there are fewer distinct names than
      servers to select. */
  lemma NeverEndsExactly(ws: seq<Weighted>, count: nat)
    requires Positive(ws)
    ensures NeverEnds(ws, count) <==> |Names(ws)| < Min(count, |ws|)
  {
    if |Names(ws)| < Min(count, |ws|) {
      forall draws | AreDraws(draws) ensures Going(ws, count, Run(ws, count, draws)) {
        RunConsistent(ws, count, draws);
        SubsetSize(Run(ws, count, draws).used, Names(ws));
      }
    } else {
      var n := Min(count, |ws|);
      ZerosSelect(ws, count, n);
      assert AreDraws(Copies(0.0, n)) && !Going(ws, count, Run(ws, count, Copies(0.0, n)));
    }
  }

  // ---------------------------------------------------------------------------------------------
  // The whole selection

  lemma WeightsProperties(servers: seq<string>, health: map<string, Health>)
    ensures var ws := WeightsOf(servers, health);
            Positive(ws) && (DistinctNames(servers) <==> DistinctServers(ws)) && Names(ws) == set n | n in servers
  {
    var ws := WeightsOf(servers, health);
    assert |ws| == |servers| && forall i | 0 <= i < |ws| :: ws[i].server == servers[i];
    forall n | n in servers ensures n in Names(ws) {
      var i :| 0 <= i < |servers| && servers[i] == n;
      assert ws[i] in ws;
    }
  }

  /** Position by position, a server has the weight of its own record; one that was never asked has
      that of an empty record. */
  lemma WeightsMeaning(servers: seq<string>, health: map<string, Health>)
    ensures var ws := WeightsOf(servers, health);
            && |ws| == |servers|
            && forall i | 0 <= i < |servers| ::
                 && ws[i].server == servers[i]
                 && ws[i].weight == if servers[i] in health then Weight(health[servers[i]]) else 0.1
  {
    WeightIsSuccessShare(Health(0, 0, 0, 0.0));
  }

  /** Each server's share of the draws is its share of the weight: the draws that pick it are the
      interval of that length. */
  lemma ShareIsWeight(ws: seq<Weighted>, p: nat) returns (low: real, high: real)
    requires Positive(ws) && p < |ws|
    ensures Total(ws) > 0.0 && high - low == ws[p].weight / Total(ws) && 0.0 <= low && high <= 1.0 && (p == 0 ==> low == 0.0)
    ensures forall u :: Picks(ws, u, p) <==> (p == 0 || low < u) && u <= high
  {
    var total := Total(ws);
    TotalPositive(ws);
    TotalPositive(ws[..p]);
    TotalMonotone(ws, p + 1);
    TotalSnoc(ws[..p], ws[p]);
    assert ws[..p + 1] == ws[..p] + [ws[p]];
    var below, upto := Total(ws[..p]), Total(ws[..p + 1]);
    low, high := below / total, upto / total;
    QuotientDifference(upto, below, total);
    forall u ensures Picks(ws, u, p) <==> (p == 0 || low < u) && u <= high {
      ScaledOrder(u, below, total);
      ScaledOrder(u, upto, total);
    }
  }

  lemma QuotientDifference(a: real, b: real, total: real)
    requires 0.0 <= b <= a <= total && 0.0 < total
    ensures a / total - b / total == (a - b) / total && 0.0 <= b / total && a / total <= 1.0
  {
  }

  lemma ScaledOrder(u: real, x: real, total: real)
    requires 0.0 < total
    ensures x < Scaled(u, total) <==> x / total < u
    ensures Scaled(u, total) <= x <==> u <= x / total
  {
    assert x / total * total == x;
    if u <= x / total { ProductMonotone(u, x / total, total); }
    if x / total <= u { ProductMonotone(x / total, u, total); }
  }

  /** The same in terms of a call: every draw selects and the loop always ends exactly when the names
      are distinct or at most one server is wanted; it never ends, whatever is drawn, exactly when
      fewer distinct names are given than servers are to be selected. In between it depends on the
      draws. */
  lemma SelectionExactly(servers: seq<string>, health: map<string, Health>, count: nat)
    ensures var ws := WeightsOf(servers, health);
            && (EveryDrawSelects(ws, count) <==> DistinctNames(servers) || count <= 1)
            && (AlwaysEnds(ws, count) <==> DistinctNames(servers) || count <= 1)
            && (NeverEnds(ws, count) <==> |set n | n in servers| < Min(count, |servers|))
  {
    WeightsProperties(servers, health);
    EveryDrawSelectsExactly(WeightsOf(servers, health), count);
    NeverEndsExactly(WeightsOf(servers, health), count);
  }

  /** The selection topped up to `count` with unused servers in list order. */
  function Filled(servers: seq<string>, count: nat, used: set<string>, selected: seq<string>): seq<string> {
    if servers == [] || |selected| >= count then selected
    else if servers[0] in used then Filled(servers[1..], count, used, selected)
    else Filled(servers[1..], count, used + {servers[0]}, selected + [servers[0]])
  }

  method FillUp(servers: seq<string>, count: nat, used: set<string>, selected: seq<string>) returns (r: seq<string>)
    ensures r == Filled(servers, count, used, selected)
  {
    r := selected;
    var taken := used;
    for i := 0 to |servers|
      invariant Filled(servers[i..], count, taken, r) == Filled(servers, count, used, selected)
    {
      if |r| >= count {
        break;
      }
      assert servers[i..][1..] == servers[i + 1..];
      if servers[i] !in taken {
        r := r + [servers[i]];
        taken := taken + {servers[i]};
      }
    }
  }

  /** After the draws there is nothing left to fill up with. */
  lemma {:induction false} NothingToFill(servers: seq<string>, count: nat, used: set<string>, selected: seq<string>)
    requires |selected| >= count || forall i | 0 <= i < |servers| :: servers[i] in used
    ensures Filled(servers, count, used, selected) == selected
  {
    if servers != [] && |selected| < count { NothingToFill(servers[1..], count, used, selected); }
  }

  /** A loop that has ended leaves nothing to fill up with, whatever the names. */
  lemma EndedLeavesNothing(servers: seq<string>, health: map<string, Health>, count: nat, draws: seq<real>)
    requires var ws := WeightsOf(servers, health); !Going(ws, count, Run(ws, count, draws))
    ensures var s := Run(WeightsOf(servers, health), count, draws); Filled(servers, count, s.used, s.selected) == s.selected
  {
    var ws := WeightsOf(servers, health);
    var s := Run(ws, count, draws);
    RunConsistent(ws, count, draws);
    if |s.selected| < count {
      NamesAtMost(ws);
      SubsetSize(s.used, Names(ws));
      AllOfThem(s.used, Names(ws));
      forall i | 0 <= i < |servers| ensures servers[i] in s.used {
        assert ws[i] in ws && ws[i].server in Names(ws);
      }
    }
    NothingToFill(servers, count, s.used, s.selected);
  }

  lemma {:induction false} NamesAtMost(ws: seq<Weighted>)
    ensures |Names(ws)| <= |ws|
  {
    if ws != [] {
      var n := |ws| - 1;
      NamesAtMost(ws[..n]);
      assert ws == ws[..n] + [ws[n]];
      assert Names(ws) == Names(ws[..n]) + {ws[n].server};
    }
  }

  lemma AllOfThem(a: set<string>, b: set<string>)
    requires a <= b && |a| >= |b|
    ensures a == b
  {
    if x :| x in b && x !in a { SubsetSize(a, b - {x}); }
  }

  /** The loop body's inner walk. */
  method Walk(ws: seq<Weighted>, used: set<string>, r: real) returns (hit: Option<nat>)
    ensures hit == FirstHit(ws, used, r, 0, 0.0)
    ensures hit.Some? ==> hit.value < |ws|
  {
    WalkHits(ws, used, r);
    var cumulative := 0.0;
    for j := 0 to |ws|
      invariant FirstHit(ws, used, r, j, cumulative) == FirstHit(ws, used, r, 0, 0.0)
    {
      if ws[j].server in used {
        continue;
      }
      cumulative := cumulative + ws[j].weight;
      if r <= cumulative {
        return Some(j);
      }
    }
    hit := None;
  }

  method WeighServers(servers: seq<string>, health: map<string, Health>) returns (ws: seq<Weighted>, total: real)
    ensures ws == WeightsOf(servers, health) && total == Total(ws)
  {
    ws, total := [], 0.0;
    for i := 0 to |servers|
      invariant ws == WeightsOf(servers, health)[..i] && total == Total(ws)
    {
      var w := Weighted(servers[i], Weight(HealthOf(health, servers[i])));
      ws := ws + [w];
      total := total + w.weight;
    }
  }

  /** What a call comes to: a slice out of range, a loop that is still waiting for a draw, or the
      selected servers. */
  datatype Outcome = Panics | StillDrawing | Selected(servers: seq<string>)

  /** One turn of the loop. */
  method TakeTurn(ws: seq<Weighted>, s: Selection, u: real) returns (s': Selection)
    ensures s' == Turn(ws, s, u)
  {
    s' := s;
    var hit := Walk(ws, s.used, Scaled(u, s.total));
    if hit.Some? {
      var w := ws[hit.value];
      s' := s'.(selected := s'.selected + [w.server]);
      s' := s'.(used := s'.used + {w.server});
      s' := s'.(total := s'.total - w.weight);
    }
  }

  lemma RunEnded(ws: seq<Weighted>, count: nat, draws: seq<real>, k: nat)
    requires k <= |draws| && (k == |draws| || !Going(ws, count, Run(ws, count, draws[..k])))
    ensures Run(ws, count, draws) == Run(ws, count, draws[..k])
  {
    assert draws[..k] + draws[k..] == draws;
    if k == |draws| { assert draws[..k] == draws; } else { ClosedRun(ws, count, draws[..k], draws[k..]); }
  }

  /** The loop, until it ends or the draws run out. */
  method DrawServers(ws: seq<Weighted>, total: real, count: nat, draws: seq<real>) returns (s: Selection)
    requires total == Total(ws)
    ensures s == Run(ws, count, draws)
  {
    s := Selection([], {}, total);
    var k := 0;
    while |s.selected| < count && |s.selected| < |ws| && k < |draws|
      invariant k <= |draws| && s == Run(ws, count, draws[..k])
    {
      assert draws[..k + 1][..k] == draws[..k];
      s := TakeTurn(ws, s, draws[k]);
      k := k + 1;
    }
    RunEnded(ws, count, draws, k);
  }

  /** Draws up to `count` servers; `draws` are the random numbers in [0, 1) that are at hand, and
      `spare` is what lies behind the slice in its backing array. */
  method SelectWeightedServers(servers: seq<string>, spare: seq<string>, health: map<string, Health>, count: int, draws: seq<real>)
    returns (r: Outcome)
    ensures count < 0 ==> r == Panics
    ensures count >= 0 && servers == [] ==> r == if count <= |spare| then Selected(spare[..count]) else Panics
    ensures count >= 0 && servers != [] ==>
              var ws := WeightsOf(servers, health);
              var s := Run(ws, count, draws);
              r == if Going(ws, count, s) then StillDrawing else Selected(s.selected)
  {
    var ws, total := WeighServers(servers, health);
    WeightsProperties(servers, health);
    TotalPositive(ws);
    assert servers == [] ==> ws == [];
    if total <= 0.0 {
      var backing := servers + spare;
      return if 0 <= count <= |backing| then Selected(backing[..count]) else Panics;
    }
    if count < 0 {
      return Panics;
    }
    var s := DrawServers(ws, total, count, draws);
    if |s.selected| < count && |s.selected| < |servers| {
      return StillDrawing;
    }
    EndedLeavesNothing(servers, health, count, draws);
    var selected := FillUp(servers, count, s.used, s.selected);
    r := Selected(selected);
  }

  /** For distinct names, or when at most one server is wanted, min(count, n) draws are enough: the
      call returns that many distinct servers of the list, drawn one by one without replacement in
      proportion to their weights. */
  lemma SelectionIsDrawn(servers: seq<string>, health: map<string, Health>, count: nat, draws: seq<real>) returns (picks: seq<nat>)
    requires (DistinctNames(servers) || count <= 1) && AreDraws(draws) && |draws| >= Min(count, |servers|)
    ensures var ws := WeightsOf(servers, health);
            var s := Run(ws, count, draws);
            && !Going(ws, count, s)
            && |s.selected| == Min(count, |servers|) && DistinctNames(s.selected)
            && (forall n :: n in s.selected ==> n in servers)
            && Drawn(ws, draws, picks, s.selected)
  {
    var ws := WeightsOf(servers, health);
    WeightsProperties(servers, health);
    picks := SafeRun(ws, count, draws);
    RunConsistent(ws, count, draws);
    forall n | n in Run(ws, count, draws).selected ensures n in servers {
      assert n in Names(ws);
      var i :| 0 <= i < |ws| && ws[i].server == n;
    }
  }
}
