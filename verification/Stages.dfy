/** What a completed pipeline hands to the next phase, in terms of entries instead of positions. */
module Stages {
  import P = Pipeline

  predicate Within(positions: seq<nat>, n: nat) {
    forall k | 0 <= k < |positions| :: positions[k] < n
  }

  /** The items at the given positions. */
  function Pick<T>(items: seq<T>, positions: seq<nat>): seq<T>
    requires Within(positions, |items|)
  {
    seq(|positions|, k requires 0 <= k < |positions| => items[positions[k]])
  }

  /** The items whose job is accepted, in input order. */
  function Kept<T>(items: seq<T>, jobs: seq<P.Job>): seq<T>
    requires |items| == |jobs|
  {
    if items == [] then []
    else
      var n := |items| - 1;
      Kept(items[..n], jobs[..n]) + if jobs[n].Accepted? then [items[n]] else []
  }

  function RemovedAt<T>(s: seq<T>, j: nat): seq<T>
    requires j < |s|
  {
    s[..j] + s[j + 1..]
  }

  lemma RemovedBag<T>(s: seq<T>, j: nat)
    requires j < |s|
    ensures multiset(s) == multiset(RemovedAt(s, j)) + multiset{s[j]}
  {
    assert s == s[..j] + ([s[j]] + s[j + 1..]);
  }

  lemma CancelOne<T>(a: multiset<T>, b: multiset<T>, x: T)
    requires a + multiset{x} == b + multiset{x}
    ensures a == b
  {
    assert a == (a + multiset{x}) - multiset{x};
    assert b == (b + multiset{x}) - multiset{x};
  }

  /** Removing a position removes one item. */
  lemma PickRemoved<T>(items: seq<T>, p: seq<nat>, j: nat)
    requires Within(p, |items|) && j < |p|
    ensures Within(RemovedAt(p, j), |items|)
    ensures multiset(Pick(items, p)) == multiset(Pick(items, RemovedAt(p, j))) + multiset{items[p[j]]}
  {
    assert Pick(items, RemovedAt(p, j)) == RemovedAt(Pick(items, p), j);
    RemovedBag(Pick(items, p), j);
  }

  /** Picking in another order gives the same bag. */
  lemma {:induction false} PickPermutation<T>(items: seq<T>, p: seq<nat>, q: seq<nat>)
    requires Within(p, |items|) && Within(q, |items|) && multiset(p) == multiset(q)
    ensures multiset(Pick(items, p)) == multiset(Pick(items, q))
  {
    if p == [] {
      assert |multiset(q)| == 0;
    } else {
      var n := |p| - 1;
      assert p[n] in multiset(q);
      var j :| 0 <= j < |q| && q[j] == p[n];
      RemovedBag(p, n);
      RemovedBag(q, j);
      CancelOne(multiset(RemovedAt(p, n)), multiset(RemovedAt(q, j)), p[n]);
      PickRemoved(items, p, n);
      PickRemoved(items, q, j);
      PickPermutation(items, RemovedAt(p, n), RemovedAt(q, j));
    }
  }

  lemma AcceptedWithin(jobs: seq<P.Job>)
    ensures Within(P.AcceptedPositions(jobs), |jobs|)
  {
    P.AcceptedPositionsMeaning(jobs);
    var r := P.AcceptedPositions(jobs);
    forall k | 0 <= k < |r| ensures r[k] < |jobs| { assert r[k] in r; }
  }

  lemma {:induction false} PickAccepted<T>(items: seq<T>, jobs: seq<P.Job>)
    requires |items| == |jobs| && Within(P.AcceptedPositions(jobs), |items|)
    ensures Pick(items, P.AcceptedPositions(jobs)) == Kept(items, jobs)
  {
    if items != [] {
      var n := |items| - 1;
      AcceptedWithin(jobs[..n]);
      PickAccepted(items[..n], jobs[..n]);
      var before := P.AcceptedPositions(jobs[..n]);
      assert Pick(items, before) == Pick(items[..n], before);
      if jobs[n].Accepted? {
        assert P.AcceptedPositions(jobs) == before + [n];
        assert Pick(items, before + [n]) == Pick(items, before) + [items[n]];
      }
    }
  }

  lemma SnocBag<T>(items: seq<T>)
    requires items != []
    ensures multiset(items) == multiset(items[..|items| - 1]) + multiset{items[|items| - 1]}
  {
    assert items == items[..|items| - 1] + [items[|items| - 1]];
  }

  lemma {:induction false} KeptIsSubBag<T>(items: seq<T>, jobs: seq<P.Job>)
    requires |items| == |jobs|
    ensures multiset(Kept(items, jobs)) <= multiset(items)
  {
    if items != [] {
      var n := |items| - 1;
      KeptIsSubBag(items[..n], jobs[..n]);
      SnocBag(items);
      if jobs[n].Accepted? {
        assert multiset(Kept(items, jobs)) == multiset(Kept(items[..n], jobs[..n])) + multiset{items[n]};
      } else {
        assert Kept(items, jobs) == Kept(items[..n], jobs[..n]);
      }
    }
  }

  /** When acceptance depends on the item alone, every accepted item is kept as often as it came in
      and nothing else is. */
  lemma {:induction false} KeptMeaning<T>(items: seq<T>, jobs: seq<P.Job>, ok: T -> bool, x: T)
    requires |items| == |jobs| && forall i | 0 <= i < |jobs| :: jobs[i].Accepted? <==> ok(items[i])
    ensures multiset(Kept(items, jobs))[x] == if ok(x) then multiset(items)[x] else 0
  {
    if items != [] {
      var n := |items| - 1;
      KeptMeaning(items[..n], jobs[..n], ok, x);
      SnocBag(items);
      if jobs[n].Accepted? {
        assert multiset(Kept(items, jobs)) == multiset(Kept(items[..n], jobs[..n])) + multiset{items[n]};
      } else {
        assert Kept(items, jobs) == Kept(items[..n], jobs[..n]);
      }
    }
  }

  lemma {:induction false} KeptWereAccepted<T>(items: seq<T>, jobs: seq<P.Job>, ok: T -> bool)
    requires |items| == |jobs| && forall i | 0 <= i < |jobs| :: jobs[i].Accepted? ==> ok(items[i])
    ensures forall x :: x in Kept(items, jobs) ==> ok(x)
  {
    if items != [] { KeptWereAccepted(items[..|items| - 1], jobs[..|items| - 1], ok); }
  }

  /** `out` is what some completed schedule of the pipeline collects from `items`. */
  ghost predicate Output<T>(items: seq<T>, c: P.Config, schedule: seq<P.Action>, out: seq<T>) {
    && |c.jobs| == |items|
    && P.After(c, schedule).At?
    && var s := P.After(c, schedule).state;
       && s.finished
       && Within(s.Collected(), |items|)
       && out == Pick(items, s.Collected())
  }

  /** `out` holds exactly the kept items, in some order. */
  ghost predicate Delivers<T>(items: seq<T>, jobs: seq<P.Job>, out: seq<T>) {
    |items| == |jobs| && multiset(out) == multiset(Kept(items, jobs))
  }

  /** Whatever the schedule, a completed pipeline delivers exactly the kept items. */
  lemma OutputDelivers<T>(items: seq<T>, c: P.Config, schedule: seq<P.Action>, out: seq<T>)
    requires Output(items, c, schedule, out)
    ensures Delivers(items, c.jobs, out)
  {
    P.CompletionDeliversAccepted(c, schedule);
    AcceptedWithin(c.jobs);
    PickAccepted(items, c.jobs);
    PickPermutation(items, P.After(c, schedule).state.Collected(), P.AcceptedPositions(c.jobs));
  }

  /** No item is made up or duplicated. */
  lemma DeliveredIsSubBag<T>(items: seq<T>, jobs: seq<P.Job>, out: seq<T>)
    requires Delivers(items, jobs, out)
    ensures multiset(out) <= multiset(items)
  {
    KeptIsSubBag(items, jobs);
  }
}
