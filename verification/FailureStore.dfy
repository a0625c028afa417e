/** The failure history of sni_probe: redb has no time-to-live, so a value table and an expiry table
    are written together and expired rows are filtered out when read. */
module FailureStore {

  class Store {
    var failed: map<string, nat>
    var expiry: map<string, nat>
    const ttl: nat

    /** The history this store stands for: when each domain last failed since the last clear. */
    ghost var history: map<string, nat>

    ghost predicate Valid()
      reads this
    {
      && failed == history
      && expiry.Keys == history.Keys
      && forall d | d in history :: expiry[d] == history[d] + ttl
    }

    constructor (ttlDays: nat)
      ensures Valid() && history == map[] && ttl == ttlDays * 24 * 3600
    {
      failed, expiry, history := map[], map[], map[];
      ttl := ttlDays * 24 * 3600;
    }

    method AppendFailures(domains: seq<string>, now: nat)
      requires Valid()
      modifies this
      ensures Valid()
      ensures history == Appended(old(history), domains, now)
    {
      if domains == [] {
        return;
      }
      var expireAt := now + ttl;
      for i := 0 to |domains|
        invariant Valid() && history == Appended(old(history), domains[..i], now)
      {
        failed := failed[domains[i] := now];
        expiry := expiry[domains[i] := expireAt];
        history := history[domains[i] := now];
        assert domains[..i + 1][..i] == domains[..i];
      }
      assert domains[..|domains|] == domains;
    }

    method ClearAll()
      requires Valid()
      modifies this
      ensures Valid() && history == map[]
    {
      failed, expiry, history := map[], map[], map[];
    }

    method IsFailedRecently(domain: string, now: nat) returns (recent: bool)
      requires Valid()
      ensures recent <==> Recent(history, ttl, domain, now)
    {
      if domain !in expiry || expiry[domain] < now {
        return false;
      }
      recent := domain in failed;
    }

    method CountActiveFailures(now: nat) returns (n: nat)
      requires Valid()
      ensures n == |ActiveDomains(history, ttl, now)|
    {
      var rows := expiry.Keys;
      n := 0;
      ghost var seen: set<string> := {};
      while rows != {}
        invariant rows <= expiry.Keys && seen == expiry.Keys - rows
        invariant n == |set d | d in seen && expiry[d] >= now|
        decreases |rows|
      {
        var d :| d in rows;
        ghost var before := set x | x in seen && expiry[x] >= now;
        if expiry[d] >= now {
          n := n + 1;
          assert (set x | x in seen + {d} && expiry[x] >= now) == before + {d};
        } else {
          assert (set x | x in seen + {d} && expiry[x] >= now) == before;
        }
        rows, seen := rows - {d}, seen + {d};
      }
      assert (set d | d in seen && expiry[d] >= now) == ActiveDomains(history, ttl, now);
    }
  }

  function Appended(history: map<string, nat>, domains: seq<string>, now: nat): map<string, nat> {
    if domains == [] then history
    else Appended(history, domains[..|domains| - 1], now)[domains[|domains| - 1] := now]
  }

  /** The last failure of `domain` is at most `ttl` old. */
  ghost predicate Recent(history: map<string, nat>, ttl: nat, domain: string, now: nat) {
    domain in history && now <= history[domain] + ttl
  }

  ghost function ActiveDomains(history: map<string, nat>, ttl: nat, now: nat): set<string> {
    set d | d in history && Recent(history, ttl, d, now)
  }

  // ---------------------------------------------------------------------------------------------
  // Runs

  datatype Event = Append(domains: seq<string>, at: nat) | Clear

  function After(events: seq<Event>): map<string, nat> {
    if events == [] then map[]
    else
      var n := |events| - 1;
      match events[n]
      case Append(domains, at) => Appended(After(events[..n]), domains, at)
      case Clear => map[]
  }

  /** `at` is the time of the last append of `domain` since the last clear. */
  ghost predicate LastAppend(events: seq<Event>, domain: string, i: nat) {
    && i < |events| && events[i].Append? && domain in events[i].domains
    && forall j | i < j < |events| :: events[j].Append? && domain !in events[j].domains
  }

  lemma {:induction false} AppendedMeaning(history: map<string, nat>, domains: seq<string>, now: nat, domain: string)
    ensures var h := Appended(history, domains, now);
            && (domain in domains ==> domain in h && h[domain] == now)
            && (domain !in domains ==> (domain in h <==> domain in history))
            && (domain !in domains && domain in history ==> h[domain] == history[domain])
  {
    if domains != [] {
      var n := |domains| - 1;
      AppendedMeaning(history, domains[..n], now, domain);
      assert domains == domains[..n] + [domains[n]];
    }
  }

  /** After any run of appends and clears, the store's history holds a domain exactly when it was
      appended since the last clear, with the time of its last append. */
  lemma {:induction false} HistoryIsLastAppend(events: seq<Event>, domain: string)
    ensures domain in After(events) <==> exists i: nat :: LastAppend(events, domain, i)
    ensures forall i: nat | LastAppend(events, domain, i) :: domain in After(events) && After(events)[domain] == events[i].at
  {
    if events != [] {
      var n := |events| - 1;
      HistoryIsLastAppend(events[..n], domain);
      if events[n].Append? {
        AppendedMeaning(After(events[..n]), events[n].domains, events[n].at, domain);
        if domain in events[n].domains {
          assert LastAppend(events, domain, n);
        } else {
          forall i: nat ensures LastAppend(events, domain, i) <==> LastAppend(events[..n], domain, i) {
            if LastAppend(events[..n], domain, i) {
              assert forall j | i < j < n :: events[j] == events[..n][j];
            }
          }
        }
      }
    }
  }

  /** A domain is skipped exactly when its last append since the last clear is at most `ttl` old. */
  lemma RecentMeansLastAppendWithinTtl(events: seq<Event>, ttl: nat, domain: string, now: nat)
    ensures Recent(After(events), ttl, domain, now) <==>
            exists i: nat :: LastAppend(events, domain, i) && now <= events[i].at + ttl
  {
    HistoryIsLastAppend(events, domain);
  }
}
