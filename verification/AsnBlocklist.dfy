/** The runtime ASN blocklist of sni_probe, shared by racing probe workers: once enough probes under
    one autonomous system have failed, the whole system is skipped. */
module AsnBlocklist {
  import opened Counting

  datatype List = List(blocked: set<nat>, counts: map<nat, nat>)

  function FailureCount(l: List, asn: nat): nat { if asn in l.counts then l.counts[asn] else 0 }

  /** One failure under `asn`; the flag says whether this very failure blocked it. */
  function Recorded(l: List, threshold: nat, asn: nat): (List, bool) {
    if asn in l.blocked then (l, false)
    else
      var counted := l.(counts := l.counts[asn := FailureCount(l, asn) + 1]);
      if FailureCount(l, asn) + 1 >= threshold then (counted.(blocked := l.blocked + {asn}), true) else (counted, false)
  }

  class Blocklist {
    var blocked: set<nat>
    var counts: map<nat, nat>
    const threshold: nat

    function View(): List
      reads this
    {
      List(blocked, counts)
    }

    constructor (known: set<nat>, threshold: nat)
      ensures View() == List(known, map[]) && this.threshold == threshold
    {
      blocked, counts := known, map[];
      this.threshold := threshold;
    }

    method RecordFailure(asn: nat) returns (announced: bool)
      modifies this
      ensures View() == Recorded(old(View()), threshold, asn).0
      ensures announced == Recorded(old(View()), threshold, asn).1
    {
      if asn in blocked {
        return false;
      }
      var c := if asn in counts then counts[asn] else 0;
      c := c + 1;
      counts := counts[asn := c];
      if c >= threshold {
        blocked := blocked + {asn};
        return true;
      }
      return false;
    }
  }

  // ---------------------------------------------------------------------------------------------
  // Racing workers

  /** What the worker in one permit slot is doing: it has an entry whose address lies in `asn`, it
      has found `asn` unblocked and is probing, or its probe has failed and is not yet recorded. */
  datatype Slot = Idle | Started(asn: nat) | Probing(asn: nat) | Failing(asn: nat)

  datatype Config = Config(workers: nat, threshold: nat, known: set<nat>)

  /** The counters watch one autonomous system: its failed probes, its recorded failures, and how
      many of those records announced the block. */
  datatype State = State(list: List, slots: seq<Slot>, failed: nat, recorded: nat, announced: nat)

  datatype Action =
    | Start(k: nat, asn: nat)
    | Check(k: nat)
    | Succeed(k: nat)
    | Fail(k: nat)
    | Record(k: nat)

  function Init(c: Config): State {
    State(List(c.known, map[]), seq(c.workers, _ => Idle), 0, 0, 0)
  }

  predicate Enabled(s: State, a: Action) {
    && a.k < |s.slots|
    && match a
       case Start(k, _) => s.slots[k].Idle?
       case Check(k) => s.slots[k].Started?
       case Succeed(k) => s.slots[k].Probing?
       case Fail(k) => s.slots[k].Probing?
       case Record(k) => s.slots[k].Failing?
  }

  function Apply(c: Config, watched: nat, s: State, a: Action): State
    requires Enabled(s, a)
  {
    match a
    case Start(k, asn) => s.(slots := s.slots[k := Started(asn)])
    case Check(k) =>
      var asn := s.slots[k].asn;
      s.(slots := s.slots[k := if asn in s.list.blocked then Idle else Probing(asn)])
    case Succeed(k) => s.(slots := s.slots[k := Idle])
    case Fail(k) =>
      var asn := s.slots[k].asn;
      s.(slots := s.slots[k := Failing(asn)], failed := s.failed + if asn == watched then 1 else 0)
    case Record(k) =>
      var asn := s.slots[k].asn;
      var (list, announced) := Recorded(s.list, c.threshold, asn);
      s.(slots := s.slots[k := Idle], list := list,
         recorded := s.recorded + (if asn == watched then 1 else 0),
         announced := s.announced + if asn == watched && announced then 1 else 0)
  }

  datatype Outcome = Impossible | At(state: State)

  /** The state after any interleaving of the workers' steps. */
  function After(c: Config, watched: nat, schedule: seq<Action>): Outcome {
    if schedule == [] then At(Init(c))
    else
      var n := |schedule| - 1;
      match After(c, watched, schedule[..n])
      case Impossible => Impossible
      case At(s) => if Enabled(s, schedule[n]) then At(Apply(c, watched, s, schedule[n])) else Impossible
  }

  /** The failure that blocks: a threshold of 0 still takes one failure to notice. */
  function Trigger(c: Config): nat { if c.threshold == 0 then 1 else c.threshold }

  ghost predicate Invariant(c: Config, watched: nat, s: State) {
    && |s.slots| == c.workers
    && s.failed == s.recorded + Count(s.slots, Failing(watched))
    && (c.workers > 0 ==> s.failed + Count(s.slots, Probing(watched)) <= Trigger(c) + c.workers - 1)
    && (if watched in s.list.blocked then s.recorded >= Trigger(c) && s.announced == 1
        else s.recorded == FailureCount(s.list, watched) < Trigger(c) && s.announced == 0)
  }

  lemma InvariantKept(c: Config, watched: nat, s: State, a: Action)
    requires Invariant(c, watched, s) && Enabled(s, a)
    ensures Invariant(c, watched, Apply(c, watched, s, a))
  {
    var to := Apply(c, watched, s, a).slots[a.k];
    CountUpdate(s.slots, a.k, to, Probing(watched));
    CountUpdate(s.slots, a.k, to, Failing(watched));
    CountTwo(Apply(c, watched, s, a).slots, Probing(watched), Failing(watched));
  }

  lemma {:induction false} InvariantAlways(c: Config, watched: nat, schedule: seq<Action>)
    requires watched !in c.known && After(c, watched, schedule).At?
    ensures Invariant(c, watched, After(c, watched, schedule).state)
  {
    if schedule == [] {
      CountAbsent(Init(c).slots, Probing(watched));
      CountAbsent(Init(c).slots, Failing(watched));
    } else {
      var n := |schedule| - 1;
      InvariantAlways(c, watched, schedule[..n]);
      InvariantKept(c, watched, After(c, watched, schedule[..n]).state, schedule[n]);
    }
  }

  /** On every interleaving at most threshold + workers - 1 probes under an initially unblocked
      system ever fail, and exactly one `record_failure` announces the block once the threshold is
      reached, none before. */
  lemma FailuresBounded(c: Config, watched: nat, schedule: seq<Action>)
    requires watched !in c.known && c.workers >= 1 && After(c, watched, schedule).At?
    ensures var s := After(c, watched, schedule).state;
            && s.failed <= Trigger(c) + c.workers - 1
            && s.announced == (if s.recorded >= Trigger(c) then 1 else 0)
            && (watched in s.list.blocked <==> s.recorded >= Trigger(c))
  {
    InvariantAlways(c, watched, schedule);
  }

  /** A blocked system stays blocked, and no worker starts probing under it any more. */
  lemma BlockedForGood(c: Config, watched: nat, s: State, a: Action)
    requires Enabled(s, a) && watched in s.list.blocked
    ensures var s' := Apply(c, watched, s, a);
            && watched in s'.list.blocked && |s'.slots| == |s.slots|
            && s'.announced == s.announced
            && forall k | 0 <= k < |s.slots| :: s'.slots[k] == Probing(watched) ==> s.slots[k] == Probing(watched)
  {
  }

  /** Under a system that is on the list from the start, nothing is ever probed, so nothing fails and
      no block is announced. */
  lemma {:induction false} KnownNeverProbed(c: Config, watched: nat, schedule: seq<Action>)
    requires watched in c.known && After(c, watched, schedule).At?
    ensures var s := After(c, watched, schedule).state;
            && watched in s.list.blocked
            && Probing(watched) !in s.slots && Failing(watched) !in s.slots
            && s.failed == 0 && s.recorded == 0 && s.announced == 0
  {
    if schedule != [] {
      var n := |schedule| - 1;
      KnownNeverProbed(c, watched, schedule[..n]);
      var s := After(c, watched, schedule[..n]).state;
      BlockedForGood(c, watched, s, schedule[n]);
      NothingFails(c, watched, s, schedule[n]);
    }
  }

  lemma NothingFails(c: Config, watched: nat, s: State, a: Action)
    requires Enabled(s, a) && watched in s.list.blocked && Probing(watched) !in s.slots && Failing(watched) !in s.slots
    ensures var s' := Apply(c, watched, s, a);
            && Probing(watched) !in s'.slots && Failing(watched) !in s'.slots
            && s'.failed == s.failed && s'.recorded == s.recorded
  {
  }

  // ---------------------------------------------------------------------------------------------
  // The bound is reached

  lemma Extend(c: Config, watched: nat, schedule: seq<Action>, a: Action)
    requires After(c, watched, schedule).At? && Enabled(After(c, watched, schedule).state, a)
    ensures After(c, watched, schedule + [a]) == At(Apply(c, watched, After(c, watched, schedule).state, a))
  {
    assert (schedule + [a])[..|schedule|] == schedule;
  }

  /** One worker starts, passes the check and fails its probe. */
  lemma FailOnce(c: Config, watched: nat, schedule: seq<Action>, k: nat) returns (longer: seq<Action>)
    requires After(c, watched, schedule).At?
    requires var s := After(c, watched, schedule).state; k < |s.slots| && s.slots[k].Idle? && watched !in s.list.blocked
    ensures var s := After(c, watched, schedule).state;
            After(c, watched, longer) == At(s.(slots := s.slots[k := Failing(watched)], failed := s.failed + 1))
  {
    var s := After(c, watched, schedule).state;
    Extend(c, watched, schedule, Start(k, watched));
    Extend(c, watched, schedule + [Start(k, watched)], Check(k));
    Extend(c, watched, schedule + [Start(k, watched)] + [Check(k)], Fail(k));
    longer := schedule + [Start(k, watched)] + [Check(k)] + [Fail(k)];
    assert s.slots[k := Started(watched)][k := Probing(watched)][k := Failing(watched)] == s.slots[k := Failing(watched)];
  }

  lemma {:induction false} FailOneByOne(c: Config, watched: nat, j: nat) returns (schedule: seq<Action>)
    requires watched !in c.known && c.workers >= 1 && j < Trigger(c)
    ensures After(c, watched, schedule).At?
    ensures var s := After(c, watched, schedule).state;
            s.slots == Init(c).slots && s.failed == s.recorded == j && watched !in s.list.blocked
  {
    if j == 0 {
      schedule := [];
    } else {
      var shorter := FailOneByOne(c, watched, j - 1);
      var s := After(c, watched, shorter).state;
      InvariantAlways(c, watched, shorter);
      var failing := FailOnce(c, watched, shorter, 0);
      Extend(c, watched, failing, Record(0));
      schedule := failing + [Record(0)];
      assert s.slots[0 := Failing(watched)][0 := Idle] == s.slots;
    }
  }

  lemma {:induction false} FailTogether(c: Config, watched: nat, k: nat) returns (schedule: seq<Action>)
    requires watched !in c.known && 1 <= c.workers && k <= c.workers
    ensures After(c, watched, schedule).At?
    ensures var s := After(c, watched, schedule).state;
            && |s.slots| == c.workers && (forall i | k <= i < c.workers :: s.slots[i] == Idle)
            && s.failed == Trigger(c) - 1 + k && watched !in s.list.blocked
  {
    if k == 0 {
      schedule := FailOneByOne(c, watched, Trigger(c) - 1);
    } else {
      var fewer := FailTogether(c, watched, k - 1);
      schedule := FailOnce(c, watched, fewer, k - 1);
    }
  }

  /** Some interleaving reaches the bound, so with a threshold of 0 it is `workers`, not
      `workers - 1`. */
  lemma FailuresBoundReached(c: Config, watched: nat) returns (schedule: seq<Action>)
    requires watched !in c.known && c.workers >= 1
    ensures After(c, watched, schedule).At? && After(c, watched, schedule).state.failed == Trigger(c) + c.workers - 1
  {
    schedule := FailTogether(c, watched, c.workers);
  }
}
