/** The bounded worker pipelines of sni_probe: a dispatcher takes semaphore permits and spawns one
    worker per entry, workers hand accepted entries to a bounded channel while still holding their
    permit, and a drainer collects what the channel delivers.

    A schedule is any interleaving of the atomic steps below. What a probe will find out about an
    entry is fixed in advance by an arbitrary `Job`, so every result holds for all verdicts. */
module Pipeline {
  import opened Counting

  /** One input entry together with the verdict its worker will reach. Entries without an address
      are counted as dropped by the dispatcher itself and never get a worker. */
  datatype Job = NoAddress | Rejected | Accepted

  /** Where the worker of an entry is. `Finishing` has sent or given up but still holds its permit. */
  datatype Status = Pending | Probing | Sending | Finishing | Gone

  /** `Concurrent` drains while it dispatches; `DispatchThenDrain` receives nothing before the last
      entry has been handed to a worker. */
  datatype Shape = Concurrent | DispatchThenDrain

  datatype Config = Config(workers: nat, shape: Shape, jobs: seq<Job>)

  /** Entries are named by their input position. The channel is a log: `sent` holds every message in
      the order it was sent, and the drainer has taken the first `received` of them. */
  datatype State = State(
    next: nat,
    permits: nat,
    status: seq<Status>,
    sent: seq<nat>,
    received: nat,
    kept: nat,
    dropped: nat,
    dispatched: bool,
    finished: bool)
  {
    function Queued(): nat { if received <= |sent| then |sent| - received else 0 }

    /** What the drainer has collected so far. */
    function Collected(): seq<nat> { if received <= |sent| then sent[..received] else sent }
  }

  datatype Action =
    | Dispatch          // the dispatcher takes the next entry, waiting for a permit if it needs one
    | CloseSender       // the dispatcher drops its own sender
    | Judge(i: nat)     // a probe ends and its counter is incremented
    | Send(i: nat)      // a worker's send finds room in the channel
    | Release(i: nat)   // a worker drops its permit and its sender
    | Receive           // the drainer takes one message
    | Finish            // the drainer sees the closed, empty channel

  function Capacity(c: Config): nat { 2 * c.workers }

  function Init(c: Config): State {
    State(0, c.workers, seq(|c.jobs|, _ => Pending), [], 0, 0, 0, false, false)
  }

  predicate Enabled(c: Config, s: State, a: Action) {
    && |s.status| == |c.jobs|
    && match a
       case Dispatch => s.next < |c.jobs| && (c.jobs[s.next].NoAddress? || s.permits > 0)
       case CloseSender => s.next == |c.jobs| && !s.dispatched
       case Judge(i) => i < |s.status| && s.status[i] == Probing
       case Send(i) => i < |s.status| && s.status[i] == Sending && s.Queued() < Capacity(c)
       case Release(i) => i < |s.status| && s.status[i] == Finishing
       case Receive => s.Queued() > 0 && (c.shape.Concurrent? || s.dispatched)
       case Finish => s.Queued() == 0 && s.dispatched && !s.finished && AllGone(s.status)
  }

  predicate AllGone(status: seq<Status>) {
    forall i | 0 <= i < |status| :: status[i] == Gone
  }

  function Apply(c: Config, s: State, a: Action): State
    requires Enabled(c, s, a)
  {
    match a
    case Dispatch =>
      if c.jobs[s.next].NoAddress? then
        s.(next := s.next + 1, status := s.status[s.next := Gone], dropped := s.dropped + 1)
      else
        s.(next := s.next + 1, permits := s.permits - 1, status := s.status[s.next := Probing])
    case CloseSender => s.(dispatched := true)
    case Judge(i) =>
      if c.jobs[i].Accepted? then s.(status := s.status[i := Sending], kept := s.kept + 1)
      else s.(status := s.status[i := Finishing], dropped := s.dropped + 1)
    case Send(i) => s.(status := s.status[i := Finishing], sent := s.sent + [i])
    case Release(i) => s.(status := s.status[i := Gone], permits := s.permits + 1)
    case Receive => s.(received := s.received + 1)
    case Finish => s.(finished := true)
  }

  /** The state after a schedule, or `None` if some step of it is not enabled when its turn comes. */
  datatype Outcome = Impossible | At(state: State)

  function After(c: Config, schedule: seq<Action>): Outcome {
    if schedule == [] then At(Init(c))
    else
      var n := |schedule| - 1;
      match After(c, schedule[..n])
      case Impossible => Impossible
      case At(s) => if Enabled(c, s, schedule[n]) then At(Apply(c, s, schedule[n])) else Impossible
  }

  /** No step is enabled: the schedule cannot go on. */
  ghost predicate Stuck(c: Config, s: State) {
    forall a :: !Enabled(c, s, a)
  }

  // ---------------------------------------------------------------------------------------------
  // Counting

  ghost function InFlight(status: seq<Status>): nat {
    Count(status, Probing) + Count(status, Sending) + Count(status, Finishing)
  }

  /** How many accepted entries are still being probed. */
  ghost function Promising(jobs: seq<Job>, status: seq<Status>): nat
    requires |jobs| == |status|
  {
    if jobs == [] then 0
    else
      var n := |jobs| - 1;
      Promising(jobs[..n], status[..n]) + One(jobs[n].Accepted? && status[n] == Probing)
  }

  lemma {:induction false} PromisingUpdate(jobs: seq<Job>, status: seq<Status>, i: nat, to: Status)
    requires |jobs| == |status| && i < |jobs|
    ensures Promising(jobs, status[i := to]) ==
            Promising(jobs, status) - One(jobs[i].Accepted? && status[i] == Probing) + One(jobs[i].Accepted? && to == Probing)
  {
    var n := |jobs| - 1;
    if i == n {
      assert status[i := to][..n] == status[..n];
    } else {
      assert status[i := to][..n] == status[..n][i := to];
      PromisingUpdate(jobs[..n], status[..n], i, to);
    }
  }

  lemma {:induction false} PromisingBound(jobs: seq<Job>, status: seq<Status>)
    requires |jobs| == |status|
    ensures Promising(jobs, status) <= Count(status, Probing)
  {
    if jobs != [] { PromisingBound(jobs[..|jobs| - 1], status[..|jobs| - 1]); }
  }

  // ---------------------------------------------------------------------------------------------
  // What the verdicts determine

  /** How many of the first `k` entries are accepted. */
  function AcceptedBelow(jobs: seq<Job>, k: nat): nat
    requires k <= |jobs|
  {
    if k == 0 then 0 else AcceptedBelow(jobs, k - 1) + if jobs[k - 1].Accepted? then 1 else 0
  }

  lemma {:induction false} AcceptedBelowGrows(jobs: seq<Job>, j: nat, k: nat)
    requires j <= k <= |jobs|
    ensures AcceptedBelow(jobs, j) <= AcceptedBelow(jobs, k) <= AcceptedBelow(jobs, j) + (k - j)
  {
    if j < k { AcceptedBelowGrows(jobs, j, k - 1); }
  }

  /** The index of the last entry that needs a worker, or -1. */
  function LastDispatched(jobs: seq<Job>): (last: int)
    ensures -1 <= last < |jobs|
    ensures last >= 0 ==> !jobs[last].NoAddress?
    ensures forall i | last < i < |jobs| :: jobs[i].NoAddress?
  {
    if jobs == [] then -1
    else if !jobs[|jobs| - 1].NoAddress? then |jobs| - 1
    else LastDispatched(jobs[..|jobs| - 1])
  }

  /** How many accepted entries are dispatched before the last dispatched one. */
  function AcceptedBeforeLast(jobs: seq<Job>): nat {
    var last := LastDispatched(jobs);
    if last < 0 then 0 else AcceptedBelow(jobs, last)
  }

  // ---------------------------------------------------------------------------------------------
  // The invariant

  /** Every entry is at a stage its verdict allows. */
  ghost predicate StagesAgree(c: Config, s: State) {
    && |s.status| == |c.jobs|
    && s.next <= |c.jobs|
    && (forall i | 0 <= i < |s.status| :: s.status[i] == Pending <==> s.next <= i)
    && (forall i | 0 <= i < |s.status| :: s.status[i] == Sending ==> c.jobs[i].Accepted?)
  }

  ghost predicate Delivered(c: Config, s: State, i: nat)
    requires |s.status| == |c.jobs| && i < |c.jobs|
  {
    c.jobs[i].Accepted? && (s.status[i] == Finishing || s.status[i] == Gone)
  }

  /** The channel's log names each delivered entry exactly once. */
  ghost predicate LogAgrees(c: Config, s: State)
    requires |s.status| == |c.jobs|
  {
    && s.received <= |s.sent|
    && (forall k | 0 <= k < |s.sent| :: s.sent[k] < |c.jobs| && Delivered(c, s, s.sent[k]))
    && (forall j, k | 0 <= j < k < |s.sent| :: s.sent[j] != s.sent[k])
    && (forall i | 0 <= i < |c.jobs| && Delivered(c, s, i) :: i in s.sent)
  }

  /** Permits, channel bound and the two shared counters, against the stages of the workers. */
  ghost predicate CountsAgree(c: Config, s: State)
    requires |s.status| == |c.jobs| && s.next <= |c.jobs|
  {
    && s.permits + InFlight(s.status) == c.workers
    && s.Queued() <= Capacity(c)
    && s.kept == Count(s.status, Sending) + |s.sent|
    && s.kept + s.dropped + Count(s.status, Probing) == s.next
    && AcceptedBelow(c.jobs, s.next) == s.kept + Promising(c.jobs, s.status)
  }

  /** The order of closing and draining, and what it implies for the shape that drains last. */
  ghost predicate OrderAgrees(c: Config, s: State) {
    && (s.dispatched ==> s.next == |c.jobs|)
    && (s.finished ==> s.dispatched && s.Queued() == 0 && AllGone(s.status))
    && (c.shape.DispatchThenDrain? && !s.dispatched ==> s.received == 0)
    && (c.shape.DispatchThenDrain? && 0 <= LastDispatched(c.jobs) < s.next ==>
          AcceptedBeforeLast(c.jobs) < 3 * c.workers)
  }

  /** What every step of every schedule keeps. */
  ghost predicate Invariant(c: Config, s: State) {
    StagesAgree(c, s) && LogAgrees(c, s) && CountsAgree(c, s) && OrderAgrees(c, s)
  }

  lemma InvariantHoldsInitially(c: Config)
    ensures Invariant(c, Init(c))
  {
    var s := Init(c);
    CountAbsent(s.status, Probing);
    CountAbsent(s.status, Sending);
    CountAbsent(s.status, Finishing);
    PromisingBound(c.jobs, s.status);
  }

  lemma StagesKept(c: Config, s: State, a: Action)
    requires StagesAgree(c, s) && Enabled(c, s, a)
    ensures StagesAgree(c, Apply(c, s, a))
  {
  }

  lemma LogFramed(c: Config, s: State, s': State)
    requires |s.status| == |s'.status| == |c.jobs| && LogAgrees(c, s)
    requires s'.sent == s.sent && s'.received <= |s.sent|
    requires forall i | 0 <= i < |c.jobs| :: Delivered(c, s', i) <==> Delivered(c, s, i)
    ensures LogAgrees(c, s')
  {
  }

  lemma LogExtended(c: Config, s: State, i: nat)
    requires StagesAgree(c, s) && LogAgrees(c, s) && Enabled(c, s, Send(i))
    ensures LogAgrees(c, Apply(c, s, Send(i)))
  {
    var s' := Apply(c, s, Send(i));
    assert i !in s.sent;
    assert forall k | 0 <= k < |s.sent| :: s'.sent[k] == s.sent[k];
    assert s'.sent[|s.sent|] == i;
  }

  lemma LogKept(c: Config, s: State, a: Action)
    requires StagesAgree(c, s) && LogAgrees(c, s) && Enabled(c, s, a)
    ensures |Apply(c, s, a).status| == |c.jobs| && LogAgrees(c, Apply(c, s, a))
  {
    if a.Send? { LogExtended(c, s, a.i); } else { LogFramed(c, s, Apply(c, s, a)); }
  }

  lemma CountsUpdate(s: State, jobs: seq<Job>, i: nat, to: Status)
    requires |s.status| == |jobs| && i < |jobs|
    ensures forall x | x == Probing || x == Sending || x == Finishing ::
              Count(s.status[i := to], x) == Count(s.status, x) - One(s.status[i] == x) + One(to == x)
    ensures Promising(jobs, s.status[i := to]) ==
            Promising(jobs, s.status) - One(jobs[i].Accepted? && s.status[i] == Probing) + One(jobs[i].Accepted? && to == Probing)
  {
    CountUpdate(s.status, i, to, Probing);
    CountUpdate(s.status, i, to, Sending);
    CountUpdate(s.status, i, to, Finishing);
    PromisingUpdate(jobs, s.status, i, to);
  }

  /** What is needed of a state for the counters to follow one change of stage. */
  ghost predicate Countable(c: Config, s: State) {
    StagesAgree(c, s) && CountsAgree(c, s) && s.received <= |s.sent|
  }

  lemma DispatchKeepsCounts(c: Config, s: State)
    requires Countable(c, s) && Enabled(c, s, Dispatch)
    ensures CountsAgree(c, Apply(c, s, Dispatch))
  {
    if c.jobs[s.next].NoAddress? { DropKeepsCounts(c, s); } else { SpawnKeepsCounts(c, s); }
  }

  lemma DropKeepsCounts(c: Config, s: State)
    requires Countable(c, s) && Enabled(c, s, Dispatch) && c.jobs[s.next].NoAddress?
    ensures CountsAgree(c, Apply(c, s, Dispatch))
  {
    CountsUpdate(s, c.jobs, s.next, Gone);
  }

  lemma SpawnKeepsCounts(c: Config, s: State)
    requires Countable(c, s) && Enabled(c, s, Dispatch) && !c.jobs[s.next].NoAddress?
    ensures CountsAgree(c, Apply(c, s, Dispatch))
  {
    CountsUpdate(s, c.jobs, s.next, Probing);
  }

  lemma JudgeKeepsCounts(c: Config, s: State, i: nat)
    requires Countable(c, s) && Enabled(c, s, Judge(i))
    ensures CountsAgree(c, Apply(c, s, Judge(i)))
  {
    CountsUpdate(s, c.jobs, i, Apply(c, s, Judge(i)).status[i]);
  }

  lemma SendKeepsCounts(c: Config, s: State, i: nat)
    requires Countable(c, s) && Enabled(c, s, Send(i))
    ensures CountsAgree(c, Apply(c, s, Send(i)))
  {
    CountsUpdate(s, c.jobs, i, Finishing);
  }

  lemma ReleaseKeepsCounts(c: Config, s: State, i: nat)
    requires Countable(c, s) && Enabled(c, s, Release(i))
    ensures CountsAgree(c, Apply(c, s, Release(i)))
  {
    CountsUpdate(s, c.jobs, i, Gone);
  }

  lemma CountsKept(c: Config, s: State, a: Action)
    requires Countable(c, s) && Enabled(c, s, a)
    ensures |Apply(c, s, a).status| == |c.jobs| && Apply(c, s, a).next <= |c.jobs|
    ensures CountsAgree(c, Apply(c, s, a))
  {
    StagesKept(c, s, a);
    if a.Dispatch? {
      DispatchKeepsCounts(c, s);
    } else if a.Judge? {
      JudgeKeepsCounts(c, s, a.i);
    } else if a.Send? {
      SendKeepsCounts(c, s, a.i);
    } else if a.Release? {
      ReleaseKeepsCounts(c, s, a.i);
    } else {
      OthersKeepCounts(c, s, a);
    }
  }

  lemma OthersKeepCounts(c: Config, s: State, a: Action)
    requires Countable(c, s) && Enabled(c, s, a) && (a.CloseSender? || a.Receive? || a.Finish?)
    ensures CountsAgree(c, Apply(c, s, a))
  {
    assert Apply(c, s, a).status == s.status;
  }

  /** A permit for the last entry is only free while fewer than 3 * workers accepted entries are
      parked in the channel or on its senders. */
  lemma OrderKept(c: Config, s: State, a: Action)
    requires StagesAgree(c, s) && CountsAgree(c, s) && OrderAgrees(c, s) && s.received <= |s.sent| && Enabled(c, s, a)
    ensures OrderAgrees(c, Apply(c, s, a))
  {
    PromisingBound(c.jobs, s.status);
  }

  lemma InvariantKept(c: Config, s: State, a: Action)
    requires Invariant(c, s) && Enabled(c, s, a)
    ensures Invariant(c, Apply(c, s, a))
  {
    StagesKept(c, s, a);
    LogKept(c, s, a);
    CountsKept(c, s, a);
    OrderKept(c, s, a);
  }

  lemma {:induction false} InvariantAlways(c: Config, schedule: seq<Action>)
    requires After(c, schedule).At?
    ensures Invariant(c, After(c, schedule).state)
  {
    if schedule == [] {
      InvariantHoldsInitially(c);
    } else {
      var n := |schedule| - 1;
      InvariantAlways(c, schedule[..n]);
      InvariantKept(c, After(c, schedule[..n]).state, schedule[n]);
    }
  }

  // ---------------------------------------------------------------------------------------------
  // Conservation

  /** The positions of the accepted entries, in input order. */
  function AcceptedPositions(jobs: seq<Job>): seq<nat> {
    if jobs == [] then []
    else AcceptedPositions(jobs[..|jobs| - 1]) + if jobs[|jobs| - 1].Accepted? then [|jobs| - 1] else []
  }

  lemma {:induction false} AcceptedPositionsMeaning(jobs: seq<Job>)
    ensures var r := AcceptedPositions(jobs);
            && (forall i :: i in r <==> 0 <= i < |jobs| && jobs[i].Accepted?)
            && (forall j, k | 0 <= j < k < |r| :: r[j] < r[k])
  {
    if jobs != [] {
      var n := |jobs| - 1;
      AcceptedPositionsMeaning(jobs[..n]);
      var before := AcceptedPositions(jobs[..n]);
      assert forall k | 0 <= k < |before| :: before[k] in before;
      if jobs[n].Accepted? {
        assert AcceptedPositions(jobs) == before + [n];
        assert forall i :: i in before + [n] <==> i in before || i == n;
        assert forall j, k | 0 <= j < k < |before + [n]| :: (before + [n])[j] < (before + [n])[k];
      } else {
        assert AcceptedPositions(jobs) == before;
      }
    }
  }

  lemma {:induction false} DistinctMultiplicity(s: seq<nat>, x: nat)
    requires forall j, k | 0 <= j < k < |s| :: s[j] != s[k]
    ensures multiset(s)[x] == if x in s then 1 else 0
  {
    if s != [] {
      var n := |s| - 1;
      assert s == s[..n] + [s[n]];
      DistinctMultiplicity(s[..n], x);
    }
  }

  /** Two lists without repetition over the same elements are permutations of each other. */
  lemma SameElementsSameBag(s: seq<nat>, t: seq<nat>)
    requires forall j, k | 0 <= j < k < |s| :: s[j] != s[k]
    requires forall j, k | 0 <= j < k < |t| :: t[j] != t[k]
    requires forall x :: x in s <==> x in t
    ensures multiset(s) == multiset(t)
  {
    forall x ensures multiset(s)[x] == multiset(t)[x] {
      DistinctMultiplicity(s, x);
      DistinctMultiplicity(t, x);
    }
  }

  /** On every schedule that completes, the collected list is a permutation of exactly the accepted
      entries, every entry is counted once as kept or dropped, and every permit is back. */
  lemma CompletionDeliversAccepted(c: Config, schedule: seq<Action>)
    requires After(c, schedule).At? && After(c, schedule).state.finished
    ensures var s := After(c, schedule).state;
            && multiset(s.Collected()) == multiset(AcceptedPositions(c.jobs))
            && s.kept == |AcceptedPositions(c.jobs)|
            && s.kept + s.dropped == |c.jobs|
            && s.permits == c.workers
  {
    InvariantAlways(c, schedule);
    var s := After(c, schedule).state;
    CountAbsent(s.status, Probing);
    CountAbsent(s.status, Sending);
    CountAbsent(s.status, Finishing);
    var accepted := AcceptedPositions(c.jobs);
    AcceptedPositionsMeaning(c.jobs);
    assert s.Collected() == s.sent;
    forall i: nat ensures i in s.sent <==> i in accepted {
      if i in s.sent { assert Delivered(c, s, i); }
      if i in accepted { assert Delivered(c, s, i); }
    }
    SameElementsSameBag(s.sent, accepted);
    assert |multiset(s.sent)| == |multiset(accepted)|;
  }

  /** In every reachable state the permits and the workers holding one add up to `workers`, the
      channel holds at most 2 * workers messages, and no entry is lost or counted twice. */
  lemma BoundsAlways(c: Config, schedule: seq<Action>)
    requires After(c, schedule).At?
    ensures var s := After(c, schedule).state;
            && s.permits + Count(s.status, Probing) + Count(s.status, Sending) + Count(s.status, Finishing) == c.workers
            && s.received <= |s.sent| <= s.received + 2 * c.workers
            && s.kept + s.dropped + Count(s.status, Probing) == s.next <= |c.jobs|
            && s.kept == Count(s.status, Sending) + |s.sent|
  {
    InvariantAlways(c, schedule);
  }

  // ---------------------------------------------------------------------------------------------
  // Progress

  /** The steps an entry still has ahead of it, weighted so that a send pays for its receive. */
  ghost function Ahead(x: Status): nat {
    match x
    case Pending => 5
    case Probing => 4
    case Sending => 3
    case Finishing => 1
    case Gone => 0
  }

  ghost function TotalAhead(status: seq<Status>): nat {
    if status == [] then 0 else TotalAhead(status[..|status| - 1]) + Ahead(status[|status| - 1])
  }

  lemma {:induction false} TotalAheadUpdate(status: seq<Status>, i: nat, to: Status)
    requires i < |status|
    ensures TotalAhead(status[i := to]) == TotalAhead(status) - Ahead(status[i]) + Ahead(to)
  {
    var n := |status| - 1;
    if i == n {
      assert status[i := to][..n] == status[..n];
    } else {
      assert status[i := to][..n] == status[..n][i := to];
      TotalAheadUpdate(status[..n], i, to);
    }
  }

  lemma {:induction false} TotalAheadInitially(status: seq<Status>)
    requires forall i | 0 <= i < |status| :: status[i] == Pending
    ensures TotalAhead(status) == 5 * |status|
  {
    if status != [] { TotalAheadInitially(status[..|status| - 1]); }
  }

  /** Every step lowers this, whatever the shape. */
  ghost function Remaining(s: State): nat {
    TotalAhead(s.status) + s.Queued() + One(!s.dispatched) + One(!s.finished)
  }

  lemma StepsShrinkRemaining(c: Config, s: State, a: Action)
    requires StagesAgree(c, s) && s.received <= |s.sent| && Enabled(c, s, a)
    ensures Remaining(Apply(c, s, a)) < Remaining(s)
  {
    var s' := Apply(c, s, a);
    match a
    case Dispatch => TotalAheadUpdate(s.status, s.next, s'.status[s.next]);
    case Judge(i) => TotalAheadUpdate(s.status, i, s'.status[i]);
    case Send(i) => TotalAheadUpdate(s.status, i, Finishing);
    case Release(i) => TotalAheadUpdate(s.status, i, Gone);
    case _ =>
  }

  /** Every schedule is finite: at most five steps per entry and two more. */
  lemma {:induction false} SchedulesAreBounded(c: Config, schedule: seq<Action>)
    requires After(c, schedule).At?
    ensures |schedule| + Remaining(After(c, schedule).state) <= 5 * |c.jobs| + 2
  {
    if schedule == [] {
      TotalAheadInitially(Init(c).status);
    } else {
      var n := |schedule| - 1;
      SchedulesAreBounded(c, schedule[..n]);
      InvariantAlways(c, schedule[..n]);
      StepsShrinkRemaining(c, After(c, schedule[..n]).state, schedule[n]);
    }
  }

  /** The only way to be stuck unfinished: the drain-last shape, still dispatching an entry that
      needs a permit, all permits on workers blocked at a channel filled to 2 * workers. */
  ghost predicate Deadlocked(c: Config, s: State) {
    && c.shape.DispatchThenDrain?
    && s.next < |c.jobs| && !c.jobs[s.next].NoAddress?
    && s.permits == 0
    && Count(s.status, Sending) == c.workers
    && |s.sent| == 2 * c.workers && s.received == 0
  }

  lemma StuckIsFinishedOrDeadlocked(c: Config, s: State)
    requires c.workers >= 1 && Invariant(c, s) && Stuck(c, s)
    ensures s.finished || Deadlocked(c, s)
  {
    assert !Enabled(c, s, Dispatch) && !Enabled(c, s, CloseSender) && !Enabled(c, s, Receive) && !Enabled(c, s, Finish);
    forall i: nat | i < |s.status| ensures s.status[i] != Probing && s.status[i] != Finishing {
      assert !Enabled(c, s, Judge(i)) && !Enabled(c, s, Release(i));
    }
    CountAbsent(s.status, Probing);
    CountAbsent(s.status, Finishing);
    if Sending in s.status {
      var i: nat :| i < |s.status| && s.status[i] == Sending;
      assert !Enabled(c, s, Send(i));
      assert s.Queued() == 2 * c.workers;
    } else {
      CountAbsent(s.status, Sending);
    }
  }

  /** Draining while dispatching never gets stuck: a schedule that cannot go on has finished. */
  lemma ConcurrentNeverStuck(c: Config, schedule: seq<Action>)
    requires c.workers >= 1 && c.shape.Concurrent?
    requires After(c, schedule).At? && Stuck(c, After(c, schedule).state)
    ensures After(c, schedule).state.finished
  {
    InvariantAlways(c, schedule);
    StuckIsFinishedOrDeadlocked(c, After(c, schedule).state);
  }

  /** Every schedule of either shape can be carried on until no step is left. */
  lemma {:induction false} RunsUntilStuck(c: Config, schedule: seq<Action>) returns (full: seq<Action>)
    requires After(c, schedule).At?
    ensures schedule <= full && After(c, full).At? && Stuck(c, After(c, full).state)
    decreases Remaining(After(c, schedule).state)
  {
    var s := After(c, schedule).state;
    if Stuck(c, s) {
      full := schedule;
    } else {
      InvariantAlways(c, schedule);
      var a :| Enabled(c, s, a);
      assert (schedule + [a])[..|schedule|] == schedule;
      StepsShrinkRemaining(c, s, a);
      full := RunsUntilStuck(c, schedule + [a]);
    }
  }

  /** ... and with draining while dispatching that is completion. */
  lemma ConcurrentCompletes(c: Config, schedule: seq<Action>) returns (full: seq<Action>)
    requires c.workers >= 1 && c.shape.Concurrent? && After(c, schedule).At?
    ensures schedule <= full && After(c, full).At? && After(c, full).state.finished
  {
    full := RunsUntilStuck(c, schedule);
    ConcurrentNeverStuck(c, full);
  }

  /** Dispatching everything before draining completes on every schedule exactly when fewer than
      3 * workers accepted entries come before the last dispatched one; otherwise every schedule
      that runs as far as it can ends deadlocked. */
  lemma DispatchThenDrainOutcome(c: Config, schedule: seq<Action>)
    requires c.workers >= 1 && c.shape.DispatchThenDrain?
    requires After(c, schedule).At? && Stuck(c, After(c, schedule).state)
    ensures After(c, schedule).state.finished <==> AcceptedBeforeLast(c.jobs) < 3 * c.workers
    ensures !After(c, schedule).state.finished ==> Deadlocked(c, After(c, schedule).state)
  {
    InvariantAlways(c, schedule);
    var s := After(c, schedule).state;
    StuckIsFinishedOrDeadlocked(c, s);
    if !s.finished {
      AcceptedBelowGrows(c.jobs, s.next, LastDispatched(c.jobs));
    }
  }

  /** So the outcome is the same whatever schedule is followed to its end, and there always is one. */
  lemma DispatchThenDrainEnds(c: Config, schedule: seq<Action>) returns (full: seq<Action>)
    requires c.workers >= 1 && c.shape.DispatchThenDrain? && After(c, schedule).At?
    ensures schedule <= full && After(c, full).At?
    ensures if AcceptedBeforeLast(c.jobs) < 3 * c.workers then After(c, full).state.finished
            else Deadlocked(c, After(c, full).state) && Stuck(c, After(c, full).state)
  {
    full := RunsUntilStuck(c, schedule);
    DispatchThenDrainOutcome(c, full);
  }

  /** Up to 3 * workers entries are always safe to dispatch before draining, and with one more the
      input that is accepted throughout deadlocks, so no larger bound on the input is safe. */
  lemma SafeInputSizeForDispatchThenDrain(c: Config, schedule: seq<Action>)
    requires c.workers >= 1 && c.shape.DispatchThenDrain?
    requires After(c, schedule).At? && Stuck(c, After(c, schedule).state)
    ensures |c.jobs| <= 3 * c.workers ==> After(c, schedule).state.finished
    ensures |c.jobs| > 3 * c.workers && (forall i | 0 <= i < |c.jobs| :: c.jobs[i].Accepted?) ==>
              Deadlocked(c, After(c, schedule).state)
  {
    DispatchThenDrainOutcome(c, schedule);
    var last := LastDispatched(c.jobs);
    if last >= 0 {
      AcceptedBelowGrows(c.jobs, 0, last);
      if forall i | 0 <= i < |c.jobs| :: c.jobs[i].Accepted? {
        AllAcceptedBelow(c.jobs, last);
      }
    }
  }

  lemma {:induction false} AllAcceptedBelow(jobs: seq<Job>, k: nat)
    requires k <= |jobs| && forall i | 0 <= i < |jobs| :: jobs[i].Accepted?
    ensures AcceptedBelow(jobs, k) == k
  {
    if k > 0 { AllAcceptedBelow(jobs, k - 1); }
  }
}
