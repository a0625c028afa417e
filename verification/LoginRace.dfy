/** Login attempts that overlap: `process_auth_code` releases every mutex between looking at the locks
    and recording a failure, so several attempts can be past the check when one of them locks.

    Each action below is one critical section of one attempt. `now` is read when an attempt arrives. */
module LoginRace {
  import opened Wrappers
  import opened Counting
  import opened LoginGuard

  /** What the attempt in one slot has done so far. */
  datatype Slot =
    | Idle
    | Entering(user: int, now: nat)
    | OwnChecked(user: int, now: nat, clear: bool)
    | Cleared(user: int, now: nat)
    | Wrong(user: int, now: nat)
    | Counting(user: int, now: nat)
    | Charging(user: int, now: nat)

  /** At most `slots` attempts are in flight, all of them arriving between `from` and `to`; at `from`
      the bot's records are those of `guard`. */
  datatype Setting = Setting(policy: Policy, guard: Guard, slots: nat, from: nat, to: nat)

  /** The global window was reset at `from`, as start-up and every success do. */
  ghost predicate Reset(e: Setting) {
    e.guard.global.count == 0 && e.guard.global.until.None? && e.guard.global.firstFail == e.from
  }

  lemma SuccessResets(e: Setting, g: Guard, user: int)
    requires e.guard == Succeeded(g, user, e.from) || e.guard == Fresh(e.from)
    ensures Reset(e)
  {
  }

  datatype Race = Race(guard: Guard, slots: seq<Slot>, wrong: nat)

  datatype Action =
    | Arrive(k: nat, user: int, now: nat)
    | CheckOwn(k: nat)     // the identity's own lock
    | CheckGlobal(k: nat)  // the global lock; with either in force the attempt is refused
    | Evaluate(k: nat)     // the code is wrong
    | Recheck(k: nat)      // the global lock once more, before recording
    | CountGlobal(k: nat)  // the global record
    | Charge(k: nat)       // the identity's record

  function Start(e: Setting): Race {
    Race(e.guard, seq(e.slots, _ => Idle), 0)
  }

  predicate Enabled(e: Setting, s: Race, a: Action) {
    && a.k < |s.slots|
    && match a
       case Arrive(k, _, now) => s.slots[k].Idle? && e.from <= now <= e.to
       case CheckOwn(k) => s.slots[k].Entering?
       case CheckGlobal(k) => s.slots[k].OwnChecked?
       case Evaluate(k) => s.slots[k].Cleared?
       case Recheck(k) => s.slots[k].Wrong?
       case CountGlobal(k) => s.slots[k].Counting?
       case Charge(k) => s.slots[k].Charging?
  }

  function Own(g: Guard, user: int, now: nat): Option<nat> {
    if user in g.failed then Remaining(g.failed[user], now) else None
  }

  function OwnSwept(g: Guard, user: int, now: nat): Guard {
    g.(failed := if user in g.failed then g.failed[user := Expired(g.failed[user], now)] else g.failed)
  }

  function GlobalSwept(g: Guard, now: nat): Guard { g.(global := Expired(g.global, now)) }

  function Apply(e: Setting, s: Race, a: Action): Race
    requires Enabled(e, s, a)
  {
    var g, x := s.guard, s.slots[a.k];
    match a
    case Arrive(k, user, now) => s.(slots := s.slots[k := Entering(user, now)])
    case CheckOwn(k) =>
      s.(guard := OwnSwept(g, x.user, x.now), slots := s.slots[k := OwnChecked(x.user, x.now, Own(g, x.user, x.now).None?)])
    case CheckGlobal(k) =>
      s.(guard := GlobalSwept(g, x.now),
         slots := s.slots[k := if x.clear && Remaining(g.global, x.now).None? then Cleared(x.user, x.now) else Idle])
    case Evaluate(k) => s.(slots := s.slots[k := Wrong(x.user, x.now)], wrong := s.wrong + 1)
    case Recheck(k) =>
      s.(guard := GlobalSwept(g, x.now),
         slots := s.slots[k := if Remaining(g.global, x.now).None? then Counting(x.user, x.now) else Idle])
    case CountGlobal(k) =>
      s.(guard := g.(global := GlobalFailure(g.global, x.now, e.policy)), slots := s.slots[k := Charging(x.user, x.now)])
    case Charge(k) =>
      var record := UserFailure(UserRecord(g, x.user, x.now), x.now, e.policy).0;
      s.(guard := g.(failed := g.failed[x.user := record]), slots := s.slots[k := Idle])
  }

  datatype Outcome = Impossible | At(race: Race)

  function After(e: Setting, schedule: seq<Action>): Outcome {
    if schedule == [] then At(Start(e))
    else
      var n := |schedule| - 1;
      match After(e, schedule[..n])
      case Impossible => Impossible
      case At(s) => if Enabled(e, s, schedule[n]) then At(Apply(e, s, schedule[n])) else Impossible
  }

  /** One attempt alone in the race does what `ProcessAuthCode` does with a wrong code. */
  lemma AloneIsSequential(e: Setting, s: Race, k: nat, user: int, now: nat)
    requires k < |s.slots| && s.slots[k].Idle? && e.from <= now <= e.to
    ensures var s1 := Apply(e, s, Arrive(k, user, now));
            var s2 := Apply(e, s1, CheckOwn(k));
            var s3 := Apply(e, s2, CheckGlobal(k));
            var (g, reply) := Step(s.guard, e.policy, Attempt(user, now, false));
            if s3.slots[k].Idle? then reply.Refused? && s3.guard == g
            else
              && reply.Denied?
              && var s5 := Apply(e, Apply(e, s3, Evaluate(k)), Recheck(k));
                 && s5.slots[k].Counting?
                 && var s7 := Apply(e, Apply(e, s5, CountGlobal(k)), Charge(k));
                    s7.guard == g && s7.slots[k].Idle? && s7.wrong == s.wrong + 1
  {
  }

  // ---------------------------------------------------------------------------------------------
  // The bound

  /** The stretch lies within one window and one global lock. */
  ghost predicate Short(e: Setting) {
    && e.from <= e.to <= e.from + e.policy.window && e.to < e.from + GLOBAL_LOCKOUT_CAP
  }

  datatype Kind = Elsewhere | Past | Unrecorded

  ghost function KindOf(x: Slot): Kind {
    if x.Cleared? then Past else if x.Wrong? || x.Counting? then Unrecorded else Elsewhere
  }

  ghost function Kinds(slots: seq<Slot>): seq<Kind> {
    seq(|slots|, i requires 0 <= i < |slots| => KindOf(slots[i]))
  }

  ghost function In(slots: seq<Slot>, kind: Kind): nat { Count(Kinds(slots), kind) }

  lemma KindsUpdate(slots: seq<Slot>, k: nat, to: Slot, kind: Kind)
    requires k < |slots|
    ensures In(slots[k := to], kind) == In(slots, kind) - One(KindOf(slots[k]) == kind) + One(KindOf(to) == kind)
  {
    CountUpdate(Kinds(slots), k, KindOf(to), kind);
    assert Kinds(slots[k := to]) == Kinds(slots)[k := KindOf(to)];
  }

  ghost predicate InRange(e: Setting, x: Slot) { x.Idle? || e.from <= x.now <= e.to }

  ghost predicate Timely(e: Setting, s: Race) {
    && |s.slots| == e.slots && forall k | 0 <= k < |s.slots| :: InRange(e, s.slots[k])
  }

  /** The global record counts the recorded failures until it locks, and stays locked. */
  ghost predicate GlobalAgrees(e: Setting, s: Race) {
    var r := s.guard.global;
    && e.from <= r.firstFail <= e.to && r.count < e.policy.maxAttempts
    && (r.until.Some? ==> r.until.value > e.to)
    && (r.until.None? ==> s.wrong == r.count + In(s.slots, Unrecorded))
  }

  ghost predicate Bounded(e: Setting, s: Race) {
    s.wrong + In(s.slots, Past) < e.policy.maxAttempts + e.slots
  }

  ghost predicate Invariant(e: Setting, s: Race) { Timely(e, s) && GlobalAgrees(e, s) && Bounded(e, s) }

  lemma GlobalKept(e: Setting, s: Race, a: Action)
    requires Short(e) && Timely(e, s) && GlobalAgrees(e, s) && Enabled(e, s, a)
    ensures GlobalAgrees(e, Apply(e, s, a))
  {
    assert InRange(e, s.slots[a.k]);
    KindsUpdate(s.slots, a.k, Apply(e, s, a).slots[a.k], Unrecorded);
  }

  lemma BoundKept(e: Setting, s: Race, a: Action)
    requires Short(e) && Invariant(e, s) && Enabled(e, s, a)
    ensures Bounded(e, Apply(e, s, a))
  {
    var to := Apply(e, s, a).slots[a.k];
    assert InRange(e, s.slots[a.k]);
    KindsUpdate(s.slots, a.k, to, Past);
    KindsUpdate(s.slots, a.k, to, Unrecorded);
    CountTwo(Kinds(s.slots[a.k := to]), Past, Unrecorded);
  }

  lemma {:induction false} InvariantAlways(e: Setting, schedule: seq<Action>)
    requires Reset(e) && Short(e) && e.slots >= 1 && e.policy.maxAttempts >= 1 && After(e, schedule).At?
    ensures Invariant(e, After(e, schedule).race)
  {
    if schedule == [] {
      CountAbsent(Kinds(Start(e).slots), Past);
      CountAbsent(Kinds(Start(e).slots), Unrecorded);
    } else {
      var n := |schedule| - 1;
      InvariantAlways(e, schedule[..n]);
      var s := After(e, schedule[..n]).race;
      GlobalKept(e, s, schedule[n]);
      BoundKept(e, s, schedule[n]);
    }
  }

  /** However attempts interleave, with `slots` of them in flight at most max_attempts + slots - 1
      wrong codes are evaluated within one window and one global lock after a reset. */
  lemma WrongCodesInFlight(e: Setting, schedule: seq<Action>)
    requires Reset(e) && Short(e) && e.slots >= 1 && e.policy.maxAttempts >= 1 && After(e, schedule).At?
    ensures After(e, schedule).race.wrong <= e.policy.maxAttempts + e.slots - 1
  {
    InvariantAlways(e, schedule);
  }

  // ---------------------------------------------------------------------------------------------
  // The bound is reached

  ghost predicate Reachable(e: Setting, s: Race) { exists schedule :: After(e, schedule) == At(s) }

  lemma Do(e: Setting, s: Race, a: Action) returns (s': Race)
    requires Reachable(e, s) && Enabled(e, s, a)
    ensures s' == Apply(e, s, a) && Reachable(e, s')
  {
    s' := Apply(e, s, a);
    var schedule :| After(e, schedule) == At(s);
    assert (schedule + [a])[..|schedule|] == schedule;
    assert After(e, schedule + [a]) == At(s');
  }

  /** `n` wrong codes recorded without a lock; identities from `unknown` on have no record. */
  ghost predicate Calm(e: Setting, s: Race, n: nat, unknown: int) {
    && s.guard.global.count == n && s.guard.global.firstFail == e.from && s.guard.global.until.None?
    && (forall user | user in s.guard.failed :: user < unknown)
    && |s.slots| == e.slots
  }

  lemma {:induction false} UnknownIdentity(known: set<int>) returns (unknown: int)
    ensures forall user | user in known :: user < unknown
  {
    if some: int :| some in known {
      var rest := known - {some};
      var beyond := UnknownIdentity(rest);
      unknown := if some < beyond then beyond else some + 1;
      forall user | user in known ensures user < unknown {
        if user != some { assert user in rest; }
      }
    } else {
      unknown := 0;
    }
  }

  /** One attempt passes both checks and has its wrong code evaluated. */
  lemma GuessOnce(e: Setting, s: Race, k: nat, user: int, n: nat) returns (s': Race)
    requires Reachable(e, s) && Calm(e, s, n, user) && e.from <= e.to && k < e.slots && s.slots[k].Idle?
    ensures Reachable(e, s')
    ensures s' == s.(slots := s.slots[k := Wrong(user, e.from)], wrong := s.wrong + 1)
  {
    s' := Do(e, s, Arrive(k, user, e.from));
    s' := Do(e, s', CheckOwn(k));
    s' := Do(e, s', CheckGlobal(k));
    s' := Do(e, s', Evaluate(k));
    assert s.slots[k := Entering(user, e.from)][k := OwnChecked(user, e.from, true)][k := Cleared(user, e.from)][k := Wrong(user, e.from)]
        == s.slots[k := Wrong(user, e.from)];
  }

  lemma RecordOnce(e: Setting, s: Race, k: nat, user: int, n: nat) returns (s': Race)
    requires Reachable(e, s) && Calm(e, s, n, user) && k < e.slots && s.slots[k] == Wrong(user, e.from)
    requires n + 1 < e.policy.maxAttempts
    ensures Reachable(e, s') && Calm(e, s', n + 1, user + 1) && s'.wrong == s.wrong && s'.slots == s.slots[k := Idle]
  {
    s' := Do(e, s, Recheck(k));
    s' := Do(e, s', CountGlobal(k));
    s' := Do(e, s', Charge(k));
    assert s.slots[k := Counting(user, e.from)][k := Charging(user, e.from)][k := Idle] == s.slots[k := Idle];
  }

  lemma {:induction false} GuessOneByOne(e: Setting, n: nat) returns (s: Race, unknown: int)
    requires Reset(e) && e.slots >= 1 && e.from <= e.to && n < e.policy.maxAttempts
    ensures Reachable(e, s) && Calm(e, s, n, unknown) && s.wrong == n && s.slots == Start(e).slots
  {
    if n == 0 {
      s := Start(e);
      assert After(e, []) == At(s);
      unknown := UnknownIdentity(e.guard.failed.Keys);
    } else {
      s, unknown := GuessOneByOne(e, n - 1);
      s := GuessOnce(e, s, 0, unknown, n - 1);
      s := RecordOnce(e, s, 0, unknown, n - 1);
      unknown := unknown + 1;
      assert Start(e).slots[0 := Wrong(unknown - 1, e.from)][0 := Idle] == Start(e).slots;
    }
  }

  lemma {:induction false} GuessTogether(e: Setting, k: nat) returns (s: Race, unknown: int)
    requires Reset(e) && e.slots >= 1 && e.from <= e.to && e.policy.maxAttempts >= 1 && k <= e.slots
    ensures Reachable(e, s) && Calm(e, s, e.policy.maxAttempts - 1, unknown) && s.wrong == e.policy.maxAttempts - 1 + k
    ensures forall i | k <= i < e.slots :: s.slots[i] == Idle
  {
    if k == 0 {
      s, unknown := GuessOneByOne(e, e.policy.maxAttempts - 1);
    } else {
      s, unknown := GuessTogether(e, k - 1);
      s := GuessOnce(e, s, k - 1, unknown, e.policy.maxAttempts - 1);
    }
  }

  /** Some interleaving reaches the bound: all slots are past the check when the last failure that
      the window allows is recorded. */
  lemma WrongCodesInFlightReached(e: Setting) returns (schedule: seq<Action>)
    requires Reset(e) && e.from <= e.to && e.slots >= 1 && e.policy.maxAttempts >= 1
    ensures After(e, schedule).At? && After(e, schedule).race.wrong == e.policy.maxAttempts + e.slots - 1
  {
    var s, unknown := GuessTogether(e, e.slots);
    schedule :| After(e, schedule) == At(s);
  }

  // ---------------------------------------------------------------------------------------------
  // Beyond one lock

  /** An attempt that was unlocked at its arrival goes through both checks, a wrong code and the second
      look at the global lock, and stops just before it is counted. */
  lemma UpToCounting(e: Setting, s: Race, k: nat, user: int, now: nat) returns (s': Race)
    requires Reachable(e, s) && k < |s.slots| && s.slots[k].Idle? && e.from <= now <= e.to
    requires user !in s.guard.failed && s.guard.global.until.None?
    ensures Reachable(e, s') && s' == s.(slots := s.slots[k := Counting(user, now)], wrong := s.wrong + 1)
  {
    s' := Do(e, s, Arrive(k, user, now));
    s' := Do(e, s', CheckOwn(k));
    s' := Do(e, s', CheckGlobal(k));
    s' := Do(e, s', Evaluate(k));
    s' := Do(e, s', Recheck(k));
    assert s'.slots == s.slots[k := Counting(user, now)];
  }

  /** Attempts that are about to be counted, whatever has happened since they looked at the lock. */
  ghost function Flags(slots: seq<Slot>): seq<bool> {
    seq(|slots|, i requires 0 <= i < |slots| => slots[i].Counting?)
  }

  ghost function Queued(slots: seq<Slot>): nat { Count(Flags(slots), true) }

  lemma QueuedUpdate(slots: seq<Slot>, k: nat, to: Slot)
    requires k < |slots|
    ensures Queued(slots[k := to]) == Queued(slots) - One(slots[k].Counting?) + One(to.Counting?)
  {
    CountUpdate(Flags(slots), k, to.Counting?, true);
    assert Flags(slots[k := to]) == Flags(slots)[k := to.Counting?];
  }

  lemma SomeNotQueued(slots: seq<Slot>, k: nat)
    requires k < |slots| && !slots[k].Counting?
    ensures Queued(slots) < |slots|
  {
    CountTwo(Flags(slots), true, false);
    CountUpdate(Flags(slots), k, true, false);
  }

  /** Once locked, no attempt joins those about to be counted. */
  ghost predicate QueueAgrees(e: Setting, s: Race) {
    s.guard.global.until.Some? ==>
      && s.guard.global.count + Queued(s.slots) < e.slots
      && s.guard.global.until.value <= e.to + GLOBAL_LOCKOUT_CAP
  }

  lemma QueueKept(e: Setting, s: Race, a: Action)
    requires Short(e) && Timely(e, s) && GlobalAgrees(e, s) && QueueAgrees(e, s) && Enabled(e, s, a)
    ensures QueueAgrees(e, Apply(e, s, a))
  {
    var to := Apply(e, s, a).slots[a.k];
    assert InRange(e, s.slots[a.k]);
    QueuedUpdate(s.slots, a.k, to);
    if !to.Counting? { SomeNotQueued(s.slots[a.k := to], a.k); }
  }

  lemma {:induction false} QueueAlways(e: Setting, schedule: seq<Action>)
    requires Reset(e) && Short(e) && e.slots >= 1 && e.policy.maxAttempts >= 1 && After(e, schedule).At?
    ensures QueueAgrees(e, After(e, schedule).race)
  {
    if schedule != [] {
      var n := |schedule| - 1;
      QueueAlways(e, schedule[..n]);
      InvariantAlways(e, schedule[..n]);
      QueueKept(e, After(e, schedule[..n]).race, schedule[n]);
    }
  }

  /** A step that lifts the global lock, or replaces it by one that ends earlier. */
  ghost predicate Shortens(e: Setting, s: Race, a: Action) {
    && Enabled(e, s, a) && s.guard.global.until.Some?
    && var until := Apply(e, s, a).guard.global.until; until.None? || until.value < s.guard.global.until.value
  }

  ghost predicate CanShorten(e: Setting) {
    exists schedule, a :: After(e, schedule).At? && Shortens(e, After(e, schedule).race, a)
  }

  lemma ShorteningNeeds(e: Setting, s: Race, a: Action)
    requires Short(e) && Timely(e, s) && GlobalAgrees(e, s) && QueueAgrees(e, s) && Shortens(e, s, a)
    ensures e.slots > e.policy.maxAttempts && e.from < e.to
  {
    assert InRange(e, s.slots[a.k]);
    QueuedUpdate(s.slots, a.k, Apply(e, s, a).slots[a.k]);
  }

  /** `j` attempts that arrived at `from` wait to be counted, with one failure missing to the lock. */
  ghost predicate Queuing(e: Setting, s: Race, user: int, j: nat) {
    && e.policy.maxAttempts >= 1 && Calm(e, s, e.policy.maxAttempts - 1, user) && j <= |s.slots|
    && (forall i | 0 <= i < j :: s.slots[i] == Counting(user, e.from)) && (forall i | j <= i < |s.slots| :: s.slots[i] == Idle)
  }

  lemma {:induction false} Queue(e: Setting, j: nat) returns (s: Race, user: int)
    requires Reset(e) && e.from <= e.to && e.policy.maxAttempts >= 1 && 1 <= e.slots && j <= e.slots
    ensures Reachable(e, s) && Queuing(e, s, user, j)
  {
    if j == 0 {
      s, user := GuessOneByOne(e, e.policy.maxAttempts - 1);
    } else {
      s, user := Queue(e, j - 1);
      s := UpToCounting(e, s, j - 1, user, e.from);
    }
  }

  /** A later attempt has locked, and `j` of the waiting ones have been counted since. */
  ghost predicate LockedSince(e: Setting, s: Race, user: int, j: nat) {
    && s.guard.global.until == Some(e.to + GLOBAL_LOCKOUT_CAP) && s.guard.global.count == j
    && e.from <= s.guard.global.firstFail <= e.to && j < e.policy.maxAttempts < |s.slots|
    && forall i | j <= i < e.policy.maxAttempts :: s.slots[i] == Counting(user, e.from)
  }

  lemma LockLater(e: Setting, s: Race, user: int) returns (s': Race)
    requires Reachable(e, s) && Short(e) && e.policy.maxAttempts >= 1 && Queuing(e, s, user, e.policy.maxAttempts)
    requires e.slots > e.policy.maxAttempts
    ensures Reachable(e, s') && LockedSince(e, s', user, 0)
  {
    var k := e.policy.maxAttempts;
    s' := UpToCounting(e, s, k, user, e.to);
    s' := Do(e, s', CountGlobal(k));
  }

  lemma CountWaiting(e: Setting, s: Race, user: int, j: nat) returns (s': Race)
    requires Reachable(e, s) && Short(e) && LockedSince(e, s, user, j) && j + 1 < e.policy.maxAttempts
    ensures Reachable(e, s') && LockedSince(e, s', user, j + 1)
  {
    s' := Do(e, s, CountGlobal(j));
  }

  lemma {:induction false} CountAllButOne(e: Setting, s: Race, user: int, j: nat) returns (s': Race)
    requires Reachable(e, s) && Short(e) && LockedSince(e, s, user, j)
    ensures Reachable(e, s') && LockedSince(e, s', user, e.policy.maxAttempts - 1)
    decreases e.policy.maxAttempts - j
  {
    if j + 1 == e.policy.maxAttempts {
      s' := s;
    } else {
      s' := CountWaiting(e, s, user, j);
      s' := CountAllButOne(e, s', user, j + 1);
    }
  }

  lemma LastOneShortens(e: Setting, s: Race, user: int)
    requires Short(e) && e.from < e.to && e.policy.maxAttempts >= 1 && LockedSince(e, s, user, e.policy.maxAttempts - 1)
    ensures Shortens(e, s, CountGlobal(e.policy.maxAttempts - 1))
  {
  }

  /** With overlapping attempts the global lock is not always kept: attempts that arrived earlier and
      are counted after it can replace it by one that ends sooner. Within one window and one lock that
      is possible exactly when more attempts can be in flight than the policy allows failures, and not
      all arrive at the same instant. */
  lemma LockShortenedExactly(e: Setting)
    requires Reset(e) && Short(e) && e.slots >= 1 && e.policy.maxAttempts >= 1
    ensures CanShorten(e) <==> e.slots > e.policy.maxAttempts && e.from < e.to
  {
    if CanShorten(e) {
      var schedule, a :| After(e, schedule).At? && Shortens(e, After(e, schedule).race, a);
      InvariantAlways(e, schedule);
      QueueAlways(e, schedule);
      ShorteningNeeds(e, After(e, schedule).race, a);
    }
    if e.slots > e.policy.maxAttempts && e.from < e.to {
      var s, user := Queue(e, e.policy.maxAttempts);
      s := LockLater(e, s, user);
      s := CountAllButOne(e, s, user, 0);
      LastOneShortens(e, s, user);
      var schedule :| After(e, schedule) == At(s);
      assert After(e, schedule).At? && Shortens(e, After(e, schedule).race, CountGlobal(e.policy.maxAttempts - 1));
    }
  }
}
