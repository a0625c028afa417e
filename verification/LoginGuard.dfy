/** The login guard of the aegis bot: per-identity and global failure windows, an escalating lock
    ladder, and the step that checks the locks, evaluates a code and records the outcome.

    Instants are naturals counted in nanoseconds; whether a code is right is an oracle. */
module LoginGuard {
  import opened Wrappers

  const SECOND: nat := 1_000_000_000
  const GLOBAL_LOCKOUT_CAP: nat := 900 * SECOND
  const DEFAULT_LOCKOUT: nat := 3600 * SECOND

  datatype Policy = Policy(maxAttempts: nat, window: nat, ladder: seq<nat>)

  datatype FailedRecord = FailedRecord(count: nat, firstFail: nat, until: Option<nat>, level: nat)

  datatype Guard = Guard(sessions: map<int, nat>, failed: map<int, FailedRecord>, global: FailedRecord)

  datatype FailureOutcome = Invalid(attempts: nat) | Locked(duration: nat)

  /** How one login attempt is answered; only `Granted` and `Denied` evaluate the code. */
  datatype Reply = Refused(remaining: nat) | Granted | Denied(outcome: FailureOutcome)

  datatype Attempt = Attempt(user: int, now: nat, correct: bool)

  function Fresh(now: nat): Guard {
    Guard(map[], map[], FailedRecord(0, now, None, 0))
  }

  function Elapsed(now: nat, since: nat): nat { if now > since then now - since else 0 }

  function Min(a: nat, b: nat): nat { if a <= b then a else b }

  // ---------------------------------------------------------------------------------------------
  // The recorded state, operation by operation

  /** Counts one more failure at `now`, opening a new window if the current one is over. */
  function Counted(r: FailedRecord, now: nat, window: nat): FailedRecord {
    var r' := if Elapsed(now, r.firstFail) > window then r.(count := 0, firstFail := now, until := None) else r;
    r'.(count := r'.count + 1, firstFail := Min(r'.firstFail, now))
  }

  function GlobalFailure(r: FailedRecord, now: nat, p: Policy): FailedRecord {
    var r' := Counted(r, now, p.window);
    if r'.count >= p.maxAttempts then r'.(until := Some(now + GLOBAL_LOCKOUT_CAP), count := 0, firstFail := now) else r'
  }

  /** The rung a lock at this level uses: past the top of the ladder it stays on the last one. */
  function Rung(ladder: seq<nat>, level: nat): nat {
    if level < |ladder| then ladder[level]
    else if |ladder| > 0 then ladder[|ladder| - 1]
    else DEFAULT_LOCKOUT
  }

  function UserFailure(r: FailedRecord, now: nat, p: Policy): (FailedRecord, FailureOutcome) {
    var r' := Counted(r, now, p.window);
    if r'.count >= p.maxAttempts then
      var duration := Rung(p.ladder, r'.level);
      (r'.(until := Some(now + duration), count := 0, firstFail := now,
           // the level is compared with an unsigned `len - 1`, which wraps for an empty ladder
           level := if |p.ladder| == 0 || r'.level < |p.ladder| - 1 then r'.level + 1 else r'.level),
       Locked(duration))
    else (r', Invalid(r'.count))
  }

  function Remaining(r: FailedRecord, now: nat): Option<nat> {
    if r.until.Some? && r.until.value > now then Some(r.until.value - now) else None
  }

  function Expired(r: FailedRecord, now: nat): FailedRecord {
    if r.until.Some? && r.until.value <= now then r.(until := None) else r
  }

  function UserRecord(g: Guard, user: int, now: nat): FailedRecord {
    if user in g.failed then g.failed[user] else FailedRecord(0, now, None, 0)
  }

  /** Looking at the locks clears the ones that have run out. */
  function Swept(g: Guard, user: int, now: nat): Guard {
    g.(failed := if user in g.failed then g.failed[user := Expired(g.failed[user], now)] else g.failed,
       global := Expired(g.global, now))
  }

  /** The longer of the identity's own lock and the global lock. */
  function Cooldown(g: Guard, user: int, now: nat): Option<nat> {
    var own := if user in g.failed then Remaining(g.failed[user], now) else None;
    var global := Remaining(g.global, now);
    if own.Some? && global.Some? then Some(if own.value >= global.value then own.value else global.value)
    else if own.Some? then own
    else global
  }

  function Succeeded(g: Guard, user: int, now: nat): Guard {
    Guard(g.sessions[user := now], g.failed - {user}, g.global.(count := 0, until := None, firstFail := now))
  }

  function Failed(g: Guard, user: int, now: nat, p: Policy): (Guard, FailureOutcome) {
    var global := Expired(g.global, now);
    if Remaining(g.global, now).Some? then
      (g.(global := global), Locked(Remaining(g.global, now).value))
    else
      var (record, outcome) := UserFailure(UserRecord(g, user, now), now, p);
      (g.(failed := g.failed[user := record], global := GlobalFailure(global, now, p)), outcome)
  }

  function Step(g: Guard, p: Policy, a: Attempt): (Guard, Reply) {
    var cooldown := Cooldown(g, a.user, a.now);
    var swept := Swept(g, a.user, a.now);
    if cooldown.Some? then (swept, Refused(cooldown.value))
    else if a.correct then (Succeeded(swept, a.user, a.now), Granted)
    else
      var (g', outcome) := Failed(swept, a.user, a.now, p);
      (g', Denied(outcome))
  }

  /** The shared state of the bot, updated in place by each handler. */
  class AppState {
    var sessions: map<int, nat>
    var failedAttempts: map<int, FailedRecord>
    var globalFailed: FailedRecord

    function View(): Guard
      reads this
    {
      Guard(sessions, failedAttempts, globalFailed)
    }

    constructor (now: nat)
      ensures View() == Fresh(now)
    {
      sessions, failedAttempts, globalFailed := map[], map[], FailedRecord(0, now, None, 0);
    }

    method RecordAuthSuccess(user: int, now: nat)
      modifies this
      ensures View() == Succeeded(old(View()), user, now)
    {
      sessions := sessions[user := now];
      failedAttempts := failedAttempts - {user};
      globalFailed := globalFailed.(count := 0);
      globalFailed := globalFailed.(until := None);
      globalFailed := globalFailed.(firstFail := now);
    }

    method RecordGlobalFailure(now: nat, p: Policy)
      modifies this`globalFailed
      ensures globalFailed == GlobalFailure(old(globalFailed), now, p)
    {
      var rec := globalFailed;
      if Elapsed(now, rec.firstFail) > p.window {
        rec := rec.(count := 0, firstFail := now, until := None);
      }
      rec := rec.(count := rec.count + 1);
      rec := rec.(firstFail := Min(rec.firstFail, now));
      if rec.count >= p.maxAttempts {
        rec := rec.(until := Some(now + GLOBAL_LOCKOUT_CAP));
        rec := rec.(count := 0, firstFail := now);
      }
      globalFailed := rec;
    }

    method GlobalCooldownRemaining(now: nat) returns (remaining: Option<nat>)
      modifies this`globalFailed
      ensures remaining == Remaining(old(globalFailed), now)
      ensures globalFailed == Expired(old(globalFailed), now)
    {
      if globalFailed.until.None? {
        return None;
      }
      if globalFailed.until.value > now {
        return Some(globalFailed.until.value - now);
      }
      globalFailed := globalFailed.(until := None);
      return None;
    }

    method RecordAuthFailure(user: int, now: nat, p: Policy) returns (outcome: FailureOutcome)
      modifies this
      ensures View() == Failed(old(View()), user, now, p).0
      ensures outcome == Failed(old(View()), user, now, p).1
      ensures !InForce(old(globalFailed.until), now) ==>
                var before := if user in old(failedAttempts) then Since(old(failedAttempts)[user].firstFail, old(failedAttempts)[user].count) else Nothing;
                user in failedAttempts && Due(p, before, now, outcome, failedAttempts[user].until)
    {
      var remaining := GlobalCooldownRemaining(now);
      if remaining.Some? {
        return Locked(remaining.value);
      }
      RecordGlobalFailure(now, p);
      var rec := if user in failedAttempts then failedAttempts[user] else FailedRecord(0, now, None, 0);
      if Elapsed(now, rec.firstFail) > p.window {
        rec := rec.(count := 0, firstFail := now, until := None);
      }
      rec := rec.(count := rec.count + 1);
      rec := rec.(firstFail := Min(rec.firstFail, now));
      if rec.count >= p.maxAttempts {
        var duration := Rung(p.ladder, rec.level);
        rec := rec.(until := Some(now + duration));
        rec := rec.(count := 0, firstFail := now);
        if |p.ladder| == 0 || rec.level < |p.ladder| - 1 {
          rec := rec.(level := rec.level + 1);
        }
        outcome := Locked(duration);
      } else {
        outcome := Invalid(rec.count);
      }
      failedAttempts := failedAttempts[user := rec];
    }

    method AuthCooldownRemaining(user: int, now: nat) returns (remaining: Option<nat>)
      modifies this`failedAttempts, this`globalFailed
      ensures remaining == Cooldown(old(View()), user, now)
      ensures View() == Swept(old(View()), user, now)
    {
      var own: Option<nat> := None;
      if user in failedAttempts && failedAttempts[user].until.Some? {
        var rec := failedAttempts[user];
        if rec.until.value > now {
          own := Some(rec.until.value - now);
        } else {
          failedAttempts := failedAttempts[user := rec.(until := None)];
        }
      }
      var global := GlobalCooldownRemaining(now);
      if own.Some? && global.Some? {
        remaining := Some(if own.value >= global.value then own.value else global.value);
      } else if own.Some? {
        remaining := own;
      } else {
        remaining := global;
      }
    }

    /** One login attempt; `correct` is what `verify_totp` says of the code. */
    method ProcessAuthCode(user: int, now: nat, correct: bool, p: Policy) returns (reply: Reply)
      modifies this
      ensures View() == Step(old(View()), p, Attempt(user, now, correct)).0
      ensures reply == Step(old(View()), p, Attempt(user, now, correct)).1
    {
      var remaining := AuthCooldownRemaining(user, now);
      if remaining.Some? {
        return Refused(remaining.value);
      }
      if correct {
        RecordAuthSuccess(user, now);
        return Granted;
      }
      var outcome := RecordAuthFailure(user, now, p);
      return Denied(outcome);
    }
  }

  // ---------------------------------------------------------------------------------------------
  // Runs of attempts

  /** The guard after the first `n` attempts. */
  function StateAt(p: Policy, g: Guard, run: seq<Attempt>, n: nat): Guard
    requires n <= |run|
  {
    if n == 0 then g else Step(StateAt(p, g, run, n - 1), p, run[n - 1]).0
  }

  function ReplyAt(p: Policy, g: Guard, run: seq<Attempt>, i: nat): Reply
    requires i < |run|
  {
    Step(StateAt(p, g, run, i), p, run[i]).1
  }

  /** Attempts come one after the other, between `from` and `to`. */
  ghost predicate Timed(run: seq<Attempt>, from: nat, to: nat) {
    && from <= to
    && (forall i | 0 <= i < |run| :: from <= run[i].now <= to)
    && (forall i, j | 0 <= i < j < |run| :: run[i].now <= run[j].now)
  }

  /** The time of the last of the first `n` attempts. */
  ghost function Clock(run: seq<Attempt>, from: nat, n: nat): nat
    requires n <= |run|
  {
    if n == 0 then from else run[n - 1].now
  }

  ghost predicate NoSuccess(p: Policy, g: Guard, run: seq<Attempt>) {
    forall i | 0 <= i < |run| :: !ReplyAt(p, g, run, i).Granted?
  }

  /** How many of the first `n` attempts had a wrong code evaluated. */
  ghost function WrongCodes(p: Policy, g: Guard, run: seq<Attempt>, n: nat): nat
    requires n <= |run|
  {
    if n == 0 then 0
    else WrongCodes(p, g, run, n - 1) + if ReplyAt(p, g, run, n - 1).Denied? then 1 else 0
  }

  // ---------------------------------------------------------------------------------------------
  // The guessing budget

  /** The global window is consistent with the clock; every reachable guard is. */
  ghost predicate GlobalSound(r: FailedRecord, p: Policy, now: nat) {
    r.firstFail <= now && r.count < p.maxAttempts && (r.until.Some? ==> r.until.value <= now + GLOBAL_LOCKOUT_CAP)
  }

  /** The global lock is long enough to separate two windows: either a code evaluated after a lock
      finds the old window over, or every wrong code locks again at once. */
  ghost predicate LocksSeparateWindows(p: Policy) {
    p.window < GLOBAL_LOCKOUT_CAP || (p.window == GLOBAL_LOCKOUT_CAP && p.maxAttempts == 1)
  }

  /** By `t`, the next evaluated code counts towards a window that starts no earlier than `t`. */
  ghost predicate Past(r: FailedRecord, p: Policy, t: nat) {
    t > r.firstFail + p.window || (t == r.firstFail + p.window && p.maxAttempts == 1)
  }

  ghost predicate LockOutlastsWindow(r: FailedRecord, p: Policy) {
    r.until.Some? && Past(r, p, r.until.value)
  }

  ghost function Windows(p: Policy, since: nat, end: nat): nat
    requires since <= end && p.window > 0
  {
    p.maxAttempts * ((end - since) / p.window)
  }

  /** How many wrong codes the global record can still let through until `end`. */
  ghost function Budget(r: FailedRecord, p: Policy, now: nat, end: nat): nat
    requires GlobalSound(r, p, now) && now <= end && p.window > 0
  {
    if Past(r, p, now) then p.maxAttempts + Windows(p, now, end)
    else if LockOutlastsWindow(r, p) then Windows(p, r.firstFail, end)
    else p.maxAttempts - r.count + Windows(p, r.firstFail, end)
  }

  lemma QuotientStep(x: nat, y: nat, w: nat)
    requires w > 0 && x + w <= y
    ensures x / w + 1 <= y / w
  {
    var q, k := x / w, y / w;
    assert x == w * q + x % w && y == w * k + y % w;
    if k < q + 1 {
      ProductMonotone(w, k, q);
      assert false;
    }
  }

  lemma QuotientMonotone(x: nat, y: nat, w: nat)
    requires w > 0 && x <= y
    ensures x / w <= y / w
  {
    var q, k := x / w, y / w;
    assert x == w * q + x % w && y == w * k + y % w;
    if k < q {
      ProductMonotone(w, k + 1, q);
      assert false;
    }
  }

  lemma ProductMonotone(m: nat, a: nat, b: nat)
    requires a <= b
    ensures m * a <= m * b
  {
  }

  lemma Distribute(m: nat, a: nat, b: nat)
    ensures m * (a + b) == m * a + m * b
  {
  }

  lemma WindowsMonotone(p: Policy, s: nat, t: nat, end: nat)
    requires s <= t <= end && p.window > 0
    ensures Windows(p, t, end) <= Windows(p, s, end)
    ensures t >= s + p.window ==> p.maxAttempts + Windows(p, t, end) <= Windows(p, s, end)
  {
    var w := p.window;
    QuotientMonotone(end - t, end - s, w);
    ProductMonotone(p.maxAttempts, (end - t) / w, (end - s) / w);
    if t >= s + w {
      QuotientStep(end - t, end - s, w);
      ProductMonotone(p.maxAttempts, (end - t) / w + 1, (end - s) / w);
      Distribute(p.maxAttempts, (end - t) / w, 1);
    }
  }

  /** Recording a wrong code spends at least one unit of the budget. */
  lemma WrongCodeSpendsBudget(r: FailedRecord, p: Policy, now: nat, t: nat, end: nat)
    requires GlobalSound(r, p, now) && now <= t <= end
    requires p.window > 0 && LocksSeparateWindows(p)
    requires Remaining(r, t).None?
    ensures var r' := GlobalFailure(Expired(r, t), t, p);
            GlobalSound(r', p, t) && 1 + Budget(r', p, t, end) <= Budget(r, p, now, end)
  {
    WindowsMonotone(p, r.firstFail, t, end);
    WindowsMonotone(p, now, t, end);
  }

  /** A refused attempt never adds to the budget. */
  lemma RefusalKeepsBudget(r: FailedRecord, p: Policy, now: nat, t: nat, end: nat)
    requires GlobalSound(r, p, now) && now <= t <= end && p.window > 0
    ensures GlobalSound(Expired(r, t), p, t) && Budget(Expired(r, t), p, t, end) <= Budget(r, p, now, end)
  {
    WindowsMonotone(p, r.firstFail, t, end);
    WindowsMonotone(p, now, t, end);
  }

  lemma StepKeepsGlobalSound(g: Guard, p: Policy, a: Attempt, now: nat)
    requires p.maxAttempts >= 1 && GlobalSound(g.global, p, now) && now <= a.now
    ensures GlobalSound(Step(g, p, a).0.global, p, a.now)
  {
  }

  /** Every guard a run can reach has a sound global record; in particular the global lock never has
      more than `GLOBAL_LOCKOUT_CAP` left. */
  lemma {:induction false} GlobalSoundAlways(p: Policy, start: nat, run: seq<Attempt>, end: nat, n: nat)
    requires p.maxAttempts >= 1 && n <= |run| && Timed(run, start, end)
    ensures GlobalSound(StateAt(p, Fresh(start), run, n).global, p, Clock(run, start, n))
  {
    if n > 0 {
      GlobalSoundAlways(p, start, run, end, n - 1);
      StepKeepsGlobalSound(StateAt(p, Fresh(start), run, n - 1), p, run[n - 1], Clock(run, start, n - 1));
    }
  }

  /** What has been evaluated and what is left never exceed the budget of the starting point. */
  lemma {:induction false} BudgetRespected(p: Policy, g: Guard, run: seq<Attempt>, from: nat, to: nat, n: nat)
    requires p.maxAttempts >= 1 && p.window > 0 && LocksSeparateWindows(p)
    requires n <= |run| && Timed(run, from, to) && NoSuccess(p, g, run) && GlobalSound(g.global, p, from)
    ensures GlobalSound(StateAt(p, g, run, n).global, p, Clock(run, from, n))
    ensures WrongCodes(p, g, run, n) + Budget(StateAt(p, g, run, n).global, p, Clock(run, from, n), to)
            <= Budget(g.global, p, from, to)
  {
    if n > 0 {
      BudgetRespected(p, g, run, from, to, n - 1);
      assert !ReplyAt(p, g, run, n - 1).Granted?;
      StepSpendsBudget(p, StateAt(p, g, run, n - 1), run[n - 1], Clock(run, from, n - 1), to);
    }
  }

  lemma StepSpendsBudget(p: Policy, g: Guard, a: Attempt, now: nat, to: nat)
    requires p.maxAttempts >= 1 && p.window > 0 && LocksSeparateWindows(p)
    requires GlobalSound(g.global, p, now) && now <= a.now <= to && !Step(g, p, a).1.Granted?
    ensures GlobalSound(Step(g, p, a).0.global, p, a.now)
    ensures var (g', reply) := Step(g, p, a);
            (if reply.Denied? then 1 else 0) + Budget(g'.global, p, a.now, to) <= Budget(g.global, p, now, to)
  {
    if Step(g, p, a).1.Denied? {
      WrongCodeSpendsBudget(g.global, p, now, a.now, to);
    } else {
      RefusalKeepsBudget(g.global, p, now, a.now, to);
    }
  }

  ghost predicate Segment(p: Policy, start: nat, prior: seq<Attempt>, segment: seq<Attempt>, from: nat, to: nat) {
    && Timed(prior, start, from)
    && Timed(segment, from, to)
    && NoSuccess(p, StateAt(p, Fresh(start), prior, |prior|), segment)
  }

  /** Whatever came before, and however many identities take part: over any stretch of time without
      a success the wrong codes evaluated are at most `maxAttempts` per window, plus two. */
  lemma WrongCodesBounded(p: Policy, start: nat, prior: seq<Attempt>, segment: seq<Attempt>, from: nat, to: nat)
    requires p.maxAttempts >= 1 && p.window > 0 && LocksSeparateWindows(p)
    requires Segment(p, start, prior, segment, from, to)
    ensures WrongCodes(p, StateAt(p, Fresh(start), prior, |prior|), segment, |segment|)
            <= p.maxAttempts * (2 + (to - from) / p.window)
  {
    var g := StateAt(p, Fresh(start), prior, |prior|);
    GlobalSoundAlways(p, start, prior, from, |prior|);
    BudgetRespected(p, g, segment, from, to, |segment|);
    BudgetBound(g.global, p, from, to);
  }

  lemma BudgetBound(r: FailedRecord, p: Policy, from: nat, to: nat)
    requires GlobalSound(r, p, from) && from <= to && p.window > 0
    ensures Budget(r, p, from, to) <= p.maxAttempts * (2 + (to - from) / p.window)
    ensures r.firstFail == from ==> Budget(r, p, from, to) <= p.maxAttempts * (1 + (to - from) / p.window)
  {
    var f, w, m := r.firstFail, p.window, p.maxAttempts;
    var q := (to - from) / w;
    Distribute(m, 2, q);
    Distribute(m, 1, q);
    if from <= f + w {
      QuotientMonotone(to - f, to - from + w, w);
      QuotientShift(to - from, w);
      ProductMonotone(m, (to - f) / w, q + 1);
    }
  }

  lemma QuotientShift(x: nat, w: nat)
    requires w > 0
    ensures (x + w) / w == x / w + 1
  {
    QuotientStep(x, x + w, w);
    assert x == w * (x / w) + x % w && x + w == w * ((x + w) / w) + (x + w) % w;
    if (x + w) / w > x / w + 1 {
      ProductMonotone(w, x / w + 2, (x + w) / w);
      assert false;
    }
  }

  /** Counted from a success or from start-up, one spare window is enough. */
  lemma WrongCodesBoundedFromReset(p: Policy, start: nat, prior: seq<Attempt>, segment: seq<Attempt>, from: nat, to: nat)
    requires p.maxAttempts >= 1 && p.window > 0 && LocksSeparateWindows(p)
    requires Segment(p, start, prior, segment, from, to)
    requires if prior == [] then from == start
             else from == prior[|prior| - 1].now && ReplyAt(p, Fresh(start), prior, |prior| - 1).Granted?
    ensures WrongCodes(p, StateAt(p, Fresh(start), prior, |prior|), segment, |segment|)
            <= p.maxAttempts * (1 + (to - from) / p.window)
  {
    var g := StateAt(p, Fresh(start), prior, |prior|);
    GlobalSoundAlways(p, start, prior, from, |prior|);
    BudgetRespected(p, g, segment, from, to, |segment|);
    BudgetBound(g.global, p, from, to);
  }

  // ---------------------------------------------------------------------------------------------
  // When the budget holds, exactly

  /** The budget holds for every run under this policy. */
  ghost predicate BudgetHolds(p: Policy)
    requires p.window > 0
  {
    forall start: nat, prior, segment, from: nat, to: nat | Segment(p, start, prior, segment, from, to) ::
      WithinBudget(p, start, prior, segment, from, to)
  }

  ghost predicate WithinBudget(p: Policy, start: nat, prior: seq<Attempt>, segment: seq<Attempt>, from: nat, to: nat)
    requires p.window > 0
  {
    WrongCodes(p, StateAt(p, Fresh(start), prior, |prior|), segment, |segment|) <= p.maxAttempts * (2 + (to - from) / p.window)
  }

  /** A run of wrong codes, each from an identity of its own, that were all evaluated. */
  ghost predicate Flood(p: Policy, run: seq<Attempt>, end: nat) {
    && Timed(run, 0, end)
    && (forall i | 0 <= i < |run| :: ReplyAt(p, Fresh(0), run, i).Denied?)
    && (forall user | user in StateAt(p, Fresh(0), run, |run|).failed :: user < |run|)
  }

  ghost function GlobalAfter(p: Policy, run: seq<Attempt>): FailedRecord {
    StateAt(p, Fresh(0), run, |run|).global
  }

  lemma {:induction false} StateOfPrefix(p: Policy, g: Guard, run: seq<Attempt>, a: Attempt, n: nat)
    requires n <= |run|
    ensures StateAt(p, g, run + [a], n) == StateAt(p, g, run, n)
  {
    if n > 0 { StateOfPrefix(p, g, run, a, n - 1); }
  }

  lemma FloodGrows(p: Policy, run: seq<Attempt>, end: nat, t: nat) returns (longer: seq<Attempt>)
    requires Flood(p, run, end) && end <= t && Remaining(GlobalAfter(p, run), t).None?
    ensures Flood(p, longer, t) && |longer| == |run| + 1
    ensures GlobalAfter(p, longer) == GlobalFailure(Expired(GlobalAfter(p, run), t), t, p)
  {
    longer := run + [Attempt(|run|, t, false)];
    forall i: nat | i <= |run| ensures StateAt(p, Fresh(0), longer, i) == StateAt(p, Fresh(0), run, i) {
      StateOfPrefix(p, Fresh(0), run, Attempt(|run|, t, false), i);
    }
    forall i: nat | i < |longer| ensures ReplyAt(p, Fresh(0), longer, i).Denied? {
      if i < |run| { assert ReplyAt(p, Fresh(0), run, i).Denied?; }
    }
  }

  /** `n` more wrong codes at `t` that stay inside the current window and below the limit. */
  lemma {:induction false} FloodCounts(p: Policy, run: seq<Attempt>, end: nat, t: nat, n: nat) returns (longer: seq<Attempt>)
    requires Flood(p, run, end) && end <= t && Remaining(GlobalAfter(p, run), t).None?
    requires var r := GlobalAfter(p, run); r.firstFail <= t <= r.firstFail + p.window && r.count + n < p.maxAttempts
    decreases n
    ensures Flood(p, longer, t) && |longer| == |run| + n && Remaining(GlobalAfter(p, longer), t).None?
    ensures var r, r' := GlobalAfter(p, run), GlobalAfter(p, longer); r'.count == r.count + n && r'.firstFail == r.firstFail
  {
    if n == 0 {
      longer := run;
    } else {
      var one := FloodGrows(p, run, end, t);
      longer := FloodCounts(p, one, t, t, n - 1);
    }
  }

  /** A full quota of wrong codes at `t`, the last of which locks. */
  lemma FloodLocks(p: Policy, run: seq<Attempt>, end: nat, t: nat) returns (longer: seq<Attempt>)
    requires p.maxAttempts >= 1 && Flood(p, run, end) && end <= t && Remaining(GlobalAfter(p, run), t).None?
    requires var r := GlobalAfter(p, run); r.firstFail <= t && (t > r.firstFail + p.window || r.count == 0)
    ensures Flood(p, longer, t) && |longer| == |run| + p.maxAttempts
    ensures var r := GlobalAfter(p, longer); r.count == 0 && r.firstFail == t && r.until == Some(t + GLOBAL_LOCKOUT_CAP)
  {
    longer := FloodGrows(p, run, end, t);
    if p.maxAttempts > 1 {
      longer := FloodCounts(p, longer, t, t, p.maxAttempts - 2);
      longer := FloodGrows(p, longer, t, t);
    }
  }

  lemma {:induction false} FloodIsAllWrong(p: Policy, run: seq<Attempt>, n: nat)
    requires n <= |run| && forall i | 0 <= i < |run| :: ReplyAt(p, Fresh(0), run, i).Denied?
    ensures WrongCodes(p, Fresh(0), run, n) == n
  {
    if n > 0 { FloodIsAllWrong(p, run, n - 1); }
  }

  /** A flood longer than the budget allows refutes the budget. */
  lemma FloodRefutes(p: Policy, run: seq<Attempt>, end: nat)
    requires p.window > 0 && Flood(p, run, end) && |run| > p.maxAttempts * (2 + end / p.window)
    ensures !BudgetHolds(p)
  {
    FloodExceeds(p, run, end);
  }

  lemma FloodExceeds(p: Policy, run: seq<Attempt>, end: nat)
    requires p.window > 0 && Flood(p, run, end) && |run| > p.maxAttempts * (2 + end / p.window)
    ensures Segment(p, 0, [], run, 0, end) && !WithinBudget(p, 0, [], run, 0, end)
  {
    FloodIsAllWrong(p, run, |run|);
    assert StateAt(p, Fresh(0), [], 0) == Fresh(0);
    assert end - 0 == end;
  }

  ghost predicate JustLocked(p: Policy, run: seq<Attempt>, at: nat) {
    var r := GlobalAfter(p, run);
    Flood(p, run, at) && r.count == 0 && r.firstFail == at && r.until == Some(at + GLOBAL_LOCKOUT_CAP)
  }

  /** With the window at least as long as the lock, a lock is followed by most of a quota just
      before the window ends and a whole quota right after it. */
  lemma FloodCycle(p: Policy, run: seq<Attempt>, at: nat) returns (longer: seq<Attempt>)
    requires p.maxAttempts >= 2 && p.window >= GLOBAL_LOCKOUT_CAP && JustLocked(p, run, at)
    ensures JustLocked(p, longer, at + p.window + 1) && |longer| == |run| + 2 * p.maxAttempts - 1
  {
    longer := FloodCounts(p, run, at, at + p.window, p.maxAttempts - 1);
    longer := FloodLocks(p, longer, at + p.window, at + p.window + 1);
  }

  lemma LongWindowRefutes(p: Policy)
    requires p.maxAttempts >= 2 && p.window >= GLOBAL_LOCKOUT_CAP
    ensures !BudgetHolds(p)
  {
    var w := p.window;
    var run := FloodLocks(p, [], 0, 0);
    run := FloodCycle(p, run, 0);
    run := FloodCycle(p, run, w + 1);
    run := FloodCycle(p, run, 2 * w + 2);
    ThreeWindows(p, |run|);
    FloodRefutes(p, run, 3 * w + 3);
  }

  lemma ThreeWindows(p: Policy, n: nat)
    requires p.maxAttempts >= 2 && p.window >= GLOBAL_LOCKOUT_CAP && n == 7 * p.maxAttempts - 3
    ensures n > p.maxAttempts * (2 + (3 * p.window + 3) / p.window)
  {
    QuotientUnique(3 * p.window + 3, p.window, 3);
    assert p.maxAttempts * 5 < n;
  }

  /** When every wrong code locks, wrong codes come once per lock, however long the window is. */
  lemma {:induction false} FloodPerLock(p: Policy, k: nat) returns (run: seq<Attempt>)
    requires p.maxAttempts == 1
    ensures Flood(p, run, k * GLOBAL_LOCKOUT_CAP) && |run| == k + 1
    ensures var r := GlobalAfter(p, run);
            r.count == 0 && r.firstFail == k * GLOBAL_LOCKOUT_CAP && r.until == Some((k + 1) * GLOBAL_LOCKOUT_CAP)
  {
    if k == 0 {
      run := FloodLocks(p, [], 0, 0);
    } else {
      var shorter := FloodPerLock(p, k - 1);
      run := FloodLocks(p, shorter, (k - 1) * GLOBAL_LOCKOUT_CAP, k * GLOBAL_LOCKOUT_CAP);
    }
  }

  lemma SingleAttemptRefutes(p: Policy)
    requires p.maxAttempts == 1 && p.window > GLOBAL_LOCKOUT_CAP
    ensures !BudgetHolds(p)
  {
    var w := p.window;
    var run := FloodPerLock(p, 2 * w);
    assert 2 * w * GLOBAL_LOCKOUT_CAP == w * (2 * GLOBAL_LOCKOUT_CAP);
    QuotientUnique(2 * w * GLOBAL_LOCKOUT_CAP, w, 2 * GLOBAL_LOCKOUT_CAP);
    FloodRefutes(p, run, 2 * w * GLOBAL_LOCKOUT_CAP);
  }

  lemma QuotientUnique(x: nat, w: nat, q: nat)
    requires w > 0 && w * q <= x < w * q + w
    ensures x / w == q
  {
    var k := x / w;
    assert x == w * k + x % w;
    if k < q {
      ProductMonotone(w, k + 1, q);
      Distribute(w, k, 1);
      assert false;
    }
    if k > q {
      ProductMonotone(w, q + 1, k);
      Distribute(w, q, 1);
      assert false;
    }
  }

  /** The budget of `maxAttempts` wrong codes per window holds for all runs exactly when the global
      lock separates windows; the bot's own policy of 5 attempts in 600 s does. */
  lemma BudgetHoldsExactly(p: Policy)
    requires p.maxAttempts >= 1 && p.window > 0
    ensures BudgetHolds(p) <==> LocksSeparateWindows(p)
  {
    if LocksSeparateWindows(p) {
      forall start: nat, prior, segment, from: nat, to: nat | Segment(p, start, prior, segment, from, to)
        ensures WithinBudget(p, start, prior, segment, from, to)
      {
        WrongCodesBounded(p, start, prior, segment, from, to);
      }
    } else if p.maxAttempts >= 2 {
      LongWindowRefutes(p);
    } else {
      SingleAttemptRefutes(p);
    }
  }

  // ---------------------------------------------------------------------------------------------
  // Sessions

  /** When the identity last had a right code evaluated. */
  ghost function LastGranted(p: Policy, g: Guard, run: seq<Attempt>, user: int, n: nat): Option<nat>
    requires n <= |run|
  {
    if n == 0 then None
    else if run[n - 1].user == user && ReplyAt(p, g, run, n - 1).Granted? then Some(run[n - 1].now)
    else LastGranted(p, g, run, user, n - 1)
  }

  ghost function Session(g: Guard, user: int): Option<nat> {
    if user in g.sessions then Some(g.sessions[user]) else None
  }

  lemma StepMovesSession(g: Guard, p: Policy, a: Attempt, user: int)
    ensures var (g', reply) := Step(g, p, a);
            Session(g', user) == if a.user == user && reply.Granted? then Some(a.now) else Session(g, user)
  {
  }

  /** A session only ever comes from a right code of its own identity, and dates from the last one. */
  lemma {:induction false} SessionIsLastSuccess(p: Policy, start: nat, run: seq<Attempt>, user: int, n: nat)
    requires n <= |run|
    ensures Session(StateAt(p, Fresh(start), run, n), user) == LastGranted(p, Fresh(start), run, user, n)
  {
    if n > 0 {
      SessionIsLastSuccess(p, start, run, user, n - 1);
      StepMovesSession(StateAt(p, Fresh(start), run, n - 1), p, run[n - 1], user);
    }
  }

  // ---------------------------------------------------------------------------------------------
  // The ladder and the locks

  /** How many locks of its own the identity has earned since its last success. */
  ghost function LocksSinceSuccess(p: Policy, g: Guard, run: seq<Attempt>, user: int, n: nat): nat
    requires n <= |run|
  {
    if n == 0 then 0
    else if run[n - 1].user != user then LocksSinceSuccess(p, g, run, user, n - 1)
    else
      match ReplyAt(p, g, run, n - 1)
      case Granted => 0
      case Denied(Locked(_)) => LocksSinceSuccess(p, g, run, user, n - 1) + 1
      case _ => LocksSinceSuccess(p, g, run, user, n - 1)
  }

  ghost function Level(g: Guard, user: int): nat {
    if user in g.failed then g.failed[user].level else 0
  }

  lemma StepMovesLevel(g: Guard, p: Policy, a: Attempt, user: int)
    requires |p.ladder| > 0
    ensures var (g', reply) := Step(g, p, a);
            Level(g', user) ==
              if a.user != user then Level(g, user)
              else if reply.Granted? then 0
              else if reply.Denied? && reply.outcome.Locked? && Level(g, user) < |p.ladder| - 1 then Level(g, user) + 1
              else Level(g, user)
  {
  }

  lemma {:induction false} LevelCountsLocks(p: Policy, start: nat, run: seq<Attempt>, user: int, n: nat)
    requires n <= |run| && |p.ladder| > 0
    ensures Level(StateAt(p, Fresh(start), run, n), user)
            == Min(LocksSinceSuccess(p, Fresh(start), run, user, n), |p.ladder| - 1)
  {
    if n > 0 {
      LevelCountsLocks(p, start, run, user, n - 1);
      StepMovesLevel(StateAt(p, Fresh(start), run, n - 1), p, run[n - 1], user);
    }
  }

  /** An identity's k-th lock since its last success lasts as long as rung min(k, length) says. */
  lemma LockFollowsLadder(p: Policy, start: nat, run: seq<Attempt>, i: nat)
    requires i < |run| && |p.ladder| > 0
    ensures var reply := ReplyAt(p, Fresh(start), run, i);
            var k := LocksSinceSuccess(p, Fresh(start), run, run[i].user, i) + 1;
            reply.Denied? && reply.outcome.Locked? ==> reply.outcome.duration == p.ladder[Min(k, |p.ladder|) - 1]
  {
    LevelCountsLocks(p, start, run, run[i].user, i);
  }

  // When locks come

  /** The failures of an identity that still count, as its replies tell: how many wrong codes it has had
      evaluated since its last success, own lock or new window, and when that window began. A lock
      begins a window of its own. */
  datatype Streak = Nothing | Since(base: nat, failures: nat)

  /** One more wrong code at `t`: it starts over when the window is past. */
  function Joined(k: Streak, t: nat, window: nat): Streak {
    if k.Nothing? || t > k.base + window then Since(t, 1) else Since(k.base, k.failures + 1)
  }

  ghost function OwnStreak(p: Policy, start: nat, run: seq<Attempt>, user: int, n: nat): Streak
    requires n <= |run|
  {
    if n == 0 then Nothing
    else if run[n - 1].user != user then OwnStreak(p, start, run, user, n - 1)
    else
      match ReplyAt(p, Fresh(start), run, n - 1)
      case Refused(_) => OwnStreak(p, start, run, user, n - 1)
      case Granted => Nothing
      case Denied(Locked(_)) => Since(run[n - 1].now, 0)
      case Denied(Invalid(_)) => Joined(OwnStreak(p, start, run, user, n - 1), run[n - 1].now, p.window)
  }

  ghost function OwnUntil(g: Guard, user: int): Option<nat> {
    if user in g.failed then g.failed[user].until else None
  }

  /** A wrong code at `t` locks exactly when it completes the quota, and otherwise says how many there
      have been; `until` is the identity's lock afterwards. */
  ghost predicate Due(p: Policy, k: Streak, t: nat, outcome: FailureOutcome, until: Option<nat>) {
    var failures := Joined(k, t, p.window).failures;
    && (outcome.Locked? <==> failures >= p.maxAttempts)
    && (outcome.Invalid? ==> outcome.attempts == failures)
    && (outcome.Locked? ==> until == Some(t + outcome.duration))
  }

  /** The record of an identity says what its replies have told. */
  ghost predicate RecordTells(g: Guard, user: int, k: Streak, now: nat) {
    match k
    case Nothing => user !in g.failed
    case Since(base, failures) => base <= now && user in g.failed && g.failed[user].firstFail == base && g.failed[user].count == failures
  }

  lemma StepTells(p: Policy, g: Guard, a: Attempt, user: int, k: Streak, now: nat)
    requires RecordTells(g, user, k, now) && now <= a.now
    ensures var (g', reply) := Step(g, p, a);
            RecordTells(g', user,
                        if a.user != user || reply.Refused? then k
                        else if reply.Granted? then Nothing
                        else if reply.outcome.Locked? then Since(a.now, 0)
                        else Joined(k, a.now, p.window), a.now)
    ensures var (g', reply) := Step(g, p, a);
            a.user == user && reply.Denied? ==> Due(p, k, a.now, reply.outcome, OwnUntil(g', user))
  {
  }

  lemma {:induction false} RecordAlwaysTells(p: Policy, start: nat, run: seq<Attempt>, user: int, n: nat, to: nat)
    requires n <= |run| && Timed(run, start, to)
    ensures RecordTells(StateAt(p, Fresh(start), run, n), user, OwnStreak(p, start, run, user, n), Clock(run, start, n))
  {
    if n > 0 {
      RecordAlwaysTells(p, start, run, user, n - 1, to);
      StepTells(p, StateAt(p, Fresh(start), run, n - 1), run[n - 1], user, OwnStreak(p, start, run, user, n - 1), Clock(run, start, n - 1));
    }
  }

  lemma StateNext(p: Policy, g: Guard, run: seq<Attempt>, i: nat)
    requires i < |run|
    ensures Step(StateAt(p, g, run, i), p, run[i]) == (StateAt(p, g, run, i + 1), ReplyAt(p, g, run, i))
  {
  }

  /** In every run, a wrong code locks its identity exactly when it is the maxAttempts-th in the current
      window; before that the reply says how many there have been. */
  lemma OwnLockComesExactly(p: Policy, start: nat, run: seq<Attempt>, i: nat, to: nat)
    requires i < |run| && Timed(run, start, to) && ReplyAt(p, Fresh(start), run, i).Denied?
    ensures Due(p, OwnStreak(p, start, run, run[i].user, i), run[i].now, ReplyAt(p, Fresh(start), run, i).outcome,
                OwnUntil(StateAt(p, Fresh(start), run, i + 1), run[i].user))
  {
    var user, g := run[i].user, StateAt(p, Fresh(start), run, i);
    RecordAlwaysTells(p, start, run, user, i, to);
    StateNext(p, Fresh(start), run, i);
    StepTells(p, g, run[i], user, OwnStreak(p, start, run, user, i), Clock(run, start, i));
  }

  /** One identity, sending wrong codes from start-up on. */
  ghost predicate Persistent(p: Policy, start: nat, run: seq<Attempt>) {
    && 1 <= |run| <= p.maxAttempts && Timed(run, start, run[0].now + p.window) && run[|run| - 1].now <= start + p.window
    && forall i | 0 <= i < |run| :: run[i].user == run[0].user && !run[i].correct
  }

  /** `n` wrong codes of one identity and nothing else. */
  ghost predicate SoFar(g: Guard, user: int, start: nat, first: nat, n: nat) {
    && g.global.count == n && g.global.firstFail == start && g.global.until.None?
    && (if n == 0 then user !in g.failed else user in g.failed && g.failed[user] == FailedRecord(n, first, None, 0))
  }

  lemma PersistentStep(p: Policy, g: Guard, a: Attempt, start: nat, first: nat, n: nat)
    requires SoFar(g, a.user, start, first, n) && !a.correct && |p.ladder| > 0 && n < p.maxAttempts
    requires start <= first <= a.now <= start + p.window && (n == 0 ==> first == a.now)
    ensures var (g', reply) := Step(g, p, a);
            if n + 1 < p.maxAttempts then reply == Denied(Invalid(n + 1)) && SoFar(g', a.user, start, first, n + 1)
            else reply == Denied(Locked(p.ladder[0])) && LockedUntil(g', a.user, a.now + p.ladder[0])
  {
  }

  lemma {:induction false} PersistentState(p: Policy, start: nat, run: seq<Attempt>, n: nat)
    requires Persistent(p, start, run) && n < |run| && |p.ladder| > 0
    ensures SoFar(StateAt(p, Fresh(start), run, n), run[0].user, start, run[0].now, n)
  {
    if n > 0 {
      PersistentState(p, start, run, n - 1);
      assert run[0].now <= run[n - 1].now <= run[|run| - 1].now;
      PersistentStep(p, StateAt(p, Fresh(start), run, n - 1), run[n - 1], start, run[0].now, n - 1);
    }
  }

  /** `maxAttempts` wrong codes of one identity within a window from start-up: the replies count them,
      and the last one brings the first rung of the ladder. */
  lemma QuotaLocks(p: Policy, start: nat, run: seq<Attempt>, i: nat)
    requires Persistent(p, start, run) && i < |run| && |p.ladder| > 0
    ensures var reply := ReplyAt(p, Fresh(start), run, i);
            if i + 1 < p.maxAttempts then reply == Denied(Invalid(i + 1))
            else
              && reply == Denied(Locked(p.ladder[0]))
              && LockedUntil(StateAt(p, Fresh(start), run, i + 1), run[i].user, run[i].now + p.ladder[0])
  {
    PersistentState(p, start, run, i);
    assert run[0].now <= run[i].now <= run[|run| - 1].now;
    PersistentStep(p, StateAt(p, Fresh(start), run, i), run[i], start, run[0].now, i);
  }

  /** The same for everybody together: the failures that count towards the global lock. */
  ghost function GlobalStreak(p: Policy, start: nat, run: seq<Attempt>, n: nat): Streak
    requires n <= |run|
  {
    if n == 0 then Since(start, 0)
    else
      var k := GlobalStreak(p, start, run, n - 1);
      match ReplyAt(p, Fresh(start), run, n - 1)
      case Refused(_) => k
      case Granted => Since(run[n - 1].now, 0)
      case Denied(_) =>
        var k' := Joined(k, run[n - 1].now, p.window);
        if k'.failures >= p.maxAttempts then Since(run[n - 1].now, 0) else k'
  }

  ghost predicate GlobalTells(r: FailedRecord, k: Streak, now: nat) {
    k.Since? && k.base <= now && r.firstFail == k.base && r.count == k.failures
  }

  lemma {:induction false} GlobalAlwaysTells(p: Policy, start: nat, run: seq<Attempt>, n: nat, to: nat)
    requires n <= |run| && Timed(run, start, to)
    ensures GlobalTells(StateAt(p, Fresh(start), run, n).global, GlobalStreak(p, start, run, n), Clock(run, start, n))
  {
    if n > 0 {
      GlobalAlwaysTells(p, start, run, n - 1, to);
      GlobalStepTells(p, StateAt(p, Fresh(start), run, n - 1), run[n - 1], GlobalStreak(p, start, run, n - 1), Clock(run, start, n - 1));
    }
  }

  lemma GlobalStepTells(p: Policy, g: Guard, a: Attempt, k: Streak, now: nat)
    requires GlobalTells(g.global, k, now) && now <= a.now
    ensures var (g', reply) := Step(g, p, a);
            match reply
            case Refused(_) => GlobalTells(g'.global, k, a.now)
            case Granted => GlobalTells(g'.global, Since(a.now, 0), a.now)
            case Denied(_) =>
              var k' := Joined(k, a.now, p.window);
              && GlobalTells(g'.global, if k'.failures >= p.maxAttempts then Since(a.now, 0) else k', a.now)
              && g'.global.until == GlobalUntil(p, k, a.now)
  {
  }

  ghost function GlobalUntil(p: Policy, k: Streak, t: nat): Option<nat> {
    if Joined(k, t, p.window).failures >= p.maxAttempts then Some(t + 900 * SECOND) else None
  }

  /** In every run, a wrong code sets the global lock exactly when it is the maxAttempts-th of anybody
      in the current global window, and the lock is 900 s long. */
  lemma GlobalLockComesExactly(p: Policy, start: nat, run: seq<Attempt>, i: nat, to: nat)
    requires i < |run| && Timed(run, start, to) && ReplyAt(p, Fresh(start), run, i).Denied?
    ensures StateAt(p, Fresh(start), run, i + 1).global.until == GlobalUntil(p, GlobalStreak(p, start, run, i), run[i].now)
  {
    var g, k := StateAt(p, Fresh(start), run, i), GlobalStreak(p, start, run, i);
    GlobalAlwaysTells(p, start, run, i, to);
    StateNext(p, Fresh(start), run, i);
    GlobalStepTells(p, g, run[i], k, Clock(run, start, i));
  }

  ghost predicate InForce(until: Option<nat>, now: nat) { until.Some? && until.value > now }

  /** An attempt is refused exactly when its own or the global lock is in force, and is told the longer
      of the two. */
  lemma RefusedExactly(p: Policy, g: Guard, a: Attempt)
    ensures var reply := Step(g, p, a).1;
            var own, global := OwnUntil(g, a.user), g.global.until;
            && (reply.Refused? <==> InForce(own, a.now) || InForce(global, a.now))
            && (reply.Refused? ==>
                  && (InForce(own, a.now) ==> a.now + reply.remaining >= own.value)
                  && (InForce(global, a.now) ==> a.now + reply.remaining >= global.value)
                  && (Some(a.now + reply.remaining) == own || Some(a.now + reply.remaining) == global))
            && (!reply.Refused? ==> (reply.Granted? <==> a.correct))
  {
  }

  ghost predicate LockedUntil(g: Guard, user: int, end: nat) {
    user in g.failed && g.failed[user].until == Some(end)
  }

  lemma StepKeepsOwnLock(g: Guard, p: Policy, a: Attempt, user: int, end: nat)
    requires LockedUntil(g, user, end) && a.now < end
    ensures LockedUntil(Step(g, p, a).0, user, end)
  {
  }

  lemma {:induction false} OwnLockPersists(p: Policy, g: Guard, run: seq<Attempt>, i: nat, j: nat, end: nat)
    requires i < j <= |run|
    requires forall k | i < k < j :: run[k].now < end
    requires LockedUntil(StateAt(p, g, run, i + 1), run[i].user, end)
    ensures LockedUntil(StateAt(p, g, run, j), run[i].user, end)
  {
    if i + 1 < j {
      OwnLockPersists(p, g, run, i, j - 1, end);
      assert run[j - 1].now < end;
      StepKeepsOwnLock(StateAt(p, g, run, j - 1), p, run[j - 1], run[i].user, end);
    }
  }

  /** While an identity's own lock runs, no code from it is evaluated, whatever other identities do. */
  lemma OwnLockEnforced(p: Policy, g: Guard, run: seq<Attempt>, i: nat, j: nat, duration: nat)
    requires i < j < |run| && run[i].user == run[j].user
    requires forall a, b | 0 <= a < b < |run| :: run[a].now <= run[b].now
    requires ReplyAt(p, g, run, i) == Denied(Locked(duration))
    requires run[j].now < run[i].now + duration
    ensures ReplyAt(p, g, run, j).Refused? && ReplyAt(p, g, run, j).remaining >= run[i].now + duration - run[j].now
  {
    OwnLockPersists(p, g, run, i, j, run[i].now + duration);
  }

  lemma {:induction false} GlobalLockPersists(p: Policy, g: Guard, run: seq<Attempt>, i: nat, j: nat, end: nat)
    requires i <= j <= |run|
    requires forall k | i <= k < j :: run[k].now < end
    requires StateAt(p, g, run, i).global.until == Some(end)
    ensures StateAt(p, g, run, j).global.until == Some(end)
  {
    if i < j {
      GlobalLockPersists(p, g, run, i, j - 1, end);
      assert run[j - 1].now < end;
    }
  }

  /** While the global lock runs, no code is evaluated for anyone, so nobody can lift it early. */
  lemma GlobalLockEnforced(p: Policy, g: Guard, run: seq<Attempt>, i: nat, j: nat, end: nat)
    requires i <= j < |run|
    requires forall a, b | 0 <= a < b < |run| :: run[a].now <= run[b].now
    requires StateAt(p, g, run, i).global.until == Some(end) && run[j].now < end
    ensures ReplyAt(p, g, run, j).Refused? && ReplyAt(p, g, run, j).remaining >= end - run[j].now
  {
    GlobalLockPersists(p, g, run, i, j, end);
  }
}
