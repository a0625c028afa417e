/** The three-phase run with its single state file (`run.rs`): any process may die between any two
    steps and be started again.

    Saving the state is one atomic rename, and writing one pool file is one atomic step. */
module Resume {
  import opened Bytes
  import opened Wrappers
  import opened SortedNames
  import opened RunState
  import opened PoolFiles
  import DL = DomainList
  import P = Pipeline
  import Stages

  /** What stays the same across restarts: how addresses parse, the deep probe's verdicts, and which
      file a country's pool is in. The source upper-cases the country, so spellings may share one. */
  datatype Env = Env(parse: Parser, judge: Judge, fileOf: string -> string)

  datatype Disk = Disk(state: Option<seq<byte>>, pools: map<string, seq<byte>>)

  /** Where a live process is between two steps; the `Save` points hold unsaved results. */
  datatype Point =
    | AtResolve
    | SaveResolve
    | AtSurvive
    | SaveSurvive
    | AtBuild
    | Writing(accepted: seq<Entry>, todo: set<string>)
    | SaveBuild
    | Done

  datatype Process = Off | Running(mem: State, at: Point)

  datatype System = System(disk: Disk, process: Process)

  datatype Action =
    | Boot
    | Skip
    | Resolve(resolved: seq<Entry>)
    | Survive(jobs: seq<P.Job>, out: seq<Entry>)
    | Build(out: seq<Entry>)
    | WriteFile(country: string)
    | EndWrites
    | Save
    | Crash

  function Load(env: Env, disk: Disk): Result<State> {
    if disk.state.None? then Ok(EMPTY) else Decoded(env.parse, disk.state.value)
  }

  function Slot(pools: map<string, seq<byte>>, file: string): Option<seq<byte>> {
    if file in pools then Some(pools[file]) else None
  }

  /** The jobs of phase three: entries without an address are dropped, the rest are judged. */
  function BuildJobs(judge: Judge, entries: seq<Entry>): seq<P.Job> {
    seq(|entries|, i requires 0 <= i < |entries| =>
      if entries[i].ip.None? then P.NoAddress else if judge(entries[i]).Pool? then P.Accepted else P.Rejected)
  }

  /** Phase two may reach any verdict about an entry that has an address, and a new one every time. */
  ghost predicate SurvivalJobs(entries: seq<Entry>, jobs: seq<P.Job>) {
    |jobs| == |entries| && forall i | 0 <= i < |jobs| :: jobs[i].NoAddress? <==> entries[i].ip.None?
  }

  ghost predicate Enabled(env: Env, s: System, a: Action) {
    match s.process
    case Off => a.Boot? && Load(env, s.disk).Ok?
    case Running(mem, at) =>
      match a
      case Boot => false
      case Crash => true
      case Skip =>
        (at.AtResolve? && IsDone(mem, PHASE_RESOLVE)) || (at.AtSurvive? && IsDone(mem, PHASE_SURVIVAL))
        || (at.AtBuild? && IsDone(mem, PHASE_BUILD))
      case Resolve(resolved) => at.AtResolve? && !IsDone(mem, PHASE_RESOLVE) && ValidEntries(env.parse, resolved)
      case Survive(jobs, out) =>
        at.AtSurvive? && !IsDone(mem, PHASE_SURVIVAL) && SurvivalJobs(mem.phase1, jobs) && Stages.Delivers(mem.phase1, jobs, out)
      case Build(out) =>
        at.AtBuild? && !IsDone(mem, PHASE_BUILD) && Stages.Delivers(mem.phase2, BuildJobs(env.judge, mem.phase2), out)
      case WriteFile(country) => at.Writing? && country in at.todo
      case EndWrites => at.Writing? && at.todo == {}
      case Save => at.SaveResolve? || at.SaveSurvive? || at.SaveBuild?
  }

  ghost function Apply(env: Env, s: System, a: Action): System
    requires Enabled(env, s, a)
  {
    match a
    case Boot => s.(process := Running(Load(env, s.disk).value, AtResolve))
    case Crash => s.(process := Off)
    case Skip =>
      s.(process := s.process.(at := if s.process.at.AtResolve? then AtSurvive else if s.process.at.AtSurvive? then AtBuild else Done))
    case Resolve(resolved) =>
      s.(process := Running(MarkedDone(s.process.mem.(phase1 := resolved), PHASE_RESOLVE), SaveResolve))
    case Survive(_, out) =>
      s.(process := Running(MarkedDone(s.process.mem.(phase2 := out), PHASE_SURVIVAL), SaveSurvive))
    case Build(out) =>
      s.(process := s.process.(at := Writing(out, Countries(env.judge, out))))
    case WriteFile(country) =>
      var file := env.fileOf(country);
      var data := Rewritten(Slot(s.disk.pools, file), BucketOf(env.judge, s.process.at.accepted, country));
      System(s.disk.(pools := s.disk.pools[file := data]),
             s.process.(at := Writing(s.process.at.accepted, s.process.at.todo - {country})))
    case EndWrites =>
      s.(process := Running(MarkedDone(s.process.mem.(phase3 := s.process.at.accepted), PHASE_BUILD), SaveBuild))
    case Save =>
      System(s.disk.(state := Some(Encoded(s.process.mem))),
             s.process.(at := if s.process.at.SaveResolve? then AtSurvive else if s.process.at.SaveSurvive? then AtBuild else Done))
  }

  datatype Outcome = Impossible | At(system: System)

  /** The system after any sequence of steps and crashes, from no state file and the given pools. */
  ghost function After(env: Env, base: map<string, seq<byte>>, run: seq<Action>): Outcome {
    if run == [] then At(System(Disk(None, base), Off))
    else
      var n := |run| - 1;
      match After(env, base, run[..n])
      case Impossible => Impossible
      case At(s) => if Enabled(env, s, run[n]) then At(Apply(env, s, run[n])) else Impossible
  }

  // ---------------------------------------------------------------------------------------------
  // Phase three's effect on the pools

  ghost function AcceptedOf(env: Env, entries: seq<Entry>): seq<Entry> {
    Stages.Kept(entries, BuildJobs(env.judge, entries))
  }

  /** The accepted countries whose pools share a file. */
  ghost function Spellings(env: Env, accepted: seq<Entry>, file: string): set<string> {
    set c | c in Countries(env.judge, accepted) && env.fileOf(c) == file
  }

  /** A pool file into which the names of some countries have been merged. */
  ghost function Merged(env: Env, base: map<string, seq<byte>>, accepted: seq<Entry>, file: string, countries: set<string>): Option<seq<byte>> {
    if countries == {} then Slot(base, file)
    else Some(Rewritten(Slot(base, file), BucketIn(env.judge, accepted, countries)))
  }

  /** What a pool file must hold once phase three is saved. */
  ghost function Target(env: Env, base: map<string, seq<byte>>, entries: seq<Entry>, file: string): Option<seq<byte>> {
    var accepted := AcceptedOf(env, entries);
    Merged(env, base, accepted, file, Spellings(env, accepted, file))
  }

  /** A pool file holds the names of all countries in `done`, and of no others but some that belong
      there as well. */
  ghost predicate HoldsAtLeast(env: Env, base: map<string, seq<byte>>, saved: State, pools: map<string, seq<byte>>, file: string, done: set<string>) {
    exists countries :: HoldsExactly(env, base, saved, pools, file, done, countries)
  }

  ghost predicate HoldsExactly(env: Env, base: map<string, seq<byte>>, saved: State, pools: map<string, seq<byte>>, file: string, done: set<string>, countries: set<string>) {
    var accepted := AcceptedOf(env, saved.phase2);
    && done <= countries <= Spellings(env, accepted, file)
    && Slot(pools, file) == Merged(env, base, accepted, file, countries)
  }

  ghost predicate Reached(env: Env, base: map<string, seq<byte>>, saved: State, pools: map<string, seq<byte>>, file: string) {
    Slot(pools, file) == Target(env, base, saved.phase2, file)
  }

  /** What the writing process has still to do, of the countries in a file. */
  ghost function DoneIn(env: Env, saved: State, file: string, todo: set<string>): set<string> {
    Spellings(env, AcceptedOf(env, saved.phase2), file) - todo
  }

  /** Where the pool files stand: untouched until phase two is saved, each part of the way while phase
      three is under way, all at their target once it is saved. */
  ghost predicate PoolsAgree(env: Env, base: map<string, seq<byte>>, saved: State, s: System) {
    && (saved.completed < 3 ==> s.disk.pools == base)
    && (saved.completed == 3 ==> forall f :: HoldsAtLeast(env, base, saved, s.disk.pools, f, {}))
    && (saved.completed == 7 || (s.process.Running? && s.process.at.SaveBuild?) ==>
          forall f :: Reached(env, base, saved, s.disk.pools, f))
    && (s.process.Running? && s.process.at.Writing? ==>
          var Writing(accepted, todo) := s.process.at;
          && multiset(accepted) == multiset(AcceptedOf(env, saved.phase2))
          && todo <= Countries(env.judge, accepted)
          && forall f :: HoldsAtLeast(env, base, saved, s.disk.pools, f, DoneIn(env, saved, f, todo)))
  }

  // ---------------------------------------------------------------------------------------------
  // The invariant

  ghost predicate SubBag(a: seq<Entry>, b: seq<Entry>) { multiset(a) <= multiset(b) }

  /** The phases recorded as done are a prefix, and each list comes out of the one before. */
  ghost predicate Consistent(env: Env, st: State) {
    && ValidState(env.parse, st)
    && st.completed in {0, 1, 3, 7}
    && (st.completed < 1 ==> st.phase1 == [])
    && (st.completed < 3 ==> st.phase2 == [])
    && (st.completed < 7 ==> st.phase3 == [])
    && SubBag(st.phase2, st.phase1)
    && SubBag(st.phase3, st.phase2)
  }

  /** How the process's own copy of the state relates to the saved one at each point. */
  ghost predicate MemoryAgrees(saved: State, mem: State, at: Point) {
    match at
    case AtResolve => mem == saved
    case SaveResolve => saved.completed == 0 && mem.completed == 1
    case AtSurvive => mem == saved && saved.completed >= 1
    case SaveSurvive => saved.completed == 1 && mem.completed == 3 && mem.phase1 == saved.phase1
    case AtBuild => mem == saved && saved.completed >= 3
    case Writing(accepted, _) => mem == saved && saved.completed == 3 && SubBag(accepted, saved.phase2)
    case SaveBuild =>
      saved.completed == 3 && mem.completed == 7 && mem.phase1 == saved.phase1 && mem.phase2 == saved.phase2
    case Done => mem == saved && saved.completed == 7
  }

  ghost predicate StateAgrees(env: Env, s: System) {
    && Load(env, s.disk).Ok?
    && Consistent(env, Load(env, s.disk).value)
    && (s.process.Running? ==>
          Consistent(env, s.process.mem) && MemoryAgrees(Load(env, s.disk).value, s.process.mem, s.process.at))
  }

  ghost predicate Invariant(env: Env, base: map<string, seq<byte>>, s: System) {
    StateAgrees(env, s) && PoolsAgree(env, base, Load(env, s.disk).value, s)
  }

  lemma SubBagValid(env: Env, a: seq<Entry>, b: seq<Entry>)
    requires SubBag(a, b) && ValidEntries(env.parse, b)
    ensures ValidEntries(env.parse, a)
  {
    forall i | 0 <= i < |a| ensures ValidEntry(env.parse, a[i]) {
      assert a[i] in multiset(a);
      assert a[i] in multiset(b);
      assert a[i] in b;
    }
  }

  lemma SameBagSameMembers(a: seq<Entry>, b: seq<Entry>)
    requires multiset(a) == multiset(b)
    ensures forall e :: e in a <==> e in b
  {
    assert forall e :: e in a <==> e in multiset(a);
    assert forall e :: e in b <==> e in multiset(b);
  }

  lemma DoneBits(st: State)
    requires st.completed in {0, 1, 3, 7}
    ensures IsDone(st, PHASE_RESOLVE) <==> st.completed >= 1
    ensures IsDone(st, PHASE_SURVIVAL) <==> st.completed >= 3
    ensures IsDone(st, PHASE_BUILD) <==> st.completed >= 7
  {
  }

  lemma ControlKeepsState(env: Env, s: System, a: Action)
    requires StateAgrees(env, s) && Enabled(env, s, a) && (a.Boot? || a.Crash?)
    ensures StateAgrees(env, Apply(env, s, a))
  {
  }

  lemma SkipKeepsState(env: Env, s: System)
    requires StateAgrees(env, s) && Enabled(env, s, Skip)
    ensures StateAgrees(env, Apply(env, s, Skip))
  {
    DoneBits(s.process.mem);
  }

  lemma WriteKeepsState(env: Env, s: System, country: string)
    requires StateAgrees(env, s) && Enabled(env, s, WriteFile(country))
    ensures StateAgrees(env, Apply(env, s, WriteFile(country)))
  {
    assert Load(env, Apply(env, s, WriteFile(country)).disk) == Load(env, s.disk);
  }

  lemma ResolveKeepsState(env: Env, s: System, resolved: seq<Entry>)
    requires StateAgrees(env, s) && Enabled(env, s, Resolve(resolved))
    ensures StateAgrees(env, Apply(env, s, Resolve(resolved)))
  {
    var mem := s.process.mem;
    DoneBits(mem);
    assert mem.completed == 0;
    assert SubBag(mem.phase2, resolved);
  }

  lemma SurviveKeepsState(env: Env, s: System, jobs: seq<P.Job>, out: seq<Entry>)
    requires StateAgrees(env, s) && Enabled(env, s, Survive(jobs, out))
    ensures StateAgrees(env, Apply(env, s, Survive(jobs, out)))
  {
    var mem := s.process.mem;
    DoneBits(mem);
    assert mem.completed == 1;
    Stages.DeliveredIsSubBag(mem.phase1, jobs, out);
    SubBagValid(env, out, mem.phase1);
    assert Consistent(env, mem.(phase2 := out, completed := 3));
    assert Apply(env, s, Survive(jobs, out)).process == Running(mem.(phase2 := out, completed := 3), SaveSurvive);
  }

  lemma BuildKeepsState(env: Env, s: System, out: seq<Entry>)
    requires StateAgrees(env, s) && Enabled(env, s, Build(out))
    ensures StateAgrees(env, Apply(env, s, Build(out)))
  {
    var mem := s.process.mem;
    DoneBits(mem);
    assert mem.completed == 3;
    Stages.DeliveredIsSubBag(mem.phase2, BuildJobs(env.judge, mem.phase2), out);
  }

  lemma EndWritesKeepsState(env: Env, s: System)
    requires StateAgrees(env, s) && Enabled(env, s, EndWrites)
    ensures StateAgrees(env, Apply(env, s, EndWrites))
  {
    var mem, out := s.process.mem, s.process.at.accepted;
    SubBagValid(env, out, mem.phase2);
    assert Consistent(env, mem.(phase3 := out, completed := 7));
    assert Apply(env, s, EndWrites).process == Running(mem.(phase3 := out, completed := 7), SaveBuild);
  }

  lemma SaveKeepsState(env: Env, s: System)
    requires StateAgrees(env, s) && Enabled(env, s, Save)
    ensures StateAgrees(env, Apply(env, s, Save))
    ensures Load(env, Apply(env, s, Save).disk) == Ok(s.process.mem)
  {
    RoundTrip(env.parse, s.process.mem);
  }

  /** The state file and the process's copy of it. */
  lemma StateKept(env: Env, s: System, a: Action)
    requires StateAgrees(env, s) && Enabled(env, s, a)
    ensures StateAgrees(env, Apply(env, s, a))
  {
    match a
    case Resolve(resolved) => ResolveKeepsState(env, s, resolved);
    case Survive(jobs, out) => SurviveKeepsState(env, s, jobs, out);
    case Build(out) => BuildKeepsState(env, s, out);
    case EndWrites => EndWritesKeepsState(env, s);
    case Save => SaveKeepsState(env, s);
    case Skip => SkipKeepsState(env, s);
    case WriteFile(country) => WriteKeepsState(env, s, country);
    case _ => ControlKeepsState(env, s, a);
  }

  lemma {:induction false} BucketIsValid(env: Env, entries: seq<Entry>, countries: set<string>)
    requires ValidEntries(env.parse, entries)
    ensures DL.ValidPools(BucketIn(env.judge, entries, countries))
  {
    if entries != [] { BucketIsValid(env, entries[..|entries| - 1], countries); }
  }

  /** Writing a country's names into its file adds exactly them to what is merged there already,
      whether or not an earlier process had written them. */
  lemma WriteMerges(env: Env, base: map<string, seq<byte>>, all: seq<Entry>, accepted: seq<Entry>, file: string, countries: set<string>, country: string)
    requires ValidEntries(env.parse, all) && forall e :: e in accepted <==> e in all
    ensures Some(Rewritten(Merged(env, base, all, file, countries), BucketOf(env.judge, accepted, country)))
            == Merged(env, base, all, file, countries + {country})
  {
    var bucket, again := BucketIn(env.judge, all, countries), BucketOf(env.judge, accepted, country);
    BucketByMembers(env.judge, accepted, all, {country});
    if countries == {} {
      assert countries + {country} == {country};
      RewriteByMembers(Slot(base, file), again, BucketIn(env.judge, all, {country}));
    } else {
      BucketIsValid(env, all, countries);
      BucketUnion(env.judge, all, countries, {country});
      RewriteTwice(Slot(base, file), bucket, again, BucketIn(env.judge, all, countries + {country}));
    }
  }

  /** A file that holds all its countries is at its target. */
  lemma AllMerged(env: Env, base: map<string, seq<byte>>, saved: State, pools: map<string, seq<byte>>, file: string)
    requires HoldsAtLeast(env, base, saved, pools, file, Spellings(env, AcceptedOf(env, saved.phase2), file))
    ensures Reached(env, base, saved, pools, file)
  {
    var countries :| HoldsExactly(env, base, saved, pools, file, Spellings(env, AcceptedOf(env, saved.phase2), file), countries);
    assert countries == Spellings(env, AcceptedOf(env, saved.phase2), file);
  }

  lemma HoldsLess(env: Env, base: map<string, seq<byte>>, saved: State, pools: map<string, seq<byte>>, file: string, done: set<string>, less: set<string>)
    requires HoldsAtLeast(env, base, saved, pools, file, done) && less <= done
    ensures HoldsAtLeast(env, base, saved, pools, file, less)
  {
    var countries :| HoldsExactly(env, base, saved, pools, file, done, countries);
    assert HoldsExactly(env, base, saved, pools, file, less, countries);
  }

  /** The step that writes one country's names. */
  lemma WriteReaches(env: Env, base: map<string, seq<byte>>, saved: State, pools: map<string, seq<byte>>, accepted: seq<Entry>, country: string, done: set<string>)
    requires ValidEntries(env.parse, AcceptedOf(env, saved.phase2)) && multiset(accepted) == multiset(AcceptedOf(env, saved.phase2))
    requires country in Countries(env.judge, accepted) && HoldsAtLeast(env, base, saved, pools, env.fileOf(country), done)
    ensures var file := env.fileOf(country);
            var data := Rewritten(Slot(pools, file), BucketOf(env.judge, accepted, country));
            HoldsAtLeast(env, base, saved, pools[file := data], file, done + {country})
  {
    var all, file := AcceptedOf(env, saved.phase2), env.fileOf(country);
    var countries :| HoldsExactly(env, base, saved, pools, file, done, countries);
    SameBagSameMembers(accepted, all);
    WriteMerges(env, base, all, accepted, file, countries, country);
    var data := Rewritten(Slot(pools, file), BucketOf(env.judge, accepted, country));
    SameCountries(env, accepted, all);
    assert Slot(pools[file := data], file) == Merged(env, base, all, file, countries + {country});
    assert HoldsExactly(env, base, saved, pools[file := data], file, done + {country}, countries + {country});
  }

  lemma SameCountries(env: Env, a: seq<Entry>, b: seq<Entry>)
    requires forall e :: e in a <==> e in b
    ensures Countries(env.judge, a) == Countries(env.judge, b)
  {
  }

  lemma OtherFileKept(env: Env, base: map<string, seq<byte>>, saved: State, pools: map<string, seq<byte>>, file: string, data: seq<byte>, f: string, done: set<string>)
    requires f != file && HoldsAtLeast(env, base, saved, pools, f, done)
    ensures HoldsAtLeast(env, base, saved, pools[file := data], f, done)
  {
    var countries :| HoldsExactly(env, base, saved, pools, f, done, countries);
    assert HoldsExactly(env, base, saved, pools[file := data], f, done, countries);
  }

  lemma WriteKeepsPools(env: Env, base: map<string, seq<byte>>, saved: State, s: System, country: string)
    requires PoolsAgree(env, base, saved, s) && Enabled(env, s, WriteFile(country))
    requires saved.completed == 3 && ValidEntries(env.parse, saved.phase2)
    ensures PoolsAgree(env, base, saved, Apply(env, s, WriteFile(country)))
  {
    var accepted, todo, pools := s.process.at.accepted, s.process.at.todo, s.disk.pools;
    var s' := Apply(env, s, WriteFile(country));
    var file := env.fileOf(country);
    var data := s'.disk.pools[file];
    Stages.KeptIsSubBag(saved.phase2, BuildJobs(env.judge, saved.phase2));
    SubBagValid(env, AcceptedOf(env, saved.phase2), saved.phase2);
    assert ValidEntries(env.parse, AcceptedOf(env, saved.phase2));
    forall f
      ensures HoldsAtLeast(env, base, saved, s'.disk.pools, f, DoneIn(env, saved, f, s'.process.at.todo))
      ensures HoldsAtLeast(env, base, saved, s'.disk.pools, f, {})
    {
      var done := DoneIn(env, saved, f, todo);
      assert HoldsAtLeast(env, base, saved, pools, f, done);
      if f == file {
        WriteReaches(env, base, saved, pools, accepted, country, done);
        HoldsLess(env, base, saved, s'.disk.pools, f, done + {country}, DoneIn(env, saved, f, s'.process.at.todo));
      } else {
        OtherFileKept(env, base, saved, pools, file, data, f, done);
        HoldsLess(env, base, saved, s'.disk.pools, f, done, DoneIn(env, saved, f, s'.process.at.todo));
      }
      HoldsLess(env, base, saved, s'.disk.pools, f, DoneIn(env, saved, f, s'.process.at.todo), {});
    }
  }

  lemma EndWritesKeepsPools(env: Env, base: map<string, seq<byte>>, saved: State, s: System)
    requires PoolsAgree(env, base, saved, s) && Enabled(env, s, EndWrites) && saved.completed == 3
    ensures PoolsAgree(env, base, saved, Apply(env, s, EndWrites))
  {
    forall f ensures Reached(env, base, saved, s.disk.pools, f) {
      assert HoldsAtLeast(env, base, saved, s.disk.pools, f, DoneIn(env, saved, f, {}));
      assert DoneIn(env, saved, f, {}) == Spellings(env, AcceptedOf(env, saved.phase2), f);
      AllMerged(env, base, saved, s.disk.pools, f);
    }
  }

  lemma SaveKeepsPools(env: Env, base: map<string, seq<byte>>, s: System)
    requires Invariant(env, base, s) && Enabled(env, s, Save)
    ensures Load(env, Apply(env, s, Save).disk) == Ok(s.process.mem)
    ensures PoolsAgree(env, base, s.process.mem, Apply(env, s, Save))
  {
    SaveKeepsState(env, s);
    var saved, mem := Load(env, s.disk).value, s.process.mem;
    if s.process.at.SaveBuild? {
      forall f ensures Reached(env, base, mem, s.disk.pools, f) {
        assert Reached(env, base, saved, s.disk.pools, f);
      }
    } else {
      forall f ensures HoldsAtLeast(env, base, mem, s.disk.pools, f, {}) {
        NothingMerged(env, base, mem, f);
      }
    }
  }

  lemma NothingMerged(env: Env, base: map<string, seq<byte>>, st: State, file: string)
    ensures HoldsAtLeast(env, base, st, base, file, {})
  {
    assert HoldsExactly(env, base, st, base, file, {}, {});
  }

  lemma BuildKeepsPools(env: Env, base: map<string, seq<byte>>, saved: State, s: System, out: seq<Entry>)
    requires PoolsAgree(env, base, saved, s) && Enabled(env, s, Build(out)) && s.process.mem == saved && saved.completed == 3
    ensures PoolsAgree(env, base, saved, Apply(env, s, Build(out)))
  {
    var all := AcceptedOf(env, saved.phase2);
    SameBagSameMembers(out, all);
    forall f ensures HoldsAtLeast(env, base, saved, s.disk.pools, f, DoneIn(env, saved, f, Countries(env.judge, out))) {
      assert Countries(env.judge, out) == Countries(env.judge, all);
      assert DoneIn(env, saved, f, Countries(env.judge, out)) == {};
      assert HoldsAtLeast(env, base, saved, s.disk.pools, f, {});
    }
  }

  lemma InvariantKept(env: Env, base: map<string, seq<byte>>, s: System, a: Action)
    requires Invariant(env, base, s) && Enabled(env, s, a)
    ensures Invariant(env, base, Apply(env, s, a))
  {
    StateKept(env, s, a);
    PoolsKept(env, base, s, a);
  }

  lemma PoolsKept(env: Env, base: map<string, seq<byte>>, s: System, a: Action)
    requires Invariant(env, base, s) && Enabled(env, s, a) && Load(env, Apply(env, s, a).disk).Ok?
    ensures PoolsAgree(env, base, Load(env, Apply(env, s, a).disk).value, Apply(env, s, a))
  {
    var saved := Load(env, s.disk).value;
    if a.Save? {
      SaveKeepsPools(env, base, s);
    } else {
      assert Apply(env, s, a).disk.state == s.disk.state;
      if a.WriteFile? {
        WriteKeepsPools(env, base, saved, s, a.country);
      } else if a.EndWrites? {
        EndWritesKeepsPools(env, base, saved, s);
      } else if a.Build? {
        DoneBits(s.process.mem);
        assert s.process.mem == Load(env, s.disk).value && s.process.mem.completed == 3;
        BuildKeepsPools(env, base, saved, s, a.out);
      }
    }
  }

  lemma {:induction false} InvariantAlways(env: Env, base: map<string, seq<byte>>, run: seq<Action>)
    requires After(env, base, run).At?
    ensures Invariant(env, base, After(env, base, run).system)
  {
    if run != [] {
      var n := |run| - 1;
      InvariantAlways(env, base, run[..n]);
      InvariantKept(env, base, After(env, base, run[..n]).system, run[n]);
    }
  }

  // ---------------------------------------------------------------------------------------------
  // What survives crashes

  ghost function SavedAfter(env: Env, base: map<string, seq<byte>>, run: seq<Action>): State
    requires After(env, base, run).At? && Load(env, After(env, base, run).system.disk).Ok?
  {
    Load(env, After(env, base, run).system.disk).value
  }

  /** Through any sequence of crashes and restarts the state file loads, the mask is a prefix of the
      phases, and each saved list is contained in the one before it, with multiplicity. */
  lemma SavedStateAlwaysConsistent(env: Env, base: map<string, seq<byte>>, run: seq<Action>)
    requires After(env, base, run).At?
    ensures Load(env, After(env, base, run).system.disk).Ok?
    ensures var st := SavedAfter(env, base, run);
            && st.completed in {0, 1, 3, 7}
            && multiset(st.phase3) <= multiset(st.phase2) <= multiset(st.phase1)
  {
    InvariantAlways(env, base, run);
  }

  /** `later` still has every phase that `earlier` had saved, with the same result. */
  ghost predicate Keeps(earlier: State, later: State) {
    && earlier.completed <= later.completed
    && (earlier.completed >= 1 ==> later.phase1 == earlier.phase1)
    && (earlier.completed >= 3 ==> later.phase2 == earlier.phase2)
    && (earlier.completed >= 7 ==> later.phase3 == earlier.phase3)
  }

  lemma StepKeepsSaved(env: Env, s: System, a: Action)
    requires StateAgrees(env, s) && Enabled(env, s, a)
    ensures Load(env, Apply(env, s, a).disk).Ok?
    ensures Keeps(Load(env, s.disk).value, Load(env, Apply(env, s, a).disk).value)
  {
    if a.Save? {
      SaveKeepsState(env, s);
    } else {
      assert Apply(env, s, a).disk.state == s.disk.state;
    }
  }

  /** A phase only runs while the state file does not record it as done. */
  lemma PhaseNotYetSaved(env: Env, s: System, a: Action)
    requires StateAgrees(env, s) && Enabled(env, s, a)
    ensures a.Resolve? ==> Load(env, s.disk).value.completed < 1
    ensures a.Survive? ==> Load(env, s.disk).value.completed < 3
    ensures a.Build? ==> Load(env, s.disk).value.completed < 7
  {
    if a.Resolve? || a.Survive? || a.Build? { DoneBits(s.process.mem); }
  }

  lemma {:induction false} PrefixPossible(env: Env, base: map<string, seq<byte>>, run: seq<Action>, n: nat)
    requires n <= |run| && After(env, base, run).At?
    ensures After(env, base, run[..n]).At?
    ensures n < |run| ==> Enabled(env, After(env, base, run[..n]).system, run[n])
    ensures n < |run| ==> After(env, base, run[..n + 1]) == At(Apply(env, After(env, base, run[..n]).system, run[n]))
  {
    if n == |run| {
      assert run[..n] == run;
    } else {
      var m := |run| - 1;
      if n < m {
        PrefixPossible(env, base, run[..m], n);
        assert run[..m][..n] == run[..n] && run[..m][..n + 1] == run[..n + 1];
      } else {
        assert run[..n + 1] == run;
      }
    }
  }

  /** The state on disk after the first `n` steps. */
  ghost function SavedAt(env: Env, base: map<string, seq<byte>>, run: seq<Action>, n: nat): Result<State>
    requires n <= |run|
  {
    match After(env, base, run[..n])
    case Impossible => Err
    case At(s) => Load(env, s.disk)
  }

  lemma SavedStep(env: Env, base: map<string, seq<byte>>, run: seq<Action>, n: nat)
    requires n < |run| && After(env, base, run).At?
    ensures SavedAt(env, base, run, n).Ok? && SavedAt(env, base, run, n + 1).Ok?
    ensures Keeps(SavedAt(env, base, run, n).value, SavedAt(env, base, run, n + 1).value)
  {
    PrefixPossible(env, base, run, n);
    InvariantAlways(env, base, run[..n]);
    StepKeepsSaved(env, After(env, base, run[..n]).system, run[n]);
  }

  lemma {:induction false} SavedPhasesStay(env: Env, base: map<string, seq<byte>>, run: seq<Action>, n: nat, m: nat)
    requires n <= m <= |run| && After(env, base, run).At?
    ensures SavedAt(env, base, run, n).Ok? && SavedAt(env, base, run, m).Ok?
    ensures Keeps(SavedAt(env, base, run, n).value, SavedAt(env, base, run, m).value)
  {
    if n == m {
      PrefixPossible(env, base, run, m);
      InvariantAlways(env, base, run[..m]);
    } else {
      SavedPhasesStay(env, base, run, n, m - 1);
      SavedStep(env, base, run, m - 1);
    }
  }

  /** Once a phase is saved, its result never changes and it is never run again. */
  lemma SavedPhasesNeverRerun(env: Env, base: map<string, seq<byte>>, run: seq<Action>, n: nat, k: nat)
    requires n <= k < |run| && After(env, base, run).At?
    ensures SavedAt(env, base, run, n).Ok?
    ensures var st := SavedAt(env, base, run, n).value;
            && (st.completed >= 1 ==> !run[k].Resolve?)
            && (st.completed >= 3 ==> !run[k].Survive?)
            && (st.completed >= 7 ==> !run[k].Build?)
  {
    SavedPhasesStay(env, base, run, n, k);
    PrefixPossible(env, base, run, k);
    InvariantAlways(env, base, run[..k]);
    PhaseNotYetSaved(env, After(env, base, run[..k]).system, run[k]);
  }

  /** However often phase three was interrupted and redone, once it is saved every pool file holds
      what one uninterrupted run would have written over the files that were there at the start. */
  lemma PoolsIndependentOfCrashes(env: Env, base: map<string, seq<byte>>, run: seq<Action>, file: string)
    requires After(env, base, run).At?
    ensures Load(env, After(env, base, run).system.disk).Ok?
    ensures var st := SavedAfter(env, base, run);
            st.completed == 7 ==>
              Slot(After(env, base, run).system.disk.pools, file) == Target(env, base, st.phase2, file)
  {
    InvariantAlways(env, base, run);
    var s := After(env, base, run).system;
    var saved := Load(env, s.disk).value;
    assert saved.completed == 7 ==> Reached(env, base, saved, s.disk.pools, file);
  }

  // ---------------------------------------------------------------------------------------------
  // What the saved lists and the pool files contain, entry by entry

  /** What the deep probe keeps. */
  predicate Keeper(judge: Judge, e: Entry) { e.ip.Some? && judge(e).Pool? }

  lemma AcceptedMeaning(env: Env, entries: seq<Entry>, e: Entry)
    ensures multiset(AcceptedOf(env, entries))[e] == if e.ip.Some? && env.judge(e).Pool? then multiset(entries)[e] else 0
  {
    Stages.KeptMeaning(entries, BuildJobs(env.judge, entries), x => Keeper(env.judge, x), e);
  }

  ghost predicate HaveAddresses(entries: seq<Entry>) { forall e :: e in entries ==> e.ip.Some? }

  /** Phase two only saves entries with an address, and phase three exactly those that the deep probe
      accepts. */
  ghost predicate ListsExact(env: Env, st: State) {
    && (st.completed >= 3 ==> HaveAddresses(st.phase2))
    && (st.completed >= 7 ==> multiset(st.phase3) == multiset(AcceptedOf(env, st.phase2)))
  }

  ghost predicate ListsAgree(env: Env, s: System) {
    && (Load(env, s.disk).Ok? ==> ListsExact(env, Load(env, s.disk).value))
    && (s.process.Running? ==> ListsExact(env, s.process.mem))
  }

  lemma SurvivorsHaveAddresses(entries: seq<Entry>, jobs: seq<P.Job>, out: seq<Entry>)
    requires SurvivalJobs(entries, jobs) && Stages.Delivers(entries, jobs, out)
    ensures HaveAddresses(out)
  {
    var kept := Stages.Kept(entries, jobs);
    Stages.KeptWereAccepted(entries, jobs, (e: Entry) => e.ip.Some?);
    SameBagSameMembers(out, kept);
  }

  lemma SurviveKeepsLists(env: Env, s: System, jobs: seq<P.Job>, out: seq<Entry>)
    requires StateAgrees(env, s) && ListsAgree(env, s) && Enabled(env, s, Survive(jobs, out))
    ensures ListsAgree(env, Apply(env, s, Survive(jobs, out)))
  {
    var mem := s.process.mem;
    DoneBits(mem);
    SurvivorsHaveAddresses(mem.phase1, jobs, out);
    assert Apply(env, s, Survive(jobs, out)).process == Running(mem.(phase2 := out, completed := 3), SaveSurvive);
  }

  lemma EndWritesKeepsLists(env: Env, s: System)
    requires ListsAgree(env, s) && Enabled(env, s, EndWrites) && s.process.mem.completed == 3
    requires multiset(s.process.at.accepted) == multiset(AcceptedOf(env, s.process.mem.phase2))
    ensures ListsAgree(env, Apply(env, s, EndWrites))
  {
    var mem, out := s.process.mem, s.process.at.accepted;
    var mem' := mem.(phase3 := out, completed := 7);
    assert ListsExact(env, mem');
    assert Apply(env, s, EndWrites) == System(s.disk, Running(mem', SaveBuild));
  }

  lemma ListsKept(env: Env, base: map<string, seq<byte>>, s: System, a: Action)
    requires Invariant(env, base, s) && ListsAgree(env, s) && Enabled(env, s, a)
    ensures ListsAgree(env, Apply(env, s, a))
  {
    match a
    case Survive(jobs, out) => SurviveKeepsLists(env, s, jobs, out);
    case EndWrites => EndWritesKeepsLists(env, s);
    case Resolve(_) => DoneBits(s.process.mem);
    case Save => SaveKeepsState(env, s);
    case WriteFile(_) => assert Apply(env, s, a).disk.state == s.disk.state;
    case _ =>
  }

  lemma {:induction false} ListsAlways(env: Env, base: map<string, seq<byte>>, run: seq<Action>)
    requires After(env, base, run).At?
    ensures ListsAgree(env, After(env, base, run).system)
  {
    if run != [] {
      var n := |run| - 1;
      ListsAlways(env, base, run[..n]);
      InvariantAlways(env, base, run[..n]);
      ListsKept(env, base, After(env, base, run[..n]).system, run[n]);
    }
  }

  /** Once phase three is saved, it has exactly the entries of phase two that have an address and that
      the deep probe put in a pool, each as often as phase two has it; what it dropped is not there. */
  lemma PhaseThreeExactly(env: Env, base: map<string, seq<byte>>, run: seq<Action>, e: Entry)
    requires After(env, base, run).At?
    ensures Load(env, After(env, base, run).system.disk).Ok?
    ensures var st := SavedAfter(env, base, run);
            && (st.completed >= 3 && e in st.phase2 ==> e.ip.Some?)
            && (st.completed == 7 ==>
                  multiset(st.phase3)[e] == if e.ip.Some? && env.judge(e).Pool? then multiset(st.phase2)[e] else 0)
  {
    InvariantAlways(env, base, run);
    ListsAlways(env, base, run);
    AcceptedMeaning(env, SavedAfter(env, base, run).phase2, e);
  }

  /** Some entry of phase two brings this name to this pool of this file. */
  ghost predicate Brings(env: Env, entries: seq<Entry>, file: string, name: Text, pq: bool) {
    exists e :: e in entries && e.domain == name && e.ip.Some? && env.judge(e).Pool? && env.judge(e).pq == pq
                && env.fileOf(env.judge(e).country) == file
  }

  lemma BringsIsAccepted(env: Env, entries: seq<Entry>, file: string, name: Text, pq: bool)
    ensures var accepted := AcceptedOf(env, entries);
            Brings(env, entries, file, name, pq) <==> AcceptedAs(env.judge, accepted, Spellings(env, accepted, file), name, pq)
  {
    var accepted := AcceptedOf(env, entries);
    forall e ensures e in accepted <==> e in entries && e.ip.Some? && env.judge(e).Pool? {
      AcceptedMeaning(env, entries, e);
      assert e in accepted <==> e in multiset(accepted);
      assert e in entries <==> e in multiset(entries);
    }
    if e :| e in entries && e.domain == name && e.ip.Some? && env.judge(e).Pool? && env.judge(e).pq == pq
            && env.fileOf(env.judge(e).country) == file {
      assert e in accepted && env.judge(e).country in Spellings(env, accepted, file);
    }
  }

  lemma TargetHolds(env: Env, base: map<string, seq<byte>>, entries: seq<Entry>, file: string, name: Text)
    requires ValidEntries(env.parse, entries) && name != []
    ensures var now := Target(env, base, entries, file);
            && (HeldPq(now, name) <==> HeldPq(Slot(base, file), name) || Brings(env, entries, file, name, true))
            && (HeldClassic(now, name) <==> HeldClassic(Slot(base, file), name) || Brings(env, entries, file, name, false))
  {
    var accepted := AcceptedOf(env, entries);
    var countries := Spellings(env, accepted, file);
    BringsIsAccepted(env, entries, file, name, true);
    BringsIsAccepted(env, entries, file, name, false);
    if countries != {} {
      Stages.KeptIsSubBag(entries, BuildJobs(env.judge, entries));
      SubBagValid(env, accepted, entries);
      BucketIsValid(env, accepted, countries);
      BucketMembers(env.judge, accepted, countries, name);
      RewrittenHolds(Slot(base, file), BucketIn(env.judge, accepted, countries), name);
    }
  }

  /** Once phase three is saved, however often the run was interrupted: a name is in a pool of a file
      exactly if that pool held it at the start or an entry that phase two saved, with an address,
      was judged to belong there. */
  lemma PoolsHoldExactly(env: Env, base: map<string, seq<byte>>, run: seq<Action>, file: string, name: Text)
    requires After(env, base, run).At? && name != []
    ensures Load(env, After(env, base, run).system.disk).Ok?
    ensures var st := SavedAfter(env, base, run);
            var now := Slot(After(env, base, run).system.disk.pools, file);
            st.completed == 7 ==>
              && (HeldPq(now, name) <==> HeldPq(Slot(base, file), name) || Brings(env, st.phase2, file, name, true))
              && (HeldClassic(now, name) <==> HeldClassic(Slot(base, file), name) || Brings(env, st.phase2, file, name, false))
  {
    InvariantAlways(env, base, run);
    PoolsIndependentOfCrashes(env, base, run, file);
    TargetHolds(env, base, SavedAfter(env, base, run).phase2, file, name);
  }

  // ---------------------------------------------------------------------------------------------
  // Every run can be brought to its end

  /** How far a process is from the end. */
  ghost function Ahead(s: System): nat {
    match s.process
    case Off => 8
    case Running(_, at) =>
      match at
      case AtResolve => 7
      case SaveResolve => 6
      case AtSurvive => 5
      case SaveSurvive => 4
      case AtBuild => 3
      case Writing(_, _) => 2
      case SaveBuild => 1
      case Done => 0
  }

  ghost function Todo(s: System): set<string> {
    if s.process.Running? && s.process.at.Writing? then s.process.at.todo else {}
  }

  /** A phase two in which nothing that has an address survives. */
  ghost function NoSurvivors(entries: seq<Entry>): seq<P.Job> {
    seq(|entries|, i requires 0 <= i < |entries| => if entries[i].ip.None? then P.NoAddress else P.Rejected)
  }

  /** A step that brings the system nearer to the end. */
  ghost function Onward(env: Env, s: System): Action {
    match s.process
    case Off => Boot
    case Running(mem, at) =>
      match at
      case AtResolve => if IsDone(mem, PHASE_RESOLVE) then Skip else Resolve([])
      case AtSurvive =>
        if IsDone(mem, PHASE_SURVIVAL) then Skip
        else Survive(NoSurvivors(mem.phase1), Stages.Kept(mem.phase1, NoSurvivors(mem.phase1)))
      case AtBuild => if IsDone(mem, PHASE_BUILD) then Skip else Build(AcceptedOf(env, mem.phase2))
      case Writing(_, todo) => if todo == {} then EndWrites else WriteFile(Any(todo))
      case _ => Save
  }

  ghost function Any(todo: set<string>): (country: string)
    requires todo != {}
    ensures country in todo
  {
    var country :| country in todo; country
  }

  lemma OnwardEnabled(env: Env, base: map<string, seq<byte>>, s: System)
    requires Invariant(env, base, s) && Ahead(s) > 0
    ensures Enabled(env, s, Onward(env, s)) && !Onward(env, s).Crash?
  {
    if s.process.Running? { DoneBits(s.process.mem); }
  }

  lemma OnwardNearer(env: Env, s: System)
    requires Enabled(env, s, Onward(env, s)) && Ahead(s) > 0
    ensures var s' := Apply(env, s, Onward(env, s));
            Ahead(s') < Ahead(s) || (Ahead(s') == Ahead(s) && Todo(s') < Todo(s))
  {
  }

  lemma Extend(env: Env, base: map<string, seq<byte>>, run: seq<Action>, a: Action)
    requires After(env, base, run).At? && Enabled(env, After(env, base, run).system, a)
    ensures After(env, base, run + [a]) == At(Apply(env, After(env, base, run).system, a))
  {
    assert (run + [a])[..|run|] == run;
  }

  /** However a run has gone so far, it can be brought to a saved phase three without another crash. */
  lemma {:induction false} RunsToTheEnd(env: Env, base: map<string, seq<byte>>, run: seq<Action>) returns (full: seq<Action>)
    requires After(env, base, run).At?
    ensures run <= full && (forall i | |run| <= i < |full| :: !full[i].Crash?)
    ensures After(env, base, full).At? && Load(env, After(env, base, full).system.disk).Ok?
    ensures SavedAfter(env, base, full).completed == 7
    decreases Ahead(After(env, base, run).system), Todo(After(env, base, run).system)
  {
    var s := After(env, base, run).system;
    InvariantAlways(env, base, run);
    if Ahead(s) == 0 {
      full := run;
    } else {
      var a := Onward(env, s);
      OnwardEnabled(env, base, s);
      OnwardNearer(env, s);
      Extend(env, base, run, a);
      full := RunsToTheEnd(env, base, run + [a]);
      assert full[|run|] == a;
    }
  }
}
