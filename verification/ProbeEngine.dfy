/** The two-stage engine of sni_tester: a feeder, a pool of DNS workers, a pool of TLS workers and a
    collector, joined by three bounded channels that are closed one after the other.

    A schedule is any interleaving of the atomic steps below, including a cancellation at any time.
    The network is an arbitrary `World` of lookups, so every result holds for all of them. */
module ProbeEngine {
  import opened Wrappers
  import opened Counting
  import P = Pipeline
  import S = Stages

  // ---------------------------------------------------------------------------------------------
  // What happens to one domain

  const UNKNOWN: string := "UNKNOWN"

  datatype Owner = Owner(asn: nat, org: string)

  datatype Tls = Tls(handshakeOk: bool, isPq: bool, ip: string, valid: bool)

  /** The answers of everything outside the engine; `None` is an error. */
  datatype World = World(
    resolve: string -> Option<seq<string>>,
    countryOf: string -> string,
    ownerOf: string -> Owner,
    isCloudflare: (string, Owner) -> bool,
    probe: (string, string) -> Option<Tls>)

  datatype JobResult = JobResult(domain: string, success: bool, isPq: bool, ip: string, country: string, owner: Owner)

  datatype Resolved = Resolved(domain: string, ip: string, country: string, owner: Owner)

  datatype DnsOutcome = Rejected(result: JobResult) | Passed(item: Resolved)

  predicate IsBlockedCountry(code: string) { code in ["CN", "HK", "MO", "IR", "RU", "KP"] }

  const NOBODY: Owner := Owner(0, "")

  function LookupFailed(domain: string): JobResult { JobResult(domain, false, false, "", "", NOBODY) }

  function HandshakeFailed(t: Resolved): JobResult { JobResult(t.domain, false, false, t.ip, t.country, t.owner) }

  /** What a DNS worker makes of a domain. */
  function DnsStage(w: World, domain: string): DnsOutcome {
    match w.resolve(domain)
    case None => Rejected(LookupFailed(domain))
    case Some(ips) =>
      if ips == [] then Rejected(LookupFailed(domain))
      else
        var ip := ips[0];
        var country := if w.countryOf(ip) == "" then UNKNOWN else w.countryOf(ip);
        if IsBlockedCountry(country) then Rejected(JobResult(domain, false, false, ip, country, NOBODY))
        else if w.isCloudflare(ip, w.ownerOf(ip)) then Rejected(JobResult(domain, false, false, ip, country, w.ownerOf(ip)))
        else Passed(Resolved(domain, ip, country, w.ownerOf(ip)))
  }

  /** What a TLS worker makes of a resolved domain. */
  function TlsStage(w: World, t: Resolved): JobResult {
    match w.probe(t.domain, t.ip)
    case None => HandshakeFailed(t)
    case Some(tls) =>
      if !tls.handshakeOk then HandshakeFailed(t)
      else
        var ip := if tls.ip == "" then t.ip else tls.ip;
        var country := if tls.valid && t.country == UNKNOWN && ip != "" then w.countryOf(ip) else t.country;
        JobResult(t.domain, tls.valid, tls.isPq, ip, country, t.owner)
  }

  /** The sequential form: one domain from lookup to verdict, as `processDomain` handles it. */
  method ProcessDomain(w: World, domain: string) returns (r: JobResult)
    ensures r == Expected(w, domain)
    ensures r.success <==> exists ip, tls :: FirstAddress(w, domain, ip) && Eligible(w, ip) && GoodProbe(w, domain, ip, tls)
  {
    SuccessExactly(w, domain);
    var ips := w.resolve(domain);
    if ips.None? || ips.value == [] {
      return LookupFailed(domain);
    }
    var ip := ips.value[0];
    var country := w.countryOf(ip);
    if country == "" {
      country := UNKNOWN;
    }
    if IsBlockedCountry(country) {
      return JobResult(domain, false, false, ip, country, NOBODY);
    }
    var owner := w.ownerOf(ip);
    if w.isCloudflare(ip, owner) {
      return JobResult(domain, false, false, ip, country, owner);
    }
    var tls := w.probe(domain, ip);
    if tls.None? || !tls.value.handshakeOk {
      return JobResult(domain, false, false, ip, country, owner);
    }
    var success := tls.value.valid;
    var finalIp := tls.value.ip;
    if finalIp == "" {
      finalIp := ip;
    }
    if success && country == UNKNOWN && finalIp != "" {
      country := w.countryOf(finalIp);
    }
    r := JobResult(domain, success, tls.value.isPq, finalIp, country, owner);
  }

  /** The verdict on a domain: the two stages one after the other. */
  function Expected(w: World, domain: string): (r: JobResult)
    ensures r.domain == domain
  {
    match DnsStage(w, domain)
    case Rejected(result) => result
    case Passed(item) => TlsStage(w, item)
  }

  // What the verdict means, without the stages.

  /** The address a domain is judged by: the first of the answers. */
  ghost predicate FirstAddress(w: World, domain: string, ip: string) {
    w.resolve(domain).Some? && w.resolve(domain).value != [] && w.resolve(domain).value[0] == ip
  }

  ghost predicate Eligible(w: World, ip: string) {
    w.countryOf(ip) !in ["CN", "HK", "MO", "IR", "RU", "KP"] && !w.isCloudflare(ip, w.ownerOf(ip))
  }

  ghost predicate GoodProbe(w: World, domain: string, ip: string, tls: Tls) {
    w.probe(domain, ip) == Some(tls) && tls.handshakeOk && tls.valid
  }

  /** A domain succeeds exactly when its first address is in no blocked country and not Cloudflare's,
      and answers with a handshake that is good and valid. Whether it counts as post-quantum is what
      that handshake says, and nothing else. */
  lemma SuccessExactly(w: World, domain: string)
    ensures Expected(w, domain).success <==>
            exists ip, tls :: FirstAddress(w, domain, ip) && Eligible(w, ip) && GoodProbe(w, domain, ip, tls)
    ensures forall ip, tls :: FirstAddress(w, domain, ip) && Eligible(w, ip) && GoodProbe(w, domain, ip, tls) ==>
              Expected(w, domain).success && Expected(w, domain).isPq == tls.isPq
  {
    var r := Expected(w, domain);
    if r.success {
      var ip := w.resolve(domain).value[0];
      assert FirstAddress(w, domain, ip) && GoodProbe(w, domain, ip, w.probe(domain, ip).value);
    }
  }

  /** What a success reports: the handshake's address, or the first one if it names none; the owner
      of the first one; and its country, which a second lookup may still supply. */
  lemma SuccessReports(w: World, domain: string, ip: string, tls: Tls)
    requires FirstAddress(w, domain, ip) && Eligible(w, ip) && GoodProbe(w, domain, ip, tls)
    ensures var r := Expected(w, domain);
            && r.domain == domain && r.owner == w.ownerOf(ip)
            && (tls.ip != "" ==> r.ip == tls.ip) && (tls.ip == "" ==> r.ip == ip)
            && (w.countryOf(ip) !in ["", "UNKNOWN"] ==> r.country == w.countryOf(ip))
            && (w.countryOf(ip) in ["", "UNKNOWN"] && r.ip != "" ==> r.country == w.countryOf(r.ip))
            && (w.countryOf(ip) in ["", "UNKNOWN"] && r.ip == "" ==> r.country == "UNKNOWN")
  {
  }

  /** The country that is known before the handshake. */
  ghost predicate CountryBefore(w: World, ip: string, country: string) {
    if w.countryOf(ip) == "" then country == "UNKNOWN" else country == w.countryOf(ip)
  }

  /** What a failure reports, by how far the domain got: nothing, the address and its country, also
      the owner, and in the end what an invalid site shows. */
  lemma FailureReports(w: World, domain: string)
    ensures (forall ip :: !FirstAddress(w, domain, ip)) ==>
              Expected(w, domain) == JobResult(domain, false, false, "", "", Owner(0, ""))
    ensures forall ip, country :: FirstAddress(w, domain, ip) && CountryBefore(w, ip, country) ==>
              var r := Expected(w, domain);
              && (country in ["CN", "HK", "MO", "IR", "RU", "KP"] ==> r == JobResult(domain, false, false, ip, country, Owner(0, "")))
              && (country !in ["CN", "HK", "MO", "IR", "RU", "KP"] && w.isCloudflare(ip, w.ownerOf(ip)) ==>
                    r == JobResult(domain, false, false, ip, country, w.ownerOf(ip)))
              && (Eligible(w, ip) && (w.probe(domain, ip).None? || !w.probe(domain, ip).value.handshakeOk) ==>
                    r == JobResult(domain, false, false, ip, country, w.ownerOf(ip)))
    ensures forall ip, country, tls |
              FirstAddress(w, domain, ip) && CountryBefore(w, ip, country) && Eligible(w, ip)
              && w.probe(domain, ip) == Some(tls) && tls.handshakeOk && !tls.valid ::
              Expected(w, domain) == JobResult(domain, false, tls.isPq, if tls.ip == "" then ip else tls.ip, country, w.ownerOf(ip))
  {
    if w.resolve(domain).Some? && w.resolve(domain).value != [] {
      assert FirstAddress(w, domain, w.resolve(domain).value[0]);
    }
  }

  // ---------------------------------------------------------------------------------------------
  // The machine

  /** Where a domain is, with what the worker holding it knows. A domain is lost only when the worker
      holding it returns on cancellation. */
  datatype Status =
    | Unfed
    | Tasked
    | Resolving
    | Replying(result: JobResult)
    | Forwarding(item: Resolved)
    | Ready(item: Resolved)
    | Probing(item: Resolved)
    | Answering(result: JobResult)
    | Reported
    | LostAtDns
    | LostAtTls

  datatype Config = Config(workers: nat, world: World, domains: seq<string>)

  /** Domains are named by their position. The task channel holds the positions from `taken` to `fed`;
      the two other channels are logs with the number of messages already taken from them. */
  datatype Tasks = Tasks(fed: nat, taken: nat, closed: bool)

  datatype Crew = Crew(idle: nat, exited: nat)

  datatype ReadyLine = ReadyLine(forwarded: seq<nat>, picked: nat, closed: bool)

  datatype Results = Results(sent: seq<nat>, answers: seq<JobResult>, received: nat, closed: bool)

  datatype State = State(
    status: seq<Status>,
    tasks: Tasks,
    dns: Crew,
    ready: ReadyLine,
    tls: Crew,
    results: Results,
    done: bool,
    cancelled: bool,
    panicked: bool)

  datatype Action =
    | Feed              // the feeder puts the next domain on the task channel
    | CloseTasks        // the feeder closes it, at the end or on cancellation
    | TakeTask          // an idle DNS worker takes a domain
    | Resolve(i: nat)   // its lookups end
    | CutLookup(i: nat) // its lookups are cut short by cancellation
    | Reply(i: nat)     // a DNS worker sends a result
    | Forward(i: nat)   // a DNS worker sends a resolved domain on
    | LeaveDns(i: nat)  // a DNS worker returns on cancellation
    | DnsExit           // an idle DNS worker sees the closed, empty task channel
    | CloseReady        // all DNS workers are gone
    | TakeReady         // an idle TLS worker takes a resolved domain
    | Probe(i: nat)     // its probe ends
    | CutProbe(i: nat)  // its probe is cut short by cancellation
    | Answer(i: nat)    // a TLS worker sends a result
    | LeaveTls(i: nat)  // a TLS worker returns on cancellation
    | TlsExit           // an idle TLS worker sees the closed, empty channel
    | CloseResults      // all TLS workers are gone
    | Receive           // the collector takes a result
    | Finish            // the collector sees the closed, empty channel
    | Cancel            // somebody cancels the run

  function Capacity(c: Config): nat { 2 * c.workers }

  function Init(c: Config): State {
    State(seq(|c.domains|, _ => Unfed), Tasks(0, 0, false), Crew(c.workers, 0), ReadyLine([], 0, false), Crew(c.workers, 0),
          Results([], [], 0, false), false, false, false)
  }

  /** A send on a closed channel does not wait: it is chosen and panics. */
  predicate CanSendResult(c: Config, s: State) {
    s.results.closed || |s.results.sent| < s.results.received + Capacity(c)
  }

  predicate Enabled(c: Config, s: State, a: Action) {
    && |s.status| == |c.domains| && !s.panicked
    && match a
       case Feed => !s.tasks.closed && s.tasks.fed < |s.status| && s.tasks.fed < s.tasks.taken + Capacity(c)
       case CloseTasks => !s.tasks.closed && (s.tasks.fed == |s.status| || s.cancelled)
       case TakeTask => s.tasks.taken < s.tasks.fed && s.tasks.taken < |s.status| && s.dns.idle > 0
       case Resolve(i) => i < |s.status| && s.status[i].Resolving?
       case CutLookup(i) => s.cancelled && i < |s.status| && s.status[i].Resolving?
       case Reply(i) => i < |s.status| && s.status[i].Replying? && CanSendResult(c, s)
       case Forward(i) => i < |s.status| && s.status[i].Forwarding? && |s.ready.forwarded| < s.ready.picked + Capacity(c)
       case LeaveDns(i) => s.cancelled && i < |s.status| && AtDns(s.status[i])
       case DnsExit => s.tasks.closed && s.tasks.taken == s.tasks.fed && s.dns.idle > 0
       case CloseReady => !s.ready.closed && s.dns.exited == c.workers
       case TakeReady => s.tls.idle > 0 && CanPick(s)
       case Probe(i) => i < |s.status| && s.status[i].Probing?
       case CutProbe(i) => s.cancelled && i < |s.status| && s.status[i].Probing?
       case Answer(i) => i < |s.status| && s.status[i].Answering? && CanSendResult(c, s)
       case LeaveTls(i) => s.cancelled && i < |s.status| && AtTls(s.status[i])
       case TlsExit => s.ready.closed && s.ready.picked == |s.ready.forwarded| && s.tls.idle > 0
       case CloseResults => !s.results.closed && s.tls.exited == c.workers
       case Receive => s.results.received < |s.results.sent|
       case Finish => s.results.closed && s.results.received == |s.results.sent| && !s.done
       case Cancel => !s.cancelled
  }

  /** The channel to the TLS workers has a message; that it names a ready domain is an invariant. */
  predicate CanPick(s: State) {
    && s.ready.picked < |s.ready.forwarded| && s.ready.forwarded[s.ready.picked] < |s.status| && s.status[s.ready.forwarded[s.ready.picked]].Ready?
  }

  predicate AtDns(x: Status) { x.Resolving? || x.Replying? || x.Forwarding? }

  predicate AtTls(x: Status) { x.Probing? || x.Answering? }

  // Each part of the machine takes part in the actions that concern it.

  function TasksAfter(t: Tasks, a: Action): Tasks {
    match a
    case Feed => t.(fed := t.fed + 1)
    case TakeTask => t.(taken := t.taken + 1)
    case CloseTasks => t.(closed := true)
    case _ => t
  }

  function Start(p: Crew): Crew { if p.idle > 0 then p.(idle := p.idle - 1) else p }

  function Rest(p: Crew): Crew { p.(idle := p.idle + 1) }

  function Quit(p: Crew): Crew { p.(exited := p.exited + 1) }

  function DnsAfter(p: Crew, a: Action): Crew {
    match a
    case TakeTask => Start(p)
    case Reply(_) => Rest(p)
    case Forward(_) => Rest(p)
    case LeaveDns(_) => Quit(p)
    case DnsExit => Quit(Start(p))
    case _ => p
  }

  function ReadyAfter(r: ReadyLine, a: Action): ReadyLine {
    match a
    case Forward(i) => r.(forwarded := r.forwarded + [i])
    case TakeReady => r.(picked := r.picked + 1)
    case CloseReady => r.(closed := true)
    case _ => r
  }

  function TlsAfter(p: Crew, a: Action): Crew {
    match a
    case TakeReady => Start(p)
    case Answer(_) => Rest(p)
    case LeaveTls(_) => Quit(p)
    case TlsExit => Quit(Start(p))
    case _ => p
  }

  /** `x` is the status of the domain that a send is about. */
  function ResultsAfter(r: Results, a: Action, x: Status): Results {
    match a
    case Reply(i) => if x.Replying? then r.(sent := r.sent + [i], answers := r.answers + [x.result]) else r
    case Answer(i) => if x.Answering? then r.(sent := r.sent + [i], answers := r.answers + [x.result]) else r
    case CloseResults => r.(closed := true)
    case Receive => r.(received := r.received + 1)
    case _ => r
  }

  function AfterLookup(outcome: DnsOutcome): Status {
    match outcome
    case Rejected(r) => Replying(r)
    case Passed(item) => Forwarding(item)
  }

  /** What becomes of a domain with status `x` in an action about it. */
  function StatusAfter(w: World, domain: string, x: Status, a: Action): Status {
    match a
    case Feed => Tasked
    case TakeTask => Resolving
    case Resolve(_) => AfterLookup(DnsStage(w, domain))
    case CutLookup(_) => Replying(LookupFailed(domain))
    case Reply(_) => Reported
    case Forward(_) => if x.Forwarding? then Ready(x.item) else x
    case LeaveDns(_) => LostAtDns
    case TakeReady => if x.Ready? then Probing(x.item) else x
    case Probe(_) => if x.Probing? then Answering(TlsStage(w, x.item)) else x
    case CutProbe(_) => if x.Probing? then Answering(HandshakeFailed(x.item)) else x
    case Answer(_) => Reported
    case LeaveTls(_) => LostAtTls
    case _ => x
  }

  /** The domain an action is about, if it is about one. */
  function About(s: State, a: Action): Option<nat> {
    match a
    case Feed => Some(s.tasks.fed)
    case TakeTask => Some(s.tasks.taken)
    case TakeReady => if s.ready.picked < |s.ready.forwarded| then Some(s.ready.forwarded[s.ready.picked]) else None
    case Resolve(i) => Some(i)
    case CutLookup(i) => Some(i)
    case Reply(i) => Some(i)
    case Forward(i) => Some(i)
    case LeaveDns(i) => Some(i)
    case Probe(i) => Some(i)
    case CutProbe(i) => Some(i)
    case Answer(i) => Some(i)
    case LeaveTls(i) => Some(i)
    case _ => None
  }

  predicate Sends(a: Action) { a.Reply? || a.Answer? }

  /** A send on the closed results channel. */
  predicate Panics(s: State, a: Action) { Sends(a) && s.results.closed }

  function Apply(c: Config, s: State, a: Action): State
    requires Enabled(c, s, a)
  {
    if Panics(s, a) then s.(panicked := true)
    else
      match About(s, a)
      case None =>
        State(s.status, TasksAfter(s.tasks, a), DnsAfter(s.dns, a), ReadyAfter(s.ready, a), TlsAfter(s.tls, a),
              ResultsAfter(s.results, a, Unfed), s.done || a.Finish?, s.cancelled || a.Cancel?, false)
      case Some(i) =>
        State(s.status[i := StatusAfter(c.world, c.domains[i], s.status[i], a)],
              TasksAfter(s.tasks, a), DnsAfter(s.dns, a), ReadyAfter(s.ready, a), TlsAfter(s.tls, a),
              ResultsAfter(s.results, a, s.status[i]), s.done, s.cancelled, false)
  }

  datatype Outcome = Impossible | Reaches(state: State)

  function After(c: Config, schedule: seq<Action>): Outcome {
    if schedule == [] then Reaches(Init(c))
    else
      var n := |schedule| - 1;
      match After(c, schedule[..n])
      case Impossible => Impossible
      case Reaches(s) => if Enabled(c, s, schedule[n]) then Reaches(Apply(c, s, schedule[n])) else Impossible
  }

  /** The engine cannot go on by itself. */
  ghost predicate Stuck(c: Config, s: State) {
    forall a :: Enabled(c, s, a) ==> a.Cancel?
  }

  // ---------------------------------------------------------------------------------------------
  // Counting the domains in each place

  datatype Place = Waiting | WithDns | InReady | WithTls | Out | Lost

  ghost function PlaceOf(x: Status): Place {
    match x
    case Unfed => Waiting
    case Tasked => Waiting
    case Resolving => WithDns
    case Replying(_) => WithDns
    case Forwarding(_) => WithDns
    case Ready(_) => InReady
    case Probing(_) => WithTls
    case Answering(_) => WithTls
    case Reported => Out
    case LostAtDns => Out
    case LostAtTls => Lost
  }

  ghost function Places(status: seq<Status>): seq<Place> {
    seq(|status|, i requires 0 <= i < |status| => PlaceOf(status[i]))
  }

  ghost function In(status: seq<Status>, p: Place): nat { Count(Places(status), p) }

  lemma PlacesMove(status: seq<Status>, i: nat, to: Status, p: Place)
    requires i < |status|
    ensures In(status[i := to], p) == In(status, p) - One(PlaceOf(status[i]) == p) + One(PlaceOf(to) == p)
  {
    CountUpdate(Places(status), i, PlaceOf(to), p);
    assert Places(status[i := to]) == Places(status)[i := PlaceOf(to)];
  }

  lemma SomeIn(status: seq<Status>, i: nat)
    requires i < |status|
    ensures In(status, PlaceOf(status[i])) > 0
  {
    var p := PlaceOf(status[i]);
    CountUpdate(Places(status), i, if p == Out then Waiting else Out, p);
  }

  // ---------------------------------------------------------------------------------------------
  // The invariant

  /** The feeder and the task channel. */
  ghost predicate FeedAgrees(c: Config, s: State) {
    && |s.status| == |c.domains| && s.tasks.taken <= s.tasks.fed <= |c.domains| && s.tasks.fed <= s.tasks.taken + Capacity(c)
    && (forall i | 0 <= i < |s.status| :: s.status[i].Unfed? <==> s.tasks.fed <= i)
    && (forall i | 0 <= i < |s.status| :: s.status[i].Tasked? <==> s.tasks.taken <= i < s.tasks.fed)
  }

  /** What workers know about the domain they hold. */
  ghost predicate KnowledgeAgrees(c: Config, s: State)
    requires |s.status| == |c.domains|
  {
    && (forall i | 0 <= i < |s.status| :: Knows(c, s, i))
  }

  /** The DNS stage lets the domain through to the TLS stage. */
  predicate Passes(c: Config, i: nat)
    requires i < |c.domains|
  {
    DnsStage(c.world, c.domains[i]).Passed?
  }

  ghost predicate Knows(c: Config, s: State, i: nat)
    requires i < |s.status| == |c.domains|
  {
    match s.status[i]
    case Replying(r) => r.domain == c.domains[i] && (s.cancelled || r == Expected(c.world, c.domains[i]))
    case Answering(r) => Passes(c, i) && r.domain == c.domains[i] && (s.cancelled || r == Expected(c.world, c.domains[i]))
    case Forwarding(item) => DnsStage(c.world, c.domains[i]) == Passed(item)
    case Ready(item) => DnsStage(c.world, c.domains[i]) == Passed(item)
    case Probing(item) => DnsStage(c.world, c.domains[i]) == Passed(item)
    case LostAtTls => Passes(c, i)
    case _ => true
  }

  /** The channel to the TLS workers. */
  ghost predicate ReadyAgrees(c: Config, s: State) {
    && s.ready.picked <= |s.ready.forwarded| <= s.ready.picked + Capacity(c)
    && (forall k | s.ready.picked <= k < |s.ready.forwarded| :: s.ready.forwarded[k] < |s.status| && s.status[s.ready.forwarded[k]].Ready?)
    && (forall j, k | s.ready.picked <= j < k < |s.ready.forwarded| :: s.ready.forwarded[j] != s.ready.forwarded[k])
  }

  /** The results channel: every reported domain once, with its verdict. */
  ghost predicate ResultsAgree(c: Config, s: State)
    requires |s.status| == |c.domains|
  {
    && s.results.received <= |s.results.sent| <= s.results.received + Capacity(c) && |s.results.answers| == |s.results.sent|
    && (forall k | 0 <= k < |s.results.sent| :: s.results.sent[k] < |s.status| && s.status[s.results.sent[k]].Reported?)
    && (forall j, k | 0 <= j < k < |s.results.sent| :: s.results.sent[j] != s.results.sent[k])
    && (forall i | 0 <= i < |s.status| && s.status[i].Reported? :: i in s.results.sent)
  }

  ghost predicate AnswersAgree(c: Config, s: State) {
    |s.results.answers| == |s.results.sent| && forall k | 0 <= k < |s.results.sent| :: AnswerRight(c, s, k)
  }

  ghost predicate AnswerRight(c: Config, s: State, k: nat)
    requires k < |s.results.sent| == |s.results.answers|
  {
    s.results.sent[k] < |c.domains| && s.results.answers[k].domain == c.domains[s.results.sent[k]]
    && (s.cancelled || s.results.answers[k] == Expected(c.world, c.domains[s.results.sent[k]]))
  }

  /** Every worker is idle, gone, or holds one domain. */
  ghost predicate WorkersAgree(c: Config, s: State) {
    && s.dns.idle + s.dns.exited + In(s.status, WithDns) == c.workers
    && s.tls.idle + s.tls.exited + In(s.status, WithTls) == c.workers
    && |s.ready.forwarded| == s.ready.picked + In(s.status, InReady)
  }

  /** Channels close when their senders are gone. */
  ghost predicate ClosingAgrees(c: Config, s: State) {
    && (s.ready.closed ==> s.dns.exited == c.workers)
    && (s.results.closed ==> s.tls.exited == c.workers)
    && (s.done ==> s.results.closed && s.results.received == |s.results.sent|)
  }

  /** Before the channel to them is closed, TLS workers leave only with a domain in hand. */
  ghost predicate LossesAgree(c: Config, s: State) {
    && (!s.ready.closed ==> s.tls.exited <= In(s.status, Lost))
    && (s.panicked ==> s.cancelled && PanicPossible(c))
  }

  /** How many of the first `k` domains other than `h` pass the DNS stage. */
  ghost function PassingBelow(c: Config, h: nat, k: nat): nat
    requires k <= |c.domains|
  {
    if k == 0 then 0 else PassingBelow(c, h, k - 1) + One(k - 1 != h && Passes(c, k - 1))
  }

  /** Some domain `h` can be left at a DNS worker while every TLS worker leaves with another domain
      that passes; a single DNS worker must have sent that one on before it took `h`. */
  ghost predicate PanicPossible(c: Config) {
    exists h: nat :: PanicAt(c, h)
  }

  ghost predicate PanicAt(c: Config, h: nat) {
    && h < |c.domains| && PassingBelow(c, h, |c.domains|) >= c.workers
    && (c.workers == 1 ==> PassingBelow(c, h, h) >= 1)
  }

  /** A single DNS worker holds the domain taken last. */
  ghost predicate LoneWorkerAgrees(c: Config, s: State) {
    c.workers == 1 ==> forall i | 0 <= i < |s.status| && AtDns(s.status[i]) :: i == s.tasks.taken - 1
  }

  /** The order in which things end when nobody cancels. */
  ghost predicate OrderAgrees(c: Config, s: State) {
    !s.cancelled ==>
      && (s.tasks.closed ==> s.tasks.fed == |c.domains|)
      && (s.dns.exited > 0 ==> s.tasks.closed && s.tasks.taken == s.tasks.fed)
      && (s.tls.exited > 0 ==> s.ready.closed && s.ready.picked == |s.ready.forwarded|)
      && (forall i | 0 <= i < |s.status| :: !s.status[i].LostAtDns? && !s.status[i].LostAtTls?)
  }

  ghost predicate Invariant(c: Config, s: State) {
    && FeedAgrees(c, s) && KnowledgeAgrees(c, s) && ReadyAgrees(c, s) && ResultsAgree(c, s) && AnswersAgree(c, s)
    && WorkersAgree(c, s) && ClosingAgrees(c, s) && LossesAgree(c, s) && OrderAgrees(c, s) && LoneWorkerAgrees(c, s)
  }

  lemma InvariantHoldsInitially(c: Config)
    ensures Invariant(c, Init(c))
  {
    var s := Init(c);
    CountAbsent(Places(s.status), WithDns);
    CountAbsent(Places(s.status), InReady);
    CountAbsent(Places(s.status), WithTls);
    CountAbsent(Places(s.status), Lost);
  }

  // ---------------------------------------------------------------------------------------------
  // What an action does to the domain it is about

  /** The status an action needs its domain to have. */
  ghost predicate Fits(a: Action, x: Status) {
    match a
    case Feed => x.Unfed?
    case TakeTask => x.Tasked?
    case Resolve(_) => x.Resolving?
    case CutLookup(_) => x.Resolving?
    case Reply(_) => x.Replying?
    case Forward(_) => x.Forwarding?
    case LeaveDns(_) => AtDns(x)
    case TakeReady => x.Ready?
    case Probe(_) => x.Probing?
    case CutProbe(_) => x.Probing?
    case Answer(_) => x.Answering?
    case LeaveTls(_) => AtTls(x)
    case _ => false
  }

  lemma AboutFits(c: Config, s: State, a: Action)
    requires FeedAgrees(c, s) && Enabled(c, s, a) && About(s, a).Some?
    ensures var i := About(s, a).value; i < |s.status| && Fits(a, s.status[i])
  {
  }

  /** The steps a domain still has ahead of it, weighted so that a send pays for its receive. */
  ghost function Ahead(x: Status): nat {
    match x
    case Unfed => 8
    case Tasked => 7
    case Resolving => 6
    case Forwarding(_) => 5
    case Ready(_) => 4
    case Probing(_) => 3
    case Replying(_) => 2
    case Answering(_) => 2
    case Reported => 0
    case LostAtDns => 0
    case LostAtTls => 0
  }

  /** How the status of the domain an action is about may change. */
  ghost predicate Turns(a: Action, x: Status, y: Status) {
    && Fits(a, x)
    && !y.Unfed? && (y.Tasked? <==> a.Feed?) && (x.Unfed? <==> a.Feed?) && (x.Tasked? <==> a.TakeTask?)
    && (x.Ready? <==> a.TakeReady?) && (y.Ready? <==> a.Forward?)
    && !x.Reported? && (y.Reported? <==> Sends(a))
    && !x.LostAtTls? && (y.LostAtTls? <==> a.LeaveTls?) && (y.LostAtDns? <==> a.LeaveDns?)
    && (AtDns(x) <==> a.Resolve? || a.CutLookup? || a.Reply? || a.Forward? || a.LeaveDns?)
    && (AtDns(y) <==> a.Resolve? || a.CutLookup? || a.TakeTask?)
    && (AtTls(x) <==> a.Probe? || a.CutProbe? || a.Answer? || a.LeaveTls?)
    && (AtTls(y) <==> a.Probe? || a.CutProbe? || a.TakeReady?)
    && (Sends(a) || Ahead(y) < Ahead(x)) && (Sends(a) ==> Ahead(x) == 2)
  }

  lemma StatusTurns(w: World, domain: string, x: Status, a: Action)
    requires Fits(a, x)
    ensures Turns(a, x, StatusAfter(w, domain, x, a))
  {
  }

  /** What a step that does not panic does, part by part. */
  ghost predicate Stepped(c: Config, s: State, a: Action, s': State) {
    && Enabled(c, s, a) && !Panics(s, a)
    && s'.tasks == TasksAfter(s.tasks, a) && s'.dns == DnsAfter(s.dns, a)
    && s'.ready == ReadyAfter(s.ready, a) && s'.tls == TlsAfter(s.tls, a)
    && (s'.done <==> s.done || a.Finish?) && (s'.cancelled <==> s.cancelled || a.Cancel?) && !s'.panicked
    && match About(s, a)
       case None => s'.status == s.status && s'.results == ResultsAfter(s.results, a, Unfed)
       case Some(i) =>
         && i < |s.status| && s'.results == ResultsAfter(s.results, a, s.status[i])
         && s'.status == s.status[i := StatusAfter(c.world, c.domains[i], s.status[i], a)]
  }

  lemma ApplySteps(c: Config, s: State, a: Action)
    requires Enabled(c, s, a) && !Panics(s, a)
    ensures Stepped(c, s, a, Apply(c, s, a))
  {
  }

  /** A step changes the status of the domain it is about, as its action says, and of no other. */
  lemma MovesOne(c: Config, s: State, a: Action, s': State)
    requires FeedAgrees(c, s) && Stepped(c, s, a, s')
    ensures match About(s, a)
            case None => s'.status == s.status
            case Some(i) => i < |s.status| && s'.status == s.status[i := s'.status[i]] && Turns(a, s.status[i], s'.status[i])
  {
    if About(s, a).Some? {
      var i := About(s, a).value;
      AboutFits(c, s, a);
      StatusTurns(c.world, c.domains[i], s.status[i], a);
    }
  }

  // ---------------------------------------------------------------------------------------------
  // What every step keeps

  lemma FeedKept(c: Config, s: State, a: Action, s': State)
    requires FeedAgrees(c, s) && Stepped(c, s, a, s')
    ensures FeedAgrees(c, s')
  {
    MovesOne(c, s, a, s');
  }

  lemma KnowledgeKept(c: Config, s: State, a: Action, s': State)
    requires FeedAgrees(c, s) && KnowledgeAgrees(c, s) && Stepped(c, s, a, s')
    ensures |s'.status| == |c.domains| && KnowledgeAgrees(c, s')
  {
    forall i | 0 <= i < |s'.status| ensures Knows(c, s', i) {
      assert Knows(c, s, i);
      if About(s, a) == Some(i) { AboutFits(c, s, a); }
    }
  }

  lemma ReadyKept(c: Config, s: State, a: Action, s': State)
    requires FeedAgrees(c, s) && ReadyAgrees(c, s) && Stepped(c, s, a, s')
    ensures ReadyAgrees(c, s')
  {
    MovesOne(c, s, a, s');
  }

  lemma ResultsKept(c: Config, s: State, a: Action, s': State)
    requires FeedAgrees(c, s) && ResultsAgree(c, s) && Stepped(c, s, a, s')
    ensures |s'.status| == |c.domains| && ResultsAgree(c, s')
  {
    MovesOne(c, s, a, s');
  }

  lemma AnswersKept(c: Config, s: State, a: Action, s': State)
    requires FeedAgrees(c, s) && KnowledgeAgrees(c, s) && AnswersAgree(c, s) && Stepped(c, s, a, s')
    ensures AnswersAgree(c, s')
  {
    if Sends(a) { assert Knows(c, s, a.i); }
    forall k | 0 <= k < |s'.results.sent| ensures AnswerRight(c, s', k) {
      if k < |s.results.sent| { assert AnswerRight(c, s, k); }
    }
  }

  lemma WorkersKept(c: Config, s: State, a: Action, s': State)
    requires FeedAgrees(c, s) && WorkersAgree(c, s) && Stepped(c, s, a, s')
    ensures WorkersAgree(c, s')
  {
    MovesOne(c, s, a, s');
    if About(s, a).Some? { PlacesTurn(s.status, About(s, a).value, s'.status[About(s, a).value], a); }
  }

  /** How many domains each stage holds, before and after. */
  lemma PlacesTurn(status: seq<Status>, i: nat, y: Status, a: Action)
    requires i < |status| && Turns(a, status[i], y)
    ensures In(status[i := y], WithDns) == In(status, WithDns) - One(a.Reply? || a.Forward? || a.LeaveDns?) + One(a.TakeTask?)
    ensures In(status[i := y], WithTls) == In(status, WithTls) - One(a.Answer? || a.LeaveTls?) + One(a.TakeReady?)
    ensures In(status[i := y], InReady) == In(status, InReady) - One(a.TakeReady?) + One(a.Forward?)
    ensures In(status[i := y], Lost) == In(status, Lost) + One(a.LeaveTls?)
  {
    PlacesMove(status, i, y, WithDns);
    PlacesMove(status, i, y, WithTls);
    PlacesMove(status, i, y, InReady);
    PlacesMove(status, i, y, Lost);
  }

  lemma ClosingKept(c: Config, s: State, a: Action, s': State)
    requires FeedAgrees(c, s) && WorkersAgree(c, s) && ClosingAgrees(c, s) && s.results.received <= |s.results.sent| && Stepped(c, s, a, s')
    ensures ClosingAgrees(c, s')
  {
    MovesOne(c, s, a, s');
    if About(s, a).Some? { SomeIn(s.status, About(s, a).value); }
  }

  /** The domains TLS workers left with all pass, and `h` is none of them. */
  lemma {:induction false} LostPass(c: Config, s: State, h: nat, k: nat)
    requires |s.status| == |c.domains| && KnowledgeAgrees(c, s) && k <= |s.status|
    requires h < |s.status| && !s.status[h].LostAtTls?
    ensures In(s.status[..k], Lost) <= PassingBelow(c, h, k)
  {
    if k > 0 {
      LostPass(c, s, h, k - 1);
      assert Knows(c, s, k - 1);
      assert Places(s.status[..k])[..k - 1] == Places(s.status[..k - 1]);
    }
  }

  lemma {:induction false} NothingLostBeyond(c: Config, s: State, n: nat, k: nat)
    requires n <= k <= |s.status| && forall i | n <= i < |s.status| :: !s.status[i].LostAtTls?
    ensures In(s.status[..k], Lost) == In(s.status[..n], Lost)
  {
    if n < k {
      NothingLostBeyond(c, s, n, k - 1);
      assert Places(s.status[..k])[..k - 1] == Places(s.status[..k - 1]);
    }
  }

  /** A send on the closed results channel comes from a DNS worker, after a cancellation and after
      every TLS worker has left with a domain of its own. */
  lemma PanicMeans(c: Config, s: State, a: Action)
    requires Invariant(c, s) && Enabled(c, s, a) && Panics(s, a)
    ensures a.Reply? && s.cancelled && PanicAt(c, a.i)
  {
    SomeIn(s.status, a.i);
    assert s.status[..|s.status|] == s.status;
    LostPass(c, s, a.i, |s.status|);
    if c.workers == 1 {
      NothingLostBeyond(c, s, a.i, |s.status|);
      LostPass(c, s, a.i, a.i);
    }
  }

  lemma PanicKept(c: Config, s: State, a: Action)
    requires Invariant(c, s) && Enabled(c, s, a) && Panics(s, a)
    ensures Invariant(c, Apply(c, s, a))
  {
    PanicMeans(c, s, a);
    var s' := Apply(c, s, a);
    assert s' == s.(panicked := true);
    forall i | 0 <= i < |s'.status| ensures Knows(c, s', i) { assert Knows(c, s, i); }
    forall k | 0 <= k < |s'.results.sent| ensures AnswerRight(c, s', k) { assert AnswerRight(c, s, k); }
  }

  lemma LossesKept(c: Config, s: State, a: Action, s': State)
    requires FeedAgrees(c, s) && LossesAgree(c, s) && Stepped(c, s, a, s')
    ensures LossesAgree(c, s')
  {
    MovesOne(c, s, a, s');
    if About(s, a).Some? { PlacesTurn(s.status, About(s, a).value, s'.status[About(s, a).value], a); }
  }

  lemma LoneWorkerKept(c: Config, s: State, a: Action, s': State)
    requires FeedAgrees(c, s) && WorkersAgree(c, s) && LoneWorkerAgrees(c, s) && Stepped(c, s, a, s')
    ensures LoneWorkerAgrees(c, s')
  {
    MovesOne(c, s, a, s');
    if c.workers == 1 && a.TakeTask? { NoneIn(s.status, WithDns); }
  }

  lemma OrderKept(c: Config, s: State, a: Action, s': State)
    requires FeedAgrees(c, s) && ReadyAgrees(c, s) && WorkersAgree(c, s) && ClosingAgrees(c, s) && OrderAgrees(c, s)
    requires Stepped(c, s, a, s')
    ensures OrderAgrees(c, s')
  {
    MovesOne(c, s, a, s');
    if a.Forward? { SomeIn(s.status, a.i); }
  }

  lemma InvariantKept(c: Config, s: State, a: Action)
    requires Invariant(c, s) && Enabled(c, s, a)
    ensures Invariant(c, Apply(c, s, a))
  {
    if Panics(s, a) {
      PanicKept(c, s, a);
    } else {
      var s' := Apply(c, s, a);
      ApplySteps(c, s, a);
      FeedKept(c, s, a, s');
      KnowledgeKept(c, s, a, s');
      ReadyKept(c, s, a, s');
      ResultsKept(c, s, a, s');
      AnswersKept(c, s, a, s');
      WorkersKept(c, s, a, s');
      ClosingKept(c, s, a, s');
      LossesKept(c, s, a, s');
      OrderKept(c, s, a, s');
      LoneWorkerKept(c, s, a, s');
    }
  }

  lemma {:induction false} InvariantAlways(c: Config, schedule: seq<Action>)
    requires After(c, schedule).Reaches?
    ensures Invariant(c, After(c, schedule).state)
  {
    if schedule == [] {
      InvariantHoldsInitially(c);
    } else {
      var n := |schedule| - 1;
      InvariantAlways(c, schedule[..n]);
      InvariantKept(c, After(c, schedule[..n]).state, schedule[n]);
    }
  }

  // ---------------------------------------------------------------------------------------------
  // Safety

  /** On every schedule, cancelled or not: no worker is ever lost track of, no channel overflows, and
      no domain is reported twice or with another domain's name. */
  lemma BoundsAlways(c: Config, schedule: seq<Action>)
    requires After(c, schedule).Reaches?
    ensures var s := After(c, schedule).state;
            && s.dns.idle + s.dns.exited + In(s.status, WithDns) == c.workers
            && s.tls.idle + s.tls.exited + In(s.status, WithTls) == c.workers
            && s.tasks.taken <= s.tasks.fed <= s.tasks.taken + 2 * c.workers
            && s.ready.picked <= |s.ready.forwarded| <= s.ready.picked + 2 * c.workers
            && s.results.received <= |s.results.sent| <= s.results.received + 2 * c.workers
            && |s.results.answers| == |s.results.sent|
            && (forall j, k | 0 <= j < k < |s.results.sent| :: s.results.sent[j] != s.results.sent[k])
            && (forall k | 0 <= k < |s.results.sent| :: s.results.sent[k] < |c.domains| && s.results.answers[k].domain == c.domains[s.results.sent[k]])
  {
    InvariantAlways(c, schedule);
    var s := After(c, schedule).state;
    forall k | 0 <= k < |s.results.sent| ensures s.results.sent[k] < |c.domains| && s.results.answers[k].domain == c.domains[s.results.sent[k]] {
      assert AnswerRight(c, s, k);
    }
  }

  lemma NoneIn(status: seq<Status>, p: Place)
    requires In(status, p) == 0
    ensures forall i | 0 <= i < |status| :: PlaceOf(status[i]) != p
  {
    forall i | 0 <= i < |status| ensures PlaceOf(status[i]) != p { SomeIn(status, i); }
  }

  /** Without cancellation the results channel is closed only after every worker of both pools has
      exited and every domain has been reported, so nothing is ever sent on it afterwards. */
  lemma ResultsClosedLast(c: Config, schedule: seq<Action>)
    requires c.workers >= 1 && After(c, schedule).Reaches?
    requires !After(c, schedule).state.cancelled && After(c, schedule).state.results.closed
    ensures var s := After(c, schedule).state;
            && s.dns.exited == c.workers && s.tls.exited == c.workers
            && !s.panicked
            && (forall i | 0 <= i < |s.status| :: s.status[i].Reported?)
  {
    InvariantAlways(c, schedule);
    var s := After(c, schedule).state;
    NoneIn(s.status, WithDns);
    NoneIn(s.status, InReady);
    NoneIn(s.status, WithTls);
  }

  /** The verdicts of the sequential form, in input order. */
  function AllExpected(c: Config): seq<JobResult> {
    seq(|c.domains|, i requires 0 <= i < |c.domains| => Expected(c.world, c.domains[i]))
  }

  function Positions(n: nat): seq<nat> { seq(n, i => i) }

  /** An uncancelled run that is done has given the collector every domain exactly once, each with
      the verdict the sequential form reaches. */
  lemma EveryDomainOnce(c: Config, schedule: seq<Action>)
    requires c.workers >= 1 && After(c, schedule).Reaches?
    requires !After(c, schedule).state.cancelled && After(c, schedule).state.done
    ensures var s := After(c, schedule).state;
            && s.results.received == |s.results.answers| == |c.domains|
            && multiset(s.results.answers) == multiset(AllExpected(c))
  {
    InvariantAlways(c, schedule);
    ResultsClosedLast(c, schedule);
    var s, all := After(c, schedule).state, Positions(|c.domains|);
    forall x: nat ensures x in s.results.sent <==> x in all {
      if x < |c.domains| { assert all[x] == x && s.status[x].Reported?; }
    }
    P.SameElementsSameBag(s.results.sent, all);
    assert |multiset(s.results.sent)| == |multiset(all)|;
    S.PickPermutation(AllExpected(c), s.results.sent, all);
    assert S.Pick(AllExpected(c), all) == AllExpected(c);
    AnswersArePicked(c, s);
  }

  lemma AnswersArePicked(c: Config, s: State)
    requires AnswersAgree(c, s) && !s.cancelled && S.Within(s.results.sent, |c.domains|)
    ensures s.results.answers == S.Pick(AllExpected(c), s.results.sent)
  {
    forall k | 0 <= k < |s.results.sent| ensures s.results.answers[k] == AllExpected(c)[s.results.sent[k]] {
      assert AnswerRight(c, s, k);
    }
  }

  /** A send on the closed results channel needs a cancellation and a world in which it is possible. */
  lemma PanicNeedsCancellation(c: Config, schedule: seq<Action>)
    requires After(c, schedule).Reaches? && After(c, schedule).state.panicked
    ensures After(c, schedule).state.cancelled && PanicPossible(c)
  {
    InvariantAlways(c, schedule);
  }

  // ---------------------------------------------------------------------------------------------
  // Progress

  ghost function TotalAhead(status: seq<Status>): nat {
    if status == [] then 0 else TotalAhead(status[..|status| - 1]) + Ahead(status[|status| - 1])
  }

  lemma {:induction false} TotalAheadUpdate(status: seq<Status>, i: nat, to: Status)
    requires i < |status|
    ensures TotalAhead(status[i := to]) == TotalAhead(status) - Ahead(status[i]) + Ahead(to)
  {
    var n := |status| - 1;
    if i == n {
      assert status[i := to][..n] == status[..n];
    } else {
      assert status[i := to][..n] == status[..n][i := to];
      TotalAheadUpdate(status[..n], i, to);
    }
  }

  lemma {:induction false} TotalAheadInitially(status: seq<Status>)
    requires forall i | 0 <= i < |status| :: status[i] == Unfed
    ensures TotalAhead(status) == 8 * |status|
  {
    if status != [] { TotalAheadInitially(status[..|status| - 1]); }
  }

  /** Messages, workers and channels still to be dealt with. */
  ghost function Pending(c: Config, s: State): int {
    |s.results.sent| - s.results.received + (c.workers - s.dns.exited) + (c.workers - s.tls.exited)
    + One(!s.tasks.closed) + One(!s.ready.closed) + One(!s.results.closed) + One(!s.done) + One(!s.cancelled) + One(!s.panicked)
  }

  ghost function Remaining(c: Config, s: State): int { TotalAhead(s.status) + Pending(c, s) }

  lemma AheadShrinks(c: Config, s: State, a: Action, s': State)
    requires FeedAgrees(c, s) && Stepped(c, s, a, s')
    ensures if About(s, a).None? then TotalAhead(s'.status) == TotalAhead(s.status)
            else TotalAhead(s'.status) < TotalAhead(s.status) && (Sends(a) ==> TotalAhead(s'.status) + 2 <= TotalAhead(s.status))
  {
    MovesOne(c, s, a, s');
    if About(s, a).Some? { TotalAheadUpdate(s.status, About(s, a).value, s'.status[About(s, a).value]); }
  }

  lemma PendingShrinks(c: Config, s: State, a: Action, s': State)
    requires Stepped(c, s, a, s')
    ensures if About(s, a).None? then Pending(c, s') < Pending(c, s) else Pending(c, s') <= Pending(c, s) + One(Sends(a))
  {
  }

  lemma StepsShrinkRemaining(c: Config, s: State, a: Action)
    requires FeedAgrees(c, s) && Enabled(c, s, a)
    ensures Remaining(c, Apply(c, s, a)) < Remaining(c, s)
  {
    if !Panics(s, a) {
      ApplySteps(c, s, a);
      AheadShrinks(c, s, a, Apply(c, s, a));
      PendingShrinks(c, s, a, Apply(c, s, a));
    }
  }

  /** Every schedule is finite. */
  lemma {:induction false} SchedulesAreBounded(c: Config, schedule: seq<Action>)
    requires After(c, schedule).Reaches?
    ensures |schedule| + Remaining(c, After(c, schedule).state) <= 8 * |c.domains| + 2 * c.workers + 6
    ensures |schedule| <= 8 * |c.domains| + 2 * c.workers + 6
  {
    InvariantAlways(c, schedule);
    if schedule == [] {
      TotalAheadInitially(Init(c).status);
    } else {
      var n := |schedule| - 1;
      SchedulesAreBounded(c, schedule[..n]);
      InvariantAlways(c, schedule[..n]);
      StepsShrinkRemaining(c, After(c, schedule[..n]).state, schedule[n]);
    }
  }

  /** A stuck engine has no worker holding a domain. */
  lemma StuckHoldsNothing(c: Config, s: State)
    requires c.workers >= 1 && Invariant(c, s) && Stuck(c, s) && !s.panicked
    ensures s.results.received == |s.results.sent|
    ensures forall i | 0 <= i < |s.status| :: !AtTls(s.status[i]) && !s.status[i].Resolving? && !s.status[i].Replying?
  {
    assert !Enabled(c, s, Receive);
    forall i | 0 <= i < |s.status| ensures !AtTls(s.status[i]) && !s.status[i].Resolving? && !s.status[i].Replying? {
      assert !Enabled(c, s, Resolve(i)) && !Enabled(c, s, Reply(i)) && !Enabled(c, s, Probe(i)) && !Enabled(c, s, Answer(i));
    }
  }

  lemma AbsentPlace(status: seq<Status>, p: Place)
    requires forall i | 0 <= i < |status| :: PlaceOf(status[i]) != p
    ensures In(status, p) == 0
  {
    CountAbsent(Places(status), p);
  }

  /** A stuck engine whose TLS workers have nothing to take has closed their channel. */
  lemma StuckFrontClosed(c: Config, s: State)
    requires c.workers >= 1 && Invariant(c, s) && Stuck(c, s) && !s.panicked && s.ready.picked == |s.ready.forwarded|
    ensures s.ready.closed
  {
    StuckHoldsNothing(c, s);
    forall i | 0 <= i < |s.status| ensures PlaceOf(s.status[i]) != WithDns {
      assert !Enabled(c, s, Forward(i));
    }
    AbsentPlace(s.status, WithDns);
    assert !Enabled(c, s, CloseReady) && !Enabled(c, s, Feed) && !Enabled(c, s, CloseTasks);
    assert !Enabled(c, s, TakeTask) && !Enabled(c, s, DnsExit);
  }

  /** The only states without a next step: the run is done, or it has panicked. */
  lemma NeverStuck(c: Config, s: State)
    requires c.workers >= 1 && Invariant(c, s) && Stuck(c, s)
    ensures s.done || s.panicked
  {
    if !s.panicked {
      StuckHoldsNothing(c, s);
      AbsentPlace(s.status, WithTls);
      assert !Enabled(c, s, CloseResults) && !Enabled(c, s, Finish);
      assert !Enabled(c, s, TakeReady) && !Enabled(c, s, TlsExit);
      if s.ready.picked == |s.ready.forwarded| { StuckFrontClosed(c, s); }
    }
  }

  lemma Extend(c: Config, schedule: seq<Action>, a: Action)
    requires After(c, schedule).Reaches? && Enabled(c, After(c, schedule).state, a)
    ensures After(c, schedule + [a]) == Reaches(Apply(c, After(c, schedule).state, a))
  {
    assert (schedule + [a])[..|schedule|] == schedule;
  }

  /** A run that is not over can take one more step of its own. */
  lemma NextStep(c: Config, schedule: seq<Action>) returns (a: Action)
    requires c.workers >= 1 && After(c, schedule).Reaches?
    requires var s := After(c, schedule).state; !s.done && !s.panicked
    ensures After(c, schedule + [a]).Reaches?
    ensures After(c, schedule + [a]).state.cancelled == After(c, schedule).state.cancelled
    ensures |schedule| < 8 * |c.domains| + 2 * c.workers + 6
  {
    var s := After(c, schedule).state;
    InvariantAlways(c, schedule);
    if Stuck(c, s) { NeverStuck(c, s); }
    a :| Enabled(c, s, a) && !a.Cancel?;
    Extend(c, schedule, a);
    SchedulesAreBounded(c, schedule + [a]);
  }

  lemma UncancelledNeverPanics(c: Config, schedule: seq<Action>)
    requires After(c, schedule).Reaches? && !After(c, schedule).state.cancelled
    ensures !After(c, schedule).state.panicked
  {
    InvariantAlways(c, schedule);
  }

  /** Every schedule can be carried on, without cancelling, until it is done or has panicked; one
      without a cancellation ends done. */
  lemma {:induction false} RunsComplete(c: Config, schedule: seq<Action>) returns (full: seq<Action>)
    requires c.workers >= 1 && After(c, schedule).Reaches?
    ensures schedule <= full && After(c, full).Reaches?
    ensures After(c, full).state.cancelled == After(c, schedule).state.cancelled
    ensures After(c, full).state.done || After(c, full).state.panicked
    ensures !After(c, schedule).state.cancelled ==> After(c, full).state.done
    decreases 8 * |c.domains| + 2 * c.workers + 6 - |schedule|
  {
    if After(c, schedule).state.done || After(c, schedule).state.panicked {
      full := schedule;
    } else {
      var a := NextStep(c, schedule);
      full := RunsComplete(c, schedule + [a]);
    }
    if !After(c, full).state.cancelled { UncancelledNeverPanics(c, full); }
  }

  // ---------------------------------------------------------------------------------------------
  // What cancelling can do

  /** The first `k` domains have been through the DNS stage, except that `h` is still there; those
      that pass wait for the TLS workers, the others have been collected. */
  ghost predicate Loaded(c: Config, s: State, h: nat, k: nat) {
    && k <= |s.status| == |c.domains| && s.tasks.fed == s.tasks.taken == k && !s.tasks.closed
    && s.dns.idle == (if h < k then c.workers - 1 else c.workers) && (h < k ==> s.status[h].Resolving?)
    && s.tls.idle == c.workers && s.tls.exited == s.ready.picked == 0
    && |s.ready.forwarded| == PassingBelow(c, h, k) && s.results.received == |s.results.sent|
    && !s.results.closed && !s.cancelled && !s.panicked
  }

  /** ... and domain `k` has been taken by a DNS worker. */
  ghost predicate Taken(c: Config, s: State, h: nat, k: nat) {
    && k < |s.status| == |c.domains| && s.tasks.fed == s.tasks.taken == k + 1 && !s.tasks.closed
    && s.dns.idle == (if h < k then c.workers - 2 else c.workers - 1) && s.status[k].Resolving?
    && (h < k ==> s.status[h].Resolving?)
    && s.tls.idle == c.workers && s.tls.exited == s.ready.picked == 0
    && |s.ready.forwarded| == PassingBelow(c, h, k) && s.results.received == |s.results.sent|
    && !s.results.closed && !s.cancelled && !s.panicked
  }

  ghost predicate Follows(c: Config, s: State, s': State) {
    exists a :: Enabled(c, s, a) && s' == Apply(c, s, a)
  }

  /** The states a schedule goes through. */
  ghost predicate Trace(c: Config, states: seq<State>) {
    && states != [] && states[0] == Init(c)
    && forall i | 0 < i < |states| :: Follows(c, states[i - 1], states[i])
  }

  ghost predicate Reachable(c: Config, s: State) {
    exists states :: Trace(c, states) && states[|states| - 1] == s
  }

  lemma {:induction false} ScheduleOf(c: Config, states: seq<State>) returns (schedule: seq<Action>)
    requires Trace(c, states)
    ensures After(c, schedule) == Reaches(states[|states| - 1])
  {
    var n := |states| - 1;
    if n == 0 {
      schedule := [];
    } else {
      schedule := ScheduleOf(c, states[..n]);
      assert Follows(c, states[n - 1], states[n]);
      var a :| Enabled(c, states[n - 1], a) && states[n] == Apply(c, states[n - 1], a);
      Extend(c, schedule, a);
      schedule := schedule + [a];
    }
  }

  lemma Do(c: Config, s: State, a: Action) returns (s': State)
    requires Reachable(c, s) && Enabled(c, s, a)
    ensures s' == Apply(c, s, a) && Reachable(c, s')
  {
    s' := Apply(c, s, a);
    var states :| Trace(c, states) && states[|states| - 1] == s;
    assert Follows(c, s, s');
    assert Trace(c, states + [s']);
  }

  lemma ReadyCanBePicked(c: Config, s: State)
    requires Reachable(c, s) && s.ready.picked < |s.ready.forwarded|
    ensures CanPick(s)
  {
    var states :| Trace(c, states) && states[|states| - 1] == s;
    var schedule := ScheduleOf(c, states);
    InvariantAlways(c, schedule);
    assert s.ready.forwarded[s.ready.picked] < |s.status|;
  }

  lemma TakeNext(c: Config, s: State, h: nat, k: nat) returns (s': State)
    requires Reachable(c, s) && Loaded(c, s, h, k) && k < |c.domains| && s.dns.idle >= 1
    ensures Reachable(c, s') && Taken(c, s', h, k)
  {
    var s1 := Do(c, s, Feed);
    s' := Do(c, s1, TakeTask);
  }

  lemma SendOnSteps(c: Config, s: State, h: nat, k: nat)
    requires Taken(c, s, h, k) && k != h && Passes(c, k) && PassingBelow(c, h, k) < 2 * c.workers
    ensures Enabled(c, s, Resolve(k))
    ensures var s1 := Apply(c, s, Resolve(k)); Enabled(c, s1, Forward(k)) && Loaded(c, Apply(c, s1, Forward(k)), h, k + 1)
  {
    var s1 := Apply(c, s, Resolve(k));
    assert s1.status[k].Forwarding? && |s1.ready.forwarded| < s1.ready.picked + Capacity(c);
    assert PassingBelow(c, h, k + 1) == PassingBelow(c, h, k) + 1;
  }

  lemma SendOn(c: Config, s: State, h: nat, k: nat) returns (s': State)
    requires Reachable(c, s) && Taken(c, s, h, k) && k != h && Passes(c, k) && PassingBelow(c, h, k) < 2 * c.workers
    ensures Reachable(c, s') && Loaded(c, s', h, k + 1)
  {
    SendOnSteps(c, s, h, k);
    var s1 := Do(c, s, Resolve(k));
    s' := Do(c, s1, Forward(k));
  }

  lemma RejectSteps(c: Config, s: State, h: nat, k: nat)
    requires Taken(c, s, h, k) && k != h && !Passes(c, k) && c.workers >= 1
    ensures Enabled(c, s, Resolve(k))
    ensures var s1 := Apply(c, s, Resolve(k));
            && Enabled(c, s1, Reply(k))
            && var s2 := Apply(c, s1, Reply(k)); Enabled(c, s2, Receive) && Loaded(c, Apply(c, s2, Receive), h, k + 1)
  {
    var s1 := Apply(c, s, Resolve(k));
    assert s1.status[k].Replying? && CanSendResult(c, s1);
    assert PassingBelow(c, h, k + 1) == PassingBelow(c, h, k);
  }

  lemma Reject(c: Config, s: State, h: nat, k: nat) returns (s': State)
    requires Reachable(c, s) && Taken(c, s, h, k) && k != h && !Passes(c, k) && c.workers >= 1
    ensures Reachable(c, s') && Loaded(c, s', h, k + 1)
  {
    RejectSteps(c, s, h, k);
    var s1 := Do(c, s, Resolve(k));
    var s2 := Do(c, s1, Reply(k));
    s' := Do(c, s2, Receive);
  }

  lemma {:induction false} PassingGrows(c: Config, h: nat, j: nat, k: nat)
    requires j <= k <= |c.domains|
    ensures PassingBelow(c, h, j) <= PassingBelow(c, h, k) <= PassingBelow(c, h, j) + (k - j)
  {
    if j < k { PassingGrows(c, h, j, k - 1); }
  }

  lemma HoldBack(c: Config, s: State, h: nat, k: nat) returns (s': State)
    requires Reachable(c, s) && Taken(c, s, h, k) && k == h
    ensures s' == s && Reachable(c, s') && Loaded(c, s', h, k + 1)
  {
    s' := s;
    assert PassingBelow(c, h, h + 1) == PassingBelow(c, h, h);
    assert Loaded(c, s, h, h + 1);
  }

  lemma LoadNext(c: Config, s: State, h: nat, k: nat) returns (s': State)
    requires c.workers >= 1 && Reachable(c, s) && Loaded(c, s, h, k) && k < |c.domains| && s.dns.idle >= 1
    requires PassingBelow(c, h, k) < 2 * c.workers
    ensures Reachable(c, s') && Loaded(c, s', h, k + 1)
  {
    s' := TakeNext(c, s, h, k);
    if k == h {
      s' := HoldBack(c, s', h, k);
    } else if Passes(c, k) {
      s' := SendOn(c, s', h, k);
    } else {
      s' := Reject(c, s', h, k);
    }
  }

  lemma {:induction false} Load(c: Config, h: nat, k: nat) returns (s: State)
    requires 1 <= c.workers && k <= |c.domains| && PassingBelow(c, h, k) <= c.workers
    requires c.workers == 1 ==> k <= h + 1
    ensures Reachable(c, s) && Loaded(c, s, h, k)
  {
    if k == 0 {
      s := Init(c);
      assert Trace(c, [Init(c)]);
      assert Reachable(c, Init(c)) && Loaded(c, Init(c), h, 0);
    } else {
      PassingGrows(c, h, k - 1, k);
      s := Load(c, h, k - 1);
      s := LoadNext(c, s, h, k - 1);
    }
  }

  /** Cancelled, with `h` at a DNS worker and `k` TLS workers gone with a domain each. */
  ghost predicate Leaving(c: Config, s: State, h: nat, k: nat) {
    && h < |s.status| == |c.domains| && k <= c.workers
    && s.cancelled && !s.panicked && !s.results.closed && s.status[h].Resolving?
    && s.ready.picked == s.tls.exited == k && s.tls.idle == c.workers - k && |s.ready.forwarded| == c.workers
  }

  lemma LeaveOne(c: Config, s: State, h: nat, k: nat) returns (s': State)
    requires Reachable(c, s) && Leaving(c, s, h, k) && k < c.workers
    ensures Reachable(c, s') && Leaving(c, s', h, k + 1)
  {
    var i := s.ready.forwarded[s.ready.picked];
    ReadyCanBePicked(c, s);
    var s1 := Do(c, s, TakeReady);
    s' := Do(c, s1, LeaveTls(i));
  }

  lemma {:induction false} Leave(c: Config, s: State, h: nat, k: nat) returns (s': State)
    requires Reachable(c, s) && Leaving(c, s, h, k)
    ensures Reachable(c, s') && Leaving(c, s', h, c.workers)
    decreases c.workers - k
  {
    if k == c.workers {
      s' := s;
    } else {
      s' := LeaveOne(c, s, h, k);
      s' := Leave(c, s', h, k + 1);
    }
  }

  lemma SendOnClosed(c: Config, s: State, h: nat) returns (s': State)
    requires Reachable(c, s) && Leaving(c, s, h, c.workers)
    ensures Reachable(c, s') && s'.panicked
  {
    var s1 := Do(c, s, CloseResults);
    var s2 := Do(c, s1, CutLookup(h));
    s' := Do(c, s2, Reply(h));
  }

  lemma PanicFrom(c: Config, h: nat, k: nat) returns (s: State)
    requires 1 <= c.workers && h < k <= |c.domains| && PassingBelow(c, h, k) == c.workers
    requires c.workers == 1 ==> k == h + 1
    ensures Reachable(c, s) && s.panicked
  {
    s := Load(c, h, k);
    s := Do(c, s, Cancel);
    s := Leave(c, s, h, 0);
    s := SendOnClosed(c, s, h);
  }

  /** The shortest beginning of the list with `n` passing domains. */
  lemma {:induction false} FirstWith(c: Config, h: nat, n: nat, k: nat) returns (f: nat)
    requires k <= |c.domains| && 1 <= n <= PassingBelow(c, h, k)
    ensures 1 <= f <= k && PassingBelow(c, h, f) == n && PassingBelow(c, h, f - 1) < n
  {
    if PassingBelow(c, h, k - 1) < n { f := k; } else { f := FirstWith(c, h, n, k - 1); }
  }

  lemma {:induction false} PassingBefore(c: Config, h: nat, g: nat, k: nat)
    requires k <= |c.domains| && k <= h && k <= g
    ensures PassingBelow(c, h, k) == PassingBelow(c, g, k)
  {
    if k > 0 { PassingBefore(c, h, g, k - 1); }
  }

  lemma PanicAtReached(c: Config, h: nat) returns (s: State)
    requires 1 <= c.workers && PanicAt(c, h)
    ensures Reachable(c, s) && s.panicked
  {
    var f := FirstWith(c, h, c.workers, |c.domains|);
    if f <= h {
      PassingBefore(c, h, f, f);
      s := PanicFrom(c, f, f + 1);
    } else {
      if c.workers == 1 { PassingGrows(c, h, h, f - 1); }
      s := PanicFrom(c, h, f);
    }
  }

  /** Some schedule sends on the closed results channel. */
  ghost predicate CanPanic(c: Config) {
    exists schedule :: After(c, schedule).Reaches? && After(c, schedule).state.panicked
  }

  /** For a given world, some schedule sends on the closed results channel exactly when there is a
      domain such that at least `workers` others pass the DNS stage, one of them earlier in the list
      if there is a single worker. */
  lemma PanicsExactly(c: Config)
    requires c.workers >= 1
    ensures CanPanic(c) <==> PanicPossible(c)
  {
    if CanPanic(c) {
      var schedule :| After(c, schedule).Reaches? && After(c, schedule).state.panicked;
      PanicNeedsCancellation(c, schedule);
    }
    if PanicPossible(c) {
      var h: nat :| PanicAt(c, h);
      var s := PanicAtReached(c, h);
      var states :| Trace(c, states) && states[|states| - 1] == s;
      var schedule := ScheduleOf(c, states);
      assert After(c, schedule).Reaches? && After(c, schedule).state.panicked;
    }
  }

  /** A world in which every domain passes the DNS stage. */
  const OPEN_WORLD: World :=
    World(_ => Some(["192.0.2.1"]), _ => "US", _ => NOBODY, (_, _) => false, (_, _) => None)

  lemma {:induction false} AllPass(c: Config, h: nat, k: nat)
    requires c.world == OPEN_WORLD && k <= |c.domains|
    ensures PassingBelow(c, h, k) == if h < k then k - 1 else k
  {
    if k > 0 { AllPass(c, h, k - 1); }
  }

  lemma {:induction false} PassingAtMost(c: Config, h: nat, k: nat)
    requires k <= |c.domains|
    ensures PassingBelow(c, h, k) <= if h < k then k - 1 else k
  {
    if k > 0 { PassingAtMost(c, h, k - 1); }
  }

  /** A caller who cannot know the network is safe from it exactly with no more domains than workers. */
  lemma NeverPanicsExactly(domains: seq<string>, workers: nat)
    requires workers >= 1
    ensures (forall world :: !CanPanic(Config(workers, world, domains))) <==> |domains| <= workers
  {
    if |domains| <= workers {
      forall world ensures !CanPanic(Config(workers, world, domains)) {
        var c := Config(workers, world, domains);
        PanicsExactly(c);
        if PanicPossible(c) {
          var h: nat :| PanicAt(c, h);
          PassingAtMost(c, h, |domains|);
        }
      }
    } else {
      var c := Config(workers, OPEN_WORLD, domains);
      var h := |domains| - 1;
      AllPass(c, h, |domains|);
      AllPass(c, h, h);
      assert PanicAt(c, h);
      PanicsExactly(c);
      assert CanPanic(Config(workers, OPEN_WORLD, domains));
    }
  }
}
