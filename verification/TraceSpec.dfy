/**
 * The iterative trace engine as functions of the run so far. The network is an arbitrary oracle: the reply to the n-th
 * query of a run may depend on n, on the endpoint and on the question. Class Engine is proved equal to these functions.
 */
module TraceSpec {
  import opened Text
  import opened Dns
  import opened Rrsets

  datatype Server = Server(name: string, ip: string, endpoint: string, zone: string)

  /** What one exchange on the wire yields: a message, a deadline, or any other error. */
  datatype Wire = Reply(m: Message) | Deadline | Broken

  datatype Config = Config(
    maxDepth: nat,
    maxQueries: nat,
    roots: seq<Server>,
    allow: string -> bool,
    endpointOf: string -> string,
    udp: (nat, string, string, QType) -> Wire,
    tcp: (nat, string, string, QType) -> Wire)

  datatype Purpose = Delegation | CnameFollow | SupportLookup | NoPurpose
  datatype HopKind = Answer | NoData | Cname | Referral | Error | NoKind
  datatype Role = RootRole | TldRole | AuthoritativeRole | AliasRole | FinalRole | ErrorRole | NoRole
  datatype Transport = Udp | Tcp | NoTransport
  datatype Reason = Glue | Support

  /** A hop's or an outcome's code: a DNS response code or one of the engine's own. */
  datatype Code = Rcode(n: nat) | LoopCode | TimeoutCode | FailedCode | BudgetCode | MaxDepthCode | NoCode

  datatype NextTarget = NextTarget(name: string, ip: string, zone: string, reason: Reason)

  datatype Hop = Hop(
    index: nat, parent: Option<nat>, role: Role, purpose: Purpose, zone: string,
    serverName: string, serverIP: string, qname: string, qtype: RRType,
    transport: Transport, code: Code, authoritative: bool, truncated: bool, kind: HopKind,
    answer: seq<RRset>, authority: seq<RRset>, additional: seq<RRset>, targets: seq<NextTarget>)

  /** Go's zero Hop, which queryCandidates returns when no candidate was tried. */
  const BLANK_HOP := Hop(0, None, NoRole, NoPurpose, "", "", "", "", Other(""), NoTransport, NoCode, false, false,
                         NoKind, [], [], [], [])

  datatype OutcomeKind = Success | Nxdomain | Servfail | Refused | NotImplemented
                       | TimedOut | LoopDetected | MaxDepthExceeded | UnusableReferral

  datatype Outcome = Outcome(kind: OutcomeKind, code: Code, terminalHopIndex: int)

  /** One exchange: who was asked what, how many hops existed then, what came back, and over what. */
  datatype Sent = Sent(server: Server, qname: string, qtype: QType, purpose: Purpose, hopCount: nat, reply: Wire,
                       transport: Transport)

  /** What traceName is looking for at the top of one iteration of its loop. */
  datatype Cursor = Cursor(candidates: seq<Server>, qname: string, qtype: QType, purpose: Purpose, zone: string)

  /**
   * The run so far. hops, visited and queries are the fields of traceState; log and messages record what happened:
   * the exchanges, and the number of UDP and TCP messages sent.
   */
  datatype State = State(
    hops: seq<Hop>, visited: set<string>, queries: nat,
    log: seq<Sent>, messages: nat)

  predicate Grows(cfg: Config, s: State, t: State) {
    s.hops <= t.hops && s.log <= t.log && s.visited <= t.visited
    && s.queries <= t.queries <= cfg.maxQueries
  }

  function QTypeText(t: QType): BarFree { t.Text() }

  function PurposeText(p: Purpose): BarFree {
    match p
    case Delegation => "delegation"
    case CnameFollow => "cname_follow"
    case SupportLookup => "nameserver_address_lookup"
    case NoPurpose => ""
  }

  /** strings.Join([ip, qname, qtype, purpose], "|") */
  function VisitedKey(ip: string, qname: string, qtype: QType, purpose: Purpose): string {
    ip + "|" + (qname + "|" + (QTypeText(qtype) + "|" + PurposeText(purpose)))
  }

  datatype Exchanged = Exchanged(reply: Wire, transport: Transport, messages: nat)

  /** exchange: a truncated UDP reply is retried once over TCP. */
  function Exchange(cfg: Config, n: nat, endpoint: string, qname: string, qtype: QType): (r: Exchanged)
    ensures 1 <= r.messages <= 2
  {
    match cfg.udp(n, endpoint, qname, qtype)
    case Reply(m) =>
      if m.truncated then Exchanged(cfg.tcp(n, endpoint, qname, qtype), Tcp, 2)
      else Exchanged(Reply(m), Udp, 1)
    case error => Exchanged(error, NoTransport, 1)
  }

  /** Mark the key visited, count the query, and log the exchange. */
  function Send(cfg: Config, st: State, cur: Cursor, server: Server): State {
    var x := Exchange(cfg, st.queries, server.endpoint, cur.qname, cur.qtype);
    st.(visited := st.visited + {VisitedKey(server.ip, cur.qname, cur.qtype, cur.purpose)},
        queries := st.queries + 1,
        log := st.log + [Sent(server, cur.qname, cur.qtype, cur.purpose, |st.hops|, x.reply, x.transport)],
        messages := st.messages + x.messages)
  }

  function ErrorHop(index: nat, parent: Option<nat>, server: Server, cur: Cursor, code: Code): Hop {
    Hop(index, parent, ErrorRole, cur.purpose, cur.zone, server.name, server.ip, cur.qname, cur.qtype,
        Udp, code, false, false, Error, [], [], [], [])
  }

  function CountLabels(zone: string): nat {
    var trimmed := TrimDot(zone);
    if trimmed == "" then 0 else 1 + Dots(trimmed)
  }

  function Dots(s: string): nat {
    if s == "" then 0 else Dots(s[1..]) + (if s[0] == '.' then 1 else 0)
  }

  function ClassifyRole(zone: string, purpose: Purpose, m: Message, qname: string, qtype: QType): Role {
    if purpose == SupportLookup then AuthoritativeRole
    else if purpose == CnameFollow && FirstCNAME(m.answer, qname) != "" then AliasRole
    else if HasType(m.answer, qname, qtype) || IsNODATA(m) || m.rcode != NOERROR then FinalRole
    else if zone == "." then RootRole
    else if CountLabels(zone) == 1 then TldRole
    else AuthoritativeRole
  }

  /** The hop of a response before its kind is decided. */
  function ResponseHop(index: nat, parent: Option<nat>, server: Server, cur: Cursor, m: Message,
                       transport: Transport): Hop {
    Hop(index, parent, ClassifyRole(server.zone, cur.purpose, m, cur.qname, cur.qtype), cur.purpose, cur.zone,
        server.name, server.ip, cur.qname, cur.qtype, transport, Rcode(m.rcode), m.authoritative, transport == Tcp,
        NoKind,
        RrsetsOf(AnswerSection, m.answer), RrsetsOf(AuthoritySection, m.authority),
        RrsetsOf(AdditionalSection, m.additional), [])
  }

  datatype Err = NoErr | ErrTimeout | ErrLoop | ErrMaxDepth | ErrUnusable | ErrOther

  /** The outcome of trying candidates until one answers. */
  datatype Asked =
    | Got(st: State, server: Server, m: Message, transport: Transport)
    | Failed(st: State, hop: Hop, err: Err)

  /** The loop variables of queryCandidates before it tries candidate k. */
  datatype Attempt = Attempt(st: State, k: nat, lastHop: Hop, timeouts: nat, lastErr: Err)

  function FirstAttempt(st: State): Attempt {
    Attempt(st, 0, BLANK_HOP, 0, NoErr)
  }

  datatype Tried = Done(asked: Asked) | Next(attempt: Attempt)

  /** One iteration of the loop, up to a response. */
  function Try(cfg: Config, cur: Cursor, parent: Option<nat>, a: Attempt): (r: Tried)
    requires a.st.queries <= cfg.maxQueries && a.k < |cur.candidates|
    ensures r.Done? ==> Grows(cfg, a.st, r.asked.st) && (r.asked.Got? ==> a.st.queries < r.asked.st.queries)
    ensures r.Next? ==> Grows(cfg, a.st, r.attempt.st) && r.attempt.k == a.k + 1
  {
    var server, st := cur.candidates[a.k], a.st;
    if st.queries >= cfg.maxQueries then Done(Failed(st, a.lastHop, ErrMaxDepth))
    else if !cfg.allow(server.ip) then Next(a.(k := a.k + 1, lastErr := ErrUnusable))
    else if VisitedKey(server.ip, cur.qname, cur.qtype, cur.purpose) in st.visited then
      Done(Failed(st, ErrorHop(|st.hops|, parent, server, cur, LoopCode), ErrLoop))
    else
      var st' := Send(cfg, st, cur, server);
      var x := Exchange(cfg, st.queries, server.endpoint, cur.qname, cur.qtype);
      match x.reply
      case Deadline =>
        Next(Attempt(st', a.k + 1, ErrorHop(|st.hops|, parent, server, cur, TimeoutCode), a.timeouts + 1, ErrTimeout))
      case Broken =>
        Next(Attempt(st', a.k + 1, ErrorHop(|st.hops|, parent, server, cur, FailedCode), a.timeouts, ErrOther))
      case Reply(m) =>
        Done(Got(st', server, m, x.transport))
  }

  /** The candidate loop of queryCandidates from the given attempt on, up to the first response. */
  function Ask(cfg: Config, cur: Cursor, parent: Option<nat>, a: Attempt): (r: Asked)
    requires a.st.queries <= cfg.maxQueries && a.k <= |cur.candidates|
    ensures Grows(cfg, a.st, r.st)
    ensures r.Got? ==> a.st.queries < r.st.queries
    decreases |cur.candidates| - a.k
  {
    if a.k < |cur.candidates| then
      match Try(cfg, cur, parent, a)
      case Done(asked) => asked
      case Next(next) => Ask(cfg, cur, parent, next)
    else if a.timeouts == |cur.candidates| && |cur.candidates| > 0 then Failed(a.st, a.lastHop, ErrTimeout)
    else Failed(a.st, a.lastHop, if a.lastErr == NoErr then ErrUnusable else a.lastErr)
  }

  /** What queryCandidates returns; responded says whether the response is not nil. */
  datatype Returned = Returned(hop: Hop, responded: bool, next: seq<Server>, cname: string, err: Err)

  datatype Queried = Queried(st: State, ret: Returned)

  function Query(cfg: Config, st: State, cur: Cursor, parent: Option<nat>): (r: Queried)
    requires st.queries <= cfg.maxQueries
    ensures Grows(cfg, st, r.st)
    decreases cfg.maxQueries - st.queries, 0
  {
    match Ask(cfg, cur, parent, FirstAttempt(st))
    case Failed(st', hop, err) => Queried(st', Returned(hop, false, [], "", err))
    case Got(st', server, m, transport) =>
      var hop := ResponseHop(|st'.hops|, parent, server, cur, m, transport);
      if IsTerminal(m, cur) then Queried(st', Terminal(hop, m, cur))
      else
        var next := NextCandidates(cfg, st', m, |st'.hops|);
        Queried(next.st, Referred(hop, next.servers, next.targets))
  }

  /** Whether a response ends the candidate loop without looking for a referral. */
  predicate IsTerminal(m: Message, cur: Cursor) {
    || m.rcode != NOERROR
    || FirstCNAME(m.answer, cur.qname) != ""
    || HasType(m.answer, cur.qname, cur.qtype)
    || IsNODATA(m)
  }

  function Terminal(hop: Hop, m: Message, cur: Cursor): Returned
    requires IsTerminal(m, cur)
  {
    var cname := FirstCNAME(m.answer, cur.qname);
    if m.rcode != NOERROR then Returned(hop.(kind := Error), true, [], "", ErrOther)
    else if cname != "" && !HasType(m.answer, cur.qname, cur.qtype) then
      Returned(hop.(kind := Cname), true, [], cname, NoErr)
    else if HasType(m.answer, cur.qname, cur.qtype) then Returned(hop.(kind := Answer), true, [], "", NoErr)
    else Returned(hop.(kind := NoData), true, [], "", NoErr)
  }

  function Referred(hop: Hop, servers: seq<Server>, targets: seq<NextTarget>): Returned {
    if servers != [] then Returned(hop.(kind := Referral, targets := targets), true, servers, "", NoErr)
    else Returned(hop.(kind := Error), true, [], "", ErrUnusable)
  }

  /** What nextCandidatesForReferral returns: no servers when the referral is unusable. */
  datatype Candidates = Candidates(st: State, servers: seq<Server>, targets: seq<NextTarget>)

  /** The allowed addresses of one nameserver as candidates. */
  function ServersFor(cfg: Config, name: string, zone: string, ips: seq<string>): (r: seq<Server>)
    ensures forall i :: 0 <= i < |r| ==> cfg.allow(r[i].ip) && r[i].ip in ips
                                         && r[i] == Server(name, r[i].ip, cfg.endpointOf(r[i].ip), zone)
  {
    if ips == [] then []
    else
      var rest := ServersFor(cfg, name, zone, ips[..|ips| - 1]);
      var ip := ips[|ips| - 1];
      if cfg.allow(ip) then rest + [Server(name, ip, cfg.endpointOf(ip), zone)] else rest
  }

  /** The candidates that the additional section alone offers for the given nameservers. */
  function GlueServers(cfg: Config, names: seq<string>, zone: string, additional: seq<RR>): seq<Server> {
    if names == [] then []
    else
      var n := |names| - 1;
      GlueServers(cfg, names[..n], zone, additional) + ServersFor(cfg, names[n], zone, GlueFor(additional, names[n]))
  }

  function TargetsOf(servers: seq<Server>, reason: Reason): (r: seq<NextTarget>)
    ensures |r| == |servers|
    ensures forall i :: 0 <= i < |r| ==> r[i] == NextTarget(servers[i].name, servers[i].ip, servers[i].zone, reason)
  {
    seq(|servers|, i requires 0 <= i < |servers| => NextTarget(servers[i].name, servers[i].ip, servers[i].zone, reason))
  }

  function NextCandidates(cfg: Config, st: State, m: Message, parentIndex: nat): (r: Candidates)
    requires st.queries <= cfg.maxQueries
    ensures Grows(cfg, st, r.st)
    decreases cfg.maxQueries - st.queries, 4
  {
    var names := NsTargets(m.authority);
    if names == [] then Candidates(st, [], [])
    else
      var zone := ReferralZone(m.authority);
      var glued := GlueServers(cfg, names, zone, m.additional);
      if glued != [] then Candidates(st, glued, TargetsOf(glued, Glue))
      else
        var r := SupportServers(cfg, st, names, zone, parentIndex);
        Candidates(r.0, r.1, TargetsOf(r.1, Support))
  }

  /** Support lookups for each nameserver in turn; a name that does not resolve adds no candidate. */
  function SupportServers(cfg: Config, st: State, names: seq<string>, zone: string,
                          parentIndex: nat): (r: (State, seq<Server>))
    requires st.queries <= cfg.maxQueries
    ensures Grows(cfg, st, r.0)
    decreases cfg.maxQueries - st.queries, 3, |names|
  {
    if names == [] then (st, [])
    else
      var (st1, ips) := ResolveNameServer(cfg, st, names[0], parentIndex, [A, AAAA]);
      var (st2, rest) := SupportServers(cfg, st1, names[1..], zone, parentIndex);
      (st2, ServersFor(cfg, names[0], zone, ips) + rest)
  }

  /** The data of a hop's answer sets of the given type. */
  function DataOfType(sets: seq<RRset>, qtype: QType): seq<string> {
    if sets == [] then []
    else
      var rest := DataOfType(sets[..|sets| - 1], qtype);
      var last := sets[|sets| - 1];
      if last.rtype == qtype then rest + last.data else rest
  }

  predicate AnswersFor(hop: Hop, parentIndex: nat, nsName: string) {
    hop.parent == Some(parentIndex) && hop.purpose == SupportLookup && hop.kind == Answer && hop.qname == nsName
  }

  /** The scan of resolveNameServerAddresses over all hops of the run so far. */
  function CollectIPs(hops: seq<Hop>, parentIndex: nat, nsName: string, qtype: QType): seq<string> {
    if hops == [] then []
    else
      var rest := CollectIPs(hops[..|hops| - 1], parentIndex, nsName, qtype);
      var last := hops[|hops| - 1];
      if AnswersFor(last, parentIndex, nsName) then rest + DataOfType(last.answer, qtype) else rest
  }

  function SupportStart(cfg: Config, nsName: string, qtype: QType): Cursor {
    Cursor(cfg.roots, Fqdn(TrimDot(nsName)), qtype, SupportLookup, ".")
  }

  /** resolveNameServerAddresses for the remaining query types: no addresses means errUnusableReferral. */
  function ResolveNameServer(cfg: Config, st: State, nsName: string, parentIndex: nat,
                             qtypes: seq<QType>): (r: (State, seq<string>))
    requires st.queries <= cfg.maxQueries
    ensures Grows(cfg, st, r.0)
    decreases cfg.maxQueries - st.queries, 2, |qtypes|
  {
    if qtypes == [] then (st, [])
    else
      var t := TraceName(cfg, st, SupportStart(cfg, nsName, qtypes[0]), Some(parentIndex));
      var ips := CollectIPs(t.st.hops, parentIndex, nsName, qtypes[0]);
      if t.outcome.kind == Success && ips != [] then (t.st, FirstSeen(ips))
      else ResolveNameServer(cfg, t.st, nsName, parentIndex, qtypes[1..])
  }

  datatype Traced = Traced(st: State, outcome: Outcome)

  function TraceName(cfg: Config, st: State, start: Cursor, parent: Option<nat>): (r: Traced)
    requires st.queries <= cfg.maxQueries
    ensures Grows(cfg, st, r.st)
    decreases cfg.maxQueries - st.queries, 1, cfg.maxDepth + 1
  {
    TraceLoop(cfg, st, start.purpose, parent, start, 0)
  }

  function LastHopIndex(hops: seq<Hop>): int {
    if hops == [] then -1 else hops[|hops| - 1].index
  }

  /** What traceName does after one query: stop with an outcome, or go on with a new cursor. */
  datatype Move = Stop(outcome: Outcome) | Go(cur: Cursor)

  function NextMove(cfg: Config, cur: Cursor, purpose: Purpose, q: Returned): Move {
    if q.err == NoErr && q.responded then
      match q.hop.kind
      case Answer => Stop(Outcome(Success, q.hop.code, q.hop.index))
      case NoData => Stop(Outcome(Success, q.hop.code, q.hop.index))
      case Cname => Go(Cursor(cfg.roots, q.cname, cur.qtype, CnameFollow, "."))
      case Referral =>
        if q.next == [] then Stop(Outcome(UnusableReferral, q.hop.code, q.hop.index))
        else
          var next := if purpose == SupportLookup then SupportLookup else Delegation;
          Go(Cursor(q.next, cur.qname, cur.qtype, next, q.next[0].zone))
      case _ => Stop(Outcome(Success, q.hop.code, q.hop.index))
    else
      match q.err
      case ErrTimeout => Stop(Outcome(TimedOut, TimeoutCode, q.hop.index))
      case ErrLoop => Stop(Outcome(LoopDetected, LoopCode, q.hop.index))
      case ErrMaxDepth => Stop(Outcome(MaxDepthExceeded, MaxDepthCode, q.hop.index))
      case ErrUnusable => Stop(Outcome(UnusableReferral, q.hop.code, q.hop.index))
      case _ => Stop(Outcome(RcodeOutcome(q.hop.code), q.hop.code, q.hop.index))
  }

  function RcodeOutcome(code: Code): OutcomeKind {
    if code == Rcode(NXDOMAIN) then Nxdomain
    else if code == Rcode(SERVFAIL) then Servfail
    else if code == Rcode(REFUSED) then Refused
    else if code == Rcode(NOTIMP) then NotImplemented
    else Servfail
  }

  /** The loop of traceName from the given depth on; purpose is the one traceName was called with. */
  function TraceLoop(cfg: Config, st: State, purpose: Purpose, parent: Option<nat>, cur: Cursor,
                     depth: nat): (r: Traced)
    requires st.queries <= cfg.maxQueries && depth <= cfg.maxDepth
    ensures Grows(cfg, st, r.st)
    decreases cfg.maxQueries - st.queries, 1, cfg.maxDepth - depth
  {
    if depth == cfg.maxDepth then Traced(st, Outcome(MaxDepthExceeded, MaxDepthCode, LastHopIndex(st.hops)))
    else if st.queries >= cfg.maxQueries then Traced(st, Outcome(MaxDepthExceeded, BudgetCode, LastHopIndex(st.hops)))
    else
      var q := Query(cfg, st, cur, parent);
      var st' := AppendHop(q.st, q.ret.hop);
      match NextMove(cfg, cur, purpose, q.ret)
      case Stop(outcome) => Traced(st', outcome)
      case Go(cur') => TraceLoop(cfg, st', purpose, parent, cur', depth + 1)
  }

  function AppendHop(st: State, hop: Hop): State {
    st.(hops := st.hops + [hop])
  }

  const EMPTY_STATE := State([], {}, 0, [], 0)

  /** The trace part of Trace: one top-level lookup from the roots in an empty state. */
  function Trace(cfg: Config, domain: string, qtype: QType): Traced {
    TraceName(cfg, EMPTY_STATE, TopStart(cfg, domain, qtype), None)
  }

  function TopStart(cfg: Config, domain: string, qtype: QType): Cursor {
    Cursor(cfg.roots, Fqdn(domain), qtype, Delegation, ".")
  }
}
