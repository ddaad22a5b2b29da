/** Where the addresses and hops of a run come from: nothing is asked or reported that the run did not learn. */
module TraceProvenance {
  import opened Text
  import opened Dns
  import opened Rrsets
  import opened TraceSpec
  import opened TraceSteps

  /** A support hop that asked for nsName was answered with an A or AAAA set holding ip. */
  predicate AnsweredBy(h: Hop, nsName: string, ip: string) {
    && h.purpose == SupportLookup && h.kind == Answer && h.qname == nsName
    && exists i ::
         0 <= i < |h.answer| && (h.answer[i].rtype == A || h.answer[i].rtype == AAAA) && ip in h.answer[i].data
  }

  predicate FromSupportHop(hops: seq<Hop>, nsName: string, ip: string) {
    exists i :: 0 <= i < |hops| && AnsweredBy(hops[i], nsName, ip)
  }

  /** The server is a nameserver named by the referral m, at its glue address or one found by a support lookup. */
  predicate FromReferral(cfg: Config, m: Message, hops: seq<Hop>, s: Server) {
    && s.name in NsTargets(m.authority)
    && s.zone == ReferralZone(m.authority)
    && s.endpoint == cfg.endpointOf(s.ip)
    && (s.ip in GlueFor(m.additional, s.name) || FromSupportHop(hops, s.name, s.ip))
  }

  predicate Learned(cfg: Config, log: seq<Sent>, hops: seq<Hop>, s: Server) {
    || s in cfg.roots
    || exists i :: 0 <= i < |log| && log[i].reply.Reply? && FromReferral(cfg, log[i].reply.m, hops, s)
  }

  /** The j-th exchange went to an allowed address learned from the exchanges and hops before it. */
  ghost predicate SentLearned(cfg: Config, log: seq<Sent>, hops: seq<Hop>, j: nat)
    requires j < |log|
  {
    var s := log[j];
    cfg.allow(s.server.ip) && s.hopCount <= |hops| && Learned(cfg, log[..j], hops[..s.hopCount], s.server)
  }

  predicate SameQuestion(h: Hop, s: Sent) {
    && h.serverName == s.server.name && h.serverIP == s.server.ip
    && h.qname == s.qname && h.qtype == s.qtype && h.purpose == s.purpose
  }

  /** The hop reports the sections, the code and the authority bit of the response to that exchange, and how it came. */
  predicate Reports(h: Hop, s: Sent) {
    && SameQuestion(h, s) && s.reply.Reply? && h.transport == s.transport && (h.truncated <==> s.transport == Tcp)
    && h.code == Rcode(s.reply.m.rcode) && h.authoritative == s.reply.m.authoritative
    && h.answer == RrsetsOf(AnswerSection, s.reply.m.answer)
    && h.authority == RrsetsOf(AuthoritySection, s.reply.m.authority)
    && h.additional == RrsetsOf(AdditionalSection, s.reply.m.additional)
  }

  /** The hop is an error hop of the engine: no records, and about an allowed server that was learned. */
  ghost predicate Unanswered(cfg: Config, log: seq<Sent>, hops: seq<Hop>, h: Hop) {
    && !h.code.Rcode? && h.kind == Error && h.answer == [] && h.authority == [] && h.additional == []
    && exists s :: Learned(cfg, log, hops, s) && cfg.allow(s.ip) && h.serverName == s.name && h.serverIP == s.ip
  }

  /** A hop is blank, about a server that did not answer, or the report of a response in the log. */
  ghost predicate Backed(cfg: Config, log: seq<Sent>, hops: seq<Hop>, h: Hop) {
    || h == BLANK_HOP
    || Unanswered(cfg, log, hops, h)
    || exists i :: 0 <= i < |log| && Reports(h, log[i])
  }

  ghost predicate Honest(cfg: Config, st: State) {
    && (forall j :: 0 <= j < |st.log| ==> SentLearned(cfg, st.log, st.hops, j))
    && (forall p :: 0 <= p < |st.hops| ==> Backed(cfg, st.log, st.hops, st.hops[p]))
  }

  ghost predicate AllLearned(cfg: Config, st: State, servers: seq<Server>) {
    forall i :: 0 <= i < |servers| ==> Learned(cfg, st.log, st.hops, servers[i])
  }

  lemma BackedGrows(cfg: Config, log: seq<Sent>, hops: seq<Hop>, log': seq<Sent>, hops': seq<Hop>, h: Hop)
    requires Backed(cfg, log, hops, h) && log <= log' && hops <= hops'
    ensures Backed(cfg, log', hops', h)
  {}

  lemma SupportGrows(hops: seq<Hop>, hops': seq<Hop>, nsName: string, ip: string)
    requires FromSupportHop(hops, nsName, ip) && hops <= hops'
    ensures FromSupportHop(hops', nsName, ip)
  {}

  lemma LearnedGrows(cfg: Config, log: seq<Sent>, hops: seq<Hop>, log': seq<Sent>, hops': seq<Hop>, s: Server)
    requires Learned(cfg, log, hops, s) && log <= log' && hops <= hops'
    ensures Learned(cfg, log', hops', s)
  {}

  lemma AllLearnedGrows(cfg: Config, st: State, st': State, servers: seq<Server>)
    requires AllLearned(cfg, st, servers) && Grows(cfg, st, st')
    ensures AllLearned(cfg, st', servers)
  {}

  lemma HonestAppend(cfg: Config, st: State, h: Hop)
    requires Honest(cfg, st) && Backed(cfg, st.log, st.hops, h)
    ensures Honest(cfg, AppendHop(st, h))
  {
    hide Learned, Backed;
    var hops := st.hops + [h];
    forall j | 0 <= j < |st.log| ensures SentLearned(cfg, st.log, hops, j) {
      assert SentLearned(cfg, st.log, st.hops, j);
      assert hops[..st.log[j].hopCount] == st.hops[..st.log[j].hopCount];
    }
    forall p | 0 <= p < |hops| ensures Backed(cfg, st.log, hops, hops[p]) {
      BackedGrows(cfg, st.log, st.hops, st.log, hops, hops[p]);
    }
  }

  lemma HonestSend(cfg: Config, st: State, cur: Cursor, server: Server)
    requires Honest(cfg, st) && AllLearned(cfg, st, cur.candidates) && Fresh(cfg, st, cur, server)
    ensures Honest(cfg, Send(cfg, st, cur, server))
  {
    hide Learned, Backed, VisitedKey, Exchange;
    var log := Send(cfg, st, cur, server).log;
    forall j | 0 <= j < |log| ensures SentLearned(cfg, log, st.hops, j) {
      if j < |st.log| {
        assert SentLearned(cfg, st.log, st.hops, j);
        assert log[..j] == st.log[..j];
      } else {
        assert log[..j] == st.log && st.hops[..|st.hops|] == st.hops;
      }
    }
    forall p | 0 <= p < |st.hops| ensures Backed(cfg, log, st.hops, st.hops[p]) {
      BackedGrows(cfg, st.log, st.hops, log, st.hops, st.hops[p]);
    }
  }

  lemma {:induction false} HonestSends(cfg: Config, cur: Cursor, st: State, servers: seq<Server>, st': State)
    requires Honest(cfg, st) && AllLearned(cfg, st, cur.candidates) && Sends(cfg, cur, st, servers, st')
    ensures Honest(cfg, st') && AllLearned(cfg, st', cur.candidates)
    decreases |servers|
  {
    hide Honest, AllLearned;
    if servers != [] {
      var next := Send(cfg, st, cur, servers[0]);
      HonestSend(cfg, st, cur, servers[0]);
      AllLearnedGrows(cfg, st, next, cur.candidates);
      HonestSends(cfg, cur, next, servers[1..], st');
    }
  }

  /** Every candidate taken from a referral is a server of that referral. */
  lemma {:induction false} GlueLearned(cfg: Config, st: State, m: Message, names: seq<string>, s: Server)
    requires s in GlueServers(cfg, names, ReferralZone(m.authority), m.additional)
    requires forall n :: n in names ==> n in NsTargets(m.authority)
    ensures FromReferral(cfg, m, st.hops, s)
  {
    hide NsTargets, ReferralZone, GlueFor;
    var n := |names| - 1;
    if s !in ServersFor(cfg, names[n], ReferralZone(m.authority), GlueFor(m.additional, names[n])) {
      GlueLearned(cfg, st, m, names[..n], s);
    }
  }

  lemma {:induction false} DataOfTypeFound(sets: seq<RRset>, qtype: QType, ip: string)
    requires ip in DataOfType(sets, qtype)
    ensures exists i :: 0 <= i < |sets| && sets[i].rtype == qtype && ip in sets[i].data
  {
    var n := |sets| - 1;
    if !(sets[n].rtype == qtype && ip in sets[n].data) {
      DataOfTypeFound(sets[..n], qtype, ip);
    }
  }

  lemma {:induction false} CollectedIsAnswered(hops: seq<Hop>, parentIndex: nat, nsName: string, qtype: QType,
                                               ip: string)
    requires ip in CollectIPs(hops, parentIndex, nsName, qtype) && qtype != NS
    ensures FromSupportHop(hops, nsName, ip)
  {
    var n := |hops| - 1;
    if AnswersFor(hops[n], parentIndex, nsName) && ip in DataOfType(hops[n].answer, qtype) {
      DataOfTypeFound(hops[n].answer, qtype, ip);
      assert AnsweredBy(hops[n], nsName, ip);
    } else {
      CollectedIsAnswered(hops[..n], parentIndex, nsName, qtype, ip);
      SupportGrows(hops[..n], hops, nsName, ip);
    }
  }

  lemma {:induction false} QueryHonest(cfg: Config, st: State, cur: Cursor, parent: Option<nat>)
    requires st.queries <= cfg.maxQueries
    requires Honest(cfg, st) && AllLearned(cfg, st, cur.candidates)
    ensures var q := Query(cfg, st, cur, parent);
            Honest(cfg, q.st) && Backed(cfg, q.st.log, q.st.hops, q.ret.hop) && AllLearned(cfg, q.st, q.ret.next)
    decreases cfg.maxQueries - st.queries, 0
  {
    var q := Query(cfg, st, cur, parent);
    var a := QueryShape(cfg, st, cur, parent);
    hide Query, Honest, AllLearned, Backed, NextCandidates, Sends, ResponseHop, IsTerminal, Terminal, Referred;
    HonestSends(cfg, cur, st, a.servers, a.st);
    match a.answer
    case None =>
      LocalHopBacked(cfg, st, cur, parent, q, a);
    case Some(r) =>
      AnsweredHopBacked(cfg, st, cur, parent, q, a);
      if !IsTerminal(r.m, cur) {
        NextHonest(cfg, a.st, r.m, |a.st.hops|);
      }
      NextAreLearned(cfg, st, cur, parent, q, a);
  }

  lemma LocalHopBacked(cfg: Config, st: State, cur: Cursor, parent: Option<nat>, q: Queried, a: Asking)
    requires Shape(cfg, st, cur, parent, q, a) && a.answer.None? && AllLearned(cfg, a.st, cur.candidates)
    ensures Backed(cfg, q.st.log, q.st.hops, q.ret.hop)
  {
    hide Sends, Reports, Learned;
    if q.ret.hop != BLANK_HOP {
      var server, code :| MadeFor(cfg, a.st, cur, parent, q.ret.hop, server, code);
    }
  }

  lemma ResponseReports(index: nat, parent: Option<nat>, r: Response, cur: Cursor, kind: HopKind,
                        targets: seq<NextTarget>, hopCount: nat)
    ensures Reports(ResponseHop(index, parent, r.server, cur, r.m, r.transport).(kind := kind, targets := targets),
                    Sent(r.server, cur.qname, cur.qtype, cur.purpose, hopCount, Reply(r.m), r.transport))
  {
    hide RrsetsOf, ClassifyRole;
  }

  lemma AnsweredHopBacked(cfg: Config, st: State, cur: Cursor, parent: Option<nat>, q: Queried, a: Asking)
    requires Shape(cfg, st, cur, parent, q, a) && a.answer.Some? && a.st.log <= q.st.log && a.st.hops <= q.st.hops
    ensures Backed(cfg, q.st.log, q.st.hops, q.ret.hop)
  {
    var i, h := |a.st.log| - 1, q.ret.hop;
    AnsweredHop(cfg, st, cur, parent, q, a);
    hide Sends, NextCandidates, IsTerminal, Terminal, Referred, ResponseHop, Unanswered, Reports;
    ResponseReports(|a.st.hops|, parent, a.answer.value, cur, h.kind, h.targets, |a.st.hops|);
    assert Reports(h, q.st.log[i]);
  }

  lemma NextAreLearned(cfg: Config, st: State, cur: Cursor, parent: Option<nat>, q: Queried, a: Asking)
    requires Shape(cfg, st, cur, parent, q, a) && a.answer.Some? && a.st.log <= q.st.log
    requires IsTerminal(a.answer.value.m, cur) ||
             forall s :: s in NextCandidates(cfg, a.st, a.answer.value.m, |a.st.hops|).servers ==>
                           FromReferral(cfg, a.answer.value.m, q.st.hops, s)
    ensures AllLearned(cfg, q.st, q.ret.next)
  {
    hide Sends, NextCandidates, IsTerminal, FromReferral, ResponseHop, HasType, FirstCNAME, IsNODATA;
    var i := |a.st.log| - 1;
    assert q.st.log[i].reply == Reply(a.answer.value.m);
  }

  lemma {:induction false} NextHonest(cfg: Config, st: State, m: Message, parentIndex: nat)
    requires st.queries <= cfg.maxQueries && Honest(cfg, st)
    ensures var next := NextCandidates(cfg, st, m, parentIndex);
            Honest(cfg, next.st) && forall s :: s in next.servers ==> FromReferral(cfg, m, next.st.hops, s)
    decreases cfg.maxQueries - st.queries, 4
  {
    var names, next := NsTargets(m.authority), NextCandidates(cfg, st, m, parentIndex);
    SupportHonest(cfg, st, names, ReferralZone(m.authority), parentIndex);
    var glued := GlueServers(cfg, names, ReferralZone(m.authority), m.additional);
    forall s | s in glued ensures FromReferral(cfg, m, st.hops, s) {
      GlueLearned(cfg, st, m, names, s);
    }
    hide Honest, FromSupportHop, GlueFor, NsTargets, ReferralZone, GlueServers;
  }

  lemma {:induction false} SupportHonest(cfg: Config, st: State, names: seq<string>, zone: string, parentIndex: nat)
    requires st.queries <= cfg.maxQueries && Honest(cfg, st)
    ensures var r := SupportServers(cfg, st, names, zone, parentIndex);
            && Honest(cfg, r.0)
            && forall s :: s in r.1 ==> s.name in names && s.zone == zone && s.endpoint == cfg.endpointOf(s.ip)
                                        && FromSupportHop(r.0.hops, s.name, s.ip)
    decreases cfg.maxQueries - st.queries, 3, |names|
  {
    hide Honest, FromSupportHop, ResolveNameServer, ServersFor;
    if names != [] {
      ResolveHonest(cfg, st, names[0], parentIndex, [A, AAAA]);
      var (st1, ips) := ResolveNameServer(cfg, st, names[0], parentIndex, [A, AAAA]);
      SupportHonest(cfg, st1, names[1..], zone, parentIndex);
      var r := SupportServers(cfg, st, names, zone, parentIndex);
      forall s | s in ServersFor(cfg, names[0], zone, ips) ensures FromSupportHop(r.0.hops, s.name, s.ip) {
        SupportGrows(st1.hops, r.0.hops, names[0], s.ip);
      }
    }
  }

  lemma {:induction false} ResolveHonest(cfg: Config, st: State, nsName: string, parentIndex: nat, qtypes: seq<QType>)
    requires st.queries <= cfg.maxQueries && Honest(cfg, st) && forall t :: t in qtypes ==> t != NS
    ensures var r := ResolveNameServer(cfg, st, nsName, parentIndex, qtypes);
            Honest(cfg, r.0) && forall ip :: ip in r.1 ==> FromSupportHop(r.0.hops, nsName, ip)
    decreases cfg.maxQueries - st.queries, 2, |qtypes|
  {
    hide Honest, FromSupportHop, CollectIPs, TraceName;
    if qtypes != [] {
      assert qtypes[0] in qtypes && forall t :: t in qtypes[1..] ==> t in qtypes;
      var start := SupportStart(cfg, nsName, qtypes[0]);
      TraceHonest(cfg, st, start, Some(parentIndex));
      var t := TraceName(cfg, st, start, Some(parentIndex));
      var ips := CollectIPs(t.st.hops, parentIndex, nsName, qtypes[0]);
      forall ip | ip in FirstSeen(ips) ensures FromSupportHop(t.st.hops, nsName, ip) {
        FirstSeenIn(ips, ip);
        CollectedIsAnswered(t.st.hops, parentIndex, nsName, qtypes[0], ip);
      }
      ResolveHonest(cfg, t.st, nsName, parentIndex, qtypes[1..]);
    }
  }

  lemma {:induction false} TraceHonest(cfg: Config, st: State, start: Cursor, parent: Option<nat>)
    requires st.queries <= cfg.maxQueries && Honest(cfg, st) && start.candidates == cfg.roots
    ensures Honest(cfg, TraceName(cfg, st, start, parent).st)
    decreases cfg.maxQueries - st.queries, 1, cfg.maxDepth + 1
  {
    hide Honest, Learned;
    LoopHonest(cfg, st, start.purpose, parent, start, 0);
  }

  lemma {:induction false} LoopHonest(cfg: Config, st: State, purpose: Purpose, parent: Option<nat>, cur: Cursor,
                                      depth: nat)
    requires st.queries <= cfg.maxQueries && depth <= cfg.maxDepth
    requires Honest(cfg, st)
    requires cur.candidates == cfg.roots || AllLearned(cfg, st, cur.candidates)
    ensures Honest(cfg, TraceLoop(cfg, st, purpose, parent, cur, depth).st)
    decreases cfg.maxQueries - st.queries, 1, cfg.maxDepth - depth
  {
    hide Query, Honest, AllLearned, NextMove;
    if depth < cfg.maxDepth && st.queries < cfg.maxQueries {
      RootsLearned(cfg, st);
      QueryHonest(cfg, st, cur, parent);
      var q := Query(cfg, st, cur, parent);
      HonestAppend(cfg, q.st, q.ret.hop);
      match NextMove(cfg, cur, purpose, q.ret)
      case Stop(_) =>
      case Go(cur') =>
        MoveCandidates(cfg, cur, purpose, q.ret);
        AllLearnedGrows(cfg, q.st, AppendHop(q.st, q.ret.hop), q.ret.next);
        LoopHonest(cfg, AppendHop(q.st, q.ret.hop), purpose, parent, cur', depth + 1);
    }
  }

  lemma RootsLearned(cfg: Config, st: State)
    ensures AllLearned(cfg, st, cfg.roots)
  {}

  lemma AnswerDataIsBarFree(cfg: Config, st: State, h: Hop, ip: string)
    requires Honest(cfg, st) && h in st.hops && AnsweredBy(h, h.qname, ip)
    ensures '|' !in ip
  {
    var p :| 0 <= p < |st.hops| && st.hops[p] == h;
    assert Backed(cfg, st.log, st.hops, h);
    var i :| 0 <= i < |st.log| && Reports(h, st.log[i]);
    var k :| 0 <= k < |h.answer| && (h.answer[k].rtype == A || h.answer[k].rtype == AAAA) && ip in h.answer[k].data;
    var records := st.log[i].reply.m.answer;
    assert h.answer[k] == Group(AnswerSection, records, FirstSeen(Keys(records))[k]);
    AddressDataIsBarFree(records, (h.answer[k].name, h.answer[k].rtype), ip);
  }

  /** A learned address never contains a bar, if no root's address does. */
  lemma LearnedIsBarFree(cfg: Config, st: State, s: Server)
    requires Honest(cfg, st) && Learned(cfg, st.log, st.hops, s)
    requires forall r :: r in cfg.roots ==> '|' !in r.ip
    ensures '|' !in s.ip
  {
    hide Honest, AnsweredBy;
    if s !in cfg.roots {
      var i :| 0 <= i < |st.log| && st.log[i].reply.Reply? && FromReferral(cfg, st.log[i].reply.m, st.hops, s);
      var additional := st.log[i].reply.m.additional;
      if s.ip in GlueFor(additional, s.name) {
        GlueForMeaning(additional, s.name, s.ip);
      } else {
        var j :| 0 <= j < |st.hops| && AnsweredBy(st.hops[j], s.name, s.ip);
        HopQName(st.hops[j], s.name, s.ip);
        AnswerDataIsBarFree(cfg, st, st.hops[j], s.ip);
      }
    }
  }

  lemma HopQName(h: Hop, name: string, ip: string)
    requires AnsweredBy(h, name, ip)
    ensures h.qname == name
  {}

  /**
   * No address and no hop is invented: every exchange of a run goes to an address that the policy allows and that is a
   * root's, or glue of a nameserver named by an earlier referral, or an address that an earlier support hop asking for
   * that nameserver was answered with; and every hop with a response code reports one logged response, section by
   * section.
   */
  lemma NothingInvented(cfg: Config, domain: string, qtype: QType)
    ensures var st := Trace(cfg, domain, qtype).st;
            && (forall j :: 0 <= j < |st.log| ==> SentLearned(cfg, st.log, st.hops, j))
            && (forall p :: 0 <= p < |st.hops| && st.hops[p].code.Rcode? ==>
                  exists i :: 0 <= i < |st.log| && Reports(st.hops[p], st.log[i]))
  {
    var start := TopStart(cfg, domain, qtype);
    TraceHonest(cfg, EMPTY_STATE, start, None);
    var st := Trace(cfg, domain, qtype).st;
    assert Honest(cfg, st);
    hide Trace, Reports, SentLearned;
  }
}
