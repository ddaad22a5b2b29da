/** The engine as it runs: a mutable traceState shared by nested lookups, proved equal to the functions of TraceSpec. */
module TraceEngine {
  import opened Text
  import opened Dns
  import opened Rrsets
  import opened TraceSpec

  class TraceState {
    var hops: seq<Hop>
    var visited: set<string>
    var upstreamQueries: nat
    ghost var log: seq<Sent>
    ghost var messages: nat

    constructor ()
      ensures Model() == EMPTY_STATE
    {
      hops, visited, upstreamQueries := [], {}, 0;
      log, messages := [], 0;
    }

    ghost function Model(): State
      reads this
    {
      State(hops, visited, upstreamQueries, log, messages)
    }
  }

  class Engine {
    const cfg: Config

    constructor (cfg: Config)
      ensures this.cfg == cfg
    {
      this.cfg := cfg;
    }

    /** Trace: the outcome and the hop list of a run are those of the specification. */
    method Trace(domain: string, qtype: QType) returns (outcome: Outcome, hops: seq<Hop>, success: bool)
      ensures outcome == TraceSpec.Trace(cfg, domain, qtype).outcome
      ensures hops == TraceSpec.Trace(cfg, domain, qtype).st.hops
      ensures success <==> outcome.kind == Success
    {
      var state := new TraceState();
      outcome := TraceName(state, Cursor(cfg.roots, Fqdn(domain), qtype, Delegation, "."), None);
      hops := state.hops;
      success := outcome.kind == Success;
    }

    method TraceName(state: TraceState, start: Cursor, parent: Option<nat>) returns (outcome: Outcome)
      requires state.upstreamQueries <= cfg.maxQueries
      modifies state
      ensures state.Model() == TraceSpec.TraceName(cfg, old(state.Model()), start, parent).st
      ensures outcome == TraceSpec.TraceName(cfg, old(state.Model()), start, parent).outcome
      decreases cfg.maxQueries - state.upstreamQueries, 1, cfg.maxDepth + 1
    {
      hide Query, NextMove, LastHopIndex;
      var cur := start;
      var depth := 0;
      while depth < cfg.maxDepth
        invariant depth <= cfg.maxDepth
        invariant old(state.upstreamQueries) <= state.upstreamQueries <= cfg.maxQueries
        invariant TraceLoop(cfg, state.Model(), start.purpose, parent, cur, depth)
                  == TraceSpec.TraceName(cfg, old(state.Model()), start, parent)
      {
        if state.upstreamQueries >= cfg.maxQueries {
          outcome := Outcome(MaxDepthExceeded, BudgetCode, LastHopIndex(state.hops));
          return;
        }
        var q := QueryCandidates(state, cur, parent);
        state.hops := state.hops + [q.hop];
        match NextMove(cfg, cur, start.purpose, q)
        case Stop(end) =>
          outcome := end;
          return;
        case Go(next) =>
          cur := next;
        depth := depth + 1;
      }
      outcome := Outcome(MaxDepthExceeded, MaxDepthCode, LastHopIndex(state.hops));
    }

    method QueryCandidates(state: TraceState, cur: Cursor, parent: Option<nat>) returns (q: Returned)
      requires state.upstreamQueries <= cfg.maxQueries
      modifies state
      ensures Queried(state.Model(), q) == Query(cfg, old(state.Model()), cur, parent)
      decreases cfg.maxQueries - state.upstreamQueries, 0
    {
      hide NextCandidates, VisitedKey, Exchange, Send, ErrorHop, ResponseHop, Terminal, Referred, IsTerminal;
      var lastHop, timeouts, lastErr := BLANK_HOP, 0, NoErr;
      var k := 0;
      while k < |cur.candidates|
        invariant k <= |cur.candidates|
        invariant old(state.upstreamQueries) <= state.upstreamQueries <= cfg.maxQueries
        invariant Ask(cfg, cur, parent, Attempt(state.Model(), k, lastHop, timeouts, lastErr))
                  == Ask(cfg, cur, parent, FirstAttempt(old(state.Model())))
      {
        var server := cur.candidates[k];
        if state.upstreamQueries >= cfg.maxQueries {
          return Returned(lastHop, false, [], "", ErrMaxDepth);
        }
        var visitedKey := VisitedKey(server.ip, cur.qname, cur.qtype, cur.purpose);
        if !cfg.allow(server.ip) {
          lastErr := ErrUnusable;
        } else if visitedKey in state.visited {
          return Returned(ErrorHop(|state.hops|, parent, server, cur, LoopCode), false, [], "", ErrLoop);
        } else {
          var x := SendQuery(state, cur, server, visitedKey);
          match x.reply
          case Deadline =>
            timeouts := timeouts + 1;
            lastHop := ErrorHop(|state.hops|, parent, server, cur, TimeoutCode);
            lastErr := ErrTimeout;
          case Broken =>
            lastHop := ErrorHop(|state.hops|, parent, server, cur, FailedCode);
            lastErr := ErrOther;
          case Reply(m) =>
            q := Respond(state, cur, parent, server, m, x.transport);
            return;
        }
        k := k + 1;
      }
      if timeouts == |cur.candidates| && |cur.candidates| > 0 {
        return Returned(lastHop, false, [], "", ErrTimeout);
      }
      return Returned(lastHop, false, [], "", if lastErr == NoErr then ErrUnusable else lastErr);
    }

    /** The part of queryCandidates that turns a response into a hop. */
    method Respond(state: TraceState, cur: Cursor, parent: Option<nat>, server: Server, m: Message,
                   transport: Transport)
      returns (q: Returned)
      requires state.upstreamQueries <= cfg.maxQueries
      modifies state
      ensures var st := old(state.Model());
              var hop := ResponseHop(|st.hops|, parent, server, cur, m, transport);
              if IsTerminal(m, cur) then q == Terminal(hop, m, cur) && state.Model() == st
              else
                var next := NextCandidates(cfg, st, m, |st.hops|);
                q == Referred(hop, next.servers, next.targets) && state.Model() == next.st
      decreases cfg.maxQueries - state.upstreamQueries, 5
    {
      hide NextCandidates, RrsetsOf, ClassifyRole, FirstCNAME, HasType, IsNODATA;
      var answer := RrsetsFromSection(AnswerSection, m.answer);
      var authority := RrsetsFromSection(AuthoritySection, m.authority);
      var additional := RrsetsFromSection(AdditionalSection, m.additional);
      var role := ClassifyRole(server.zone, cur.purpose, m, cur.qname, cur.qtype);
      var hop := Hop(|state.hops|, parent, role, cur.purpose, cur.zone, server.name, server.ip, cur.qname,
                     cur.qtype, transport, Rcode(m.rcode), m.authoritative, transport == Tcp, NoKind,
                     answer, authority, additional, []);
      var cname := FirstCNAME(m.answer, cur.qname);
      if m.rcode != NOERROR {
        return Returned(hop.(kind := Error), true, [], "", ErrOther);
      }
      if cname != "" && !HasType(m.answer, cur.qname, cur.qtype) {
        return Returned(hop.(kind := Cname), true, [], cname, NoErr);
      }
      if HasType(m.answer, cur.qname, cur.qtype) {
        return Returned(hop.(kind := Answer), true, [], "", NoErr);
      }
      if IsNODATA(m) {
        return Returned(hop.(kind := NoData), true, [], "", NoErr);
      }
      var servers, targets := NextCandidatesForReferral(state, m, hop.index);
      if |servers| > 0 {
        return Returned(hop.(kind := Referral, targets := targets), true, servers, "", NoErr);
      }
      return Returned(hop.(kind := Error), true, [], "", ErrUnusable);
    }

    /** The bookkeeping of one exchange, and the exchange itself. */
    method SendQuery(state: TraceState, cur: Cursor, server: Server, visitedKey: string) returns (x: Exchanged)
      requires state.upstreamQueries < cfg.maxQueries
      requires visitedKey == VisitedKey(server.ip, cur.qname, cur.qtype, cur.purpose)
      modifies state
      ensures state.Model() == Send(cfg, old(state.Model()), cur, server)
      ensures x == Exchange(cfg, old(state.upstreamQueries), server.endpoint, cur.qname, cur.qtype)
      ensures state.hops == old(state.hops) && state.upstreamQueries == old(state.upstreamQueries) + 1
    {
      x := Exchange(cfg, state.upstreamQueries, server.endpoint, cur.qname, cur.qtype);
      state.visited := state.visited + {visitedKey};
      state.upstreamQueries := state.upstreamQueries + 1;
      state.log := state.log +
        [Sent(server, cur.qname, cur.qtype, cur.purpose, |state.hops|, x.reply, x.transport)];
      state.messages := state.messages + x.messages;
    }

    method NextCandidatesForReferral(state: TraceState, m: Message, parentIndex: nat)
      returns (servers: seq<Server>, targets: seq<NextTarget>)
      requires state.upstreamQueries <= cfg.maxQueries
      modifies state
      ensures Candidates(state.Model(), servers, targets) == NextCandidates(cfg, old(state.Model()), m, parentIndex)
      decreases cfg.maxQueries - state.upstreamQueries, 4
    {
      var names := NsTargetsLoop(m.authority);
      if |names| == 0 {
        return [], [];
      }
      var zone := ReferralZone(m.authority);
      servers, targets := GlueCandidates(names, zone, m.additional);
      if |servers| > 0 {
        return;
      }
      servers, targets := SupportCandidates(state, names, zone, parentIndex);
    }

    /** The first loop of nextCandidatesForReferral: the glue of the response. */
    method GlueCandidates(names: seq<string>, zone: string, additional: seq<RR>)
      returns (servers: seq<Server>, targets: seq<NextTarget>)
      ensures servers == GlueServers(cfg, names, zone, additional)
      ensures targets == TargetsOf(servers, Glue)
    {
      var glue := GlueAddrs(additional);
      servers, targets := [], [];
      for i := 0 to |names|
        invariant servers == GlueServers(cfg, names[..i], zone, additional)
        invariant targets == TargetsOf(servers, Glue)
      {
        assert names[..i + 1][..i] == names[..i];
        if names[i] in glue {
          servers, targets := AddAllowed(servers, targets, names[i], zone, glue[names[i]], Glue);
        }
      }
      assert names[..|names|] == names;
    }

    static lemma Regroup(a: seq<Server>, b: seq<Server>, c: seq<Server>)
      ensures a + (b + c) == (a + b) + c
    {}

    /** The second loop of nextCandidatesForReferral: a support lookup for every nameserver. */
    method SupportCandidates(state: TraceState, names: seq<string>, zone: string, parentIndex: nat)
      returns (servers: seq<Server>, targets: seq<NextTarget>)
      requires state.upstreamQueries <= cfg.maxQueries
      modifies state
      ensures state.Model() == SupportServers(cfg, old(state.Model()), names, zone, parentIndex).0
      ensures servers == SupportServers(cfg, old(state.Model()), names, zone, parentIndex).1
      ensures targets == TargetsOf(servers, Support)
      decreases cfg.maxQueries - state.upstreamQueries, 3
    {
      hide ResolveNameServer, ServersFor, TargetsOf;
      servers, targets := [], [];
      ghost var spec := SupportServers(cfg, state.Model(), names, zone, parentIndex);
      var k := 0;
      assert names[0..] == names;
      while k < |names|
        invariant k <= |names|
        invariant old(state.upstreamQueries) <= state.upstreamQueries <= cfg.maxQueries
        invariant targets == TargetsOf(servers, Support)
        invariant var rest := SupportServers(cfg, state.Model(), names[k..], zone, parentIndex);
                  spec.0 == rest.0 && spec.1 == servers + rest.1
      {
        assert names[k..][1..] == names[k + 1..];
        ghost var before := servers;
        var ips := ResolveNameServerAddresses(state, names[k], parentIndex);
        servers, targets := AddAllowed(servers, targets, names[k], zone, ips, Support);
        ghost var rest := SupportServers(cfg, state.Model(), names[k + 1..], zone, parentIndex).1;
        Regroup(before, ServersFor(cfg, names[k], zone, ips), rest);
        k := k + 1;
      }
    }

    /** The inner loop of nextCandidatesForReferral: addresses the policy allows become candidates and targets. */
    method AddAllowed(servers: seq<Server>, targets: seq<NextTarget>, name: string, zone: string, ips: seq<string>,
                      reason: Reason)
      returns (servers': seq<Server>, targets': seq<NextTarget>)
      requires targets == TargetsOf(servers, reason)
      ensures servers' == servers + ServersFor(cfg, name, zone, ips)
      ensures targets' == TargetsOf(servers', reason)
    {
      servers', targets' := servers, targets;
      for i := 0 to |ips|
        invariant servers' == servers + ServersFor(cfg, name, zone, ips[..i])
        invariant targets' == TargetsOf(servers', reason)
      {
        assert ips[..i + 1][..i] == ips[..i];
        if cfg.allow(ips[i]) {
          servers' := servers' + [Server(name, ips[i], cfg.endpointOf(ips[i]), zone)];
          targets' := targets' + [NextTarget(name, ips[i], zone, reason)];
        }
      }
      assert ips[..|ips|] == ips;
    }

    method ResolveNameServerAddresses(state: TraceState, nsName: string, parentIndex: nat) returns (ips: seq<string>)
      requires state.upstreamQueries <= cfg.maxQueries
      modifies state
      ensures (state.Model(), ips) == ResolveNameServer(cfg, old(state.Model()), nsName, parentIndex, [A, AAAA])
      decreases cfg.maxQueries - state.upstreamQueries, 2
    {
      var qtypes: seq<QType> := [A, AAAA];
      var k := 0;
      while k < |qtypes|
        invariant k <= |qtypes|
        invariant old(state.upstreamQueries) <= state.upstreamQueries <= cfg.maxQueries
        invariant ResolveNameServer(cfg, state.Model(), nsName, parentIndex, qtypes[k..])
                  == ResolveNameServer(cfg, old(state.Model()), nsName, parentIndex, qtypes)
      {
        assert qtypes[k..][1..] == qtypes[k + 1..];
        var outcome := TraceName(state, Cursor(cfg.roots, Fqdn(TrimDot(nsName)), qtypes[k], SupportLookup, "."),
            Some(parentIndex));
        if outcome.kind == Success {
          ips := ScanHops(state.hops, parentIndex, nsName, qtypes[k]);
          if |ips| > 0 {
            ips := UniqueStrings(ips);
            return;
          }
        }
        k := k + 1;
      }
      ips := [];
    }

    /** The scan of resolveNameServerAddresses. */
    method ScanHops(hops: seq<Hop>, parentIndex: nat, nsName: string, qtype: QType) returns (ips: seq<string>)
      ensures ips == CollectIPs(hops, parentIndex, nsName, qtype)
    {
      ips := [];
      for i := 0 to |hops|
        invariant ips == CollectIPs(hops[..i], parentIndex, nsName, qtype)
      {
        assert hops[..i + 1][..i] == hops[..i];
        if AnswersFor(hops[i], parentIndex, nsName) {
          ghost var before := ips;
          var sets := hops[i].answer;
          for j := 0 to |sets|
            invariant ips == before + DataOfType(sets[..j], qtype)
          {
            assert sets[..j + 1][..j] == sets[..j];
            if sets[j].rtype == qtype {
              ips := ips + sets[j].data;
            }
          }
          assert sets[..|sets|] == sets;
        }
      }
      assert hops[..|hops|] == hops;
    }
  }
}
