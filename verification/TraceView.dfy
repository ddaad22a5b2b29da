/** The trace engine's hop list as the hop grouping of the frontend receives it. */
module TraceView {
  import Dns
  import opened Text
  import opened TraceSpec
  import opened TraceSteps
  import opened TraceFrames
  import opened TraceIndex
  import HopForest

  function Render(hops: seq<Hop>): (r: seq<HopForest.Hop>)
    ensures |r| == |hops|
    ensures forall i :: 0 <= i < |r| ==> r[i] == HopForest.Hop(hops[i].index, hops[i].parent, hops[i].qname)
  {
    seq(|hops|, i requires 0 <= i < |hops| => HopForest.Hop(hops[i].index, hops[i].parent, hops[i].qname))
  }

  /** A hop that is its own parent, below a root of the same index, is reached again and again. */
  lemma SelfParentCycle(hops: seq<HopForest.Hop>, own: nat, self: nat)
    requires own < |hops| && self < |hops| && hops[self].parent == Some(hops[self].index)
    requires hops[own].parent == None && hops[own].index == hops[self].index
    ensures !exists bound :: HopForest.GroupHops(hops, bound).Some?
  {
    var x := hops[own].index;
    assert HopForest.IsEdge(hops, x, x);
    assert HopForest.IsWalk(hops, [x, x], x);
    assert [x, x][0] == [x, x][1];
    assert HopForest.ReachesCycle(hops, x);
    assert hops[own] in hops && HopForest.IsRoot(hops, hops[own]);
    HopForest.GroupingEndsExactlyWhen(hops);
  }

  /**
   * The engine gives a referral hop its Index before its support lookups run, so the first support hop has the same
   * Index and is its own parent. Hence the grouping of a run's hops, with an allowed root, ends exactly when no support
   * lookup appended a hop; otherwise the recursion never comes to an end.
   */
  lemma GroupingEndsExactlyWithoutSupport(cfg: Config, domain: string, qtype: Dns.QType)
    requires HasAllowed(cfg, cfg.roots)
    ensures var hops := Trace(cfg, domain, qtype).st.hops;
            (exists bound :: HopForest.GroupHops(Render(hops), bound).Some?)
            <==> forall p :: 0 <= p < |hops| ==> hops[p].parent.None?
  {
    var hops := Trace(cfg, domain, qtype).st.hops;
    var shown := Render(hops);
    if p :| 0 <= p < |hops| && hops[p].parent.Some? {
      var own := SupportHopsCollide(cfg, domain, qtype, p);
      SelfParentCycle(shown, own, hops[own].index);
    } else {
      IndexLaw(cfg, domain, qtype);
      hide Trace;
      HopForest.ForestEnds(shown);
    }
  }

  /** With budget left and an allowed first server, a lookup appends a hop of its parent. */
  lemma LookupAppends(cfg: Config, st: State, start: Cursor, parent: Option<nat>)
    requires st.queries < cfg.maxQueries && 0 < cfg.maxDepth && HasAllowed(cfg, start.candidates)
    ensures exists h :: h in TraceName(cfg, st, start, parent).st.hops && h.parent == parent
  {
    var a := QueryShape(cfg, st, start, parent);
    var q := Query(cfg, st, start, parent);
    QueryHop(cfg, st, start, parent, q, a);
    hide Query, NextMove, HasAllowed, Shape;
    assert q.ret.hop in AppendHop(q.st, q.ret.hop).hops;
    assert AppendHop(q.st, q.ret.hop).hops <= TraceName(cfg, st, start, parent).st.hops;
  }

  /** The first root answers a run's first query with a referral that names nameservers without any usable address. */
  predicate FirstReferralIsGlueless(cfg: Config, domain: string, qtype: Dns.QType, m: Dns.Message) {
    var start := TopStart(cfg, domain, qtype);
    && cfg.roots != [] && cfg.allow(cfg.roots[0].ip)
    && cfg.udp(0, cfg.roots[0].endpoint, start.qname, qtype) == Reply(m) && !m.truncated
    && !IsTerminal(m, start) && Dns.NsTargets(m.authority) != []
    && GlueServers(cfg, Dns.NsTargets(m.authority), Dns.ReferralZone(m.authority), m.additional) == []
  }

  /** The support lookup for the first nameserver appends a hop to the run. */
  lemma ReferralAppends(cfg: Config, st: State, m: Dns.Message, parentIndex: nat)
    requires st.queries < cfg.maxQueries && 0 < cfg.maxDepth && HasAllowed(cfg, cfg.roots)
    requires Dns.NsTargets(m.authority) != []
    requires GlueServers(cfg, Dns.NsTargets(m.authority), Dns.ReferralZone(m.authority), m.additional) == []
    ensures exists h :: h in NextCandidates(cfg, st, m, parentIndex).st.hops && h.parent == Some(parentIndex)
  {
    var names := Dns.NsTargets(m.authority);
    var zone := Dns.ReferralZone(m.authority);
    var looked := TraceName(cfg, st, SupportStart(cfg, names[0], Dns.A), Some(parentIndex));
    LookupAppends(cfg, st, SupportStart(cfg, names[0], Dns.A), Some(parentIndex));
    hide TraceName, HasAllowed, GlueServers, CollectIPs, Dns.ReferralZone, Dns.NsTargets;
    assert looked.st.hops <= ResolveNameServer(cfg, st, names[0], parentIndex, [Dns.A, Dns.AAAA]).0.hops;
    hide ResolveNameServer;
    assert looked.st.hops <= SupportServers(cfg, st, names, zone, parentIndex).0.hops;
  }

  lemma FirstAsk(cfg: Config, domain: string, qtype: Dns.QType, m: Dns.Message)
    requires FirstReferralIsGlueless(cfg, domain, qtype, m) && 1 <= cfg.maxQueries
    ensures var start := TopStart(cfg, domain, qtype);
            Ask(cfg, start, None, FirstAttempt(EMPTY_STATE))
                == Got(Send(cfg, EMPTY_STATE, start, cfg.roots[0]), cfg.roots[0], m, Udp)
  {}

  lemma FirstQuery(cfg: Config, domain: string, qtype: Dns.QType, m: Dns.Message)
    requires FirstReferralIsGlueless(cfg, domain, qtype, m) && 1 <= cfg.maxQueries
    ensures var start := TopStart(cfg, domain, qtype);
            Query(cfg, EMPTY_STATE, start, None).st
                == NextCandidates(cfg, Send(cfg, EMPTY_STATE, start, cfg.roots[0]), m, 0).st
  {
    FirstAsk(cfg, domain, qtype, m);
    hide Ask, NextCandidates, IsTerminal, GlueServers, Dns.NsTargets, ResponseHop, TopStart;
  }

  lemma FirstQueryIsKept(cfg: Config, domain: string, qtype: Dns.QType)
    requires 0 < cfg.maxQueries && 0 < cfg.maxDepth
    ensures Query(cfg, EMPTY_STATE, TopStart(cfg, domain, qtype), None).st.hops <= Trace(cfg, domain, qtype).st.hops
  {
    hide Query, NextMove, TopStart;
    var start := TopStart(cfg, domain, qtype);
    var q := Query(cfg, EMPTY_STATE, start, None);
    assert Trace(cfg, domain, qtype) == TraceLoop(cfg, EMPTY_STATE, start.purpose, None, start, 0);
    assert q.st.hops <= AppendHop(q.st, q.ret.hop).hops <= Trace(cfg, domain, qtype).st.hops;
  }

  /** So with a glueless referral from the root and a budget of two queries the hop grouping never ends. */
  lemma GluelessReferralNeverEnds(cfg: Config, domain: string, qtype: Dns.QType, m: Dns.Message)
    requires FirstReferralIsGlueless(cfg, domain, qtype, m) && 2 <= cfg.maxQueries && 0 < cfg.maxDepth
    ensures !exists bound :: HopForest.GroupHops(Render(Trace(cfg, domain, qtype).st.hops), bound).Some?
  {
    hide NextCandidates, Query, Trace, TopStart, VisitedKey, IsTerminal, GlueServers;
    assert HasAllowed(cfg, cfg.roots);
    var st := Send(cfg, EMPTY_STATE, TopStart(cfg, domain, qtype), cfg.roots[0]);
    ReferralAppends(cfg, st, m, 0);
    FirstQuery(cfg, domain, qtype, m);
    FirstQueryIsKept(cfg, domain, qtype);
    var hops, kept := Trace(cfg, domain, qtype).st.hops, NextCandidates(cfg, st, m, 0).st.hops;
    var h :| h in kept && h.parent == Some(0);
    var p :| 0 <= p < |kept| && kept[p] == h;
    assert hops[p].parent.Some?;
    GroupingEndsExactlyWithoutSupport(cfg, domain, qtype);
  }
}
