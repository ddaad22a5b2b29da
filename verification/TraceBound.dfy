/** A bound on the hop list against any responder, by counting what each upstream query can pay for. */
module TraceBound {
  import opened Text
  import opened Dns
  import opened TraceSpec
  import opened TraceSteps

  /** No reply names more than width distinct nameservers. */
  ghost predicate BoundedReferrals(cfg: Config, width: nat) {
    forall n, endpoint, qname, qtype ::
      && Narrow(cfg.udp(n, endpoint, qname, qtype), width)
      && Narrow(cfg.tcp(n, endpoint, qname, qtype), width)
  }

  predicate Narrow(w: Wire, width: nat) {
    w.Reply? ==> |NsTargets(w.m.authority)| <= width
  }

  /** A query pays for its own hop and for the last hop of two lookups for each nameserver it names. */
  function Cost(width: nat): nat { 1 + 2 * width }

  lemma ExchangeIsNarrow(cfg: Config, width: nat, n: nat, endpoint: string, qname: string, qtype: QType)
    requires BoundedReferrals(cfg, width)
    ensures Narrow(Exchange(cfg, n, endpoint, qname, qtype).reply, width)
  {}

  lemma {:induction false} SendsAreNarrow(cfg: Config, width: nat, cur: Cursor, st: State, servers: seq<Server>,
                                          st': State)
    requires BoundedReferrals(cfg, width) && Sends(cfg, cur, st, servers, st') && servers != []
    ensures st'.log != [] && Narrow(st'.log[|st'.log| - 1].reply, width)
    decreases |servers|
  {
    hide BoundedReferrals, Narrow, Exchange, VisitedKey;
    var next := Send(cfg, st, cur, servers[0]);
    ExchangeIsNarrow(cfg, width, st.queries, servers[0].endpoint, cur.qname, cur.qtype);
    if |servers| > 1 {
      SendsAreNarrow(cfg, width, cur, next, servers[1..], st');
    }
  }

  /** What the queries from a count of a to a count of b pay for. */
  function Paid(a: nat, b: nat, cost: nat): nat
    requires a <= b
  {
    (b - a) * cost
  }

  lemma Pay(a: nat, b: nat, c: nat, cost: nat)
    requires a <= b <= c
    ensures Paid(a, b, cost) + Paid(b, c, cost) == Paid(a, c, cost)
  {}

  lemma PayOne(a: nat, b: nat, cost: nat)
    requires a < b
    ensures Paid(a, b, cost) >= cost
  {
    Pay(a, a + 1, b, cost);
  }

  lemma PayNone(a: nat, cost: nat)
    ensures Paid(a, a, cost) == 0
  {}

  lemma AnswerIsNarrow(cfg: Config, width: nat, st: State, cur: Cursor, parent: Option<nat>, q: Queried, a: Asking)
    requires Shape(cfg, st, cur, parent, q, a) && a.answer.Some? && BoundedReferrals(cfg, width)
    ensures Narrow(Reply(a.answer.value.m), width)
  {
    hide BoundedReferrals, Narrow, Sends, ResponseHop, Terminal, Referred, IsTerminal, NextCandidates;
    SendsAreNarrow(cfg, width, cur, st, a.servers, a.st);
  }

  /** The support lookups of a query leave room for its hop: they add fewer hops than its queries pay for. */
  lemma {:induction false} QueryBound(cfg: Config, width: nat, st: State, cur: Cursor, parent: Option<nat>)
    requires st.queries <= cfg.maxQueries && BoundedReferrals(cfg, width)
    ensures var q := Query(cfg, st, cur, parent);
            && (q.st.queries == st.queries ==> |q.st.hops| == |st.hops|)
            && (q.st.queries > st.queries ==>
                  |q.st.hops| + 1 <= |st.hops| + Paid(st.queries, q.st.queries, Cost(width)))
    decreases cfg.maxQueries - st.queries, 0
  {
    var q := Query(cfg, st, cur, parent);
    var a := QueryShape(cfg, st, cur, parent);
    hide Query, BoundedReferrals, Narrow, Paid, Sends, LocalHop, AllBlocked, Answered, ResponseHop, Terminal, Referred,
         IsTerminal, NextCandidates;
    var cost := Cost(width);
    SendsCounts(cfg, cur, st, a.servers, a.st);
    if st.queries < a.st.queries {
      PayOne(st.queries, a.st.queries, cost);
    }
    if a.answer.Some? && !IsTerminal(a.answer.value.m, cur) {
      AnswerIsNarrow(cfg, width, st, cur, parent, q, a);
      NextBound(cfg, width, a.st, a.answer.value.m, |a.st.hops|);
      Pay(st.queries, a.st.queries, q.st.queries, cost);
    }
  }

  lemma {:induction false} NextBound(cfg: Config, width: nat, st: State, m: Message, parentIndex: nat)
    requires st.queries <= cfg.maxQueries && BoundedReferrals(cfg, width) && Narrow(Reply(m), width)
    ensures var st' := NextCandidates(cfg, st, m, parentIndex).st;
            |st'.hops| <= |st.hops| + Paid(st.queries, st'.queries, Cost(width)) + 2 * width
    decreases cfg.maxQueries - st.queries, 4
  {
    PayNone(st.queries, Cost(width));
    hide BoundedReferrals, NsTargets, ReferralZone, GlueServers, Paid, Cost;
    SupportBound(cfg, width, st, NsTargets(m.authority), ReferralZone(m.authority), parentIndex);
  }

  lemma {:induction false} SupportBound(cfg: Config, width: nat, st: State, names: seq<string>, zone: string,
                                        parentIndex: nat)
    requires st.queries <= cfg.maxQueries && BoundedReferrals(cfg, width)
    ensures var st' := SupportServers(cfg, st, names, zone, parentIndex).0;
            |st'.hops| <= |st.hops| + Paid(st.queries, st'.queries, Cost(width)) + 2 * |names|
    decreases cfg.maxQueries - st.queries, 3, |names|
  {
    PayNone(st.queries, Cost(width));
    hide BoundedReferrals, ResolveNameServer, ServersFor, Paid, Cost;
    if names != [] {
      var st1 := ResolveNameServer(cfg, st, names[0], parentIndex, [A, AAAA]).0;
      var st2 := SupportServers(cfg, st1, names[1..], zone, parentIndex).0;
      ResolveBound(cfg, width, st, names[0], parentIndex, [A, AAAA]);
      SupportBound(cfg, width, st1, names[1..], zone, parentIndex);
      Pay(st.queries, st1.queries, st2.queries, Cost(width));
    }
  }

  lemma {:induction false} ResolveBound(cfg: Config, width: nat, st: State, nsName: string, parentIndex: nat,
                                        qtypes: seq<QType>)
    requires st.queries <= cfg.maxQueries && BoundedReferrals(cfg, width)
    ensures var st' := ResolveNameServer(cfg, st, nsName, parentIndex, qtypes).0;
            |st'.hops| <= |st.hops| + Paid(st.queries, st'.queries, Cost(width)) + |qtypes|
    decreases cfg.maxQueries - st.queries, 2, |qtypes|
  {
    PayNone(st.queries, Cost(width));
    hide BoundedReferrals, TraceName, CollectIPs, Paid, Cost;
    if qtypes != [] {
      var start := SupportStart(cfg, nsName, qtypes[0]);
      var st1 := TraceName(cfg, st, start, Some(parentIndex)).st;
      var st2 := ResolveNameServer(cfg, st1, nsName, parentIndex, qtypes[1..]).0;
      TraceBounded(cfg, width, st, start, Some(parentIndex));
      ResolveBound(cfg, width, st1, nsName, parentIndex, qtypes[1..]);
      Pay(st.queries, st1.queries, st2.queries, Cost(width));
    }
  }

  lemma {:induction false} TraceBounded(cfg: Config, width: nat, st: State, start: Cursor, parent: Option<nat>)
    requires st.queries <= cfg.maxQueries && BoundedReferrals(cfg, width)
    ensures var st' := TraceName(cfg, st, start, parent).st;
            |st'.hops| <= |st.hops| + Paid(st.queries, st'.queries, Cost(width)) + 1
    decreases cfg.maxQueries - st.queries, 1, cfg.maxDepth + 1
  {
    hide BoundedReferrals, Paid, Cost;
    LoopBound(cfg, width, st, start.purpose, parent, start, 0);
  }

  /** Every lookup ends with at most one hop that no query of its own paid for. */
  lemma {:induction false} LoopBound(cfg: Config, width: nat, st: State, purpose: Purpose, parent: Option<nat>,
                                     cur: Cursor, depth: nat)
    requires st.queries <= cfg.maxQueries && depth <= cfg.maxDepth && BoundedReferrals(cfg, width)
    ensures var st' := TraceLoop(cfg, st, purpose, parent, cur, depth).st;
            |st'.hops| <= |st.hops| + Paid(st.queries, st'.queries, Cost(width)) + 1
    decreases cfg.maxQueries - st.queries, 1, cfg.maxDepth - depth
  {
    PayNone(st.queries, Cost(width));
    hide Query, NextMove, BoundedReferrals, Paid, Cost;
    if depth < cfg.maxDepth && st.queries < cfg.maxQueries {
      var q := Query(cfg, st, cur, parent);
      QueryBound(cfg, width, st, cur, parent);
      match NextMove(cfg, cur, purpose, q.ret)
      case Stop(_) =>
      case Go(cur') =>
        GoMeansAsked(cfg, st, cur, parent, purpose);
        var st' := TraceLoop(cfg, AppendHop(q.st, q.ret.hop), purpose, parent, cur', depth + 1).st;
        LoopBound(cfg, width, AppendHop(q.st, q.ret.hop), purpose, parent, cur', depth + 1);
        Pay(st.queries, q.st.queries, st'.queries, Cost(width));
    }
  }

  lemma GoMeansAsked(cfg: Config, st: State, cur: Cursor, parent: Option<nat>, purpose: Purpose)
    requires st.queries <= cfg.maxQueries
    ensures var q := Query(cfg, st, cur, parent);
            NextMove(cfg, cur, purpose, q.ret).Go? ==> q.st.queries > st.queries
  {
    var a := QueryShape(cfg, st, cur, parent);
    hide Query, Sends, ResponseHop, Terminal, Referred, IsTerminal, NextCandidates;
  }

  /**
   * The hop list of a run with Q upstream queries against any responder that names at most K distinct nameservers in
   * one reply has at most Q * (1 + 2K) + 1 hops.
   */
  lemma HopsAreBounded(cfg: Config, width: nat, domain: string, qtype: QType)
    requires BoundedReferrals(cfg, width)
    ensures var st := Trace(cfg, domain, qtype).st;
            |st.hops| <= st.queries * (1 + 2 * width) + 1
  {
    TraceBounded(cfg, width, EMPTY_STATE, TopStart(cfg, domain, qtype), None);
  }
}
