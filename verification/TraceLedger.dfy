/** The query ledger: what the counter, the visited set and the exchanges of a run have to do with each other. */
module TraceLedger {
  import opened Text
  import opened Dns
  import opened TraceSpec
  import opened TraceSteps

  function SentKey(s: Sent): string {
    VisitedKey(s.server.ip, s.qname, s.qtype, s.purpose)
  }

  function HopKey(h: Hop): string {
    h.serverIP + "|" + (h.qname + "|" + (h.qtype.Text() + "|" + PurposeText(h.purpose)))
  }

  ghost predicate KeysDistinct(log: seq<Sent>) {
    forall i, j :: 0 <= i < j < |log| ==> SentKey(log[i]) != SentKey(log[j])
  }

  ghost function SentKeys(log: seq<Sent>): set<string> {
    set s | s in log :: SentKey(s)
  }

  /** The UDP reply to query i of a run, made as s says, is a message that was cut off. */
  predicate CutOff(cfg: Config, i: nat, s: Sent) {
    var w := cfg.udp(i, s.server.endpoint, s.qname, s.qtype);
    w.Reply? && w.m.truncated
  }

  /** What query i of a run comes to: the reply over TCP if the one over UDP was cut off, and else the one over UDP. */
  predicate OnWire(cfg: Config, i: nat, s: Sent) {
    if CutOff(cfg, i, s) then s.reply == cfg.tcp(i, s.server.endpoint, s.qname, s.qtype) && s.transport == Tcp
    else
      && s.reply == cfg.udp(i, s.server.endpoint, s.qname, s.qtype)
      && s.transport == if s.reply.Reply? then Udp else NoTransport
  }

  predicate AllOnWire(cfg: Config, log: seq<Sent>) {
    forall i :: 0 <= i < |log| ==> OnWire(cfg, i, log[i])
  }

  /** The number of queries whose UDP reply was cut off. */
  function CutOffs(cfg: Config, log: seq<Sent>): (n: nat)
    ensures n <= |log|
  {
    if log == [] then 0
    else
      var i := |log| - 1;
      CutOffs(cfg, log[..i]) + (if CutOff(cfg, i, log[i]) then 1 else 0)
  }

  /** Counter, visited set and exchanges agree, no key is exchanged twice, and a query costs one or two messages. */
  ghost predicate Balanced(cfg: Config, st: State) {
    && |st.log| == st.queries
    && st.visited == SentKeys(st.log)
    && |st.visited| == st.queries
    && KeysDistinct(st.log)
    && st.messages == st.queries + CutOffs(cfg, st.log)
    && AllOnWire(cfg, st.log)
    && (forall s :: s in st.log ==> s.hopCount <= |st.hops|)
  }

  /** A LOOP hop at position pos repeats a key that was exchanged before that hop was appended. */
  ghost predicate LoopExplained(log: seq<Sent>, h: Hop, pos: nat) {
    h.code == LoopCode ==> exists s :: s in log && SentKey(s) == HopKey(h) && s.hopCount <= pos
  }

  ghost predicate Ledger(cfg: Config, st: State) {
    Balanced(cfg, st) && forall p :: 0 <= p < |st.hops| ==> LoopExplained(st.log, st.hops[p], p)
  }

  lemma FreshKeyExtends(log: seq<Sent>, s: Sent)
    requires KeysDistinct(log) && SentKey(s) !in SentKeys(log)
    ensures KeysDistinct(log + [s]) && SentKeys(log + [s]) == SentKeys(log) + {SentKey(s)}
  {}

  /** A query is answered over the wire as it should be, and costs one message, or two if the UDP reply was cut off. */
  lemma SendOnWire(cfg: Config, st: State, cur: Cursor, server: Server)
    requires |st.log| == st.queries && st.messages == st.queries + CutOffs(cfg, st.log)
    ensures var st' := Send(cfg, st, cur, server);
            && OnWire(cfg, |st.log|, st'.log[|st.log|])
            && st'.messages == st'.queries + CutOffs(cfg, st'.log)
  {
    assert Send(cfg, st, cur, server).log[..|st.log|] == st.log;
    hide VisitedKey;
  }

  lemma OneMoreOnWire(cfg: Config, log: seq<Sent>, s: Sent)
    requires AllOnWire(cfg, log) && OnWire(cfg, |log|, s)
    ensures AllOnWire(cfg, log + [s])
  {
    hide OnWire;
  }

  lemma OneMoreBalances(cfg: Config, st: State, st': State, s: Sent)
    requires Balanced(cfg, st) && SentKey(s) !in st.visited && OnWire(cfg, |st.log|, s) && s.hopCount == |st.hops|
    requires st'.log == st.log + [s] && st'.visited == st.visited + {SentKey(s)} && st'.hops == st.hops
    requires st'.queries == st.queries + 1 && st'.messages == st'.queries + CutOffs(cfg, st'.log)
    ensures Balanced(cfg, st')
  {
    hide OnWire, CutOffs, SentKey;
    FreshKeyExtends(st.log, s);
    OneMoreOnWire(cfg, st.log, s);
    hide AllOnWire, KeysDistinct, SentKeys;
  }

  lemma SendKeepsBalanced(cfg: Config, st: State, cur: Cursor, server: Server)
    requires Balanced(cfg, st) && Fresh(cfg, st, cur, server)
    ensures Balanced(cfg, Send(cfg, st, cur, server))
  {
    SendOnWire(cfg, st, cur, server);
    var st' := Send(cfg, st, cur, server);
    hide VisitedKey, OnWire, CutOffs, Exchange, AllOnWire, KeysDistinct, SentKeys;
    OneMoreBalances(cfg, st, st', st'.log[|st.log|]);
  }

  lemma SendKeeps(cfg: Config, st: State, cur: Cursor, server: Server)
    requires Ledger(cfg, st) && Fresh(cfg, st, cur, server)
    ensures Ledger(cfg, Send(cfg, st, cur, server))
  {
    SendKeepsBalanced(cfg, st, cur, server);
    hide Balanced, VisitedKey, Exchange;
    var st' := Send(cfg, st, cur, server);
    forall p | 0 <= p < |st'.hops| ensures LoopExplained(st'.log, st'.hops[p], p) {
      assert LoopExplained(st.log, st.hops[p], p);
    }
  }

  lemma {:induction false} SendsKeep(cfg: Config, cur: Cursor, st: State, servers: seq<Server>, st': State)
    requires Ledger(cfg, st) && Sends(cfg, cur, st, servers, st')
    ensures Ledger(cfg, st')
    decreases |servers|
  {
    if servers != [] {
      SendKeeps(cfg, st, cur, servers[0]);
      SendsKeep(cfg, cur, Send(cfg, st, cur, servers[0]), servers[1..], st');
    }
  }

  lemma LocalHopExplained(cfg: Config, st: State, cur: Cursor, parent: Option<nat>, hop: Hop)
    requires Balanced(cfg, st) && LocalHop(cfg, st, cur, parent, hop)
    ensures LoopExplained(st.log, hop, |st.hops|)
  {}

  lemma AppendKeeps(cfg: Config, st: State, h: Hop)
    requires Ledger(cfg, st) && LoopExplained(st.log, h, |st.hops|)
    ensures Ledger(cfg, AppendHop(st, h))
  {}

  lemma {:induction false} QueryKeeps(cfg: Config, st: State, cur: Cursor, parent: Option<nat>)
    requires st.queries <= cfg.maxQueries && Ledger(cfg, st)
    ensures var q := Query(cfg, st, cur, parent);
            Ledger(cfg, q.st) && LoopExplained(q.st.log, q.ret.hop, |q.st.hops|)
    decreases cfg.maxQueries - st.queries, 0
  {
    var q := Query(cfg, st, cur, parent);
    var a := QueryShape(cfg, st, cur, parent);
    hide Query, Ledger, NextCandidates, Sends, ResponseHop, Terminal, Referred, IsTerminal;
    SendsKeep(cfg, cur, st, a.servers, a.st);
    match a.answer
    case None =>
      LedgerIsBalanced(cfg, a.st);
      if q.ret.hop != BLANK_HOP {
        LocalHopExplained(cfg, a.st, cur, parent, q.ret.hop);
      }
    case Some(r) =>
      AnsweredIsNoLoop(cfg, st, cur, parent, q, a);
      if !IsTerminal(r.m, cur) {
        NextKeeps(cfg, a.st, r.m, |a.st.hops|);
      }
  }

  lemma {:induction false} NextKeeps(cfg: Config, st: State, m: Message, parentIndex: nat)
    requires st.queries <= cfg.maxQueries && Ledger(cfg, st)
    ensures Ledger(cfg, NextCandidates(cfg, st, m, parentIndex).st)
    decreases cfg.maxQueries - st.queries, 4
  {
    hide Ledger, NsTargets, ReferralZone;
    SupportKeeps(cfg, st, NsTargets(m.authority), ReferralZone(m.authority), parentIndex);
  }

  lemma AnsweredIsNoLoop(cfg: Config, st: State, cur: Cursor, parent: Option<nat>, q: Queried, a: Asking)
    requires Shape(cfg, st, cur, parent, q, a) && a.answer.Some?
    ensures q.ret.hop.code != LoopCode
  {
    AnsweredHop(cfg, st, cur, parent, q, a);
    hide Shape;
  }

  lemma LedgerIsBalanced(cfg: Config, st: State)
    requires Ledger(cfg, st)
    ensures Balanced(cfg, st)
  {}

  lemma {:induction false} SupportKeeps(cfg: Config, st: State, names: seq<string>, zone: string, parentIndex: nat)
    requires st.queries <= cfg.maxQueries && Ledger(cfg, st)
    ensures Ledger(cfg, SupportServers(cfg, st, names, zone, parentIndex).0)
    decreases cfg.maxQueries - st.queries, 3, |names|
  {
    hide Ledger, ResolveNameServer, ServersFor;
    if names != [] {
      ResolveKeeps(cfg, st, names[0], parentIndex, [A, AAAA]);
      var st1 := ResolveNameServer(cfg, st, names[0], parentIndex, [A, AAAA]).0;
      SupportKeeps(cfg, st1, names[1..], zone, parentIndex);
    }
  }

  lemma {:induction false} ResolveKeeps(cfg: Config, st: State, nsName: string, parentIndex: nat, qtypes: seq<QType>)
    requires st.queries <= cfg.maxQueries && Ledger(cfg, st)
    ensures Ledger(cfg, ResolveNameServer(cfg, st, nsName, parentIndex, qtypes).0)
    decreases cfg.maxQueries - st.queries, 2, |qtypes|
  {
    hide Ledger, TraceName, CollectIPs;
    if qtypes != [] {
      var start := SupportStart(cfg, nsName, qtypes[0]);
      TraceKeeps(cfg, st, start, Some(parentIndex));
      ResolveKeeps(cfg, TraceName(cfg, st, start, Some(parentIndex)).st, nsName, parentIndex, qtypes[1..]);
    }
  }

  lemma {:induction false} TraceKeeps(cfg: Config, st: State, start: Cursor, parent: Option<nat>)
    requires st.queries <= cfg.maxQueries && Ledger(cfg, st)
    ensures Ledger(cfg, TraceName(cfg, st, start, parent).st)
    decreases cfg.maxQueries - st.queries, 1, cfg.maxDepth + 1
  {
    hide Ledger;
    LoopKeeps(cfg, st, start.purpose, parent, start, 0);
  }

  lemma {:induction false} LoopKeeps(cfg: Config, st: State, purpose: Purpose, parent: Option<nat>, cur: Cursor,
                                     depth: nat)
    requires st.queries <= cfg.maxQueries && depth <= cfg.maxDepth && Ledger(cfg, st)
    ensures Ledger(cfg, TraceLoop(cfg, st, purpose, parent, cur, depth).st)
    decreases cfg.maxQueries - st.queries, 1, cfg.maxDepth - depth
  {
    hide Query, Ledger, NextMove, LoopExplained;
    if depth < cfg.maxDepth && st.queries < cfg.maxQueries {
      QueryKeeps(cfg, st, cur, parent);
      var q := Query(cfg, st, cur, parent);
      AppendKeeps(cfg, q.st, q.ret.hop);
      match NextMove(cfg, cur, purpose, q.ret)
      case Stop(_) =>
      case Go(cur') => LoopKeeps(cfg, AppendHop(q.st, q.ret.hop), purpose, parent, cur', depth + 1);
    }
  }

  /**
   * The query ledger of a whole run, nested lookups included: the counter, the number of exchanges and the size of the
   * visited set are equal and within the budget, no two exchanges ask the same server the same question for the same
   * purpose, and at most twice the budget of UDP and TCP messages is sent.
   */
  lemma RunIsBalanced(cfg: Config, domain: string, qtype: QType)
    ensures var st := Trace(cfg, domain, qtype).st;
            && st.queries == |st.log| == |st.visited| <= cfg.maxQueries
            && st.messages == st.queries + CutOffs(cfg, st.log) <= 2 * cfg.maxQueries
            && (forall i :: 0 <= i < |st.log| ==> OnWire(cfg, i, st.log[i]))
            && (forall i, j :: 0 <= i < j < |st.log| ==>
                  !(st.log[i].server.ip == st.log[j].server.ip && st.log[i].qname == st.log[j].qname
                    && st.log[i].qtype == st.log[j].qtype && st.log[i].purpose == st.log[j].purpose))
  {
    var start := TopStart(cfg, domain, qtype);
    TraceKeeps(cfg, EMPTY_STATE, start, None);
    var st := Trace(cfg, domain, qtype).st;
    forall i, j | 0 <= i < j < |st.log|
      ensures !(st.log[i].server.ip == st.log[j].server.ip && st.log[i].qname == st.log[j].qname
                && st.log[i].qtype == st.log[j].qtype && st.log[i].purpose == st.log[j].purpose)
    {
      assert SentKey(st.log[i]) != SentKey(st.log[j]);
    }
  }
}
