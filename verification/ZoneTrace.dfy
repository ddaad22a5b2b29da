/**
 * Resolution is correct: against the servers of a zone tree, a trace ends with what a direct lookup in the tree gives.
 */
module ZoneTrace {
  import opened Text
  import opened Dns
  import opened Rrsets
  import opened TraceSpec
  import opened TraceFrames
  import opened TraceLedger
  import opened TraceLoops
  import opened ZoneTree

  /** Query n to the endpoint gets the message m: over UDP, or over TCP after a reply over UDP that is cut off. */
  predicate Says(cfg: Config, n: nat, endpoint: string, qname: string, qtype: QType, m: Message) {
    var w := cfg.udp(n, endpoint, qname, qtype);
    && w.Reply?
    && if w.m.truncated then cfg.tcp(n, endpoint, qname, qtype) == Reply(m) else w.m == m
  }

  /** Whoever listens at the endpoint always answers as a server of the zone. */
  ghost predicate Serves(cfg: Config, endpoint: string, zone: Zone) {
    forall n, qname, qtype :: Says(cfg, n, endpoint, qname, qtype, ZoneTree.Respond(zone, qname, qtype))
  }

  predicate SomeAllowed(cfg: Config, zone: Zone) {
    exists i :: 0 <= i < |zone.servers| && cfg.allow(zone.servers[i].ip)
  }

  function Addresses(zone: Zone): set<string> {
    set s | s in zone.servers :: s.ip
  }

  function IpsOf(zone: Zone): seq<string> {
    seq(|zone.servers|, i requires 0 <= i < |zone.servers| => zone.servers[i].ip)
  }

  /**
   * A zone without glue has one nameserver, whose name has A records in the tree: its addresses. There is glue all the
   * way to them from the root.
   */
  ghost predicate NameResolves(cfg: Config, root: Zone, child: Zone) {
    && child.servers != []
    && var name := child.servers[0].name;
       && (forall s :: s in child.servers ==> s.name == name)
       && Fqdn(TrimDot(name)) == name && Unglued(root, name) == [] && Depth(root, name) <= cfg.maxDepth
       && Authority(root, name).local(name, A).Records?
       && Texts(Authority(root, name).local(name, A).data) == IpsOf(child)
  }

  /** A zone below a cut: its servers answer for it, one is allowed, and their addresses are not among those above. */
  ghost predicate Reachable(cfg: Config, root: Zone, child: Zone, above: set<string>) {
    && SomeAllowed(cfg, child) && Addresses(child) !! above
    && (forall s :: s in child.servers ==> Serves(cfg, cfg.endpointOf(s.ip), child))
    && (child.glued || NameResolves(cfg, root, child))
  }

  /** All zones below a zone are reachable. */
  ghost predicate Deployed(cfg: Config, root: Zone, zone: Zone, above: set<string>)
    decreases zone
  {
    forall i :: 0 <= i < |zone.cuts| ==>
      var child := zone.cuts[i];
      Reachable(cfg, root, child, above) && Deployed(cfg, root, child, above + Addresses(child))
  }

  function RootAddresses(cfg: Config): set<string> {
    set r | r in cfg.roots :: r.ip
  }

  /** The network of the theorem: roots that answer for the root zone, and a deployed tree below it. */
  ghost predicate Network(cfg: Config, root: Zone) {
    && (exists i :: 0 <= i < |cfg.roots| && cfg.allow(cfg.roots[i].ip))
    && (forall r :: r in cfg.roots ==> '|' !in r.ip && Serves(cfg, r.endpoint, root))
    && Sensible(root)
    && Deployed(cfg, root, root, RootAddresses(cfg))
  }

  /** The candidates are servers of the zone, with addresses in above but not in before, and one of them is allowed. */
  ghost predicate Ready(cfg: Config, zone: Zone, candidates: seq<Server>, before: set<string>, above: set<string>) {
    && (exists i :: 0 <= i < |candidates| && cfg.allow(candidates[i].ip))
    && (forall s :: s in candidates ==>
          Serves(cfg, s.endpoint, zone) && '|' !in s.ip && s.ip in above && s.ip !in before)
  }

  /** A lookup: the purpose it was started for, and the parent of its hops. */
  datatype Frame = Frame(purpose: Purpose, parent: Option<nat>)

  /** The exchange was made for a lookup of the same side: support lookups, or the top-level one. */
  predicate SameSide(p: Purpose, q: Purpose) {
    p == SupportLookup <==> q == SupportLookup
  }

  /** Every exchange so far on this side asked for a finished name, or for qname at an address in before. */
  ghost predicate AskedOnly(st: State, purpose: Purpose, seen: set<string>, qname: string, before: set<string>) {
    && st.visited == SentKeys(st.log)
    && forall s :: s in st.log ==>
         && '|' !in s.server.ip
         && (SameSide(s.purpose, purpose) ==> s.qname in seen || (s.qname == qname && s.server.ip in before))
  }

  lemma NotYetAsked(st: State, cur: Cursor, purpose: Purpose, seen: set<string>, before: set<string>, ip: string)
    requires AskedOnly(st, purpose, seen, cur.qname, before) && SameSide(cur.purpose, purpose)
    requires cur.qname !in seen && ip !in before && '|' !in ip
    ensures VisitedKey(ip, cur.qname, cur.qtype, cur.purpose) !in st.visited
  {
    hide PurposeText;
    if VisitedKey(ip, cur.qname, cur.qtype, cur.purpose) in st.visited {
      var s :| s in st.log && SentKey(s) == VisitedKey(ip, cur.qname, cur.qtype, cur.purpose);
      JoinedKeyInjective(s.server.ip, s.qname, s.qtype.Text(), PurposeText(s.purpose),
                         ip, cur.qname, cur.qtype.Text(), PurposeText(cur.purpose));
      PurposeTextInjective(s.purpose, cur.purpose);
    }
  }

  /** One more exchange, for the given name and purpose, whose key is visited. */
  ghost predicate Sent1(st: State, st': State, qname: string, purpose: Purpose) {
    && |st'.log| == |st.log| + 1 && st.log <= st'.log && '|' !in st'.log[|st.log|].server.ip
    && st'.log[|st.log|].purpose == purpose && st'.log[|st.log|].qname == qname
    && (st.visited == SentKeys(st.log) ==> st'.visited == SentKeys(st'.log))
  }

  lemma SendSends(cfg: Config, st: State, cur: Cursor, server: Server)
    requires '|' !in server.ip
    ensures var st' := Send(cfg, st, cur, server);
            Sent1(st, st', cur.qname, cur.purpose) && st'.log[|st.log|].server == server
  {
    hide VisitedKey, Exchange;
    var st' := Send(cfg, st, cur, server);
    var s := st'.log[|st.log|];
    if st.visited == SentKeys(st.log) {
      assert st'.log == st.log + [s];
      forall key | key in SentKeys(st.log) + {SentKey(s)} ensures key in SentKeys(st'.log) {
        if key in SentKeys(st.log) {
          var t :| t in st.log && SentKey(t) == key;
          assert t in st'.log;
        } else {
          assert s in st'.log;
        }
      }
      assert SentKeys(st'.log) == SentKeys(st.log) + {SentKey(s)};
    }
  }

  lemma SendAsksOnly(cfg: Config, st: State, cur: Cursor, server: Server, purpose: Purpose, seen: set<string>,
                     before: set<string>, above: set<string>)
    requires AskedOnly(st, purpose, seen, cur.qname, before) && before <= above
    requires server.ip in above && '|' !in server.ip
    ensures AskedOnly(Send(cfg, st, cur, server), purpose, seen, cur.qname, above)
  {
    SendSends(cfg, st, cur, server);
    hide SentKeys, Send;
    var st' := Send(cfg, st, cur, server);
    forall s | s in st'.log
      ensures '|' !in s.server.ip
      ensures SameSide(s.purpose, purpose) ==> s.qname in seen || (s.qname == cur.qname && s.server.ip in above)
    {
      var i :| 0 <= i < |st'.log| && st'.log[i] == s;
      if i < |st.log| {
        assert st.log[i] == s;
      }
    }
  }

  lemma ZoneReplies(cfg: Config, zone: Zone, endpoint: string, n: nat, qname: string, qtype: QType)
    requires Serves(cfg, endpoint, zone)
    ensures Exchange(cfg, n, endpoint, qname, qtype).reply == Reply(ZoneTree.Respond(zone, qname, qtype))
  {
    assert Says(cfg, n, endpoint, qname, qtype, ZoneTree.Respond(zone, qname, qtype));
    RepliesAreWhole(zone, qname, qtype);
    hide ZoneTree.Respond;
  }

  lemma RepliesAreWhole(zone: Zone, qname: string, qtype: QType)
    ensures !ZoneTree.Respond(zone, qname, qtype).truncated
  {}

  lemma {:induction false} AskZone(cfg: Config, zone: Zone, cur: Cursor, f: Frame, a: Attempt, seen: set<string>,
                                   before: set<string>, above: set<string>)
    requires a.st.queries < cfg.maxQueries && a.k <= |cur.candidates|
    requires exists i :: a.k <= i < |cur.candidates| && cfg.allow(cur.candidates[i].ip)
    requires forall s :: s in cur.candidates ==>
               Serves(cfg, s.endpoint, zone) && '|' !in s.ip && s.ip in above && s.ip !in before
    requires AskedOnly(a.st, f.purpose, seen, cur.qname, before) && SameSide(cur.purpose, f.purpose)
    requires cur.qname !in seen && before <= above
    ensures var r := Ask(cfg, cur, f.parent, a);
            && r.Got? && r.m == ZoneTree.Respond(zone, cur.qname, cur.qtype) && r.server in cur.candidates
            && r.st == Send(cfg, a.st, cur, r.server) && '|' !in r.server.ip
            && AskedOnly(r.st, f.purpose, seen, cur.qname, above)
    decreases |cur.candidates| - a.k
  {
    hide AskedOnly, Serves, Send, VisitedKey, Exchange, ZoneTree.Respond;
    var server := cur.candidates[a.k];
    assert server in cur.candidates;
    if cfg.allow(server.ip) {
      NotYetAsked(a.st, cur, f.purpose, seen, before, server.ip);
      ZoneReplies(cfg, zone, server.endpoint, a.st.queries, cur.qname, cur.qtype);
      SendAsksOnly(cfg, a.st, cur, server, f.purpose, seen, before, above);
    } else {
      AskZone(cfg, zone, cur, f, a.(k := a.k + 1, lastErr := ErrUnusable), seen, before, above);
    }
  }

  lemma NsTargetsOf(zone: Zone, s: NameServer)
    requires s in zone.servers
    ensures s.name in NsTargets(NsRecords(zone)) && NsTargets(NsRecords(zone)) != []
  {
    var i :| 0 <= i < |zone.servers| && zone.servers[i] == s;
    assert NsRecords(zone)[i] in NsRecords(zone);
    NsTargetsMeaning(NsRecords(zone), s.name);
  }

  lemma GlueOf(zone: Zone, s: NameServer)
    requires s in zone.servers
    ensures s.ip in GlueFor(GlueRecords(zone), s.name)
  {
    var i :| 0 <= i < |zone.servers| && zone.servers[i] == s;
    assert GlueRecords(zone)[i].name == s.name;
    GlueForMeaning(GlueRecords(zone), s.name, s.ip);
  }

  lemma GlueIsAddress(zone: Zone, name: string, ip: string)
    requires ip in GlueFor(GlueRecords(zone), name)
    ensures exists s :: s in zone.servers && s.ip == ip
  {
    GlueForMeaning(GlueRecords(zone), name, ip);
    hide GlueFor;
    var i :| 0 <= i < |GlueRecords(zone)| && GlueRecords(zone)[i].data.Text() == ip;
    assert GlueRecords(zone)[i] == RR(zone.servers[i].name, TTL, GlueData(zone.servers[i]));
    assert GlueData(zone.servers[i]).Text() == zone.servers[i].ip;
    assert zone.servers[i].ip == ip;
  }

  lemma GlueServerIsReady(cfg: Config, child: Zone, names: seq<string>, zone: string, s: Server)
    requires s in GlueServers(cfg, names, zone, GlueRecords(child))
    requires forall s :: s in child.servers ==> Serves(cfg, cfg.endpointOf(s.ip), child)
    ensures cfg.allow(s.ip) && Serves(cfg, s.endpoint, child) && '|' !in s.ip && s.ip in Addresses(child)
  {
    GlueServerFrom(cfg, names, zone, GlueRecords(child), s);
    GlueIsAddress(child, s.name, s.ip);
    hide Serves, GlueServers, GlueFor, GlueRecords;
    var ns :| ns in child.servers && ns.ip == s.ip;
  }

  lemma SomeGlue(cfg: Config, child: Zone)
    requires SomeAllowed(cfg, child)
    ensures NsTargets(NsRecords(child)) != []
    ensures GlueServers(cfg, NsTargets(NsRecords(child)), ReferralZone(NsRecords(child)), GlueRecords(child)) != []
  {
    var i :| 0 <= i < |child.servers| && cfg.allow(child.servers[i].ip);
    NsTargetsOf(child, child.servers[i]);
    GlueOf(child, child.servers[i]);
    hide NsTargets, GlueServers, ReferralZone, GlueFor;
    GlueServersHas(cfg, NsTargets(NsRecords(child)), ReferralZone(NsRecords(child)), GlueRecords(child),
                   child.servers[i].name, child.servers[i].ip);
  }

  /** The glue in a referral to a deployed child zone is a list of candidates ready for that zone. */
  lemma GlueIsReady(cfg: Config, child: Zone, above: set<string>)
    requires SomeAllowed(cfg, child) && Addresses(child) !! above
    requires forall s :: s in child.servers ==> Serves(cfg, cfg.endpointOf(s.ip), child)
    ensures var ns := NsRecords(child);
            var servers := GlueServers(cfg, NsTargets(ns), ReferralZone(ns), GlueRecords(child));
            servers != [] && Ready(cfg, child, servers, above, above + Addresses(child))
            && NsTargets(NsRecords(child)) != []
  {
    SomeGlue(cfg, child);
    hide Serves, NsTargets, NsRecords, GlueRecords, GlueServers, ReferralZone, Addresses;
    var names, zone := NsTargets(NsRecords(child)), ReferralZone(NsRecords(child));
    var servers := GlueServers(cfg, names, zone, GlueRecords(child));
    forall s | s in servers
      ensures cfg.allow(s.ip) && Serves(cfg, s.endpoint, child) && '|' !in s.ip && s.ip in Addresses(child)
    {
      GlueServerIsReady(cfg, child, names, zone, s);
    }
    assert servers[0] in servers;
  }

  function ReferralMessage(child: Zone): Message {
    Message(NOERROR, false, false, [], NsRecords(child), if child.glued then GlueRecords(child) else [])
  }

  function GlueCandidates(cfg: Config, child: Zone): seq<Server> {
    GlueServers(cfg, NsTargets(NsRecords(child)), ReferralZone(NsRecords(child)), GlueRecords(child))
  }

  /** A referral with usable glue needs no support lookup. */
  lemma NextIsGlue(cfg: Config, st: State, child: Zone, parentIndex: nat)
    requires child.glued && st.queries <= cfg.maxQueries
    requires GlueCandidates(cfg, child) != [] && NsTargets(NsRecords(child)) != []
    ensures var servers := GlueCandidates(cfg, child);
            NextCandidates(cfg, st, ReferralMessage(child), parentIndex)
                == Candidates(st, servers, TargetsOf(servers, Glue))
  {
    hide NsTargets, NsRecords, GlueRecords, GlueServers, ReferralZone, TargetsOf;
  }

  lemma ReferralIsNotTerminal(child: Zone, cur: Cursor)
    ensures !IsTerminal(ReferralMessage(child), cur)
  {}

  lemma QueryOfGot(cfg: Config, st: State, cur: Cursor, parent: Option<nat>)
    requires st.queries <= cfg.maxQueries && Ask(cfg, cur, parent, FirstAttempt(st)).Got?
    ensures var r, q := Ask(cfg, cur, parent, FirstAttempt(st)), Query(cfg, st, cur, parent);
            var hop := ResponseHop(|r.st.hops|, parent, r.server, cur, r.m, r.transport);
            if IsTerminal(r.m, cur) then q == Queried(r.st, Terminal(hop, r.m, cur))
            else
              var next := NextCandidates(cfg, r.st, r.m, |r.st.hops|);
              q == Queried(next.st, Referred(hop, next.servers, next.targets))
  {
    hide Ask, ResponseHop, NextCandidates, IsTerminal, Terminal, Referred;
  }

  lemma SendCount(cfg: Config, st: State, cur: Cursor, server: Server)
    ensures var st' := Send(cfg, st, cur, server); st'.queries == st.queries + 1 && st'.hops == st.hops
  {}

  /** The hop stands in the lookup at its own index, for the given question, and is not an answer unless it says so. */
  predicate Stands(f: Frame, h: Hop, cur: Cursor) {
    h.parent == f.parent && h.qname == cur.qname && h.purpose == cur.purpose
  }

  /** One query, one hop at its own position, no support lookup. */
  ghost predicate Stepped(f: Frame, st: State, cur: Cursor, q: Queried) {
    && q.st.queries == st.queries + 1 && q.st.hops == st.hops && q.ret.hop.index == |st.hops|
    && Stands(f, q.ret.hop, cur) && Sent1(st, q.st, cur.qname, cur.purpose)
  }

  /** Where the lookup goes on below a cut. */
  ghost predicate GoesBelow(cfg: Config, f: Frame, child: Zone, cur: Cursor, above: set<string>, move: Move) {
    && move.Go? && move.cur.qname == cur.qname && move.cur.qtype == cur.qtype && SameSide(move.cur.purpose, f.purpose)
    && Ready(cfg, child, move.cur.candidates, above, above + Addresses(child))
  }

  /** A query for a name below a cut with glue is answered by a referral, and the trace goes on at the child zone. */
  lemma ReferralStep(cfg: Config, root: Zone, zone: Zone, child: Zone, f: Frame, st: State, cur: Cursor,
                     seen: set<string>, before: set<string>, above: set<string>)
    requires st.queries < cfg.maxQueries && Ready(cfg, zone, cur.candidates, before, above)
    requires AskedOnly(st, f.purpose, seen, cur.qname, before) && SameSide(cur.purpose, f.purpose)
    requires cur.qname !in seen && before <= above
    requires FindCut(zone.cuts, cur.qname) == Some(child) && child.glued && Reachable(cfg, root, child, above)
    ensures var q := Query(cfg, st, cur, f.parent);
            && Stepped(f, st, cur, q) && q.ret.hop.kind == Referral
            && AskedOnly(q.st, f.purpose, seen, cur.qname, above)
            && GoesBelow(cfg, f, child, cur, above, NextMove(cfg, cur, f.purpose, q.ret))
  {
    hide Ask, Query, AskedOnly, Ready, Serves, Send, ResponseHop, NextCandidates, IsTerminal, NsTargets, NsRecords,
         GlueRecords, GlueServers, ReferralZone, TargetsOf, SomeAllowed, Addresses, ZoneTree.Respond, ReferralMessage,
         NextMove, Referred, NameResolves, Sent1;
    AskReady(cfg, zone, f, st, cur, seen, before, above);
    GlueIsReady(cfg, child, above);
    QueryOfGot(cfg, st, cur, f.parent);
    ReferralIsNotTerminal(child, cur);
    ReferralAnswer(zone, child, cur);
    var r := Ask(cfg, cur, f.parent, FirstAttempt(st));
    SendCount(cfg, st, cur, r.server);
    NextIsGlue(cfg, r.st, child, |r.st.hops|);
    HopPlace(|r.st.hops|, f.parent, r.server, cur, r.m, r.transport);
    var hop := ResponseHop(|r.st.hops|, f.parent, r.server, cur, r.m, r.transport);
    var servers := GlueCandidates(cfg, child);
    ReferralMove(cfg, cur, f.purpose, hop, servers, TargetsOf(servers, Glue));
  }

  lemma ReferralAnswer(zone: Zone, child: Zone, cur: Cursor)
    requires FindCut(zone.cuts, cur.qname) == Some(child)
    ensures ZoneTree.Respond(zone, cur.qname, cur.qtype) == ReferralMessage(child)
  {}

  lemma ReferralMove(cfg: Config, cur: Cursor, purpose: Purpose, hop: Hop, servers: seq<Server>,
                     targets: seq<NextTarget>)
    requires servers != []
    ensures var ret := Referred(hop, servers, targets);
            && ret.hop == hop.(kind := Referral, targets := targets)
            && NextMove(cfg, cur, purpose, ret)
               == Go(Cursor(servers, cur.qname, cur.qtype, ReferralPurpose(purpose), servers[0].zone))
  {}

  lemma AskReady(cfg: Config, zone: Zone, f: Frame, st: State, cur: Cursor, seen: set<string>, before: set<string>,
                 above: set<string>)
    requires st.queries < cfg.maxQueries && Ready(cfg, zone, cur.candidates, before, above)
    requires AskedOnly(st, f.purpose, seen, cur.qname, before) && SameSide(cur.purpose, f.purpose)
    requires cur.qname !in seen && before <= above
    ensures var r := Ask(cfg, cur, f.parent, FirstAttempt(st));
            && r.Got? && r.m == ZoneTree.Respond(zone, cur.qname, cur.qtype)
            && r.st == Send(cfg, st, cur, r.server) && AskedOnly(r.st, f.purpose, seen, cur.qname, above)
            && Sent1(st, r.st, cur.qname, cur.purpose)
  {
    hide AskedOnly, Serves, Ask, Send, ZoneTree.Respond, Sent1;
    AskZone(cfg, zone, cur, f, FirstAttempt(st), seen, before, above);
    SendSends(cfg, st, cur, Ask(cfg, cur, f.parent, FirstAttempt(st)).server);
  }

  lemma HopPlace(index: nat, parent: Option<nat>, server: Server, cur: Cursor, m: Message, transport: Transport)
    ensures var hop := ResponseHop(index, parent, server, cur, m, transport);
            hop.index == index && hop.parent == parent && hop.qname == cur.qname && hop.purpose == cur.purpose
            && hop.code == Rcode(m.rcode) && hop.answer == RrsetsOf(AnswerSection, m.answer)
  {}

  /** The trace ended at the hop h with what the zone's data is for the name: its records, NODATA, or NXDOMAIN. */
  predicate Ends(o: Outcome, h: Hop, name: string, qtype: QType, local: Local) {
    && h.qname == name && o.terminalHopIndex == h.index
    && match local
       case Records(data) =>
         && o.kind == Success && h.kind == Answer
         && h.answer == [RRset(AnswerSection, name, qtype, TTL, Texts(data))]
       case Empty => o.kind == Success && h.kind == NoData && h.answer == []
       case NoName => o.kind == Nxdomain && h.code == Rcode(NXDOMAIN) && h.answer == []
       case Alias(_) => false
  }

  /** How the engine classifies what a zone answers from its own data. */
  lemma LocalKind(zone: Zone, cur: Cursor, hop: Hop)
    requires FindCut(zone.cuts, cur.qname) == None && SensibleData(zone.local(cur.qname, cur.qtype), cur.qtype)
    ensures var m, local := ZoneTree.Respond(zone, cur.qname, cur.qtype), zone.local(cur.qname, cur.qtype);
            && IsTerminal(m, cur)
            && var ret := Terminal(hop, m, cur);
               match local
               case Records(data) =>
                 m.answer == Owned(cur.qname, data) && ret == Returned(hop.(kind := Answer), true, [], "", NoErr)
               case Alias(target) => ret == Returned(hop.(kind := Cname), true, [], target, NoErr)
               case Empty => m.answer == [] && ret == Returned(hop.(kind := NoData), true, [], "", NoErr)
               case NoName =>
                 m.answer == [] && m.rcode == NXDOMAIN && ret == Returned(hop.(kind := Error), true, [], "", ErrOther)
  {
    var m := ZoneTree.Respond(zone, cur.qname, cur.qtype);
    match zone.local(cur.qname, cur.qtype)
    case Records(data) =>
      assert m.answer[0] == RR(cur.qname, TTL, data[0]);
      assert HasType(m.answer, cur.qname, cur.qtype);
    case Alias(target) =>
      assert m.answer[0] == RR(cur.qname, TTL, CNAMEData(target));
    case Empty =>
      assert m.authority[0].data.SOAData?;
    case NoName =>
  }

  /** A query for a name that the zone itself holds ends the trace, or starts over at a root for an alias. */
  lemma LocalStep(cfg: Config, zone: Zone, f: Frame, st: State, cur: Cursor, seen: set<string>, before: set<string>,
                  above: set<string>)
    requires st.queries < cfg.maxQueries && Ready(cfg, zone, cur.candidates, before, above)
    requires AskedOnly(st, f.purpose, seen, cur.qname, before) && SameSide(cur.purpose, f.purpose)
    requires cur.qname !in seen && before <= above
    requires FindCut(zone.cuts, cur.qname) == None && SensibleData(zone.local(cur.qname, cur.qtype), cur.qtype)
    ensures var q, local := Query(cfg, st, cur, f.parent), zone.local(cur.qname, cur.qtype);
            && Stepped(f, st, cur, q) && AskedOnly(q.st, f.purpose, seen, cur.qname, above)
            && match NextMove(cfg, cur, f.purpose, q.ret)
               case Go(cur') =>
                 && local.Alias? && cur' == Cursor(cfg.roots, local.target, cur.qtype, CnameFollow, ".")
                 && q.ret.hop.kind == Cname
               case Stop(o) => Ends(o, q.ret.hop, cur.qname, cur.qtype, local)
  {
    hide Ask, Query, AskedOnly, Ready, Send, ResponseHop, NextCandidates, IsTerminal, Terminal, ZoneTree.Respond,
         FindCut, Sent1;
    AskReady(cfg, zone, f, st, cur, seen, before, above);
    QueryOfGot(cfg, st, cur, f.parent);
    var r := Ask(cfg, cur, f.parent, FirstAttempt(st));
    SendCount(cfg, st, cur, r.server);
    HopPlace(|r.st.hops|, f.parent, r.server, cur, r.m, r.transport);
    LocalKind(zone, cur, ResponseHop(|r.st.hops|, f.parent, r.server, cur, r.m, r.transport));
    var local := zone.local(cur.qname, cur.qtype);
    if local.Records? {
      OneSet(cur.qname, local.data, cur.qtype);
    } else {
      assert RrsetsOf(AnswerSection, []) == [];
    }
    hide RrsetsOf, SensibleData;
  }

  /** The exchanges since st are all of the lookup's side, a support lookup's all for its name, and are visited. */
  ghost predicate OnlyAdds(st: State, st': State, purpose: Purpose, name: string) {
    && st.log <= st'.log
    && (st.visited == SentKeys(st.log) ==> st'.visited == SentKeys(st'.log))
    && forall i :: |st.log| <= i < |st'.log| ==>
         && SameSide(st'.log[i].purpose, purpose) && '|' !in st'.log[i].server.ip
         && (purpose == SupportLookup ==> st'.log[i].qname == name)
  }

  /** The hops since st are of the given lookup alone: each at its own index, and only the last one an answer. */
  ghost predicate OwnHops(f: Frame, st: State, r: Traced) {
    forall p :: |st.hops| <= p < |r.st.hops| ==>
      && r.st.hops[p].index == p && r.st.hops[p].parent == f.parent && SameSide(r.st.hops[p].purpose, f.purpose)
      && (p + 1 < |r.st.hops| ==> r.st.hops[p].kind != Answer)
  }

  /** The number of steps that it takes to look up the given nameservers. */
  function SupportSteps(root: Zone, names: seq<string>): nat {
    if names == [] then 0 else Depth(root, names[0]) + SupportSteps(root, names[1..])
  }

  function TotalSteps(root: Zone, w: Resolved): nat {
    w.steps + SupportSteps(root, w.unglued)
  }

  /** What a walk did to a trace. */
  ghost predicate Walked(root: Zone, f: Frame, st: State, r: Traced, w: Resolved, qtype: QType) {
    && |r.st.hops| == |st.hops| + TotalSteps(root, w) && r.st.queries == st.queries + TotalSteps(root, w) && w.steps > 0
    && Ends(r.outcome, r.st.hops[|r.st.hops| - 1], w.name, qtype, w.local)
    && (w.unglued == [] ==> OwnHops(f, st, r) && OnlyAdds(st, r.st, f.purpose, w.name))
  }

  /** The walk that is one step longer, past a cut with the given nameservers to look up. */
  function Longer(unglued: seq<string>, w: Resolved): Resolved {
    w.(steps := 1 + w.steps, unglued := unglued + w.unglued)
  }

  lemma WalkedMore(root: Zone, f: Frame, st: State, cur: Cursor, q: Queried, r: Traced, w: Resolved, qtype: QType)
    requires Stepped(f, st, cur, q) && SameSide(cur.purpose, f.purpose) && q.ret.hop.kind != Answer
    requires f.purpose == SupportLookup ==> cur.qname == w.name
    requires Walked(root, f, AppendHop(q.st, q.ret.hop), r, w, qtype) && AppendHop(q.st, q.ret.hop).hops <= r.st.hops
    ensures Walked(root, f, st, r, Longer([], w), qtype)
  {
    assert [] + w.unglued == w.unglued;
    hide Ends, SentKeys;
  }

  lemma WalkedOnce(root: Zone, f: Frame, st: State, cur: Cursor, q: Queried, o: Outcome, qtype: QType, local: Local)
    requires Stepped(f, st, cur, q) && SameSide(cur.purpose, f.purpose) && Ends(o, q.ret.hop, cur.qname, qtype, local)
    ensures Walked(root, f, st, Traced(AppendHop(q.st, q.ret.hop), o), Resolved(cur.qname, local, 1, []), qtype)
    ensures !local.Alias?
  {
    hide SentKeys;
  }

  lemma AskedOnlyAppend(st: State, h: Hop, purpose: Purpose, seen: set<string>, qname: string, before: set<string>)
    requires AskedOnly(st, purpose, seen, qname, before)
    ensures AskedOnly(AppendHop(st, h), purpose, seen, qname, before)
  {}

  lemma AskedOnlyRestart(st: State, purpose: Purpose, seen: set<string>, qname: string, before: set<string>,
                         target: string)
    requires AskedOnly(st, purpose, seen, qname, before)
    ensures AskedOnly(st, purpose, seen + {qname}, target, {})
  {}

  lemma RootsReady(cfg: Config, root: Zone)
    requires Network(cfg, root)
    ensures Ready(cfg, root, cfg.roots, {}, RootAddresses(cfg)) && Sensible(root)
            && Deployed(cfg, root, root, RootAddresses(cfg))
  {}

  lemma ChildDeployed(cfg: Config, root: Zone, zone: Zone, above: set<string>, child: Zone)
    requires Deployed(cfg, root, zone, above) && Sensible(zone) && child in zone.cuts
    ensures Reachable(cfg, root, child, above) && Sensible(child)
    ensures Deployed(cfg, root, child, above + Addresses(child))
  {}

  lemma ZoneIsSensible(zone: Zone, qname: string, qtype: QType)
    requires Sensible(zone)
    ensures SensibleData(zone.local(qname, qtype), qtype)
  {}

  // ---- A cut without glue ----

  const TOP := Frame(Delegation, None)

  /** Support lookups have asked for names already looked up only, and the parents of their hops are in the list. */
  ghost predicate Quiet(st: State, looked: set<string>) {
    && (forall s :: s in st.log && s.purpose == SupportLookup ==> s.qname in looked)
    && forall h :: h in st.hops && h.parent.Some? ==> h.parent.value < |st.hops|
  }

  lemma {:induction false} OneName(names: seq<string>, name: string)
    requires names != [] && forall i :: 0 <= i < |names| ==> names[i] == name
    ensures FirstSeen(names) == [name]
  {
    if |names| > 1 {
      OneName(names[..|names| - 1], name);
    } else {
      assert FirstSeen(names[..0]) == [];
    }
  }

  lemma {:induction false} NamesOfNs(records: seq<RR>, name: string)
    requires forall i :: 0 <= i < |records| ==> records[i].data == NSData(name)
    ensures |NsNames(records)| == |records| && forall i :: 0 <= i < |records| ==> NsNames(records)[i] == name
  {
    if records != [] {
      NamesOfNs(records[..|records| - 1], name);
    }
  }

  lemma OneNsTarget(child: Zone, name: string)
    requires child.servers != [] && forall s :: s in child.servers ==> s.name == name
    ensures NsTargets(NsRecords(child)) == [name]
  {
    forall i | 0 <= i < |child.servers| ensures NsRecords(child)[i].data == NSData(name) {
      assert child.servers[i] in child.servers;
    }
    NamesOfNs(NsRecords(child), name);
    OneName(NsNames(NsRecords(child)), name);
  }

  lemma {:induction false} NoGlueServers(cfg: Config, names: seq<string>, zone: string)
    ensures GlueServers(cfg, names, zone, []) == []
  {
    if names != [] {
      NoGlueServers(cfg, names[..|names| - 1], zone);
    }
  }

  /** Hops of another parent add nothing to what a scan collects. */
  lemma {:induction false} NothingCollected(hops: seq<Hop>, parentIndex: nat, nsName: string, qtype: QType)
    requires forall i :: 0 <= i < |hops| ==> !AnswersFor(hops[i], parentIndex, nsName)
    ensures CollectIPs(hops, parentIndex, nsName, qtype) == []
  {
    if hops != [] {
      NothingCollected(hops[..|hops| - 1], parentIndex, nsName, qtype);
    }
  }

  /** The scan after a support lookup that found records finds their texts. */
  lemma SupportCollects(root: Zone, st: State, looked: set<string>, r: Traced, w: Resolved, name: string)
    requires Quiet(st, looked) && st.hops <= r.st.hops && w.unglued == [] && w.local.Records? && w.name == name
    requires Walked(root, Frame(SupportLookup, Some(|st.hops|)), st, r, w, A)
    ensures CollectIPs(r.st.hops, |st.hops|, name, A) == Texts(w.local.data) && r.outcome.kind == Success
  {
    var n := |r.st.hops| - 1;
    var hops, last := r.st.hops, r.st.hops[n];
    assert OwnHops(Frame(SupportLookup, Some(|st.hops|)), st, r);
    forall i | 0 <= i < n ensures !AnswersFor(hops[..n][i], |st.hops|, name) {
      if i < |st.hops| {
        assert hops[i] in st.hops;
      }
    }
    NothingCollected(hops[..n], |st.hops|, name, A);
    OneSetData(last.answer[0], A);
    assert last.answer == [last.answer[0]];
    hide OnlyAdds;
  }

  lemma OneSetData(s: RRset, qtype: QType)
    requires s.rtype == qtype
    ensures DataOfType([s], qtype) == s.data
  {
    assert [s][..0] == [];
  }

  /** The servers that a support lookup finds are candidates ready for the zone. */
  lemma SupportIsReady(cfg: Config, root: Zone, child: Zone, name: string, zone: string, above: set<string>)
    requires Reachable(cfg, root, child, above)
    ensures var servers := ServersFor(cfg, name, zone, FirstSeen(IpsOf(child)));
            servers != [] && Ready(cfg, child, servers, above, above + Addresses(child))
  {
    hide NameResolves, Serves;
    var ips := FirstSeen(IpsOf(child));
    var servers := ServersFor(cfg, name, zone, ips);
    var i :| 0 <= i < |child.servers| && cfg.allow(child.servers[i].ip);
    assert IpsOf(child)[i] == child.servers[i].ip;
    FirstSeenIn(IpsOf(child), child.servers[i].ip);
    ServersForHas(cfg, name, zone, ips, child.servers[i].ip);
    forall s | s in servers
      ensures cfg.allow(s.ip) && Serves(cfg, s.endpoint, child) && '|' !in s.ip && s.ip in Addresses(child)
    {
      FirstSeenIn(IpsOf(child), s.ip);
      var j :| 0 <= j < |child.servers| && IpsOf(child)[j] == s.ip;
      assert child.servers[j] in child.servers;
    }
    assert servers[0] in servers;
  }

  /** A support lookup that succeeds gives the referral its candidates. */
  lemma NextIsSupport(cfg: Config, st: State, child: Zone, name: string, ips: seq<string>)
    requires !child.glued && st.queries <= cfg.maxQueries && NsTargets(NsRecords(child)) == [name] && ips != []
    requires var t := TraceName(cfg, st, SupportStart(cfg, name, A), Some(|st.hops|));
             t.outcome.kind == Success && CollectIPs(t.st.hops, |st.hops|, name, A) == ips
    ensures var t := TraceName(cfg, st, SupportStart(cfg, name, A), Some(|st.hops|));
            var servers := ServersFor(cfg, name, ReferralZone(NsRecords(child)), FirstSeen(ips));
            NextCandidates(cfg, st, ReferralMessage(child), |st.hops|)
                == Candidates(t.st, servers, TargetsOf(servers, Support))
  {
    hide NsTargets, NsRecords, ReferralZone, TargetsOf, TraceName, SupportStart, CollectIPs, FirstSeen;
    var zone, t := ReferralZone(NsRecords(child)), TraceName(cfg, st, SupportStart(cfg, name, A), Some(|st.hops|));
    NoGlueServers(cfg, [name], zone);
    assert ResolveNameServer(cfg, st, name, |st.hops|, [A, AAAA]) == (t.st, FirstSeen(ips));
    hide ResolveNameServer, ServersFor;
    var servers := ServersFor(cfg, name, zone, FirstSeen(ips));
    assert SupportServers(cfg, t.st, [name][1..], zone, |st.hops|) == (t.st, []);
    assert servers + [] == servers;
    assert SupportServers(cfg, st, [name], zone, |st.hops|) == (t.st, servers);
  }

  /** What has been asked before a support lookup, seen from its side. */
  lemma QuietAsked(st: State, looked: set<string>, name: string, qname: string, seen: set<string>, above: set<string>)
    requires Quiet(st, looked) && AskedOnly(st, Delegation, seen, qname, above)
    ensures AskedOnly(st, SupportLookup, looked, name, {})
  {}

  lemma QuietSends(st: State, st': State, qname: string, purpose: Purpose, looked: set<string>)
    requires Quiet(st, looked) && Sent1(st, st', qname, purpose) && purpose != SupportLookup && st'.hops == st.hops
    ensures Quiet(st', looked)
  {
    hide SentKeys;
    forall s | s in st'.log && s.purpose == SupportLookup ensures s.qname in looked {
      var i :| 0 <= i < |st'.log| && st'.log[i] == s;
      assert s in st.log;
    }
  }

  lemma QuietAppend(st: State, h: Hop, looked: set<string>)
    requires Quiet(st, looked) && h.parent == None
    ensures Quiet(AppendHop(st, h), looked)
  {}

  /** A support lookup leaves what was asked on the other side as it was. */
  lemma SupportKeepsAsked(st: State, st': State, name: string, seen: set<string>, qname: string, above: set<string>)
    requires AskedOnly(st, Delegation, seen, qname, above) && OnlyAdds(st, st', SupportLookup, name)
    ensures AskedOnly(st', Delegation, seen, qname, above)
  {
    hide SentKeys;
    forall s | s in st'.log
      ensures '|' !in s.server.ip
      ensures SameSide(s.purpose, Delegation) ==> s.qname in seen || (s.qname == qname && s.server.ip in above)
    {
      var i :| 0 <= i < |st'.log| && st'.log[i] == s;
      if i < |st.log| {
        assert st.log[i] in st.log;
      }
    }
  }

  lemma SupportIsQuiet(st: State, r: Traced, name: string, looked: set<string>)
    requires Quiet(st, looked) && st.hops <= r.st.hops && |st.hops| < |r.st.hops|
    requires OwnHops(Frame(SupportLookup, Some(|st.hops|)), st, r) && OnlyAdds(st, r.st, SupportLookup, name)
    ensures Quiet(r.st, looked + {name})
  {
    hide SentKeys;
    forall s | s in r.st.log && s.purpose == SupportLookup ensures s.qname in looked + {name} {
      var i :| 0 <= i < |r.st.log| && r.st.log[i] == s;
      if i < |st.log| {
        assert st.log[i] in st.log;
      }
    }
    forall h | h in r.st.hops && h.parent.Some? ensures h.parent.value < |r.st.hops| {
      var i :| 0 <= i < |r.st.hops| && r.st.hops[i] == h;
      if i < |st.hops| {
        assert st.hops[i] in st.hops;
      }
    }
  }

  /** The names are looked up once each, and none of them before. */
  predicate Once(names: seq<string>, looked: set<string>) {
    names != [] ==> names[0] !in looked && Once(names[1..], looked + {names[0]})
  }

  lemma {:induction false} DistinctIsOnce(names: seq<string>, looked: set<string>)
    requires forall i, j :: 0 <= i < j < |names| ==> names[i] != names[j]
    requires forall i :: 0 <= i < |names| ==> names[i] !in looked
    ensures Once(names, looked)
  {
    if names != [] {
      DistinctIsOnce(names[1..], looked + {names[0]});
    }
  }

  /** The direct lookup of a nameserver's addresses. */
  lemma NameIsWalked(cfg: Config, root: Zone, child: Zone, looked: set<string>)
    requires child.servers != [] && NameResolves(cfg, root, child) && child.servers[0].name !in looked
    ensures var name := child.servers[0].name;
            && Walk(root, root, name, A, Depth(root, name), looked)
               == Some(Resolved(name, Authority(root, name).local(name, A), Depth(root, name), []))
  {
    hide FindCut, Walk;
    WalkIsResolve(root, child.servers[0].name, A, Depth(root, child.servers[0].name), looked);
  }

  /** Where a support lookup for the name starts. */
  function SupportPoint(cfg: Config, root: Zone, name: string, looked: set<string>): Point {
    Point(0, Depth(root, name), looked, {}, {}, RootAddresses(cfg))
  }

  lemma SupportOnTrack(cfg: Config, root: Zone, child: Zone, st: State, looked: set<string>, f: Frame)
    requires Network(cfg, root) && child.servers != [] && NameResolves(cfg, root, child) && f.purpose == SupportLookup
    requires var name := child.servers[0].name;
             && name !in looked && AskedOnly(st, SupportLookup, looked, name, {})
             && st.queries + Depth(root, name) <= cfg.maxQueries
    ensures var name := child.servers[0].name;
            var start, p := SupportStart(cfg, name, A), SupportPoint(cfg, root, name, looked);
            && OnTrack(cfg, root, root, f, st, start, p) && start.qname == name && start.qtype == A
            && WalkFrom(root, root, start, p)
               == Some(Resolved(name, Authority(root, name).local(name, A), Depth(root, name), []))
  {
    hide Network, Sensible, Deployed, Ready, Walk, Depth, RootAddresses, AskedOnly, Quiet, Authority, Serves, IpsOf;
    RootsReady(cfg, root);
    NameIsWalked(cfg, root, child, looked);
  }

  lemma NameHasRecords(cfg: Config, root: Zone, child: Zone)
    requires child.servers != [] && NameResolves(cfg, root, child)
    ensures var name := child.servers[0].name;
            && Depth(root, name) <= cfg.maxDepth && Authority(root, name).local(name, A).Records?
            && Texts(Authority(root, name).local(name, A).data) == IpsOf(child)
  {}

  /** A support lookup for the nameserver of a zone finds the zone's addresses. */
  lemma {:induction false} SupportRun(cfg: Config, root: Zone, child: Zone, st: State, looked: set<string>)
    requires Network(cfg, root) && child.servers != [] && NameResolves(cfg, root, child)
    requires var name := child.servers[0].name;
             && name !in looked && Quiet(st, looked) && AskedOnly(st, SupportLookup, looked, name, {})
             && st.queries + Depth(root, name) <= cfg.maxQueries
    ensures var name, k := child.servers[0].name, |st.hops|;
            var t := TraceName(cfg, st, SupportStart(cfg, name, A), Some(k));
            && t.outcome.kind == Success && CollectIPs(t.st.hops, k, name, A) == IpsOf(child)
            && |t.st.hops| == k + Depth(root, name) && t.st.queries == st.queries + Depth(root, name)
            && OwnHops(Frame(SupportLookup, Some(k)), st, t) && OnlyAdds(st, t.st, SupportLookup, name)
    decreases 1, 0, 0
  {
    hide Network, NameResolves, OnTrack, WalkFrom, Depth, Ends, TraceLoop, AskedOnly, Quiet, OwnHops, OnlyAdds, Texts,
         CollectIPs, Authority, IpsOf, RootAddresses;
    var name, k := child.servers[0].name, |st.hops|;
    var start, f, p := SupportStart(cfg, name, A), Frame(SupportLookup, Some(k)), SupportPoint(cfg, root, name, looked);
    NameHasRecords(cfg, root, child);
    SupportOnTrack(cfg, root, child, st, looked, f);
    WalkIsTraced(cfg, root, root, f, st, start, p);
    SupportCollects(root, st, looked, TraceName(cfg, st, start, Some(k)), WalkFrom(root, root, start, p).value, name);
  }

  lemma UngluedName(cfg: Config, root: Zone, child: Zone, above: set<string>)
    requires Reachable(cfg, root, child, above) && !child.glued
    ensures child.servers != [] && NameResolves(cfg, root, child) && IpsOf(child) != []
    ensures NsTargets(NsRecords(child)) == [child.servers[0].name] && UngluedAt(child) == [child.servers[0].name]
  {
    OneNsTarget(child, child.servers[0].name);
  }

  /** A query below a cut without glue takes a support lookup, and the trace goes on at the child zone. */
  lemma {:induction false} GluelessStep(cfg: Config, root: Zone, zone: Zone, child: Zone, st: State, cur: Cursor,
                                        seen: set<string>, looked: set<string>, before: set<string>,
                                        above: set<string>)
    requires Network(cfg, root) && Ready(cfg, zone, cur.candidates, before, above) && before <= above
    requires FindCut(zone.cuts, cur.qname) == Some(child) && !child.glued && Reachable(cfg, root, child, above)
    requires st.queries + 1 + Depth(root, child.servers[0].name) <= cfg.maxQueries
    requires AskedOnly(st, Delegation, seen, cur.qname, before) && cur.purpose != SupportLookup
    requires cur.qname !in seen && Quiet(st, looked) && child.servers[0].name !in looked
    ensures var q, name := Query(cfg, st, cur, None), child.servers[0].name;
            && Passed(st, q, Depth(root, name)) && Quiet(AppendHop(q.st, q.ret.hop), looked + {name})
            && AskedOnly(q.st, Delegation, seen, cur.qname, above)
            && GoesBelow(cfg, TOP, child, cur, above, NextMove(cfg, cur, Delegation, q.ret))
    decreases 1, 0, 1
  {
    hide Network, Ask, Query, AskedOnly, Quiet, Ready, Serves, Send, ResponseHop, NextCandidates, IsTerminal, NsTargets,
         NsRecords, ReferralZone, TargetsOf, SomeAllowed, Addresses, ZoneTree.Respond, ReferralMessage, NextMove, Depth,
         Referred, NameResolves, Sent1, TraceName, OwnHops, OnlyAdds, CollectIPs, ServersFor, FirstSeen, IpsOf, FindCut;
    UngluedName(cfg, root, child, above);
    var name, k := child.servers[0].name, |st.hops|;
    AskReady(cfg, zone, TOP, st, cur, seen, before, above);
    QueryOfGot(cfg, st, cur, None);
    ReferralIsNotTerminal(child, cur);
    ReferralAnswer(zone, child, cur);
    var r := Ask(cfg, cur, None, FirstAttempt(st));
    SendCount(cfg, st, cur, r.server);
    QuietSends(st, r.st, cur.qname, cur.purpose, looked);
    QuietAsked(r.st, looked, name, cur.qname, seen, above);
    SupportRun(cfg, root, child, r.st, looked);
    NextIsSupport(cfg, r.st, child, name, IpsOf(child));
    var t := TraceName(cfg, r.st, SupportStart(cfg, name, A), Some(k));
    SupportKeepsAsked(r.st, t.st, name, seen, cur.qname, above);
    SupportIsQuiet(r.st, t, name, looked);
    HopPlace(k, None, r.server, cur, r.m, r.transport);
    var hop := ResponseHop(k, None, r.server, cur, r.m, r.transport);
    SupportIsReady(cfg, root, child, name, ReferralZone(NsRecords(child)), above);
    var servers := ServersFor(cfg, name, ReferralZone(NsRecords(child)), FirstSeen(IpsOf(child)));
    ReferralMove(cfg, cur, Delegation, hop, servers, TargetsOf(servers, Support));
    QuietAppend(t.st, Query(cfg, st, cur, None).ret.hop, looked + {name});
  }

  /** One query with a support lookup of n steps in it. */
  predicate Passed(st: State, q: Queried, n: nat) {
    && q.st.queries == st.queries + 1 + n && |q.st.hops| == |st.hops| + n && q.ret.hop.parent == None
  }

  lemma WalkedPast(root: Zone, st: State, name: string, q: Queried, r: Traced, w: Resolved, qtype: QType)
    requires Passed(st, q, Depth(root, name)) && Walked(root, TOP, AppendHop(q.st, q.ret.hop), r, w, qtype)
    ensures Walked(root, TOP, st, r, Longer([name], w), qtype)
  {
    hide Ends, OnlyAdds, OwnHops, Depth;
    assert ([name] + w.unglued)[1..] == w.unglued;
  }

  /** The budgets suffice, and no nameserver is looked up twice; a support lookup itself needs no other. */
  ghost predicate Fits(cfg: Config, root: Zone, f: Frame, st: State, cur: Cursor, depth: nat, w: Resolved,
                       looked: set<string>) {
    && depth + w.steps <= cfg.maxDepth && st.queries + TotalSteps(root, w) <= cfg.maxQueries
    && Once(w.unglued, looked)
    && (f == TOP || f.purpose == SupportLookup)
    && (w.unglued != [] ==> f == TOP && Quiet(st, looked))
    && (f.purpose == SupportLookup ==> w.name == cur.qname)
  }

  /** The walk below a cut is a step longer than that from the child zone. */
  lemma WalkCut(root: Zone, zone: Zone, child: Zone, qname: string, qtype: QType, budget: nat, seen: set<string>)
    requires FindCut(zone.cuts, qname) == Some(child) && Walk(root, zone, qname, qtype, budget, seen).Some?
    ensures budget > 0 && qname !in seen && Authority(zone, qname) == Authority(child, qname)
    ensures var below := Walk(root, child, qname, qtype, budget - 1, seen);
            below.Some?
            && Walk(root, zone, qname, qtype, budget, seen) == Some(Longer(UngluedAt(child), below.value))
  {}

  lemma WalkLocal(root: Zone, zone: Zone, qname: string, qtype: QType, budget: nat, seen: set<string>)
    requires FindCut(zone.cuts, qname) == None && Walk(root, zone, qname, qtype, budget, seen).Some?
    ensures budget > 0 && qname !in seen && Authority(zone, qname) == zone
    ensures var local, w := zone.local(qname, qtype), Walk(root, zone, qname, qtype, budget, seen).value;
            if local.Alias? then
              var rest := Walk(root, root, local.target, qtype, budget - 1, seen + {qname});
              rest.Some? && w == Longer([], rest.value)
            else w == Resolved(qname, local, 1, [])
  {}

  lemma FitsFurther(cfg: Config, root: Zone, f: Frame, st: State, cur: Cursor, depth: nat, w: Resolved,
                    looked: set<string>, q: Queried, cur': Cursor)
    requires Fits(cfg, root, f, st, cur, depth, Longer([], w), looked)
    requires Stepped(f, st, cur, q) && SameSide(cur.purpose, f.purpose)
    requires f.purpose == SupportLookup ==> cur'.qname == cur.qname
    ensures Fits(cfg, root, f, AppendHop(q.st, q.ret.hop), cur', depth + 1, w, looked)
  {
    hide Quiet, Sent1, Once, SupportSteps;
    assert [] + w.unglued == w.unglued;
    if w.unglued != [] {
      QuietSends(st, q.st, cur.qname, cur.purpose, looked);
      QuietAppend(q.st, q.ret.hop, looked);
    }
  }

  lemma FitsPast(cfg: Config, root: Zone, st: State, cur: Cursor, depth: nat, w: Resolved, name: string,
                 looked: set<string>, q: Queried, cur': Cursor)
    requires Fits(cfg, root, TOP, st, cur, depth, Longer([name], w), looked) && Passed(st, q, Depth(root, name))
    requires Quiet(AppendHop(q.st, q.ret.hop), looked + {name})
    ensures Fits(cfg, root, TOP, AppendHop(q.st, q.ret.hop), cur', depth + 1, w, looked + {name})
  {
    hide Quiet, Depth;
    assert ([name] + w.unglued)[1..] == w.unglued;
  }

  lemma FitsName(cfg: Config, root: Zone, f: Frame, st: State, cur: Cursor, depth: nat, w: Resolved, name: string,
                 looked: set<string>)
    requires Fits(cfg, root, f, st, cur, depth, Longer([name], w), looked)
    ensures f == TOP && Quiet(st, looked) && name !in looked && st.queries + 1 + Depth(root, name) <= cfg.maxQueries
  {
    hide Quiet, Depth;
    assert ([name] + w.unglued)[0] == name;
  }

  /** Where a lookup stands: its depth, the budget of its walk, what it asked for, what was looked up, and where. */
  datatype Point = Point(depth: nat, budget: nat, seen: set<string>, looked: set<string>, before: set<string>,
                         above: set<string>)

  function WalkFrom(root: Zone, zone: Zone, cur: Cursor, p: Point): Option<Resolved> {
    Walk(root, zone, cur.qname, cur.qtype, p.budget, p.seen)
  }

  /** The lookup is about to ask the servers of the zone, and the walk from there ends within the budgets. */
  ghost predicate OnTrack(cfg: Config, root: Zone, zone: Zone, f: Frame, st: State, cur: Cursor, p: Point) {
    && Sensible(zone) && Deployed(cfg, root, zone, p.above)
    && Ready(cfg, zone, cur.candidates, p.before, p.above) && p.before <= p.above
    && AskedOnly(st, f.purpose, p.seen, cur.qname, p.before) && SameSide(cur.purpose, f.purpose)
    && WalkFrom(root, zone, cur, p).Some?
    && Fits(cfg, root, f, st, cur, p.depth, WalkFrom(root, zone, cur, p).value, p.looked)
    && (f.purpose == SupportLookup ==> Authority(zone, cur.qname).local(cur.qname, cur.qtype).Records?)
  }

  lemma HasBudget(cfg: Config, root: Zone, f: Frame, st: State, cur: Cursor, depth: nat, w: Resolved,
                  looked: set<string>, unglued: seq<string>)
    requires Fits(cfg, root, f, st, cur, depth, Longer(unglued, w), looked)
    ensures depth < cfg.maxDepth && st.queries < cfg.maxQueries
  {
    hide Quiet, Once, SupportSteps;
  }

  /** Below a cut with glue, one query leads to the child zone. */
  lemma GluedOnTrack(cfg: Config, root: Zone, zone: Zone, child: Zone, f: Frame, st: State, cur: Cursor, p: Point)
    requires OnTrack(cfg, root, zone, f, st, cur, p) && FindCut(zone.cuts, cur.qname) == Some(child) && child.glued
    ensures p.budget > 0 && p.depth < cfg.maxDepth && st.queries < cfg.maxQueries
    ensures var q := Query(cfg, st, cur, f.parent);
            var move, st' := NextMove(cfg, cur, f.purpose, q.ret), AppendHop(q.st, q.ret.hop);
            && Stepped(f, st, cur, q) && q.ret.hop.kind == Referral && move.Go?
            && OnTrack(cfg, root, child, f, st', move.cur, Below(p, child, {}))
            && WalkFrom(root, zone, cur, p)
               == Some(Longer([], WalkFrom(root, child, move.cur, Below(p, child, {})).value))
            && move.cur.qname == cur.qname && move.cur.qtype == cur.qtype
  {
    hide Query, NextMove, Ready, AskedOnly, Deployed, Sensible, Serves, Reachable, Addresses, Fits, Walk, Authority,
         Stepped, FindCut, SomeAllowed;
    WalkCut(root, zone, child, cur.qname, cur.qtype, p.budget, p.seen);
    ChildDeployed(cfg, root, zone, p.above, child);
    var below := Walk(root, child, cur.qname, cur.qtype, p.budget - 1, p.seen).value;
    HasBudget(cfg, root, f, st, cur, p.depth, below, p.looked, []);
    var q := Query(cfg, st, cur, f.parent);
    ReferralStep(cfg, root, zone, child, f, st, cur, p.seen, p.before, p.above);
    AskedOnlyAppend(q.st, q.ret.hop, f.purpose, p.seen, cur.qname, p.above);
    assert p.looked + {} == p.looked;
    FitsFurther(cfg, root, f, st, cur, p.depth, below, p.looked, q, NextMove(cfg, cur, f.purpose, q.ret).cur);
  }

  function Below(p: Point, child: Zone, names: set<string>): Point
    requires p.budget > 0
  {
    Point(p.depth + 1, p.budget - 1, p.seen, p.looked + names, p.above, p.above + Addresses(child))
  }

  function Restarted(cfg: Config, p: Point, qname: string): Point
    requires p.budget > 0
  {
    Point(p.depth + 1, p.budget - 1, p.seen + {qname}, p.looked, {}, RootAddresses(cfg))
  }

  /** A cut without glue is met by the top-level lookup only, and for a nameserver not looked up before. */
  lemma UngluedOnTrack(cfg: Config, root: Zone, zone: Zone, child: Zone, f: Frame, st: State, cur: Cursor, p: Point)
    requires OnTrack(cfg, root, zone, f, st, cur, p) && FindCut(zone.cuts, cur.qname) == Some(child) && !child.glued
    ensures f == TOP && p.budget > 0 && p.depth < cfg.maxDepth && child.servers != []
    ensures var name := child.servers[0].name;
            && Quiet(st, p.looked) && name !in p.looked && st.queries + 1 + Depth(root, name) <= cfg.maxQueries
            && Reachable(cfg, root, child, p.above) && Sensible(child)
            && Deployed(cfg, root, child, p.above + Addresses(child)) && cur.qname !in p.seen
            && WalkFrom(root, child, cur, Below(p, child, {name})).Some?
            && WalkFrom(root, zone, cur, p)
               == Some(Longer([name], WalkFrom(root, child, cur, Below(p, child, {name})).value))
  {
    hide Ready, AskedOnly, Deployed, Sensible, Serves, Reachable, Addresses, Fits, Walk, Depth, Authority, FindCut,
         SomeAllowed, Quiet, NsTargets, NsRecords, IpsOf;
    WalkCut(root, zone, child, cur.qname, cur.qtype, p.budget, p.seen);
    ChildDeployed(cfg, root, zone, p.above, child);
    UngluedName(cfg, root, child, p.above);
    var name, below := child.servers[0].name, Walk(root, child, cur.qname, cur.qtype, p.budget - 1, p.seen).value;
    HasBudget(cfg, root, f, st, cur, p.depth, below, p.looked, [name]);
    FitsName(cfg, root, f, st, cur, p.depth, below, name, p.looked);
  }

  /** Below a cut without glue, a query and a support lookup lead to the child zone. */
  lemma GluelessOnTrack(cfg: Config, root: Zone, zone: Zone, child: Zone, st: State, cur: Cursor, p: Point)
    requires Network(cfg, root) && OnTrack(cfg, root, zone, TOP, st, cur, p) && st.queries <= cfg.maxQueries
    requires FindCut(zone.cuts, cur.qname) == Some(child) && !child.glued && p.budget > 0 && child.servers != []
    ensures var q, name := Query(cfg, st, cur, None), child.servers[0].name;
            var move, st' := NextMove(cfg, cur, Delegation, q.ret), AppendHop(q.st, q.ret.hop);
            && Passed(st, q, Depth(root, name)) && move.Go?
            && OnTrack(cfg, root, child, TOP, st', move.cur, Below(p, child, {name})) && move.cur.qtype == cur.qtype
            && WalkFrom(root, child, move.cur, Below(p, child, {name}))
               == WalkFrom(root, child, cur, Below(p, child, {name}))
    decreases 1, p.budget, 2
  {
    hide Network, Query, NextMove, Ready, AskedOnly, Deployed, Sensible, Serves, Reachable, Addresses, Fits, Walk,
         Depth, Authority, FindCut, SomeAllowed, Quiet, AppendHop;
    UngluedOnTrack(cfg, root, zone, child, TOP, st, cur, p);
    var name, q := child.servers[0].name, Query(cfg, st, cur, None);
    GluelessStep(cfg, root, zone, child, st, cur, p.seen, p.looked, p.before, p.above);
    AskedOnlyAppend(q.st, q.ret.hop, Delegation, p.seen, cur.qname, p.above);
    var below := Walk(root, child, cur.qname, cur.qtype, p.budget - 1, p.seen).value;
    FitsPast(cfg, root, st, cur, p.depth, below, name, p.looked, q, NextMove(cfg, cur, Delegation, q.ret).cur);
  }

  /** For a name that the zone itself holds, one query ends the lookup, or leads back to the root for an alias. */
  lemma LocalOnTrack(cfg: Config, root: Zone, zone: Zone, f: Frame, st: State, cur: Cursor, p: Point)
    requires Network(cfg, root) && OnTrack(cfg, root, zone, f, st, cur, p) && FindCut(zone.cuts, cur.qname) == None
    ensures p.budget > 0 && p.depth < cfg.maxDepth && st.queries < cfg.maxQueries
    ensures var q, local := Query(cfg, st, cur, f.parent), zone.local(cur.qname, cur.qtype);
            && Stepped(f, st, cur, q)
            && match NextMove(cfg, cur, f.purpose, q.ret)
               case Go(cur') =>
                 && q.ret.hop.kind == Cname && cur'.qtype == cur.qtype && f == TOP
                 && OnTrack(cfg, root, root, f, AppendHop(q.st, q.ret.hop), cur', Restarted(cfg, p, cur.qname))
                 && WalkFrom(root, zone, cur, p)
                    == Some(Longer([], WalkFrom(root, root, cur', Restarted(cfg, p, cur.qname)).value))
               case Stop(o) =>
                 && Ends(o, q.ret.hop, cur.qname, cur.qtype, local)
                 && WalkFrom(root, zone, cur, p) == Some(Resolved(cur.qname, local, 1, []))
  {
    hide Network, Query, NextMove, Ready, AskedOnly, Deployed, Sensible, SensibleData, Serves, Fits, Walk, Authority,
         Stepped, FindCut, Ends, RootAddresses;
    WalkLocal(root, zone, cur.qname, cur.qtype, p.budget, p.seen);
    ZoneIsSensible(zone, cur.qname, cur.qtype);
    LocalHasBudget(cfg, root, f, st, cur, p.depth, WalkFrom(root, zone, cur, p).value, p.looked);
    var q, local := Query(cfg, st, cur, f.parent), zone.local(cur.qname, cur.qtype);
    LocalStep(cfg, zone, f, st, cur, p.seen, p.before, p.above);
    match NextMove(cfg, cur, f.purpose, q.ret)
    case Stop(o) => EndsIsNoAlias(o, q.ret.hop, cur.qname, cur.qtype, local);
    case Go(cur') =>
      AskedOnlyAppend(q.st, q.ret.hop, f.purpose, p.seen, cur.qname, p.above);
      AskedOnlyRestart(AppendHop(q.st, q.ret.hop), f.purpose, p.seen, cur.qname, p.above, cur'.qname);
      RootsReady(cfg, root);
      FitsFurther(cfg, root, f, st, cur, p.depth,
                  Walk(root, root, cur'.qname, cur.qtype, p.budget - 1, p.seen + {cur.qname}).value, p.looked, q, cur');
  }

  lemma EndsIsNoAlias(o: Outcome, h: Hop, name: string, qtype: QType, local: Local)
    requires Ends(o, h, name, qtype, local)
    ensures !local.Alias?
  {}

  lemma LocalHasBudget(cfg: Config, root: Zone, f: Frame, st: State, cur: Cursor, depth: nat, w: Resolved,
                       looked: set<string>)
    requires Fits(cfg, root, f, st, cur, depth, w, looked) && w.steps > 0
    ensures depth < cfg.maxDepth && st.queries < cfg.maxQueries && (f == TOP || f.purpose == SupportLookup)
  {
    hide Quiet, Once, SupportSteps;
  }

  /** From any zone on, the trace takes the steps of the walk and ends with what the walk finds. */
  lemma {:induction false} WalkIsTraced(cfg: Config, root: Zone, zone: Zone, f: Frame, st: State, cur: Cursor, p: Point)
    requires Network(cfg, root) && OnTrack(cfg, root, zone, f, st, cur, p)
    requires p.depth <= cfg.maxDepth && st.queries <= cfg.maxQueries
    ensures Walked(root, f, st, TraceLoop(cfg, st, f.purpose, f.parent, cur, p.depth),
                   WalkFrom(root, zone, cur, p).value, cur.qtype)
    decreases if f.purpose == SupportLookup then 0 else 1, p.budget
  {
    hide Query, NextMove, OnTrack, Network, Ends, Walked, FindCut, WalkFrom, Stepped, Depth, Addresses, RootAddresses,
         Longer, Passed, SameSide, Quiet, Reachable, Deployed, Sensible, ReferralMessage;
    TrackName(cfg, root, zone, f, st, cur, p);
    var q := Query(cfg, st, cur, f.parent);
    var st', move := AppendHop(q.st, q.ret.hop), NextMove(cfg, cur, f.purpose, q.ret);
    match FindCut(zone.cuts, cur.qname)
    case Some(child) =>
      if child.glued {
        GluedOnTrack(cfg, root, zone, child, f, st, cur, p);
        var p' := Below(p, child, {});
        WalkIsTraced(cfg, root, child, f, st', move.cur, p');
        TrackName(cfg, root, child, f, st', move.cur, p');
        WalkedMore(root, f, st, cur, q, TraceLoop(cfg, st', f.purpose, f.parent, move.cur, p'.depth),
                   WalkFrom(root, child, move.cur, p').value, cur.qtype);
      } else {
        UngluedOnTrack(cfg, root, zone, child, f, st, cur, p);
        GluelessOnTrack(cfg, root, zone, child, st, cur, p);
        var name := child.servers[0].name;
        var p' := Below(p, child, {name});
        WalkIsTraced(cfg, root, child, f, st', move.cur, p');
        TrackName(cfg, root, child, f, st', move.cur, p');
        WalkedPast(root, st, name, q, TraceLoop(cfg, st', f.purpose, f.parent, move.cur, p'.depth),
                   WalkFrom(root, child, move.cur, p').value, cur.qtype);
      }
    case None =>
      LocalOnTrack(cfg, root, zone, f, st, cur, p);
      match move
      case Stop(o) => WalkedOnce(root, f, st, cur, q, o, cur.qtype, zone.local(cur.qname, cur.qtype));
      case Go(cur') =>
        var p' := Restarted(cfg, p, cur.qname);
        WalkIsTraced(cfg, root, root, f, st', cur', p');
        TrackName(cfg, root, root, f, st', cur', p');
        WalkedMore(root, f, st, cur, q, TraceLoop(cfg, st', f.purpose, f.parent, cur', p'.depth),
                   WalkFrom(root, root, cur', p').value, cur.qtype);
  }

  lemma TrackName(cfg: Config, root: Zone, zone: Zone, f: Frame, st: State, cur: Cursor, p: Point)
    requires OnTrack(cfg, root, zone, f, st, cur, p)
    ensures WalkFrom(root, zone, cur, p).Some? && SameSide(cur.purpose, f.purpose)
    ensures f.purpose == SupportLookup ==> WalkFrom(root, zone, cur, p).value.name == cur.qname
  {
    hide Walk, Quiet, Deployed, Ready, AskedOnly, Sensible;
  }

  lemma RunIsWalked(cfg: Config, root: Zone, domain: string, qtype: QType, budget: nat)
    requires Network(cfg, root) && Resolve(root, Fqdn(domain), qtype, budget, {}).Some?
    requires Affordable(cfg, root, Resolve(root, Fqdn(domain), qtype, budget, {}).value)
    ensures Walked(root, TOP, EMPTY_STATE, Trace(cfg, domain, qtype),
                   Resolve(root, Fqdn(domain), qtype, budget, {}).value, qtype)
  {
    hide Network, Sensible, Deployed, Ready, Resolve, Walk, Ends, RootAddresses, TraceLoop, Walked, Fqdn, SupportSteps;
    RootsReady(cfg, root);
    WalkIsResolve(root, Fqdn(domain), qtype, budget, {});
    DistinctIsOnce(Resolve(root, Fqdn(domain), qtype, budget, {}).value.unglued, {});
    WalkIsTraced(cfg, root, root, TOP, EMPTY_STATE, TopStart(cfg, domain, qtype),
                 Point(0, budget, {}, {}, {}, RootAddresses(cfg)));
  }

  /** Depth and query budget suffice for the lookup, support lookups included, and it looks no nameserver up twice. */
  ghost predicate Affordable(cfg: Config, root: Zone, found: Resolved) {
    && found.steps <= cfg.maxDepth && found.steps + SupportSteps(root, found.unglued) <= cfg.maxQueries
    && forall i, j :: 0 <= i < j < |found.unglued| ==> found.unglued[i] != found.unglued[j]
  }

  /**
   * Resolution is correct. Over any finite zone tree whose servers always answer, some over UDP and others over TCP
   * after a truncated reply, with an allowed server for every cut and no address used twice along a delegation path, if
   * the direct lookup of the name follows its aliases to an end within the budgets, then the trace ends with exactly
   * what the direct lookup gives -- its records as one RRset, NODATA, or NXDOMAIN -- for the name at the end of the
   * alias chain. It takes one hop and one query for every step of the lookup and for every step to the address of a
   * nameserver that comes without glue.
   */
  lemma ResolutionIsCorrect(cfg: Config, root: Zone, domain: string, qtype: QType, budget: nat)
    requires Network(cfg, root) && Resolve(root, Fqdn(domain), qtype, budget, {}).Some?
    requires Affordable(cfg, root, Resolve(root, Fqdn(domain), qtype, budget, {}).value)
    ensures var found, r := Resolve(root, Fqdn(domain), qtype, budget, {}).value, Trace(cfg, domain, qtype);
            && |r.st.hops| == r.st.queries == found.steps + SupportSteps(root, found.unglued) > 0
            && Ends(r.outcome, r.st.hops[|r.st.hops| - 1], found.name, qtype, found.local)
            && (found.unglued == [] ==>
                  forall p :: 0 <= p < |r.st.hops| ==> r.st.hops[p].index == p && r.st.hops[p].parent == None)
  {
    RunIsWalked(cfg, root, domain, qtype, budget);
    hide Network, Resolve, Ends, Trace, Fqdn, SupportSteps, OnlyAdds;
  }
}
