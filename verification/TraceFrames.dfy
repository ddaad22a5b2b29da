/** The hop list of a run is a nested record of lookups, each a real path from hop to hop. */
module TraceFrames {
  import opened Text
  import opened Dns
  import opened Rrsets
  import opened TraceSpec
  import opened TraceSteps
  import opened TraceOutcome

  predicate HasAllowed(cfg: Config, servers: seq<Server>) {
    exists i :: 0 <= i < |servers| && cfg.allow(servers[i].ip)
  }

  predicate IsServer(h: Hop, s: Server) {
    h.serverName == s.name && h.serverIP == s.ip
  }

  /** The hop asks the cursor's question of one of the cursor's candidates. */
  predicate Asks(cur: Cursor, h: Hop) {
    && h.qname == cur.qname && h.qtype == cur.qtype && h.purpose == cur.purpose && h.zone == cur.zone
    && exists i :: 0 <= i < |cur.candidates| && IsServer(h, cur.candidates[i])
  }

  /** The hop's answer has a set of the type that the hop asked for, owned by the name that it asked for. */
  predicate HasAnswer(h: Hop) {
    exists i :: 0 <= i < |h.answer| && h.answer[i].rtype == h.qtype && EqualFold(h.answer[i].name, h.qname)
  }

  predicate HasSet(sets: seq<RRset>, rtype: RRType) {
    exists i :: 0 <= i < |sets| && sets[i].rtype == rtype
  }

  /** The alias of the name that the hop asked for, or the empty string. */
  function AliasIn(h: Hop): string {
    FirstAlias(h.answer, h.qname)
  }

  /** What a hop without a response shows. */
  predicate ShowsNothing(h: Hop) {
    && h.role == ErrorRole && h.transport == Udp && !h.authoritative && !h.truncated
    && h.answer == [] && h.authority == [] && h.additional == []
  }

  /** The kind of a hop is what its response code and its sets say; a hop without a response is an error. */
  predicate KindFits(h: Hop) {
    if h.code.Rcode? then
      && (h.kind == Answer <==> h.code.n == NOERROR && HasAnswer(h))
      && (h.kind == Cname <==> h.code.n == NOERROR && !HasAnswer(h) && AliasIn(h) != "")
      && (h.kind == NoData <==>
            h.code.n == NOERROR && h.authoritative && h.answer == [] && HasSet(h.authority, SOA))
      && (h.kind == Referral ==> h.code.n == NOERROR) && h.kind != NoKind
    else h.kind == Error && ShowsNothing(h)
  }

  function ReferralPurpose(purpose: Purpose): Purpose {
    if purpose == SupportLookup then SupportLookup else Delegation
  }

  predicate IsTarget(t: NextTarget, name: string, ip: string, zone: string) {
    t.name == name && t.ip == ip && t.zone == zone
  }

  /**
   * The step from one hop of a lookup to the next: a referral hop is followed by the same question to one of its next
   * targets, in that target's zone; a CNAME hop by the question for its alias, put to a root. No other hop is followed.
   */
  predicate Linked(cfg: Config, purpose: Purpose, prev: Hop, h: Hop) {
    && h.qtype == prev.qtype
    && match prev.kind
       case Referral =>
         && h.qname == prev.qname && h.purpose == ReferralPurpose(purpose)
         && exists i :: 0 <= i < |prev.targets| && IsTarget(prev.targets[i], h.serverName, h.serverIP, h.zone)
       case Cname =>
         && h.qname == AliasIn(prev) && h.purpose == CnameFollow && h.zone == "."
         && exists i :: 0 <= i < |cfg.roots| && IsServer(h, cfg.roots[i])
       case _ => false
  }

  /** The hop reports the response m. */
  predicate ReportsMessage(h: Hop, m: Message) {
    && h.code == Rcode(m.rcode) && h.authoritative == m.authoritative
    && h.answer == RrsetsOf(AnswerSection, m.answer)
    && h.authority == RrsetsOf(AuthoritySection, m.authority)
    && h.additional == RrsetsOf(AdditionalSection, m.additional)
  }

  /** The response names nameservers, and the policy blocks whatever glue it has for them. */
  ghost predicate NoUsableGlue(cfg: Config, m: Message) {
    && NsTargets(m.authority) != []
    && forall name, ip :: name in NsTargets(m.authority) && ip in GlueFor(m.additional, name) ==> !cfg.allow(ip)
  }

  /** The hop reports m, which neither answers nor ends the hop's question. */
  ghost predicate RefersOn(h: Hop, m: Message) {
    && ReportsMessage(h, m) && h.qtype in {A, AAAA, NS}
    && !IsTerminal(m, Cursor([], h.qname, h.qtype, h.purpose, h.zone))
  }

  /** It refers on without usable glue. */
  ghost predicate Glueless(cfg: Config, h: Hop, m: Message) {
    RefersOn(h, m) && NoUsableGlue(cfg, m)
  }

  predicate IsAddress(data: RData) {
    data.AData? || data.AAAAData?
  }

  /** The address records of the name that the policy allows, one target for each, in the order of the section. */
  function GlueTargetsFor(cfg: Config, name: string, zone: string, additional: seq<RR>): seq<NextTarget> {
    if additional == [] then []
    else
      var rr := additional[0];
      (if rr.name == name && IsAddress(rr.data) && cfg.allow(rr.data.Text())
       then [NextTarget(name, rr.data.Text(), zone, Glue)] else [])
      + GlueTargetsFor(cfg, name, zone, additional[1..])
  }

  /** The glue of all the names, name by name. */
  function GlueTargets(cfg: Config, names: seq<string>, zone: string, additional: seq<RR>): seq<NextTarget> {
    if names == [] then []
    else GlueTargetsFor(cfg, names[0], zone, additional) + GlueTargets(cfg, names[1..], zone, additional)
  }

  /** One target for each of the addresses that the policy allows, in their order. */
  function AllowedTargets(cfg: Config, name: string, zone: string, ips: seq<string>): seq<NextTarget> {
    if ips == [] then []
    else
      (if cfg.allow(ips[0]) then [NextTarget(name, ips[0], zone, Support)] else [])
      + AllowedTargets(cfg, name, zone, ips[1..])
  }

  function DataIn(sets: seq<RRset>, qtype: QType): seq<string> {
    if sets == [] then [] else (if sets[0].rtype == qtype then sets[0].data else []) + DataIn(sets[1..], qtype)
  }

  /** The data of the hops that answer a support lookup of the parent for the name, in the order of the list. */
  function Gathered(hops: seq<Hop>, parentIndex: nat, name: string, qtype: QType): seq<string> {
    if hops == [] then []
    else
      (if hops[0].parent == Some(parentIndex) && hops[0].purpose == SupportLookup && hops[0].kind == Answer
          && hops[0].qname == name
       then DataIn(hops[0].answer, qtype) else [])
      + Gathered(hops[1..], parentIndex, name, qtype)
  }

  /** What the lookup at positions lo..hi found: nothing unless it ended with an answer or NODATA. */
  function Found(hops: seq<Hop>, lo: nat, hi: nat, parentIndex: nat, name: string, qtype: QType): seq<string>
    requires hi <= |hops|
  {
    if lo < hi && hops[hi - 1].kind in {Answer, NoData} then Gathered(hops[..hi], parentIndex, name, qtype) else []
  }

  /**
   * Positions lo..hi of the hop list are one lookup. Its last hop carries as Index the position at which its own
   * support lookups begin, which is where the hop before it in this lookup ends; all its own hops have the same parent.
   */
  ghost predicate Path(cfg: Config, hops: seq<Hop>, lo: nat, hi: nat, start: Cursor, parent: Option<nat>)
    decreases 2 * (hi - lo), 0
  {
    && lo <= hi <= |hops|
    && (lo < hi ==>
          var h := hops[hi - 1];
          && lo <= h.index < hi && h.parent == parent
          && Supported(cfg, hops, h, hi - 1)
          && Path(cfg, hops, lo, h.index, start, parent)
          && if h.index == lo then Asks(start, h) else Linked(cfg, start.purpose, hops[h.index - 1], h))
  }

  /**
   * The hop's kind fits what it reports. Only a hop that reports a referral has next targets, and only one without
   * usable glue has support lookups. They fill the positions from its Index on.
   */
  ghost predicate Supported(cfg: Config, hops: seq<Hop>, h: Hop, hi: nat)
    requires h.index <= hi
    decreases 2 * (hi - h.index) + 1, 1
  {
    && KindFits(h)
    && if h.code == Rcode(NOERROR) && h.kind in {Referral, Error} then
         exists m :: RefersOn(h, m) && Referring(cfg, hops, h, m, hi)
       else h.index == hi && h.targets == []
  }

  /**
   * The next targets of a referral: all the glue that the policy allows, or, if there is none, all the allowed
   * addresses that the support lookups find. The hop is a referral exactly if it has one.
   */
  ghost predicate Referring(cfg: Config, hops: seq<Hop>, h: Hop, m: Message, hi: nat)
    requires h.index <= hi
    decreases 2 * (hi - h.index) + 1, 0
  {
    var names, zone := NsTargets(m.authority), ReferralZone(m.authority);
    && (h.kind == Referral <==> h.targets != [])
    && if NoUsableGlue(cfg, m) then NameRuns(cfg, hops, h.index, hi, h.index, names, zone, h.targets)
       else h.index == hi && h.targets == GlueTargets(cfg, names, zone, m.additional)
  }

  /**
   * Positions lo..hi are the support lookups for the names, one after the other, and the targets are the allowed
   * addresses that they find.
   */
  ghost predicate NameRuns(cfg: Config, hops: seq<Hop>, lo: nat, hi: nat, parentIndex: nat, names: seq<string>,
                           zone: string, targets: seq<NextTarget>)
    decreases 2 * (hi - lo), 2 * |names| + 1
  {
    && lo <= hi <= |hops|
    && if names == [] then lo == hi && targets == []
       else
         exists mid: nat, end: nat, ips, rest ::
           && FirstRun(cfg, hops, lo, mid, end, hi, parentIndex, names, zone, ips, rest)
           && targets == AllowedTargets(cfg, names[0], zone, ips) + rest
  }

  ghost predicate FirstRun(
    cfg: Config, hops: seq<Hop>, lo: nat, mid: nat, end: nat, hi: nat, parentIndex: nat, names: seq<string>,
    zone: string, ips: seq<string>, rest: seq<NextTarget>)
    requires hi <= |hops| && names != []
    decreases 2 * (hi - lo), 2 * |names|
  {
    && lo <= mid <= end <= hi
    && NameRun(cfg, hops, lo, mid, end, parentIndex, names[0], ips)
    && NameRuns(cfg, hops, end, hi, parentIndex, names[1..], zone, rest)
  }

  /**
   * Positions lo..mid are the lookup for the A records of the name, and ips are the addresses that it finds, each once.
   * If it finds none, positions mid..hi are the lookup for the AAAA records, and ips are what that finds.
   */
  ghost predicate NameRun(cfg: Config, hops: seq<Hop>, lo: nat, mid: nat, hi: nat, parentIndex: nat, name: string,
                          ips: seq<string>)
    requires lo <= mid <= hi <= |hops|
    decreases 2 * (hi - lo), 1
  {
    var found := Found(hops, lo, mid, parentIndex, name, A);
    && Path(cfg, hops, lo, mid, SupportStart(cfg, name, A), Some(parentIndex))
    && if found != [] then mid == hi && ips == FirstSeen(found)
       else
         && Path(cfg, hops, mid, hi, SupportStart(cfg, name, AAAA), Some(parentIndex))
         && ips == FirstSeen(Found(hops, mid, hi, parentIndex, name, AAAA))
  }

  lemma RunPaths(cfg: Config, hops: seq<Hop>, lo: nat, mid: nat, hi: nat, parentIndex: nat, name: string,
                 ips: seq<string>)
    requires lo <= mid <= hi <= |hops| && NameRun(cfg, hops, lo, mid, hi, parentIndex, name, ips)
    ensures Path(cfg, hops, lo, mid, SupportStart(cfg, name, A), Some(parentIndex))
    ensures mid < hi ==> Path(cfg, hops, mid, hi, SupportStart(cfg, name, AAAA), Some(parentIndex))
  {
    hide Path, SupportStart, Found;
  }

  lemma {:induction false} PathGrows(cfg: Config, hops: seq<Hop>, hops': seq<Hop>, lo: nat, hi: nat, start: Cursor,
                                     parent: Option<nat>)
    requires Path(cfg, hops, lo, hi, start, parent) && hops <= hops'
    ensures Path(cfg, hops', lo, hi, start, parent)
    decreases 2 * (hi - lo), 0
  {
    hide Asks, Linked, Supported;
    if lo < hi {
      var h := hops[hi - 1];
      SupportedGrows(cfg, hops, hops', h, hi - 1);
      PathGrows(cfg, hops, hops', lo, h.index, start, parent);
      assert h.index > lo ==> hops'[h.index - 1] == hops[h.index - 1];
    }
  }

  lemma {:induction false} SupportedGrows(cfg: Config, hops: seq<Hop>, hops': seq<Hop>, h: Hop, hi: nat)
    requires h.index <= hi && Supported(cfg, hops, h, hi) && hops <= hops'
    ensures Supported(cfg, hops', h, hi)
    decreases 2 * (hi - h.index) + 1, 1
  {
    hide RefersOn, NameRuns, NoUsableGlue, GlueTargets, KindFits;
    if h.code == Rcode(NOERROR) && h.kind in {Referral, Error} {
      var m :| RefersOn(h, m) && Referring(cfg, hops, h, m, hi);
      if NoUsableGlue(cfg, m) {
        NameRunsGrow(cfg, hops, hops', h.index, hi, h.index, NsTargets(m.authority), ReferralZone(m.authority),
                     h.targets);
      }
      assert Referring(cfg, hops', h, m, hi);
    }
  }

  lemma {:induction false} NameRunsGrow(
    cfg: Config, hops: seq<Hop>, hops': seq<Hop>, lo: nat, hi: nat, parentIndex: nat, names: seq<string>, zone: string,
    targets: seq<NextTarget>)
    requires NameRuns(cfg, hops, lo, hi, parentIndex, names, zone, targets) && hops <= hops'
    ensures NameRuns(cfg, hops', lo, hi, parentIndex, names, zone, targets)
    decreases 2 * (hi - lo), 2 * |names| + 1
  {
    hide NameRun, AllowedTargets;
    if names != [] {
      var mid: nat, end: nat, ips, rest :|
        && FirstRun(cfg, hops, lo, mid, end, hi, parentIndex, names, zone, ips, rest)
        && targets == AllowedTargets(cfg, names[0], zone, ips) + rest;
      NameRunGrows(cfg, hops, hops', lo, mid, end, parentIndex, names[0], ips);
      NameRunsGrow(cfg, hops, hops', end, hi, parentIndex, names[1..], zone, rest);
      assert FirstRun(cfg, hops', lo, mid, end, hi, parentIndex, names, zone, ips, rest);
    }
  }

  lemma {:induction false} NameRunGrows(
    cfg: Config, hops: seq<Hop>, hops': seq<Hop>, lo: nat, mid: nat, hi: nat, parentIndex: nat, name: string,
    ips: seq<string>)
    requires lo <= mid <= hi <= |hops| && NameRun(cfg, hops, lo, mid, hi, parentIndex, name, ips) && hops <= hops'
    ensures NameRun(cfg, hops', lo, mid, hi, parentIndex, name, ips)
    decreases 2 * (hi - lo), 1
  {
    hide Path, SupportStart, Gathered;
    assert hops'[..mid] == hops[..mid] && hops'[..hi] == hops[..hi];
    PathGrows(cfg, hops, hops', lo, mid, SupportStart(cfg, name, A), Some(parentIndex));
    if Found(hops, lo, mid, parentIndex, name, A) == [] {
      PathGrows(cfg, hops, hops', mid, hi, SupportStart(cfg, name, AAAA), Some(parentIndex));
    }
  }

  /** The cursor continues from the hop prev: the candidates are its next targets, all in order, or the roots. */
  predicate Continues(cfg: Config, purpose: Purpose, prev: Hop, cur: Cursor) {
    && cur.qtype == prev.qtype
    && match prev.kind
       case Referral =>
         && cur.qname == prev.qname && cur.purpose == ReferralPurpose(purpose)
         && |cur.candidates| == |prev.targets|
         && forall k :: 0 <= k < |cur.candidates| ==>
              var s := cur.candidates[k];
              IsTarget(prev.targets[k], s.name, s.ip, cur.zone) && s.endpoint == cfg.endpointOf(s.ip)
       case Cname =>
         cur.qname == AliasIn(prev) && cur.purpose == CnameFollow && cur.zone == "." && cur.candidates == cfg.roots
       case _ => false
  }

  lemma ContinuesLinks(cfg: Config, purpose: Purpose, prev: Hop, cur: Cursor, h: Hop)
    requires Continues(cfg, purpose, prev, cur) && Asks(cur, h)
    ensures Linked(cfg, purpose, prev, h)
  {
    var k :| 0 <= k < |cur.candidates| && IsServer(h, cur.candidates[k]);
  }

  /**
   * With an allowed candidate and budget left, the hop of a query asks the cursor's question at the current position.
   */
  lemma QueryHop(cfg: Config, st: State, cur: Cursor, parent: Option<nat>, q: Queried, a: Asking)
    requires Shape(cfg, st, cur, parent, q, a) && HasAllowed(cfg, cur.candidates) && st.queries < cfg.maxQueries
    ensures q.ret.hop.index == |st.hops| && q.ret.hop.parent == parent && Asks(cur, q.ret.hop)
  {
    match a.answer
    case None =>
      hide Sends;
      var server, code :| MadeFor(cfg, a.st, cur, parent, q.ret.hop, server, code);
      assert IsServer(q.ret.hop, server);
    case Some(r) =>
      AnsweredHop(cfg, st, cur, parent, q, a);
      hide Shape, RrsetsOf, ClassifyRole;
      assert IsServer(q.ret.hop, r.server);
  }

  lemma {:induction false} SupportZone(cfg: Config, st: State, names: seq<string>, zone: string, parentIndex: nat)
    requires st.queries <= cfg.maxQueries
    ensures forall s :: s in SupportServers(cfg, st, names, zone, parentIndex).1 ==>
              s.zone == zone && cfg.allow(s.ip) && s.endpoint == cfg.endpointOf(s.ip)
    decreases |names|
  {
    hide ResolveNameServer;
    if names != [] {
      SupportZone(cfg, ResolveNameServer(cfg, st, names[0], parentIndex, [A, AAAA]).0, names[1..], zone, parentIndex);
    }
  }

  lemma {:induction false} GlueZone(cfg: Config, names: seq<string>, zone: string, additional: seq<RR>)
    ensures forall s :: s in GlueServers(cfg, names, zone, additional) ==>
              s.zone == zone && cfg.allow(s.ip) && s.endpoint == cfg.endpointOf(s.ip)
  {
    hide GlueFor;
    if names != [] {
      GlueZone(cfg, names[..|names| - 1], zone, additional);
    }
  }

  /** All servers of a referral are allowed and share its zone, and the targets list them. */
  lemma NextZone(cfg: Config, st: State, m: Message, parentIndex: nat)
    requires st.queries <= cfg.maxQueries
    ensures var next := NextCandidates(cfg, st, m, parentIndex);
            && (forall s :: s in next.servers ==>
                  s.zone == ReferralZone(m.authority) && cfg.allow(s.ip) && s.endpoint == cfg.endpointOf(s.ip))
            && |next.targets| == |next.servers|
            && (forall i :: 0 <= i < |next.servers| ==>
                  IsTarget(next.targets[i], next.servers[i].name, next.servers[i].ip, next.servers[i].zone))
  {
    hide NsTargets, ReferralZone, SupportServers, GlueServers, TargetsOf;
    GlueZone(cfg, NsTargets(m.authority), ReferralZone(m.authority), m.additional);
    SupportZone(cfg, st, NsTargets(m.authority), ReferralZone(m.authority), parentIndex);
  }

  lemma AliasFound(m: Message, h: Hop)
    requires h.answer == RrsetsOf(AnswerSection, m.answer)
    ensures AliasIn(h) == FirstCNAME(m.answer, h.qname)
  {
    hide FirstAlias, FirstCNAME;
    FirstAliasIsCNAME(AnswerSection, m.answer, h.qname);
  }

  /** If traceName goes on after a query, then from a referral or CNAME hop, and to an allowed candidate. */
  lemma MoveContinues(cfg: Config, st: State, cur: Cursor, parent: Option<nat>, purpose: Purpose, q: Queried, a: Asking)
    requires Shape(cfg, st, cur, parent, q, a) && HasAllowed(cfg, cfg.roots)
    ensures var move := NextMove(cfg, cur, purpose, q.ret);
            move.Go? ==> Continues(cfg, purpose, q.ret.hop, move.cur) && HasAllowed(cfg, move.cur.candidates)
  {
    match a.answer
    case None => hide Sends, Continues, LocalHop;
    case Some(r) =>
      var hop := ResponseHop(|a.st.hops|, parent, r.server, cur, r.m, r.transport);
      if IsTerminal(r.m, cur) {
        TerminalContinues(cfg, cur, purpose, hop, r.m);
      } else {
        NextZone(cfg, a.st, r.m, |a.st.hops|);
        var next := NextCandidates(cfg, a.st, r.m, |a.st.hops|);
        ReferralContinues(cfg, cur, purpose, hop, next.servers, next.targets, ReferralZone(r.m.authority));
      }
      hide Sends, Continues, HasAllowed, NextMove, IsTerminal, Terminal, Referred, ResponseHop, NextCandidates;
  }

  lemma TerminalContinues(cfg: Config, cur: Cursor, purpose: Purpose, hop: Hop, m: Message)
    requires IsTerminal(m, cur) && HasAllowed(cfg, cfg.roots)
    requires hop.qname == cur.qname && hop.qtype == cur.qtype && hop.answer == RrsetsOf(AnswerSection, m.answer)
    ensures var ret := Terminal(hop, m, cur); var move := NextMove(cfg, cur, purpose, ret);
            move.Go? ==> Continues(cfg, purpose, ret.hop, move.cur) && HasAllowed(cfg, move.cur.candidates)
  {
    AliasFound(m, hop.(kind := Cname));
    hide HasType, FirstCNAME, IsNODATA, AliasIn, RrsetsOf, IsTerminal, HasAllowed;
  }

  lemma ReferralContinues(cfg: Config, cur: Cursor, purpose: Purpose, hop: Hop, servers: seq<Server>,
                          targets: seq<NextTarget>, zone: string)
    requires hop.qname == cur.qname && hop.qtype == cur.qtype
    requires forall s :: s in servers ==> s.zone == zone && cfg.allow(s.ip) && s.endpoint == cfg.endpointOf(s.ip)
    requires |targets| == |servers|
    requires forall i :: 0 <= i < |servers| ==> IsTarget(targets[i], servers[i].name, servers[i].ip, servers[i].zone)
    ensures var ret := Referred(hop, servers, targets); var move := NextMove(cfg, cur, purpose, ret);
            move.Go? ==> Continues(cfg, purpose, ret.hop, move.cur) && HasAllowed(cfg, move.cur.candidates)
  {
    if servers != [] {
      assert servers[0] in servers;
      assert forall i :: 0 <= i < |servers| ==> servers[i] in servers;
    }
  }

  lemma {:induction false} QueryPath(cfg: Config, st: State, cur: Cursor, parent: Option<nat>)
    requires st.queries < cfg.maxQueries && HasAllowed(cfg, cfg.roots) && HasAllowed(cfg, cur.candidates)
    ensures var q := Query(cfg, st, cur, parent);
            && q.ret.hop.index == |st.hops| <= |q.st.hops| && q.ret.hop.parent == parent && Asks(cur, q.ret.hop)
            && Supported(cfg, q.st.hops, q.ret.hop, |q.st.hops|)
    decreases cfg.maxQueries - st.queries, 0
  {
    var q := Query(cfg, st, cur, parent);
    var a := QueryShape(cfg, st, cur, parent);
    QueryHop(cfg, st, cur, parent, q, a);
    hide Query, Referring, Sends, ResponseHop, Terminal, Referred, IsTerminal, NextCandidates, HasAllowed, RefersOn,
         LocalHop;
    match a.answer
    case None => LocalHopIsPlain(cfg, a.st, cur, parent, q.ret.hop);
    case Some(r) =>
      var hop := ResponseHop(|a.st.hops|, parent, r.server, cur, r.m, r.transport);
      if IsTerminal(r.m, cur) {
        TerminalIsPlain(cur, parent, r, |a.st.hops|);
      } else {
        NextPath(cfg, a.st, r.m);
        AnsweredReports(cfg, st, cur, parent, q, a);
        SameQuestion(r.m, cur, q.ret.hop);
        ResponseHopStands(|a.st.hops|, parent, r.server, cur, r.m, r.transport);
        ReferralReports(cfg, a.st, cur, hop, r.m, q);
      }
  }

  lemma LocalHopIsPlain(cfg: Config, st: State, cur: Cursor, parent: Option<nat>, hop: Hop)
    requires LocalHop(cfg, st, cur, parent, hop) || hop == BLANK_HOP
    ensures !hop.code.Rcode? && hop.targets == [] && (LocalHop(cfg, st, cur, parent, hop) ==> KindFits(hop))
  {}

  lemma TerminalIsPlain(cur: Cursor, parent: Option<nat>, r: Response, index: nat)
    requires IsTerminal(r.m, cur)
    ensures var hop := Terminal(ResponseHop(index, parent, r.server, cur, r.m, r.transport), r.m, cur).hop;
            hop.targets == [] && KindFits(hop) && !(hop.code == Rcode(NOERROR) && hop.kind in {Referral, Error})
  {
    hide IsTerminal, Terminal, KindFits, ClassifyRole, RrsetsOf;
    TerminalFits(cur, ResponseHop(index, parent, r.server, cur, r.m, r.transport), r.m);
  }

  /** The kind of a hop that ends a lookup, or finds an alias, fits what it reports. */
  lemma TerminalFits(cur: Cursor, hop: Hop, m: Message)
    requires IsTerminal(m, cur) && ReportsMessage(hop, m) && hop.qname == cur.qname && hop.qtype == cur.qtype
    ensures var h := Terminal(hop, m, cur).hop;
            KindFits(h) && h.targets == hop.targets && !(h.code == Rcode(NOERROR) && h.kind in {Referral, Error})
  {
    TerminalKeeps(hop, m, cur);
    SetsAnswer(m, hop.(kind := Terminal(hop, m, cur).hop.kind));
    hide HasAnswer, HasSet, AliasIn, HasType, FirstCNAME, RrsetsOf;
  }

  lemma ResponseHopStands(index: nat, parent: Option<nat>, server: Server, cur: Cursor, m: Message,
                          transport: Transport)
    ensures var hop := ResponseHop(index, parent, server, cur, m, transport);
            hop.index == index && hop.code == Rcode(m.rcode) && hop.targets == []
            && hop.qname == cur.qname && hop.qtype == cur.qtype
  {}

  /** A section has a record of a name and type, whatever the case of the name, exactly if it has such a set. */
  lemma SetsHaveType(section: Section, records: seq<RR>, qname: string, rtype: RRType)
    ensures (exists i :: 0 <= i < |RrsetsOf(section, records)| && RrsetsOf(section, records)[i].rtype == rtype
                         && EqualFold(RrsetsOf(section, records)[i].name, qname))
            <==> exists i :: 0 <= i < |records| && EqualFold(records[i].name, qname) && records[i].data.Type() == rtype
  {
    hide EqualFold, RrsetsOf;
    var sets := RrsetsOf(section, records);
    if i :| 0 <= i < |records| && EqualFold(records[i].name, qname) && records[i].data.Type() == rtype {
      var s := RecordIsGrouped(section, records, records[i]);
    }
    if i :| 0 <= i < |sets| && sets[i].rtype == rtype && EqualFold(sets[i].name, qname) {
      SetStarts(section, records, i);
      var r := StartOf(sets[i], section, records);
    }
  }

  lemma SetsHaveSOA(section: Section, records: seq<RR>)
    ensures HasSet(RrsetsOf(section, records), SOA) <==> exists i :: 0 <= i < |records| && records[i].data.SOAData?
  {
    hide RrsetsOf;
    var sets := RrsetsOf(section, records);
    if i :| 0 <= i < |records| && records[i].data.SOAData? {
      var s := RecordIsGrouped(section, records, records[i]);
    }
    if i :| 0 <= i < |sets| && sets[i].rtype == SOA {
      SetStarts(section, records, i);
      var r := StartOf(sets[i], section, records);
    }
  }

  /** What decides the kind of a response can be read off its sets. */
  lemma SetsAnswer(m: Message, h: Hop)
    requires h.answer == RrsetsOf(AnswerSection, m.answer) && h.authority == RrsetsOf(AuthoritySection, m.authority)
    requires h.qtype in {A, AAAA, NS}
    ensures HasAnswer(h) == HasType(m.answer, h.qname, h.qtype) && AliasIn(h) == FirstCNAME(m.answer, h.qname)
    ensures HasSet(h.authority, SOA) == exists i :: 0 <= i < |m.authority| && m.authority[i].data.SOAData?
    ensures h.answer == [] <==> m.answer == []
  {
    hide EqualFold, RrsetsOf, FirstCNAME, FirstAlias;
    AliasFound(m, h);
    NoSets(m.answer);
    SetsHaveType(AnswerSection, m.answer, h.qname, h.qtype);
    SetsHaveSOA(AuthoritySection, m.authority);
  }

  lemma NoSets(records: seq<RR>)
    ensures RrsetsOf(AnswerSection, records) == [] <==> records == []
  {
    if records != [] {
      var i := RecordIsGrouped(AnswerSection, records, records[0]);
    }
  }

  /** So does the kind of a hop that reports a referral, usable or not. */
  lemma ReferredFits(cur: Cursor, h: Hop, m: Message)
    requires !IsTerminal(m, cur) && ReportsMessage(h, m) && h.qname == cur.qname && h.qtype == cur.qtype
    requires h.kind in {Referral, Error}
    ensures KindFits(h) && h.code == Rcode(NOERROR)
  {
    NotTerminal(m, cur);
    SetsAnswer(m, h);
    hide HasAnswer, HasSet, AliasIn, HasType, FirstCNAME, RrsetsOf;
  }

  /** The hop of a referral has the next targets, and is an error without any. */
  lemma ReferralReports(cfg: Config, st: State, cur: Cursor, hop: Hop, m: Message, q: Queried)
    requires st.queries <= cfg.maxQueries && !IsTerminal(m, cur) && hop.index == |st.hops| && hop.targets == []
    requires var next := NextCandidates(cfg, st, m, |st.hops|);
             q == Queried(next.st, Referred(hop, next.servers, next.targets)) && Refers(cfg, st, m, next)
    requires hop.qname == cur.qname && hop.qtype == cur.qtype && RefersOn(q.ret.hop, m)
    ensures Supported(cfg, q.st.hops, q.ret.hop, |q.st.hops|)
  {
    assert ReportsMessage(q.ret.hop, m);
    hide NextCandidates, IsTerminal, KindFits, ReportsMessage, RefersOn, NameRuns, NoUsableGlue, GlueTargets, NsTargets,
         ReferralZone;
    ReferredFits(cur, q.ret.hop, m);
    assert Referring(cfg, q.st.hops, q.ret.hop, m, |q.st.hops|);
  }

  /** Whether a response ends a question depends on its name and type alone. */
  lemma SameQuestion(m: Message, cur: Cursor, h: Hop)
    requires h.qname == cur.qname && h.qtype == cur.qtype
    ensures IsTerminal(m, Cursor([], h.qname, h.qtype, h.purpose, h.zone)) == IsTerminal(m, cur)
  {}

  lemma AnsweredReports(cfg: Config, st: State, cur: Cursor, parent: Option<nat>, q: Queried, a: Asking)
    requires Shape(cfg, st, cur, parent, q, a) && a.answer.Some?
    ensures ReportsMessage(q.ret.hop, a.answer.value.m)
  {
    AnsweredHop(cfg, st, cur, parent, q, a);
    hide Shape, RrsetsOf, ClassifyRole;
  }

  lemma {:induction false} ServersForHas(cfg: Config, name: string, zone: string, ips: seq<string>, ip: string)
    requires ip in ips && cfg.allow(ip)
    ensures ServersFor(cfg, name, zone, ips) != []
  {
    var n := |ips| - 1;
    if ips[n] != ip {
      ServersForHas(cfg, name, zone, ips[..n], ip);
    }
  }

  /** Glue that the policy allows is used. */
  lemma {:induction false} GlueServersHas(cfg: Config, names: seq<string>, zone: string, additional: seq<RR>,
                                          name: string, ip: string)
    requires name in names && ip in GlueFor(additional, name) && cfg.allow(ip)
    ensures GlueServers(cfg, names, zone, additional) != []
  {
    hide GlueFor, ServersFor;
    var n := |names| - 1;
    if names[n] == name {
      ServersForHas(cfg, name, zone, GlueFor(additional, name), ip);
    } else {
      GlueServersHas(cfg, names[..n], zone, additional, name, ip);
    }
  }

  lemma {:induction false} AllowedTargetsAppend(cfg: Config, name: string, zone: string, ips: seq<string>, ip: string)
    ensures AllowedTargets(cfg, name, zone, ips + [ip])
            == AllowedTargets(cfg, name, zone, ips) + AllowedTargets(cfg, name, zone, [ip])
  {
    if ips == [] {
      assert ips + [ip] == [ip];
    } else {
      assert (ips + [ip])[1..] == ips[1..] + [ip];
      AllowedTargetsAppend(cfg, name, zone, ips[1..], ip);
    }
  }

  /** The candidates for some addresses are the allowed ones. */
  lemma {:induction false} ServersForTargets(cfg: Config, name: string, zone: string, ips: seq<string>)
    ensures TargetsOf(ServersFor(cfg, name, zone, ips), Support) == AllowedTargets(cfg, name, zone, ips)
  {
    if ips != [] {
      var n := |ips| - 1;
      ServersForTargets(cfg, name, zone, ips[..n]);
      AllowedTargetsAppend(cfg, name, zone, ips[..n], ips[n]);
      assert ips[..n] + [ips[n]] == ips;
      assert [ips[n]][1..] == [];
    }
  }

  lemma {:induction false} GlueTargetsAppend(cfg: Config, name: string, zone: string, records: seq<RR>, rr: RR)
    ensures GlueTargetsFor(cfg, name, zone, records + [rr])
            == GlueTargetsFor(cfg, name, zone, records) + GlueTargetsFor(cfg, name, zone, [rr])
  {
    if records == [] {
      assert records + [rr] == [rr];
    } else {
      assert (records + [rr])[1..] == records[1..] + [rr];
      GlueTargetsAppend(cfg, name, zone, records[1..], rr);
    }
  }

  lemma {:induction false} ServersForAppend(cfg: Config, name: string, zone: string, ips: seq<string>, ip: string)
    ensures ServersFor(cfg, name, zone, ips + [ip])
            == ServersFor(cfg, name, zone, ips)
               + (if cfg.allow(ip) then [Server(name, ip, cfg.endpointOf(ip), zone)] else [])
  {
    assert (ips + [ip])[..|ips|] == ips;
  }

  lemma {:induction false} GlueForTargets(cfg: Config, name: string, zone: string, records: seq<RR>)
    ensures TargetsOf(ServersFor(cfg, name, zone, GlueFor(records, name)), Glue)
            == GlueTargetsFor(cfg, name, zone, records)
  {
    if records != [] {
      var n := |records| - 1;
      GlueForTargets(cfg, name, zone, records[..n]);
      GlueTargetsAppend(cfg, name, zone, records[..n], records[n]);
      ServersForAppend(cfg, name, zone, GlueFor(records[..n], name), records[n].data.Text());
      assert records[..n] + [records[n]] == records;
      assert [records[n]][1..] == [];
      hide ServersFor;
    }
  }

  lemma {:induction false} GlueTargetsOneMore(cfg: Config, names: seq<string>, name: string, zone: string,
                                              records: seq<RR>)
    ensures GlueTargets(cfg, names + [name], zone, records)
            == GlueTargets(cfg, names, zone, records) + GlueTargetsFor(cfg, name, zone, records)
  {
    hide GlueTargetsFor;
    if names == [] {
      assert names + [name] == [name] && [name][1..] == [];
    } else {
      assert (names + [name])[1..] == names[1..] + [name];
      GlueTargetsOneMore(cfg, names[1..], name, zone, records);
    }
  }

  /** The glue candidates are all the allowed glue, name by name. */
  lemma {:induction false} GlueServersTargets(cfg: Config, names: seq<string>, zone: string, records: seq<RR>)
    ensures TargetsOf(GlueServers(cfg, names, zone, records), Glue) == GlueTargets(cfg, names, zone, records)
  {
    hide GlueTargetsFor, ServersFor, GlueFor;
    if names != [] {
      var n := |names| - 1;
      GlueServersTargets(cfg, names[..n], zone, records);
      GlueForTargets(cfg, names[n], zone, records);
      GlueTargetsOneMore(cfg, names[..n], names[n], zone, records);
      assert names[..n] + [names[n]] == names;
    }
  }

  /** Without usable glue there is no candidate from glue, and conversely. */
  lemma UsableGlue(cfg: Config, m: Message)
    requires NsTargets(m.authority) != []
    ensures NoUsableGlue(cfg, m)
            <==> GlueServers(cfg, NsTargets(m.authority), ReferralZone(m.authority), m.additional) == []
  {
    hide NsTargets, ReferralZone, GlueServers, GlueFor;
    var names, zone := NsTargets(m.authority), ReferralZone(m.authority);
    var servers := GlueServers(cfg, names, zone, m.additional);
    if servers != [] {
      GlueServerFrom(cfg, names, zone, m.additional, servers[0]);
    }
    forall name, ip | name in names && ip in GlueFor(m.additional, name) && cfg.allow(ip) ensures servers != [] {
      GlueServersHas(cfg, names, zone, m.additional, name, ip);
    }
  }

  lemma {:induction false} GlueServerFrom(cfg: Config, names: seq<string>, zone: string, additional: seq<RR>, s: Server)
    requires s in GlueServers(cfg, names, zone, additional)
    ensures s.name in names && cfg.allow(s.ip) && s.endpoint == cfg.endpointOf(s.ip)
            && s.ip in GlueFor(additional, s.name)
  {
    hide GlueFor, ServersFor;
    var n := |names| - 1;
    if s !in ServersFor(cfg, names[n], zone, GlueFor(additional, names[n])) {
      GlueServerFrom(cfg, names[..n], zone, additional, s);
    }
  }

  /** What comes of a referral: its targets are the allowed glue, or what its support lookups find. */
  ghost predicate Refers(cfg: Config, st: State, m: Message, next: Candidates) {
    var names, zone := NsTargets(m.authority), ReferralZone(m.authority);
    && (next.servers == [] <==> next.targets == [])
    && if NoUsableGlue(cfg, m) then
         NameRuns(cfg, next.st.hops, |st.hops|, |next.st.hops|, |st.hops|, names, zone, next.targets)
       else next.st.hops == st.hops && next.targets == GlueTargets(cfg, names, zone, m.additional)
  }

  /** A referral adds hops only when it has no usable glue, and they are its support lookups. */
  lemma {:induction false} NextPath(cfg: Config, st: State, m: Message)
    requires st.queries <= cfg.maxQueries && HasAllowed(cfg, cfg.roots)
    ensures Refers(cfg, st, m, NextCandidates(cfg, st, m, |st.hops|))
    decreases cfg.maxQueries - st.queries, 4
  {
    hide NameRuns, NsTargets, ReferralZone, GlueServers, GlueFor, HasAllowed, SupportServers, GlueTargets, NoUsableGlue;
    var names, zone := NsTargets(m.authority), ReferralZone(m.authority);
    if names == [] {
      NoNames(cfg, zone, m);
    } else {
      UsableGlue(cfg, m);
      GlueServersTargets(cfg, names, zone, m.additional);
      if NoUsableGlue(cfg, m) {
        SupportPath(cfg, st, names, zone, |st.hops|);
      }
    }
  }

  lemma NoNames(cfg: Config, zone: string, m: Message)
    ensures GlueTargets(cfg, [], zone, m.additional) == [] && (NsTargets(m.authority) == [] ==> !NoUsableGlue(cfg, m))
  {}

  lemma {:induction false} SupportPath(cfg: Config, st: State, names: seq<string>, zone: string, parentIndex: nat)
    requires st.queries <= cfg.maxQueries && HasAllowed(cfg, cfg.roots)
    ensures var r := SupportServers(cfg, st, names, zone, parentIndex);
            NameRuns(cfg, r.0.hops, |st.hops|, |r.0.hops|, parentIndex, names, zone, TargetsOf(r.1, Support))
    decreases cfg.maxQueries - st.queries, 3, |names|
  {
    hide ResolveNameServer, ServersFor, HasAllowed, NameRun, AllowedTargets, FirstRun;
    if names != [] {
      var (st1, ips) := ResolveNameServer(cfg, st, names[0], parentIndex, [A, AAAA]);
      var (st2, more) := SupportServers(cfg, st1, names[1..], zone, parentIndex);
      var mid := ResolvePath(cfg, st, names[0], parentIndex);
      SupportPath(cfg, st1, names[1..], zone, parentIndex);
      NameRunGrows(cfg, st1.hops, st2.hops, |st.hops|, mid, |st1.hops|, parentIndex, names[0], ips);
      ServersForTargets(cfg, names[0], zone, ips);
      var own, rest := TargetsOf(ServersFor(cfg, names[0], zone, ips), Support), TargetsOf(more, Support);
      assert TargetsOf(ServersFor(cfg, names[0], zone, ips) + more, Support) == own + rest;
      AddRun(cfg, st2.hops, |st.hops|, mid, |st1.hops|, |st2.hops|, parentIndex, names, zone, ips, rest);
    }
  }

  lemma AddRun(cfg: Config, hops: seq<Hop>, lo: nat, mid: nat, end: nat, hi: nat, parentIndex: nat, names: seq<string>,
               zone: string, ips: seq<string>, rest: seq<NextTarget>)
    requires lo <= mid <= end <= hi <= |hops| && names != []
    requires NameRun(cfg, hops, lo, mid, end, parentIndex, names[0], ips)
    requires NameRuns(cfg, hops, end, hi, parentIndex, names[1..], zone, rest)
    ensures NameRuns(cfg, hops, lo, hi, parentIndex, names, zone, AllowedTargets(cfg, names[0], zone, ips) + rest)
  {
    hide NameRun, AllowedTargets;
    assert FirstRun(cfg, hops, lo, mid, end, hi, parentIndex, names, zone, ips, rest);
  }

  lemma {:induction false} DataInAppend(sets: seq<RRset>, s: RRset, qtype: QType)
    ensures DataIn(sets + [s], qtype) == DataIn(sets, qtype) + DataIn([s], qtype)
  {
    if sets == [] {
      assert sets + [s] == [s];
    } else {
      assert (sets + [s])[1..] == sets[1..] + [s];
      DataInAppend(sets[1..], s, qtype);
    }
  }

  lemma {:induction false} DataIsIn(sets: seq<RRset>, qtype: QType)
    ensures DataOfType(sets, qtype) == DataIn(sets, qtype)
  {
    if sets != [] {
      var n := |sets| - 1;
      DataIsIn(sets[..n], qtype);
      DataInAppend(sets[..n], sets[n], qtype);
      assert sets[..n] + [sets[n]] == sets && [sets[n]][1..] == [];
    }
  }

  lemma {:induction false} GatheredAppend(hops: seq<Hop>, h: Hop, parentIndex: nat, name: string, qtype: QType)
    ensures Gathered(hops + [h], parentIndex, name, qtype)
            == Gathered(hops, parentIndex, name, qtype) + Gathered([h], parentIndex, name, qtype)
  {
    hide DataIn;
    if hops == [] {
      assert hops + [h] == [h];
    } else {
      assert (hops + [h])[1..] == hops[1..] + [h];
      GatheredAppend(hops[1..], h, parentIndex, name, qtype);
    }
  }

  /** The scan for addresses gathers the data of all the hops that answer. */
  lemma {:induction false} CollectedIsGathered(hops: seq<Hop>, parentIndex: nat, name: string, qtype: QType)
    ensures CollectIPs(hops, parentIndex, name, qtype) == Gathered(hops, parentIndex, name, qtype)
  {
    hide DataIn, DataOfType;
    if hops != [] {
      var n := |hops| - 1;
      CollectedIsGathered(hops[..n], parentIndex, name, qtype);
      GatheredAppend(hops[..n], hops[n], parentIndex, name, qtype);
      DataIsIn(hops[n].answer, qtype);
      assert hops[..n] + [hops[n]] == hops && [hops[n]][1..] == [];
    }
  }

  /** A support lookup succeeds exactly if it ends with an answer or NODATA; then it finds what the scan collects. */
  lemma LookupFinds(cfg: Config, st: State, name: string, parentIndex: nat, qtype: QType)
    requires st.queries <= cfg.maxQueries
    ensures var t := TraceName(cfg, st, SupportStart(cfg, name, qtype), Some(parentIndex));
            Found(t.st.hops, |st.hops|, |t.st.hops|, parentIndex, name, qtype)
            == if t.outcome.kind == Success then CollectIPs(t.st.hops, parentIndex, name, qtype) else []
  {
    hide TraceLoop, SupportStart, CollectIPs, Gathered;
    var start := SupportStart(cfg, name, qtype);
    var t := TraceName(cfg, st, start, Some(parentIndex));
    LoopSucceeds(cfg, st, start.purpose, Some(parentIndex), start, 0);
    CollectedIsGathered(t.st.hops, parentIndex, name, qtype);
    assert t.st.hops[..|t.st.hops|] == t.st.hops;
  }

  predicate EndsWell(hops: seq<Hop>, lo: nat) {
    lo < |hops| && hops[|hops| - 1].kind in {Answer, NoData}
  }

  lemma {:induction false} LoopSucceeds(cfg: Config, st: State, purpose: Purpose, parent: Option<nat>, cur: Cursor,
                                        depth: nat)
    requires st.queries <= cfg.maxQueries && depth <= cfg.maxDepth
    ensures var r := TraceLoop(cfg, st, purpose, parent, cur, depth);
            if r.st.hops == st.hops then r.outcome.kind != Success
            else |st.hops| < |r.st.hops| && (r.outcome.kind == Success <==> EndsWell(r.st.hops, |st.hops|))
    decreases cfg.maxDepth - depth
  {
    hide Query, NextMove;
    if depth < cfg.maxDepth && st.queries < cfg.maxQueries {
      var q := Query(cfg, st, cur, parent);
      MoveSucceeds(cfg, st, cur, parent, purpose);
      match NextMove(cfg, cur, purpose, q.ret)
      case Stop(_) =>
      case Go(cur') => LoopSucceeds(cfg, AppendHop(q.st, q.ret.hop), purpose, parent, cur', depth + 1);
    }
  }

  lemma MoveSucceeds(cfg: Config, st: State, cur: Cursor, parent: Option<nat>, purpose: Purpose)
    requires st.queries <= cfg.maxQueries
    ensures var q := Query(cfg, st, cur, parent);
            match NextMove(cfg, cur, purpose, q.ret)
            case Stop(o) => o.kind == Success <==> q.ret.hop.kind in {Answer, NoData}
            case Go(_) => q.ret.hop.kind in {Referral, Cname}
  {
    MoveAgrees(cfg, st, cur, parent, purpose);
    hide Query;
  }

  lemma ResolvePath(cfg: Config, st: State, name: string, parentIndex: nat) returns (mid: nat)
    requires st.queries <= cfg.maxQueries && HasAllowed(cfg, cfg.roots)
    ensures var r := ResolveNameServer(cfg, st, name, parentIndex, [A, AAAA]);
            && |st.hops| <= mid <= |r.0.hops|
            && NameRun(cfg, r.0.hops, |st.hops|, mid, |r.0.hops|, parentIndex, name, r.1)
    decreases cfg.maxQueries - st.queries, 2
  {
    hide TraceName, CollectIPs, Path, HasAllowed, SupportStart, Found, FirstSeen;
    var start := SupportStart(cfg, name, A);
    var t := TraceName(cfg, st, start, Some(parentIndex));
    mid := |t.st.hops|;
    assert [A, AAAA][1..] == [AAAA] && [AAAA][1..] == [];
    SupportStartsAtRoots(cfg, name, A);
    TracePath(cfg, st, start, Some(parentIndex));
    LookupFinds(cfg, st, name, parentIndex, A);
    if Found(t.st.hops, |st.hops|, mid, parentIndex, name, A) == [] {
      var t' := TraceName(cfg, t.st, SupportStart(cfg, name, AAAA), Some(parentIndex));
      SupportStartsAtRoots(cfg, name, AAAA);
      TracePath(cfg, t.st, SupportStart(cfg, name, AAAA), Some(parentIndex));
      LookupFinds(cfg, t.st, name, parentIndex, AAAA);
      PathGrows(cfg, t.st.hops, t'.st.hops, |st.hops|, mid, start, Some(parentIndex));
      FoundGrows(t.st.hops, t'.st.hops, |st.hops|, mid, parentIndex, name, A);
      NothingSeen();
      assert ResolveNameServer(cfg, t'.st, name, parentIndex, [AAAA][1..]) == (t'.st, []);
    }
  }

  /** A support lookup asks the roots for the nameserver, with a single dot behind its name. */
  lemma SupportQuestion(cfg: Config, stem: string, qtype: QType)
    requires stem == "" || stem[|stem| - 1] != '.'
    ensures SupportStart(cfg, stem, qtype) == Cursor(cfg.roots, stem + ".", qtype, SupportLookup, ".")
    ensures SupportStart(cfg, stem + ".", qtype) == SupportStart(cfg, stem, qtype)
  {
    assert (stem + ".")[..|stem|] == stem;
  }

  lemma SupportStartsAtRoots(cfg: Config, name: string, qtype: QType)
    ensures SupportStart(cfg, name, qtype).candidates == cfg.roots
  {}

  lemma NothingSeen()
    ensures FirstSeen<string>([]) == []
  {}

  lemma FoundGrows(hops: seq<Hop>, hops': seq<Hop>, lo: nat, hi: nat, parentIndex: nat, name: string, qtype: QType)
    requires hops <= hops' && hi <= |hops|
    ensures Found(hops', lo, hi, parentIndex, name, qtype) == Found(hops, lo, hi, parentIndex, name, qtype)
  {
    hide Gathered;
    assert hops'[..hi] == hops[..hi];
  }

  lemma {:induction false} TracePath(cfg: Config, st: State, start: Cursor, parent: Option<nat>)
    requires st.queries <= cfg.maxQueries && HasAllowed(cfg, cfg.roots) && HasAllowed(cfg, start.candidates)
    ensures var hops := TraceName(cfg, st, start, parent).st.hops;
            Path(cfg, hops, |st.hops|, |hops|, start, parent)
    decreases cfg.maxQueries - st.queries, 1, cfg.maxDepth + 1
  {
    hide HasAllowed;
    LoopPath(cfg, st, |st.hops|, start, parent, start, 0);
  }

  lemma {:induction false} LoopPath(cfg: Config, st: State, lo: nat, start: Cursor, parent: Option<nat>, cur: Cursor,
                                    depth: nat)
    requires st.queries <= cfg.maxQueries && depth <= cfg.maxDepth
    requires HasAllowed(cfg, cfg.roots) && HasAllowed(cfg, cur.candidates)
    requires Path(cfg, st.hops, lo, |st.hops|, start, parent)
    requires if |st.hops| == lo then cur == start else Continues(cfg, start.purpose, st.hops[|st.hops| - 1], cur)
    ensures var hops := TraceLoop(cfg, st, start.purpose, parent, cur, depth).st.hops;
            Path(cfg, hops, lo, |hops|, start, parent)
    decreases cfg.maxQueries - st.queries, 1, cfg.maxDepth - depth
  {
    hide Query, NextMove, Path, Continues, HasAllowed, Supported, Asks;
    if depth < cfg.maxDepth && st.queries < cfg.maxQueries {
      QueryPath(cfg, st, cur, parent);
      var q := Query(cfg, st, cur, parent);
      PathIsBounded(cfg, st.hops, lo, start, parent);
      AddHop(cfg, st.hops, q.st.hops, lo, start, parent, cur, q.ret.hop);
      QueryContinues(cfg, st, cur, parent, start.purpose);
      match NextMove(cfg, cur, start.purpose, q.ret)
      case Stop(_) =>
      case Go(cur') => LoopPath(cfg, AppendHop(q.st, q.ret.hop), lo, start, parent, cur', depth + 1);
    }
  }

  lemma PathIsBounded(cfg: Config, hops: seq<Hop>, lo: nat, start: Cursor, parent: Option<nat>)
    requires Path(cfg, hops, lo, |hops|, start, parent)
    ensures lo <= |hops|
  {}

  lemma QueryContinues(cfg: Config, st: State, cur: Cursor, parent: Option<nat>, purpose: Purpose)
    requires st.queries <= cfg.maxQueries && HasAllowed(cfg, cfg.roots)
    ensures var q := Query(cfg, st, cur, parent);
            var move := NextMove(cfg, cur, purpose, q.ret);
            move.Go? ==> Continues(cfg, purpose, q.ret.hop, move.cur) && HasAllowed(cfg, move.cur.candidates)
  {
    var a := QueryShape(cfg, st, cur, parent);
    MoveContinues(cfg, st, cur, parent, purpose, Query(cfg, st, cur, parent), a);
  }

  /** A hop appended after its own support lookups extends the path it belongs to. */
  lemma AddHop(cfg: Config, hops: seq<Hop>, mid: seq<Hop>, lo: nat, start: Cursor, parent: Option<nat>, cur: Cursor,
               h: Hop)
    requires Path(cfg, hops, lo, |hops|, start, parent) && hops <= mid
    requires h.index == |hops| && h.parent == parent && Asks(cur, h)
    requires Supported(cfg, mid, h, |mid|)
    requires if |hops| == lo then cur == start else Continues(cfg, start.purpose, hops[|hops| - 1], cur)
    ensures Path(cfg, mid + [h], lo, |mid| + 1, start, parent)
  {
    hide Linked, Asks, Continues, Supported;
    var hops' := mid + [h];
    PathGrows(cfg, hops, hops', lo, |hops|, start, parent);
    SupportedGrows(cfg, mid, hops', h, |mid|);
    if |hops| != lo {
      ContinuesLinks(cfg, start.purpose, hops[|hops| - 1], cur, h);
      assert hops'[|hops| - 1] == hops[|hops| - 1];
    }
  }

  /**
   * Every trace is a real path, at every level of nesting: with at least one allowed root, the whole hop list of a run
   * is one lookup for the requested name from the roots, with its support lookups nested inside it.
   */
  lemma TraceIsAPath(cfg: Config, domain: string, qtype: QType)
    requires HasAllowed(cfg, cfg.roots)
    ensures var hops := Trace(cfg, domain, qtype).st.hops;
            Path(cfg, hops, 0, |hops|, TopStart(cfg, domain, qtype), None)
  {
    TracePath(cfg, EMPTY_STATE, TopStart(cfg, domain, qtype), None);
  }
}
