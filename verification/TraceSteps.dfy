/** What the candidate loop of queryCandidates does to a run: it sends to a chain of fresh, allowed candidates. */
module TraceSteps {
  import opened Text
  import opened Dns
  import opened TraceSpec

  predicate Fresh(cfg: Config, st: State, cur: Cursor, server: Server) {
    && server in cur.candidates && cfg.allow(server.ip) && st.queries < cfg.maxQueries
    && VisitedKey(server.ip, cur.qname, cur.qtype, cur.purpose) !in st.visited
  }

  /** st' is st after sending to the given servers in turn, each allowed, within the budget and not asked before. */
  ghost predicate Sends(cfg: Config, cur: Cursor, st: State, servers: seq<Server>, st': State)
    decreases |servers|
  {
    if servers == [] then st' == st
    else Fresh(cfg, st, cur, servers[0]) && Sends(cfg, cur, Send(cfg, st, cur, servers[0]), servers[1..], st')
  }

  lemma {:induction false} SendsCounts(cfg: Config, cur: Cursor, st: State, servers: seq<Server>, st': State)
    requires Sends(cfg, cur, st, servers, st')
    ensures st'.hops == st.hops
    ensures st'.queries == st.queries + |servers| && |st'.log| == |st.log| + |servers|
    decreases |servers|
  {
    if servers != [] {
      SendsCounts(cfg, cur, Send(cfg, st, cur, servers[0]), servers[1..], st');
    }
  }

  /** A hop that the loop makes itself, without a response: about a candidate, at the current end of the list. */
  ghost predicate LocalHop(cfg: Config, st: State, cur: Cursor, parent: Option<nat>, hop: Hop) {
    exists server, code :: MadeFor(cfg, st, cur, parent, hop, server, code)
  }

  ghost predicate MadeFor(cfg: Config, st: State, cur: Cursor, parent: Option<nat>, hop: Hop, server: Server,
                          code: Code) {
    && server in cur.candidates && cfg.allow(server.ip) && !code.Rcode?
    && hop == ErrorHop(|st.hops|, parent, server, cur, code)
    && (code == LoopCode ==> VisitedKey(server.ip, cur.qname, cur.qtype, cur.purpose) in st.visited)
  }

  /** The log ends with the response that ended the loop. */
  ghost predicate Answered(st: State, cur: Cursor, server: Server, m: Message, transport: Transport) {
    && st.log != []
    && st.log[|st.log| - 1] == Sent(server, cur.qname, cur.qtype, cur.purpose, |st.hops|, Reply(m), transport)
  }

  lemma SendsPrepend(cfg: Config, cur: Cursor, st: State, server: Server, rest: seq<Server>, st': State)
    requires Fresh(cfg, st, cur, server) && Sends(cfg, cur, Send(cfg, st, cur, server), rest, st')
    ensures Sends(cfg, cur, st, [server] + rest, st')
  {}

  /** One iteration either leaves the run as it is or sends to one fresh candidate. */
  lemma TrySends(cfg: Config, cur: Cursor, parent: Option<nat>, a: Attempt)
    requires a.st.queries <= cfg.maxQueries && a.k < |cur.candidates|
    ensures var server, r := cur.candidates[a.k], Try(cfg, cur, parent, a);
            var st := if r.Done? then r.asked.st else r.attempt.st;
            && (st == a.st || (Fresh(cfg, a.st, cur, server) && st == Send(cfg, a.st, cur, server)))
            && (r.Done? && r.asked.Got? ==>
                  Fresh(cfg, a.st, cur, server) && st == Send(cfg, a.st, cur, server)
                  && r.asked.server == server && Answered(st, cur, server, r.asked.m, r.asked.transport))
  {}

  /** The loop sends to fresh, allowed candidates; a response is that of the last server it sent to. */
  lemma {:induction false} AskSends(cfg: Config, cur: Cursor, parent: Option<nat>, a: Attempt)
    returns (servers: seq<Server>)
    requires a.st.queries <= cfg.maxQueries && a.k <= |cur.candidates|
    ensures var r := Ask(cfg, cur, parent, a);
            && Sends(cfg, cur, a.st, servers, r.st)
            && (r.Got? ==>
                  servers != [] && r.server in cur.candidates && cfg.allow(r.server.ip)
                  && Answered(r.st, cur, r.server, r.m, r.transport))
    decreases |cur.candidates| - a.k
  {
    servers := [];
    if a.k < |cur.candidates| {
      var server := cur.candidates[a.k];
      TrySends(cfg, cur, parent, a);
      hide Try, Send;
      match Try(cfg, cur, parent, a)
      case Done(asked) =>
        if asked.st != a.st || asked.Got? {
          SendsPrepend(cfg, cur, a.st, server, [], asked.st);
          servers := [server] + [];
        }
      case Next(next) =>
        servers := AskSends(cfg, cur, parent, next);
        if next.st != a.st {
          SendsPrepend(cfg, cur, a.st, server, servers, Ask(cfg, cur, parent, a).st);
          servers := [server] + servers;
        }
    }
  }

  predicate AllBlocked(cfg: Config, cur: Cursor, k: nat) {
    forall i :: k <= i < |cur.candidates| ==> !cfg.allow(cur.candidates[i].ip)
  }

  /** The hop of an attempt or of a failed call, as far as it goes: made for a candidate, or blank. */
  ghost predicate HopSoFar(cfg: Config, cur: Cursor, parent: Option<nat>, st: State, hop: Hop) {
    hop == BLANK_HOP || LocalHop(cfg, st, cur, parent, hop)
  }

  lemma TryHop(cfg: Config, cur: Cursor, parent: Option<nat>, a: Attempt)
    requires a.st.queries <= cfg.maxQueries && a.k < |cur.candidates| && HopSoFar(cfg, cur, parent, a.st, a.lastHop)
    ensures match Try(cfg, cur, parent, a)
            case Done(Failed(st, hop, err)) =>
              st == a.st && err != NoErr && (hop == a.lastHop || LocalHop(cfg, st, cur, parent, hop))
            case Done(_) => true
            case Next(next) =>
              && next.lastErr != NoErr
              && (next == a.(k := a.k + 1, lastErr := ErrUnusable) || LocalHop(cfg, next.st, cur, parent, next.lastHop))
  {
    hide LocalHop, Send, VisitedKey, Exchange, ErrorHop;
    var server, st := cur.candidates[a.k], a.st;
    if st.queries < cfg.maxQueries && cfg.allow(server.ip) {
      MakesLocalHop(cfg, cur, parent, st, server, LoopCode);
      MakesLocalHop(cfg, cur, parent, st, server, TimeoutCode);
      MakesLocalHop(cfg, cur, parent, st, server, FailedCode);
    }
  }

  lemma MakesLocalHop(cfg: Config, cur: Cursor, parent: Option<nat>, st: State, server: Server, code: Code)
    requires server in cur.candidates && cfg.allow(server.ip) && !code.Rcode?
    ensures var hop := ErrorHop(|st.hops|, parent, server, cur, code);
            if code != LoopCode then LocalHop(cfg, Send(cfg, st, cur, server), cur, parent, hop)
            else (VisitedKey(server.ip, cur.qname, cur.qtype, cur.purpose) in st.visited ==>
                    LocalHop(cfg, st, cur, parent, hop))
  {
    var hop := ErrorHop(|st.hops|, parent, server, cur, code);
    if code != LoopCode {
      assert MadeFor(cfg, Send(cfg, st, cur, server), cur, parent, hop, server, code);
    } else if VisitedKey(server.ip, cur.qname, cur.qtype, cur.purpose) in st.visited {
      assert MadeFor(cfg, st, cur, parent, hop, server, code);
    }
  }

  lemma {:induction false} AskHop(cfg: Config, cur: Cursor, parent: Option<nat>, a: Attempt)
    requires a.st.queries <= cfg.maxQueries && a.k <= |cur.candidates| && HopSoFar(cfg, cur, parent, a.st, a.lastHop)
    ensures var r := Ask(cfg, cur, parent, a);
            r.Failed? ==>
              && r.err != NoErr
              && (LocalHop(cfg, r.st, cur, parent, r.hop)
                  || (r.hop == a.lastHop == BLANK_HOP && r.st == a.st
                      && (a.st.queries < cfg.maxQueries ==> AllBlocked(cfg, cur, a.k))))
    decreases |cur.candidates| - a.k
  {
    if a.k < |cur.candidates| {
      TryHop(cfg, cur, parent, a);
      if a.st.queries < cfg.maxQueries && cfg.allow(cur.candidates[a.k].ip) {
        TryBlocked(cfg, cur, parent, a);
      }
      hide LocalHop, Try;
      match Try(cfg, cur, parent, a)
      case Done(_) =>
      case Next(next) => AskHop(cfg, cur, parent, next);
    }
  }

  /** An allowed candidate with budget left changes the run or ends the loop with an error hop of its own. */
  lemma TryBlocked(cfg: Config, cur: Cursor, parent: Option<nat>, a: Attempt)
    requires a.st.queries < cfg.maxQueries && a.k < |cur.candidates| && cfg.allow(cur.candidates[a.k].ip)
    ensures match Try(cfg, cur, parent, a)
            case Done(Failed(_, hop, _)) => hop != BLANK_HOP
            case Done(_) => true
            case Next(next) => next.st != a.st && next.lastHop != BLANK_HOP
  {}

  /** A call of queryCandidates: whom it sent to, the run after that, and the response that ended the loop, if any. */
  datatype Asking = Asking(servers: seq<Server>, st: State, answer: Option<Response>)

  datatype Response = Response(server: Server, m: Message, transport: Transport)

  ghost predicate Shape(cfg: Config, st: State, cur: Cursor, parent: Option<nat>, q: Queried, a: Asking) {
    && Sends(cfg, cur, st, a.servers, a.st) && Grows(cfg, st, a.st) && a.st.hops == st.hops
    && match a.answer
       case None =>
         && q.st == a.st && !q.ret.responded && q.ret.err != NoErr
         && (LocalHop(cfg, a.st, cur, parent, q.ret.hop)
               || (q.ret.hop == BLANK_HOP && a.st == st && (st.queries < cfg.maxQueries ==> AllBlocked(cfg, cur, 0))))
       case Some(r) =>
         var hop := ResponseHop(|a.st.hops|, parent, r.server, cur, r.m, r.transport);
         && a.servers != [] && r.server in cur.candidates && cfg.allow(r.server.ip)
         && st.queries < a.st.queries && Answered(a.st, cur, r.server, r.m, r.transport)
         && if IsTerminal(r.m, cur) then q == Queried(a.st, Terminal(hop, r.m, cur))
            else
              var next := NextCandidates(cfg, a.st, r.m, |a.st.hops|);
              q == Queried(next.st, Referred(hop, next.servers, next.targets))
  }

  /** Deciding the kind of a response changes nothing else that it reports. */
  lemma TerminalKeeps(hop: Hop, m: Message, cur: Cursor)
    requires IsTerminal(m, cur)
    ensures Terminal(hop, m, cur).hop == hop.(kind := Terminal(hop, m, cur).hop.kind)
  {}

  /** The hop of a response is the one made from it, up to its kind and next targets. */
  lemma AnsweredHop(cfg: Config, st: State, cur: Cursor, parent: Option<nat>, q: Queried, a: Asking)
    requires Shape(cfg, st, cur, parent, q, a) && a.answer.Some?
    ensures q.ret.hop
            == ResponseHop(|a.st.hops|, parent, a.answer.value.server, cur, a.answer.value.m, a.answer.value.transport)
                         .(kind := q.ret.hop.kind, targets := q.ret.hop.targets)
  {
    hide Sends, ResponseHop, NextCandidates, IsTerminal, Terminal;
    var r := a.answer.value;
    if IsTerminal(r.m, cur) {
      TerminalKeeps(ResponseHop(|a.st.hops|, parent, r.server, cur, r.m, r.transport), r.m, cur);
    }
  }

  lemma QueryShape(cfg: Config, st: State, cur: Cursor, parent: Option<nat>) returns (a: Asking)
    requires st.queries <= cfg.maxQueries
    ensures Shape(cfg, st, cur, parent, Query(cfg, st, cur, parent), a)
  {
    var servers := AskSends(cfg, cur, parent, FirstAttempt(st));
    AskHop(cfg, cur, parent, FirstAttempt(st));
    var r := Ask(cfg, cur, parent, FirstAttempt(st));
    hide Ask, ResponseHop, Send, NextCandidates, LocalHop, Terminal, Referred, IsTerminal;
    SendsCounts(cfg, cur, st, servers, r.st);
    a := Asking(servers, r.st, if r.Got? then Some(Response(r.server, r.m, r.transport)) else None);
  }

  /** The loop goes on only with the roots or with the servers of the referral it just received. */
  lemma MoveCandidates(cfg: Config, cur: Cursor, purpose: Purpose, ret: Returned)
    ensures var move := NextMove(cfg, cur, purpose, ret);
            move.Go? ==> move.cur.candidates == cfg.roots || move.cur.candidates == ret.next
  {}
}
