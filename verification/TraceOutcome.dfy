/** The outcome of a run agrees with its evidence, the hop list and the exchanges. */
module TraceOutcome {
  import opened Text
  import opened Dns
  import opened Rrsets
  import opened TraceSpec
  import opened TraceSteps
  import opened TraceCalls

  predicate GoesOn(h: Hop) {
    (h.kind == Referral || h.kind == Cname) && h.code == Rcode(NOERROR)
  }

  /** The outcome kind of a hop that reports a response code. */
  function ReportedKind(kind: HopKind, n: nat): OutcomeKind {
    if kind == Answer || kind == NoData then Success
    else if kind == Referral || kind == Cname then MaxDepthExceeded
    else if n == NOERROR then UnusableReferral
    else if n == NXDOMAIN then Nxdomain
    else if n == REFUSED then Refused
    else if n == NOTIMP then NotImplemented
    else Servfail
  }

  /**
   * The outcome is one that the terminal hop calls for, with its code. A response code and the hop's kind determine it.
   * So does LOOP; for the other codes of the engine's own it also depends on how the call that made the hop ended.
   */
  predicate Agrees(o: Outcome, h: Hop) {
    && o.terminalHopIndex == h.index
    && (if o.kind == MaxDepthExceeded then o.code in {MaxDepthCode, BudgetCode} else o.code == h.code)
    && (o.kind == Success <==> h.kind == Answer || h.kind == NoData)
    && (o.kind == Nxdomain <==> h.code == Rcode(NXDOMAIN))
    && (o.kind == Refused <==> h.code == Rcode(REFUSED))
    && (o.kind == NotImplemented <==> h.code == Rcode(NOTIMP))
    && (o.kind == LoopDetected <==> h.code == LoopCode)
    && match h.code
       case Rcode(n) => o.kind == ReportedKind(h.kind, n)
       case TimeoutCode => o.kind in {TimedOut, UnusableReferral, MaxDepthExceeded}
       case FailedCode => o.kind in {Servfail, UnusableReferral, MaxDepthExceeded}
       case NoCode => o.kind in {UnusableReferral, MaxDepthExceeded}
       case LoopCode => true
       case _ => false
  }

  predicate MoveIsRight(cfg: Config, cur: Cursor, purpose: Purpose, ret: Returned) {
    && (ret.err == NoErr && ret.responded ==>
          ret.hop.kind in {Answer, NoData, Cname, Referral} && (ret.hop.kind == Referral ==> ret.next != []))
    && match NextMove(cfg, cur, purpose, ret)
       case Stop(o) => Agrees(o, ret.hop)
       case Go(_) => GoesOn(ret.hop)
  }

  const SILENT: set<Code> := {LoopCode, TimeoutCode, FailedCode, NoCode}

  /** The errors of a call without a response, and the codes of its hop. */
  lemma SilentErrors(cfg: Config, st: State, cur: Cursor, parent: Option<nat>)
    requires st.queries <= cfg.maxQueries
    ensures var r := Ask(cfg, cur, parent, FirstAttempt(st));
            r.Failed? ==>
              && r.hop.code in SILENT && (r.err == ErrLoop <==> r.hop.code == LoopCode)
              && (r.err == ErrTimeout ==> r.hop.code == TimeoutCode) && (r.err == ErrOther ==> r.hop.code == FailedCode)
  {
    FirstTracks(cfg, st, cur);
    var f := CallEnds(cfg, st, cur, parent, FirstAttempt(st));
    CodesSoFar(cfg, st, cur, f);
    hide Ask, FateOf, Logged, CodeSoFar;
  }

  lemma {:induction false} CodesSoFar(cfg: Config, st: State, cur: Cursor, k: nat)
    requires k <= |cur.candidates|
    ensures CodeSoFar(cfg, st, cur, k) in {TimeoutCode, FailedCode, NoCode}
    ensures ErrSoFar(cfg, st, cur, k) !in {ErrLoop, ErrMaxDepth}
    ensures ErrSoFar(cfg, st, cur, k) == ErrTimeout ==> CodeSoFar(cfg, st, cur, k) == TimeoutCode
    ensures ErrSoFar(cfg, st, cur, k) == ErrOther ==> CodeSoFar(cfg, st, cur, k) == FailedCode
  {
    hide FateOf;
    if k > 0 {
      CodesSoFar(cfg, st, cur, k - 1);
    }
  }

  lemma NoAnswerIsRight(cfg: Config, cur: Cursor, purpose: Purpose, ret: Returned)
    requires !ret.responded && ret.err != NoErr && ret.hop.code in SILENT && ret.hop.kind in {Error, NoKind}
    requires ret.err == ErrLoop <==> ret.hop.code == LoopCode
    requires (ret.err == ErrTimeout ==> ret.hop.code == TimeoutCode)
             && (ret.err == ErrOther ==> ret.hop.code == FailedCode)
    ensures MoveIsRight(cfg, cur, purpose, ret)
  {}

  lemma TerminalIsRight(cfg: Config, cur: Cursor, purpose: Purpose, hop: Hop, m: Message)
    requires IsTerminal(m, cur) && hop.code == Rcode(m.rcode)
    ensures MoveIsRight(cfg, cur, purpose, Terminal(hop, m, cur))
  {
    hide HasType, FirstCNAME, IsNODATA;
  }

  lemma ReferredIsRight(cfg: Config, cur: Cursor, purpose: Purpose, hop: Hop, servers: seq<Server>,
                        targets: seq<NextTarget>)
    requires hop.code == Rcode(NOERROR)
    ensures MoveIsRight(cfg, cur, purpose, Referred(hop, servers, targets))
  {}

  lemma LocalHopCode(cfg: Config, st: State, cur: Cursor, parent: Option<nat>, hop: Hop)
    requires LocalHop(cfg, st, cur, parent, hop)
    ensures !hop.code.Rcode? && hop.kind == Error
  {}

  lemma NotTerminal(m: Message, cur: Cursor)
    requires !IsTerminal(m, cur)
    ensures m.rcode == NOERROR
  {}

  /**
   * One query of traceName: it stops with an outcome that agrees with the hop, or goes on from a NOERROR referral or
   * CNAME hop. In particular the success and unusable_referral fallbacks for other kinds of hop are never taken.
   */
  lemma MoveAgrees(cfg: Config, st: State, cur: Cursor, parent: Option<nat>, purpose: Purpose)
    requires st.queries <= cfg.maxQueries
    ensures MoveIsRight(cfg, cur, purpose, Query(cfg, st, cur, parent).ret)
  {
    var q := Query(cfg, st, cur, parent);
    var a := QueryShape(cfg, st, cur, parent);
    hide Query, Sends, AllBlocked, LocalHop, MoveIsRight, Terminal, Referred, IsTerminal, NextCandidates;
    match a.answer
    case None =>
      SilentErrors(cfg, st, cur, parent);
      QueryIsAsk(cfg, st, cur, parent);
      hide Ask;
      if q.ret.hop != BLANK_HOP {
        LocalHopCode(cfg, a.st, cur, parent, q.ret.hop);
      }
      NoAnswerIsRight(cfg, cur, purpose, q.ret);
    case Some(r) =>
      var hop := ResponseHop(|a.st.hops|, parent, r.server, cur, r.m, r.transport);
      if IsTerminal(r.m, cur) {
        TerminalIsRight(cfg, cur, purpose, hop, r.m);
      } else {
        NotTerminal(r.m, cur);
        var next := NextCandidates(cfg, a.st, r.m, |a.st.hops|);
        ReferredIsRight(cfg, cur, purpose, hop, next.servers, next.targets);
      }
  }

  lemma QueryIsAsk(cfg: Config, st: State, cur: Cursor, parent: Option<nat>)
    requires st.queries <= cfg.maxQueries
    ensures var r, q := Ask(cfg, cur, parent, FirstAttempt(st)), Query(cfg, st, cur, parent);
            !q.ret.responded ==> r.Failed? && q.ret.hop == r.hop && q.ret.err == r.err
  {
    hide Ask, ResponseHop, NextCandidates, IsTerminal, HasType, FirstCNAME, IsNODATA;
  }

  lemma EarlyEndAgrees(h: Hop)
    requires GoesOn(h)
    ensures Agrees(Outcome(MaxDepthExceeded, MaxDepthCode, h.index), h)
    ensures Agrees(Outcome(MaxDepthExceeded, BudgetCode, h.index), h)
  {}

  lemma {:induction false} LoopOutcome(cfg: Config, st: State, purpose: Purpose, parent: Option<nat>, cur: Cursor,
                                       depth: nat)
    requires st.queries <= cfg.maxQueries && depth <= cfg.maxDepth
    requires st.hops != [] || (depth < cfg.maxDepth && st.queries < cfg.maxQueries)
    requires st.hops != [] ==> GoesOn(st.hops[|st.hops| - 1])
    ensures var r := TraceLoop(cfg, st, purpose, parent, cur, depth);
            r.st.hops != [] && Agrees(r.outcome, r.st.hops[|r.st.hops| - 1])
    decreases cfg.maxDepth - depth
  {
    hide Query, NextMove, Agrees, GoesOn;
    if depth == cfg.maxDepth || st.queries >= cfg.maxQueries {
      EarlyEndAgrees(st.hops[|st.hops| - 1]);
    } else {
      var q := Query(cfg, st, cur, parent);
      MoveAgrees(cfg, st, cur, parent, purpose);
      var st' := AppendHop(q.st, q.ret.hop);
      LastOfAppend(q.st, q.ret.hop);
      hide AppendHop;
      match NextMove(cfg, cur, purpose, q.ret)
      case Stop(_) =>
      case Go(cur') => LoopOutcome(cfg, st', purpose, parent, cur', depth + 1);
    }
  }

  lemma LastOfAppend(st: State, h: Hop)
    ensures var st' := AppendHop(st, h); st'.hops != [] && st'.hops[|st'.hops| - 1] == h && st'.queries == st.queries
  {}

  /**
   * The outcome of a run agrees with its last hop, for any responder and with support lookups anywhere in between:
   * success exactly on an answer or NODATA hop, nxdomain, refused and not_implemented exactly on that response code,
   * loop_detected exactly on a LOOP hop; and TerminalHopIndex is the last hop's Index.
   */
  lemma OutcomeAgreesWithEvidence(cfg: Config, domain: string, qtype: QType)
    requires cfg.maxDepth > 0 && cfg.maxQueries > 0
    ensures var r := Trace(cfg, domain, qtype);
            r.st.hops != [] && Agrees(r.outcome, r.st.hops[|r.st.hops| - 1])
  {
    hide Agrees, TraceLoop, Query;
    LoopOutcome(cfg, EMPTY_STATE, Delegation, None, TopStart(cfg, domain, qtype), 0);
  }

  /** One iteration passes the candidate over or uses it, and the log tells which. */
  lemma TryLogs(cfg: Config, cur: Cursor, parent: Option<nat>, a: Attempt)
    requires a.st.queries <= cfg.maxQueries && a.k < |cur.candidates|
    ensures var server := cur.candidates[a.k];
            match Try(cfg, cur, parent, a)
            case Done(Failed(st, _, _)) => st == a.st
            case Done(Got(st, s, m, _)) =>
              s == server && |st.log| == |a.st.log| + 1 && st.log[|a.st.log|].server == s
                  && st.log[|a.st.log|].reply == Reply(m)
            case Next(next) =>
              if cfg.allow(server.ip) then
                && |next.st.log| == |a.st.log| + 1 && next.st.log[|a.st.log|].server == server
                && next.timeouts == a.timeouts + (if next.lastErr == ErrTimeout then 1 else 0)
                && next.st.log[|a.st.log|].reply == (if next.lastErr == ErrTimeout then Deadline else Broken)
              else next.st == a.st && next.timeouts == a.timeouts && next.lastErr == ErrUnusable
  {}

  /** Candidate j was passed over: the policy blocked it, or it was asked in this call and gave no message. */
  ghost predicate PassedOver(cfg: Config, cur: Cursor, log: seq<Sent>, from: nat, j: nat)
    requires j < |cur.candidates|
  {
    || !cfg.allow(cur.candidates[j].ip)
    || exists i :: from <= i < |log| - 1 && log[i].server == cur.candidates[j] && !log[i].reply.Reply?
  }

  /** The candidates from k up to first were passed over, the log ends with the answer of first and has no other one. */
  ghost predicate FirstAnswers(cfg: Config, cur: Cursor, log: seq<Sent>, from: nat, k: nat, first: nat, m: Message)
    requires first < |cur.candidates|
  {
    && k <= first && from < |log|
    && log[|log| - 1].server == cur.candidates[first] && log[|log| - 1].reply == Reply(m)
    && (forall j :: k <= j < first ==> PassedOver(cfg, cur, log, from, j))
    && (forall i :: from <= i < |log| - 1 ==> !log[i].reply.Reply?)
  }

  lemma FirstAnswersLater(cfg: Config, cur: Cursor, log: seq<Sent>, from: nat, from': nat, k: nat, first: nat,
                          m: Message)
    requires first < |cur.candidates| && FirstAnswers(cfg, cur, log, from', k + 1, first, m) && from <= from' < |log|
    requires if from == from' then !cfg.allow(cur.candidates[k].ip)
             else from' == from + 1 && log[from].server == cur.candidates[k] && !log[from].reply.Reply?
    ensures FirstAnswers(cfg, cur, log, from, k, first, m)
  {
    forall j | k <= j < first ensures PassedOver(cfg, cur, log, from, j) {
      if k < j {
        assert PassedOver(cfg, cur, log, from', j);
      }
    }
  }

  lemma {:induction false} AskFirst(cfg: Config, cur: Cursor, parent: Option<nat>, a: Attempt) returns (first: nat)
    requires a.st.queries <= cfg.maxQueries && a.k <= |cur.candidates| && Ask(cfg, cur, parent, a).Got?
    ensures var r := Ask(cfg, cur, parent, a);
            && first < |cur.candidates| && cur.candidates[first] == r.server
            && FirstAnswers(cfg, cur, r.st.log, |a.st.log|, a.k, first, r.m)
    decreases |cur.candidates| - a.k
  {
    TryLogs(cfg, cur, parent, a);
    hide Try;
    match Try(cfg, cur, parent, a)
    case Done(_) => first := a.k;
    case Next(next) =>
      first := AskFirst(cfg, cur, parent, next);
      var r := Ask(cfg, cur, parent, a);
      FirstAnswersLog(cfg, cur, r.st.log, |next.st.log|, next.k, first, r.m);
      hide Ask, FirstAnswers;
      assert next.st.log <= r.st.log;
      FirstAnswersLater(cfg, cur, r.st.log, |a.st.log|, |next.st.log|, a.k, first, r.m);
  }

  lemma FirstAnswersLog(cfg: Config, cur: Cursor, log: seq<Sent>, from: nat, k: nat, first: nat, m: Message)
    requires first < |cur.candidates| && FirstAnswers(cfg, cur, log, from, k, first, m)
    ensures from < |log|
  {}

  /** The hop reports the response of that server, and its role goes by that server's zone. */
  predicate ReportsAnswer(h: Hop, s: Server, m: Message)
    requires h.qtype in {A, AAAA, NS}
  {
    && h.code == Rcode(m.rcode) && h.answer == RrsetsOf(AnswerSection, m.answer)
    && h.serverName == s.name && h.serverIP == s.ip
    && h.role == ClassifyRole(s.zone, h.purpose, m, h.qname, h.qtype)
  }

  lemma QueryUsesGot(cfg: Config, st: State, cur: Cursor, parent: Option<nat>)
    requires st.queries <= cfg.maxQueries && Query(cfg, st, cur, parent).ret.responded
    ensures var q, r := Query(cfg, st, cur, parent), Ask(cfg, cur, parent, FirstAttempt(st));
            && r.Got? && r.st.log <= q.st.log && q.ret.hop.qtype == cur.qtype
            && ReportsAnswer(q.ret.hop, r.server, r.m)
  {
    var r := Ask(cfg, cur, parent, FirstAttempt(st));
    if r.Got? && IsTerminal(r.m, cur) {
      TerminalKeeps(ResponseHop(|r.st.hops|, parent, r.server, cur, r.m, r.transport), r.m, cur);
    }
    hide Ask, NextCandidates, IsTerminal, Terminal, RrsetsOf, ClassifyRole;
  }

  /**
   * A response that is used is the response of the first candidate that answered at all: every candidate before it was
   * blocked by the policy or was asked without getting a message back.
   */
  lemma FirstAnswerIsUsed(cfg: Config, st: State, cur: Cursor, parent: Option<nat>)
    returns (first: nat, last: nat, m: Message)
    requires st.queries <= cfg.maxQueries && Query(cfg, st, cur, parent).ret.responded
    ensures var q := Query(cfg, st, cur, parent);
            && first < |cur.candidates| && last < |q.st.log|
            && FirstAnswers(cfg, cur, q.st.log[..last + 1], |st.log|, 0, first, m)
            && q.ret.hop.qtype == cur.qtype && ReportsAnswer(q.ret.hop, cur.candidates[first], m)
  {
    QueryUsesGot(cfg, st, cur, parent);
    hide Query, Ask, ReportsAnswer;
    var q, r := Query(cfg, st, cur, parent), Ask(cfg, cur, parent, FirstAttempt(st));
    first := AskFirst(cfg, cur, parent, FirstAttempt(st));
    last, m := |r.st.log| - 1, r.m;
    assert q.st.log[..last + 1] == r.st.log;
  }

  // ---- The exact condition of every outcome ----

  /** After a call that gets no response the outcome is decided by the fate of the candidate at which the call ended. */
  ghost predicate SilentKind(cfg: Config, st: State, cur: Cursor, kind: OutcomeKind) {
    && (kind == TimedOut <==> Exhausts(cfg, st, cur) && LastIs(cfg, st, cur, Late))
    && (kind == Servfail <==> Exhausts(cfg, st, cur) && LastIs(cfg, st, cur, Lost))
    && (kind == UnusableReferral <==> Exhausts(cfg, st, cur) && (cur.candidates == [] || LastIs(cfg, st, cur, Blocked)))
    && (kind == MaxDepthExceeded <==> StopsFor(cfg, st, cur, OutOfBudget))
    && (kind == LoopDetected <==> StopsFor(cfg, st, cur, Repeated))
  }

  /** The outcome is the right one after a call, whether or not it got a response. */
  ghost predicate Decided(cfg: Config, st: State, cur: Cursor, ret: Returned, o: Outcome) {
    && (ret.responded <==> StopsFor(cfg, st, cur, Answered))
    && if ret.responded then ret.hop.code.Rcode? && o.kind == ReportedKind(ret.hop.kind, ret.hop.code.n)
       else SilentKind(cfg, st, cur, o.kind) && (o.kind == MaxDepthExceeded ==> o.code == MaxDepthCode)
  }

  function SilentOutcome(err: Err): OutcomeKind {
    match err
    case ErrTimeout => TimedOut
    case ErrLoop => LoopDetected
    case ErrMaxDepth => MaxDepthExceeded
    case ErrUnusable => UnusableReferral
    case _ => Servfail
  }

  /** Where a call ends tells for which fate it stopped, if any. */
  lemma EndTells(cfg: Config, st: State, cur: Cursor, f: nat)
    requires EndsAt(cfg, st, cur, f)
    ensures Exhausts(cfg, st, cur) <==> f == |cur.candidates|
    ensures forall fate :: StopsFor(cfg, st, cur, fate) <==> f < |cur.candidates| && FateOf(cfg, st, cur, f) == fate
  {
    hide FateOf;
    forall fate | StopsFor(cfg, st, cur, fate) ensures f < |cur.candidates| && FateOf(cfg, st, cur, f) == fate {
      var g: nat :| g < |cur.candidates| && AllGoBy(cfg, st, cur, g) && FateOf(cfg, st, cur, g) == fate;
      EndIsUnique(cfg, st, cur, f, g);
    }
  }

  lemma FailureIsDecided(cfg: Config, st: State, cur: Cursor, parent: Option<nat>)
    requires st.queries <= cfg.maxQueries
    ensures var r := Ask(cfg, cur, parent, FirstAttempt(st));
            && (r.Got? <==> StopsFor(cfg, st, cur, Answered))
            && (r.Failed? ==> SilentKind(cfg, st, cur, SilentOutcome(r.err)))
  {
    hide Ask, FateOf, Logged, CodeSoFar, StopsFor, Exhausts, AllGoBy, Tracks, SilentKind, EndsAt, Comes;
    FirstTracks(cfg, st, cur);
    var f := CallEnds(cfg, st, cur, parent, FirstAttempt(st));
    EndDecides(cfg, st, cur, f, Ask(cfg, cur, parent, FirstAttempt(st)));
  }

  lemma EndDecides(cfg: Config, st: State, cur: Cursor, f: nat, r: Asked)
    requires EndsAt(cfg, st, cur, f) && Comes(cfg, st, cur, f, r)
    ensures r.Got? <==> StopsFor(cfg, st, cur, Answered)
    ensures r.Failed? ==> SilentKind(cfg, st, cur, SilentOutcome(r.err))
  {
    hide FateOf, Logged, CodeSoFar, StopsFor, Exhausts;
    EndTells(cfg, st, cur, f);
    if f > 0 {
      assert GoesBy(FateOf(cfg, st, cur, f - 1));
    }
    hide AllGoBy;
  }

  /**
   * What one query of traceName comes to, decided by the policy, the network and the run so far. Without a response:
   * timeout, servfail or unusable_referral exactly when the loop ran through all candidates and the last was late, lost
   * or blocked (or there was none), max_depth exactly when the query budget ran out in between, and loop_detected
   * exactly when a candidate repeated an earlier lookup. With a response: what its code and the hop's kind say.
   */
  lemma QueryIsDecided(cfg: Config, st: State, cur: Cursor, parent: Option<nat>, purpose: Purpose)
    requires st.queries <= cfg.maxQueries
    ensures var ret := Query(cfg, st, cur, parent).ret;
            match NextMove(cfg, cur, purpose, ret)
            case Stop(o) => Decided(cfg, st, cur, ret, o)
            case Go(_) => GoesOn(ret.hop) && ret.responded && StopsFor(cfg, st, cur, Answered)
  {
    hide Query, Ask, SilentKind, StopsFor;
    FailureIsDecided(cfg, st, cur, parent);
    MoveAgrees(cfg, st, cur, parent, purpose);
    AskReturns(cfg, st, cur, parent);
    RespondedReports(cfg, st, cur, parent);
  }

  lemma RespondedReports(cfg: Config, st: State, cur: Cursor, parent: Option<nat>)
    requires st.queries <= cfg.maxQueries
    ensures var ret := Query(cfg, st, cur, parent).ret;
            && (ret.responded <==> Ask(cfg, cur, parent, FirstAttempt(st)).Got?)
            && (ret.responded ==> ret.hop.code.Rcode? && ret.err != ErrMaxDepth)
            && (!ret.responded ==> ret.hop.code in SILENT && ret.err != NoErr)
  {
    SilentErrors(cfg, st, cur, parent);
    AskReturns(cfg, st, cur, parent);
    FailureHasError(cfg, st, cur, parent);
    hide Query, Ask;
  }

  /** What Query makes of the two ways in which Ask ends. */
  lemma AskReturns(cfg: Config, st: State, cur: Cursor, parent: Option<nat>)
    requires st.queries <= cfg.maxQueries
    ensures var ret := Query(cfg, st, cur, parent).ret;
            match Ask(cfg, cur, parent, FirstAttempt(st))
            case Got(_, _, m, _) => ret.responded && ret.hop.code == Rcode(m.rcode) && ret.err != ErrMaxDepth
            case Failed(_, hop, err) => !ret.responded && ret.hop == hop && ret.err == err
  {
    hide Ask, NextCandidates, HasType, FirstCNAME, IsNODATA, RrsetsOf, ClassifyRole;
  }

  lemma FailureHasError(cfg: Config, st: State, cur: Cursor, parent: Option<nat>)
    requires st.queries <= cfg.maxQueries
    ensures var r := Ask(cfg, cur, parent, FirstAttempt(st)); r.Failed? ==> r.err != NoErr
  {
    AskHop(cfg, cur, parent, FirstAttempt(st));
    hide Ask, LocalHop;
  }

  // ---- The turns of a lookup ----

  /** Where traceName stands at the top of a turn of its loop. */
  datatype Turn = Turn(st: State, cur: Cursor)

  /** Turn n of a lookup with the given first turn, if the lookup comes to it. */
  function TurnAt(cfg: Config, first: Turn, parent: Option<nat>, n: nat): (r: Option<Turn>)
    requires first.st.queries <= cfg.maxQueries
    ensures r.Some? ==> r.value.st.queries <= cfg.maxQueries
  {
    if n == 0 then Some(first)
    else
      match TurnAt(cfg, first, parent, n - 1)
      case None => None
      case Some(t) =>
        if t.st.queries == cfg.maxQueries then None
        else
          var q := Query(cfg, t.st, t.cur, parent);
          match NextMove(cfg, t.cur, first.cur.purpose, q.ret)
          case Stop(_) => None
          case Go(cur) => Some(Turn(AppendHop(q.st, q.ret.hop), cur))
  }

  /** The run ended with the call for cur in state st. */
  ghost predicate EndedBy(cfg: Config, st: State, cur: Cursor, parent: Option<nat>, r: Traced) {
    && st.queries < cfg.maxQueries
    && var q := Query(cfg, st, cur, parent);
       r.st == AppendHop(q.st, q.ret.hop) && Decided(cfg, st, cur, q.ret, r.outcome)
  }

  /** The run ended between two calls, after a referral or CNAME hop, because depth or budget was used up. */
  predicate CutShort(cfg: Config, r: Traced) {
    && r.st.hops != [] && GoesOn(r.st.hops[|r.st.hops| - 1]) && r.outcome.kind == MaxDepthExceeded
    && (r.outcome.code == MaxDepthCode || (r.outcome.code == BudgetCode && r.st.queries == cfg.maxQueries))
  }

  /**
   * Turn n, which is t, is the last one of a lookup that comes to r. Either its call ends the lookup, or the lookup
   * would go on but has made all its turns, or else has no query left.
   */
  ghost predicate LastTurn(cfg: Config, first: Turn, parent: Option<nat>, n: nat, t: Turn, r: Traced)
    requires first.st.queries <= cfg.maxQueries
  {
    && n < cfg.maxDepth && TurnAt(cfg, first, parent, n) == Some(t) && t.st.queries < cfg.maxQueries
    && var q := Query(cfg, t.st, t.cur, parent);
       && r.st == AppendHop(q.st, q.ret.hop)
       && match NextMove(cfg, t.cur, first.cur.purpose, q.ret)
          case Stop(o) => r.outcome == o && Decided(cfg, t.st, t.cur, q.ret, o)
          case Go(_) =>
            && GoesOn(q.ret.hop) && q.ret.responded && StopsFor(cfg, t.st, t.cur, Answered)
            && r.outcome.kind == MaxDepthExceeded
            && if n + 1 == cfg.maxDepth then r.outcome.code == MaxDepthCode
               else r.outcome.code == BudgetCode && r.st.queries == cfg.maxQueries
  }

  lemma {:induction false} LoopEnds(cfg: Config, first: Turn, parent: Option<nat>, t: Turn, depth: nat)
    returns (n: nat, last: Turn)
    requires first.st.queries <= cfg.maxQueries && TurnAt(cfg, first, parent, depth) == Some(t)
    requires depth < cfg.maxDepth && t.st.queries < cfg.maxQueries
    ensures LastTurn(cfg, first, parent, n, last, TraceLoop(cfg, t.st, first.cur.purpose, parent, t.cur, depth))
    decreases cfg.maxDepth - depth
  {
    hide Query, NextMove, Decided, GoesOn, StopsFor;
    n, last := depth, t;
    var q := Query(cfg, t.st, t.cur, parent);
    QueryIsDecided(cfg, t.st, t.cur, parent, first.cur.purpose);
    match NextMove(cfg, t.cur, first.cur.purpose, q.ret)
    case Stop(_) =>
    case Go(cur) =>
      var next := Turn(AppendHop(q.st, q.ret.hop), cur);
      assert TurnAt(cfg, first, parent, depth + 1) == Some(next);
      if depth + 1 < cfg.maxDepth && next.st.queries < cfg.maxQueries {
        n, last := LoopEnds(cfg, first, parent, next, depth + 1);
      }
  }

  function FirstTurn(cfg: Config, domain: string, qtype: QType): Turn {
    Turn(EMPTY_STATE, TopStart(cfg, domain, qtype))
  }

  /**
   * Every run has a last turn, which it reaches from its first one. It is cut short there, or its outcome is decided by
   * the call it makes there: for each kind of outcome the exact condition on the policy and the network is that of
   * QueryIsDecided, in the state of that turn.
   */
  lemma RunIsDecided(cfg: Config, domain: string, qtype: QType) returns (n: nat, last: Turn)
    requires cfg.maxDepth > 0 && cfg.maxQueries > 0
    ensures LastTurn(cfg, FirstTurn(cfg, domain, qtype), None, n, last, Trace(cfg, domain, qtype))
    ensures CutShort(cfg, Trace(cfg, domain, qtype))
            || EndedBy(cfg, last.st, last.cur, None, Trace(cfg, domain, qtype))
  {
    var first, r := FirstTurn(cfg, domain, qtype), Trace(cfg, domain, qtype);
    assert r == TraceLoop(cfg, EMPTY_STATE, first.cur.purpose, None, first.cur, 0);
    hide TraceLoop, LastTurn, Trace;
    n, last := LoopEnds(cfg, first, None, first, 0);
    LastTurnEnds(cfg, first, None, n, last, r);
  }

  lemma LastTurnEnds(cfg: Config, first: Turn, parent: Option<nat>, n: nat, t: Turn, r: Traced)
    requires first.st.queries <= cfg.maxQueries && LastTurn(cfg, first, parent, n, t, r)
    ensures CutShort(cfg, r) || EndedBy(cfg, t.st, t.cur, parent, r)
  {
    hide Query, NextMove, Decided, GoesOn, TurnAt, StopsFor;
  }

  /**
   * Outside support lookups and aliases that are found, the role final marks exactly the hops on which a lookup can end
   * for good.
   */
  lemma FinalRoleMeaning(cur: Cursor, hop: Hop, m: Message, zone: string, servers: seq<Server>,
                         targets: seq<NextTarget>)
    requires cur.purpose != SupportLookup && hop.code == Rcode(m.rcode)
    requires cur.purpose == CnameFollow ==> FirstCNAME(m.answer, cur.qname) == ""
    requires hop.role == ClassifyRole(zone, cur.purpose, m, cur.qname, cur.qtype)
    ensures var h := if IsTerminal(m, cur) then Terminal(hop, m, cur).hop else Referred(hop, servers, targets).hop;
            h.role == FinalRole <==> h.kind == Answer || h.kind == NoData || h.code != Rcode(NOERROR)
  {
    if FirstCNAME(m.answer, cur.qname) != "" {
      assert m.answer != [];
    }
    hide HasType, FirstCNAME, CountLabels;
  }

  /** A name made of labels, each with a dot behind it. */
  function LabelsName(labels: seq<string>): string {
    if labels == [] then "" else labels[0] + "." + LabelsName(labels[1..])
  }

  ghost predicate AreLabels(labels: seq<string>) {
    forall i :: 0 <= i < |labels| ==> labels[i] != "" && '.' !in labels[i]
  }

  lemma {:induction false} DotsOfJoin(a: string, b: string)
    ensures Dots(a + b) == Dots(a) + Dots(b)
  {
    if a == "" {
      assert a + b == b;
    } else {
      assert (a + b)[1..] == a[1..] + b;
      DotsOfJoin(a[1..], b);
    }
  }

  lemma {:induction false} NoDots(s: string)
    ensures Dots(s) == 0 <==> '.' !in s
  {
    if s != "" {
      NoDots(s[1..]);
      assert s == [s[0]] + s[1..];
    }
  }

  lemma {:induction false} DotsOfName(labels: seq<string>)
    requires AreLabels(labels)
    ensures Dots(LabelsName(labels)) == |labels|
    ensures labels != [] ==> |LabelsName(labels)| > 1 && LabelsName(labels)[|LabelsName(labels)| - 1] == '.'
  {
    if labels != [] {
      DotsOfName(labels[1..]);
      NoDots(labels[0]);
      DotsOfJoin(labels[0], "." + LabelsName(labels[1..]));
      DotsOfJoin(".", LabelsName(labels[1..]));
      assert Dots(".") == 1 by { assert "."[1..] == ""; }
      assert labels[0] + "." + LabelsName(labels[1..]) == labels[0] + ("." + LabelsName(labels[1..]));
    }
  }

  /** A name is counted to have as many labels as it is made of, with or without its last dot. */
  lemma LabelsAreCounted(labels: seq<string>)
    requires AreLabels(labels)
    ensures CountLabels(LabelsName(labels)) == CountLabels(TrimDot(LabelsName(labels))) == |labels|
  {
    var name := LabelsName(labels);
    DotsOfName(labels);
    if labels != [] {
      hide LabelsName, AreLabels;
      NoDoubleDot(labels);
      OneDotLess(name);
    }
  }

  lemma OneDotLess(name: string)
    requires name != "" && name[|name| - 1] == '.'
    ensures Dots(name) == Dots(TrimDot(name)) + 1
  {
    assert name == TrimDot(name) + ".";
    DotsOfJoin(TrimDot(name), ".");
    assert Dots(".") == 1 by { assert "."[1..] == ""; }
  }

  lemma {:induction false} NoDoubleDot(labels: seq<string>)
    requires AreLabels(labels) && labels != []
    ensures var trimmed := TrimDot(LabelsName(labels)); trimmed != "" && TrimDot(trimmed) == trimmed
  {
    var name, rest := LabelsName(labels), labels[1..];
    DotsOfName(rest);
    if rest == [] {
      assert name == labels[0] + ".";
    } else {
      NoDoubleDot(rest);
      assert TrimDot(name) == labels[0] + "." + TrimDot(LabelsName(rest));
    }
  }

  /**
   * The role of a response: alias for an alias found on the way from another, authoritative for a support lookup,
   * final if the lookup ends, and else that of the zone of the server asked: the root, one below it, or another.
   */
  lemma RoleExactlyWhen(cur: Cursor, m: Message, zone: string)
    ensures var role := ClassifyRole(zone, cur.purpose, m, cur.qname, cur.qtype);
            var open := cur.purpose != SupportLookup && !IsTerminal(m, cur);
            && (role == AliasRole <==> cur.purpose == CnameFollow && FirstCNAME(m.answer, cur.qname) != "")
            && (cur.purpose == SupportLookup ==> role == AuthoritativeRole)
            && (open ==> (role == RootRole <==> zone == "."))
            && (open ==> (role == TldRole <==> TrimDot(zone) != "" && '.' !in TrimDot(zone)))
            && (open ==> role in {RootRole, TldRole, AuthoritativeRole})
  {
    NoDots(TrimDot(zone));
    hide HasType, FirstCNAME, Dots;
  }
}
