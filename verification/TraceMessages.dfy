/** When the messages of the outcomes are true. */
module TraceMessages {
  import opened Dns
  import opened Rrsets
  import opened Text
  import opened TraceCalls
  import opened TraceFrames
  import opened TraceOutcome
  import opened TraceSpec
  import opened TraceSteps

  function LastHop(r: Traced): Hop
    requires r.st.hops != []
  {
    r.st.hops[|r.st.hops| - 1]
  }

  /** The loop goes by the candidates before f, and f answers. */
  ghost predicate AnswersAt(cfg: Config, st: State, cur: Cursor, f: nat) {
    && f < |cur.candidates| && EndsAt(cfg, st, cur, f) && FateOf(cfg, st, cur, f) == Answered
    && ReplyOf(cfg, st, cur, f).Reply?
  }

  /** The candidate at which the call ends answers with a response that names nameservers. */
  ghost predicate ReferralAnswers(cfg: Config, st: State, cur: Cursor) {
    exists f: nat :: AnswersAt(cfg, st, cur, f) && NsTargets(ReplyOf(cfg, st, cur, f).m.authority) != []
  }

  /** The candidate at which the call ends answers with authority. */
  ghost predicate AuthorityAnswers(cfg: Config, st: State, cur: Cursor) {
    exists f: nat :: AnswersAt(cfg, st, cur, f) && ReplyOf(cfg, st, cur, f).m.authoritative
  }

  lemma AnswersOnce(cfg: Config, st: State, cur: Cursor, f: nat, g: nat)
    requires AnswersAt(cfg, st, cur, f) && AnswersAt(cfg, st, cur, g)
    ensures f == g
  {
    EndIsUnique(cfg, st, cur, f, g);
  }

  /** A hop reports what the candidate at which its call ended has answered, and nothing if none has. */
  lemma ReplyIsReported(cfg: Config, st: State, cur: Cursor, parent: Option<nat>) returns (f: nat)
    requires st.queries <= cfg.maxQueries
    ensures var ret := Query(cfg, st, cur, parent).ret;
            && EndsAt(cfg, st, cur, f)
            && (ret.responded ==> AnswersAt(cfg, st, cur, f) && ReportsMessage(ret.hop, ReplyOf(cfg, st, cur, f).m))
            && (!ret.responded ==> ret.hop.authority == [] && !exists g: nat :: AnswersAt(cfg, st, cur, g))
  {
    var r := Ask(cfg, cur, parent, FirstAttempt(st));
    FirstTracks(cfg, st, cur);
    f := CallEnds(cfg, st, cur, parent, FirstAttempt(st));
    CallAnswers(cfg, st, cur, f, r);
    hide Comes, EndsAt, FateOf;
    QueryReports(cfg, st, cur, parent);
    if r.Failed? {
      forall g: nat ensures !AnswersAt(cfg, st, cur, g) {
        if AnswersAt(cfg, st, cur, g) {
          EndIsUnique(cfg, st, cur, f, g);
        }
      }
    }
  }

  lemma CallAnswers(cfg: Config, st: State, cur: Cursor, f: nat, r: Asked)
    requires EndsAt(cfg, st, cur, f) && Comes(cfg, st, cur, f, r)
    ensures r.Got? ==> AnswersAt(cfg, st, cur, f) && ReplyOf(cfg, st, cur, f).m == r.m
    ensures r.Failed? ==> !AnswersAt(cfg, st, cur, f)
  {
    hide FateOf, ReplyOf, Logged, CodeSoFar;
  }

  lemma QueryReports(cfg: Config, st: State, cur: Cursor, parent: Option<nat>)
    requires st.queries <= cfg.maxQueries
    ensures var ret, r := Query(cfg, st, cur, parent).ret, Ask(cfg, cur, parent, FirstAttempt(st));
            && (ret.responded <==> r.Got?)
            && (ret.responded ==> ReportsMessage(ret.hop, r.m))
            && (!ret.responded ==> ret.hop.authority == [])
  {
    var a := QueryShape(cfg, st, cur, parent);
    var q := Query(cfg, st, cur, parent);
    RespondedReports(cfg, st, cur, parent);
    if q.ret.responded {
      GotReports(cfg, st, cur, parent);
    } else {
      hide Query, Ask, Sends;
    }
  }

  lemma GotReports(cfg: Config, st: State, cur: Cursor, parent: Option<nat>)
    requires st.queries <= cfg.maxQueries && Ask(cfg, cur, parent, FirstAttempt(st)).Got?
    ensures ReportsMessage(Query(cfg, st, cur, parent).ret.hop, Ask(cfg, cur, parent, FirstAttempt(st)).m)
  {
    var r := Ask(cfg, cur, parent, FirstAttempt(st));
    if IsTerminal(r.m, cur) {
      TerminalKeeps(ResponseHop(|r.st.hops|, parent, r.server, cur, r.m, r.transport), r.m, cur);
    }
    hide Ask, NextCandidates, IsTerminal, Terminal, RrsetsOf, ClassifyRole;
  }

  // ---- unusable_referral: a referral was received ----

  /** The hop reports a response that names nameservers. */
  predicate ReportsReferral(h: Hop) {
    exists i :: 0 <= i < |h.authority| && h.authority[i].rtype == NS
  }

  lemma NsSetExactlyWhen(m: Message)
    ensures (exists i :: 0 <= i < |RrsetsOf(AuthoritySection, m.authority)|
                         && RrsetsOf(AuthoritySection, m.authority)[i].rtype == NS)
            <==> NsTargets(m.authority) != []
  {
    var sets, names := RrsetsOf(AuthoritySection, m.authority), NsTargets(m.authority);
    if names != [] {
      NsTargetsMeaning(m.authority, names[0]);
      var rr :| rr in m.authority && rr.data == NSData(names[0]);
      var i := RecordIsGrouped(AuthoritySection, m.authority, rr);
    }
    if i :| 0 <= i < |sets| && sets[i].rtype == NS {
      SetHasRecord(m.authority, i);
      var rr :| rr in m.authority && rr.data.Type() == NS;
      NsTargetsMeaning(m.authority, rr.data.target);
    }
  }

  /** Every set of a section comes from a record of its type. */
  lemma SetHasRecord(records: seq<RR>, i: nat)
    requires i < |RrsetsOf(AuthoritySection, records)|
    ensures exists rr :: rr in records && rr.data.Type() == RrsetsOf(AuthoritySection, records)[i].rtype
  {
    SetKeys(AuthoritySection, records);
    FirstSeenIn(Keys(records), FirstSeen(Keys(records))[i]);
    var j :| 0 <= j < |records| && Keys(records)[j] == FirstSeen(Keys(records))[i];
    assert records[j] in records;
  }

  /** The hop of a call reports a referral exactly when the candidate at which the call ended answered with one. */
  lemma ReferralExactlyWhen(cfg: Config, st: State, cur: Cursor, parent: Option<nat>)
    requires st.queries <= cfg.maxQueries
    ensures ReportsReferral(Query(cfg, st, cur, parent).ret.hop) <==> ReferralAnswers(cfg, st, cur)
  {
    var f := ReplyIsReported(cfg, st, cur, parent);
    var ret := Query(cfg, st, cur, parent).ret;
    hide Query, EndsAt, FateOf, RrsetsOf, NsTargets, AnswersAt, ReplyOf;
    if ret.responded {
      NsSetExactlyWhen(ReplyOf(cfg, st, cur, f).m);
      if g: nat :| AnswersAt(cfg, st, cur, g) && NsTargets(ReplyOf(cfg, st, cur, g).m.authority) != [] {
        AnswersOnce(cfg, st, cur, f, g);
      }
    }
  }

  /** A turn asks the roots, or servers of a referral, all of which the policy allows. */
  predicate RootsOrAllowed(cfg: Config, servers: seq<Server>) {
    servers == cfg.roots || (servers != [] && forall s :: s in servers ==> cfg.allow(s.ip))
  }

  /** Where a turn goes on to. */
  predicate GoesToAllowed(cfg: Config, move: Move) {
    move.Go? ==> RootsOrAllowed(cfg, move.cur.candidates)
  }

  lemma TerminalAllowed(cfg: Config, cur: Cursor, purpose: Purpose, hop: Hop, m: Message)
    requires IsTerminal(m, cur)
    ensures GoesToAllowed(cfg, NextMove(cfg, cur, purpose, Terminal(hop, m, cur)))
  {
    hide HasType, FirstCNAME, IsNODATA;
  }

  lemma ReferredAllowed(cfg: Config, cur: Cursor, purpose: Purpose, hop: Hop, servers: seq<Server>,
                        targets: seq<NextTarget>)
    requires forall s :: s in servers ==> cfg.allow(s.ip)
    ensures GoesToAllowed(cfg, NextMove(cfg, cur, purpose, Referred(hop, servers, targets)))
  {}

  lemma MoveAllowed(cfg: Config, st: State, cur: Cursor, parent: Option<nat>, purpose: Purpose)
    requires st.queries <= cfg.maxQueries
    ensures GoesToAllowed(cfg, NextMove(cfg, cur, purpose, Query(cfg, st, cur, parent).ret))
  {
    var a := QueryShape(cfg, st, cur, parent);
    var q := Query(cfg, st, cur, parent);
    hide Query, Sends, LocalHop, ResponseHop, NextCandidates, IsTerminal, Terminal, Referred, RootsOrAllowed,
         AllBlocked;
    match a.answer
    case None =>
    case Some(r) =>
      hide NextMove;
      var hop := ResponseHop(|a.st.hops|, parent, r.server, cur, r.m, r.transport);
      if IsTerminal(r.m, cur) {
        TerminalAllowed(cfg, cur, purpose, hop, r.m);
      } else {
        NextZone(cfg, a.st, r.m, |a.st.hops|);
        var next := NextCandidates(cfg, a.st, r.m, |a.st.hops|);
        ReferredAllowed(cfg, cur, purpose, hop, next.servers, next.targets);
      }
  }

  lemma {:induction false} TurnAllowed(cfg: Config, first: Turn, parent: Option<nat>, n: nat)
    requires first.st.queries <= cfg.maxQueries && first.cur.candidates == cfg.roots
    requires TurnAt(cfg, first, parent, n).Some?
    ensures RootsOrAllowed(cfg, TurnAt(cfg, first, parent, n).value.cur.candidates)
  {
    hide Query, NextMove, RootsOrAllowed;
    if n == 0 {
      assert RootsOrAllowed(cfg, cfg.roots) by { OnlyRoots(cfg); }
    } else {
      var t := TurnAt(cfg, first, parent, n - 1).value;
      MoveAllowed(cfg, t.st, t.cur, parent, first.cur.purpose);
    }
  }

  lemma OnlyRoots(cfg: Config)
    ensures RootsOrAllowed(cfg, cfg.roots)
  {}

  /**
   * When the message of unusable_referral, that a referral was received, is true of the hop that it points to: exactly
   * when the call of the last turn ends with an answer that names nameservers. A call can also end without any answer
   * in this way, but only one that asks the roots, or with an answer that names none.
   */
  lemma UnusableIsReferralExactlyWhen(cfg: Config, domain: string, qtype: QType) returns (n: nat, t: Turn)
    requires cfg.maxDepth > 0 && cfg.maxQueries > 0
    ensures LastTurn(cfg, FirstTurn(cfg, domain, qtype), None, n, t, Trace(cfg, domain, qtype))
    ensures var r := Trace(cfg, domain, qtype);
            r.outcome.kind == UnusableReferral ==>
              && r.st.hops != []
              && (ReportsReferral(LastHop(r)) <==> ReferralAnswers(cfg, t.st, t.cur))
              && (!StopsFor(cfg, t.st, t.cur, Answered) ==>
                    t.cur.candidates == cfg.roots
                    && Exhausts(cfg, t.st, t.cur) && (cfg.roots == [] || LastIs(cfg, t.st, t.cur, Blocked)))
  {
    var first, r := FirstTurn(cfg, domain, qtype), Trace(cfg, domain, qtype);
    n, t := RunIsDecided(cfg, domain, qtype);
    hide Trace;
    ReferralExactlyWhen(cfg, t.st, t.cur, None);
    LastTurnHop(cfg, first, None, n, t, r);
    if r.outcome.kind == UnusableReferral && !StopsFor(cfg, t.st, t.cur, Answered) {
      TurnAllowed(cfg, first, None, n);
      SilentUnusable(cfg, first, None, n, t, r);
      BlockedIsNotAllowed(cfg, t.st, t.cur);
    }
  }

  lemma LastTurnHop(cfg: Config, first: Turn, parent: Option<nat>, n: nat, t: Turn, r: Traced)
    requires first.st.queries <= cfg.maxQueries && LastTurn(cfg, first, parent, n, t, r)
    ensures r.st.hops != [] && LastHop(r) == Query(cfg, t.st, t.cur, parent).ret.hop
  {
    hide Query, NextMove, Decided, TurnAt, StopsFor;
  }

  lemma SilentUnusable(cfg: Config, first: Turn, parent: Option<nat>, n: nat, t: Turn, r: Traced)
    requires first.st.queries <= cfg.maxQueries && LastTurn(cfg, first, parent, n, t, r)
    requires r.outcome.kind == UnusableReferral && !StopsFor(cfg, t.st, t.cur, Answered)
    ensures Exhausts(cfg, t.st, t.cur) && (t.cur.candidates == [] || LastIs(cfg, t.st, t.cur, Blocked))
  {
    hide Query, NextMove, TurnAt, StopsFor, Exhausts, LastIs;
  }

  lemma BlockedIsNotAllowed(cfg: Config, st: State, cur: Cursor)
    requires RootsOrAllowed(cfg, cur.candidates) && (cur.candidates == [] || LastIs(cfg, st, cur, Blocked))
    ensures cur.candidates == cfg.roots
  {
    hide ReplyOf, KeyBefore, CandidateKey;
    if cur.candidates != [] {
      assert cur.candidates[|cur.candidates| - 1] in cur.candidates;
    }
  }

  // ---- max_depth: the hop depth was exceeded ----

  /** The number of hops of the lookup that ends at hi, without those of its support lookups. */
  function Own(hops: seq<Hop>, hi: nat): nat
    requires hi <= |hops|
    decreases hi
  {
    if hi == 0 || hops[hi - 1].index >= hi then 0 else 1 + Own(hops, hops[hi - 1].index)
  }

  lemma {:induction false} OwnOfPrefix(hops: seq<Hop>, hops': seq<Hop>, hi: nat)
    requires hops <= hops' && hi <= |hops|
    ensures Own(hops', hi) == Own(hops, hi)
    decreases hi
  {
    if hi > 0 && hops[hi - 1].index < hi {
      OwnOfPrefix(hops, hops', hops[hi - 1].index);
    }
  }

  lemma OwnOfNext(cfg: Config, st: State, cur: Cursor, parent: Option<nat>)
    requires st.queries < cfg.maxQueries && HasAllowed(cfg, cfg.roots) && HasAllowed(cfg, cur.candidates)
    ensures var q := Query(cfg, st, cur, parent); var hops := AppendHop(q.st, q.ret.hop).hops;
            Own(hops, |hops|) == 1 + Own(st.hops, |st.hops|)
  {
    var q := Query(cfg, st, cur, parent);
    QueryPath(cfg, st, cur, parent);
    hide Query, Supported, Asks;
    assert st.hops <= q.st.hops;
    OwnOfPrefix(st.hops, AppendHop(q.st, q.ret.hop).hops, |st.hops|);
  }

  /** A lookup has one hop of its own for every turn it has made. */
  lemma {:induction false} OwnIsTurns(cfg: Config, first: Turn, parent: Option<nat>, n: nat)
    requires first.st == EMPTY_STATE && HasAllowed(cfg, cfg.roots) && first.cur.candidates == cfg.roots
    requires TurnAt(cfg, first, parent, n).Some?
    ensures var t := TurnAt(cfg, first, parent, n).value;
            Own(t.st.hops, |t.st.hops|) == n && HasAllowed(cfg, t.cur.candidates)
  {
    hide Query, NextMove, HasAllowed, Continues, AppendHop;
    if n > 0 {
      OwnIsTurns(cfg, first, parent, n - 1);
      var t := TurnAt(cfg, first, parent, n - 1).value;
      OwnOfNext(cfg, t.st, t.cur, parent);
      QueryContinues(cfg, t.st, t.cur, parent, first.cur.purpose);
    }
  }

  /** The lookup has made all the turns it may make, and its last hop is one from which it would go on. */
  predicate UsedItsDepth(cfg: Config, hops: seq<Hop>) {
    hops != [] && Own(hops, |hops|) == cfg.maxDepth && GoesOn(hops[|hops| - 1])
  }

  /** If the policy blocks all the roots, the first call ends without having asked anyone. */
  lemma NoRootIsUnusable(cfg: Config, first: Turn, parent: Option<nat>, n: nat, t: Turn, r: Traced)
    requires first.st == EMPTY_STATE && first.cur.candidates == cfg.roots && LastTurn(cfg, first, parent, n, t, r)
    requires cfg.maxQueries > 0 && !HasAllowed(cfg, cfg.roots)
    ensures r.outcome.kind == UnusableReferral
  {
    AllBlockedExhausts(cfg, first.st, first.cur);
    FirstTurnOnly(cfg, first, parent, n);
    ExhaustsIsSilent(cfg, first.st, first.cur);
    hide Query, NextMove, Exhausts, LastIs, StopsFor, HasAllowed;
  }

  lemma {:induction false} NoneBefore(cfg: Config, cur: Cursor, k: nat)
    requires k <= |cur.candidates| && !HasAllowed(cfg, cur.candidates)
    ensures AllowedBefore(cfg, cur, k) == 0
  {
    if k > 0 {
      NoneBefore(cfg, cur, k - 1);
    }
  }

  lemma AllBlockedExhausts(cfg: Config, st: State, cur: Cursor)
    requires st.queries < cfg.maxQueries && !HasAllowed(cfg, cur.candidates)
    ensures Exhausts(cfg, st, cur) && (cur.candidates == [] || LastIs(cfg, st, cur, Blocked))
  {
    forall k: nat | k < |cur.candidates| ensures FateOf(cfg, st, cur, k) == Blocked {
      NoneBefore(cfg, cur, k);
    }
    hide FateOf, HasAllowed;
  }

  lemma ExhaustsIsSilent(cfg: Config, st: State, cur: Cursor)
    requires Exhausts(cfg, st, cur)
    ensures forall fate :: !StopsFor(cfg, st, cur, fate)
  {
    EndTells(cfg, st, cur, |cur.candidates|);
    hide StopsFor;
  }

  /** A lookup goes on from its first turn only after an answer. */
  lemma {:induction false} FirstTurnOnly(cfg: Config, first: Turn, parent: Option<nat>, n: nat)
    requires first.st.queries < cfg.maxQueries && Exhausts(cfg, first.st, first.cur)
    requires TurnAt(cfg, first, parent, n).Some?
    ensures n == 0
  {
    if n == 1 {
      QueryIsDecided(cfg, first.st, first.cur, parent, first.cur.purpose);
      ExhaustsIsSilent(cfg, first.st, first.cur);
      hide Query, NextMove, StopsFor;
    } else if n > 1 {
      FirstTurnOnly(cfg, first, parent, n - 1);
    }
  }

  /**
   * When the message of max_depth with code MAX_DEPTH, that the hop depth was exceeded, is true: exactly when the call
   * of the last turn does not stop because the query budget has run out.
   */
  lemma MaxDepthIsDepthExactlyWhen(cfg: Config, domain: string, qtype: QType) returns (n: nat, t: Turn)
    requires cfg.maxDepth > 0 && cfg.maxQueries > 0
    ensures LastTurn(cfg, FirstTurn(cfg, domain, qtype), None, n, t, Trace(cfg, domain, qtype))
    ensures var r := Trace(cfg, domain, qtype);
            r.outcome.kind == MaxDepthExceeded && r.outcome.code == MaxDepthCode ==>
              (UsedItsDepth(cfg, r.st.hops) <==> !StopsFor(cfg, t.st, t.cur, OutOfBudget))
  {
    var first, r := FirstTurn(cfg, domain, qtype), Trace(cfg, domain, qtype);
    n, t := RunIsDecided(cfg, domain, qtype);
    hide Trace;
    if r.outcome.kind == MaxDepthExceeded && r.outcome.code == MaxDepthCode {
      if !HasAllowed(cfg, cfg.roots) {
        NoRootIsUnusable(cfg, first, None, n, t, r);
      } else {
        OwnIsTurns(cfg, first, None, n);
        OwnOfNext(cfg, t.st, t.cur, None);
        DepthOfLastTurn(cfg, first, None, n, t, r);
      }
    }
  }

  lemma DepthOfLastTurn(cfg: Config, first: Turn, parent: Option<nat>, n: nat, t: Turn, r: Traced)
    requires first.st.queries <= cfg.maxQueries && LastTurn(cfg, first, parent, n, t, r)
    requires Own(r.st.hops, |r.st.hops|) == n + 1
    requires r.outcome.kind == MaxDepthExceeded && r.outcome.code == MaxDepthCode
    ensures UsedItsDepth(cfg, r.st.hops) <==> !StopsFor(cfg, t.st, t.cur, OutOfBudget)
  {
    hide Query, NextMove, TurnAt, StopsFor, Exhausts, LastIs, Own, ReportedKind;
    var q := Query(cfg, t.st, t.cur, parent);
    LastTurnHop(cfg, first, parent, n, t, r);
    RespondedReports(cfg, t.st, t.cur, parent);
    OneFate(cfg, t.st, t.cur, Answered, OutOfBudget);
    RespondedMove(cfg, t.cur, first.cur.purpose, q.ret);
    match NextMove(cfg, t.cur, first.cur.purpose, q.ret)
    case Stop(o) => assert !q.ret.responded && !GoesOn(q.ret.hop);
    case Go(_) =>
  }

  lemma OneFate(cfg: Config, st: State, cur: Cursor, a: Fate, b: Fate)
    ensures StopsFor(cfg, st, cur, a) && StopsFor(cfg, st, cur, b) ==> a == b
  {
    hide FateOf;
  }

  lemma RespondedMove(cfg: Config, cur: Cursor, purpose: Purpose, ret: Returned)
    requires ret.responded ==> ret.err != ErrMaxDepth
    ensures var move := NextMove(cfg, cur, purpose, ret);
            move.Stop? && move.outcome.kind == MaxDepthExceeded ==> !ret.responded
  {}

  // ---- timeout: all candidates timed out ----

  lemma SilentLog(cfg: Config, st: State, cur: Cursor, parent: Option<nat>)
    requires st.queries <= cfg.maxQueries
    ensures var q := Query(cfg, st, cur, parent);
            !q.ret.responded ==> q.st.log == Ask(cfg, cur, parent, FirstAttempt(st)).st.log
  {
    hide Ask, NextCandidates, IsTerminal, ResponseHop;
  }

  lemma ReportedIsNotTimeout(kind: HopKind, n: nat)
    ensures ReportedKind(kind, n) != TimedOut
  {}

  /**
   * When the message of timeout, that all candidates timed out, is true: exactly when the policy allows every candidate
   * of the last turn and the network breaks no exchange with any of them.
   */
  lemma TimeoutIsTrueExactlyWhen(cfg: Config, domain: string, qtype: QType) returns (n: nat, t: Turn)
    requires cfg.maxDepth > 0 && cfg.maxQueries > 0
    ensures LastTurn(cfg, FirstTurn(cfg, domain, qtype), None, n, t, Trace(cfg, domain, qtype))
    ensures var r := Trace(cfg, domain, qtype);
            r.outcome.kind == TimedOut ==>
              (AllTimedOut(t.st, t.cur, r.st.log)
               <==> forall i: nat :: i < |t.cur.candidates| ==> AllowedAndUnbroken(cfg, t.st, t.cur, i))
  {
    var r := Trace(cfg, domain, qtype);
    n, t := RunIsDecided(cfg, domain, qtype);
    hide Trace, Query, Ask, NextMove, TurnAt, StopsFor, Exhausts, LastIs, ReportedKind, AllTimedOut, AllowedAndUnbroken;
    if r.outcome.kind == TimedOut {
      var ret := Query(cfg, t.st, t.cur, None).ret;
      if ret.responded && ret.hop.code.Rcode? {
        ReportedIsNotTimeout(ret.hop.kind, ret.hop.code.n);
      }
      SilentLog(cfg, t.st, t.cur, None);
      TimeoutExactlyWhen(cfg, t.st, t.cur, None);
      TimeoutIsAllExactlyWhen(cfg, t.st, t.cur, None);
    }
  }

  // ---- success and nxdomain: an authoritative server said so ----

  /** A hop's authority bit is that of the answer with which its call ended; NODATA needs the bit. */
  lemma AuthorityExactlyWhen(cfg: Config, st: State, cur: Cursor, parent: Option<nat>)
    requires st.queries <= cfg.maxQueries
    ensures var ret := Query(cfg, st, cur, parent).ret;
            ret.responded ==>
              && (ret.hop.authoritative <==> AuthorityAnswers(cfg, st, cur))
              && (ret.hop.kind == NoData ==> ret.hop.authoritative)
  {
    var f := ReplyIsReported(cfg, st, cur, parent);
    NoDataIsAuthoritative(cfg, st, cur, parent);
    var ret := Query(cfg, st, cur, parent).ret;
    hide Query, EndsAt, FateOf, RrsetsOf, AnswersAt, ReplyOf;
    if ret.responded {
      if g: nat :| AnswersAt(cfg, st, cur, g) && ReplyOf(cfg, st, cur, g).m.authoritative {
        AnswersOnce(cfg, st, cur, f, g);
      }
    }
  }

  lemma NoDataIsAuthoritative(cfg: Config, st: State, cur: Cursor, parent: Option<nat>)
    requires st.queries <= cfg.maxQueries
    ensures var ret := Query(cfg, st, cur, parent).ret;
            ret.responded && ret.hop.kind == NoData ==> ret.hop.authoritative
  {
    hide Ask, NextCandidates, HasType, FirstCNAME, RrsetsOf, ClassifyRole;
  }

  /**
   * When the messages of success and nxdomain, which name an authoritative server, are true: exactly when the call of
   * the last turn ends with an answer that has the authority bit. The one of a NODATA hop always is.
   */
  lemma AnswerIsAuthoritativeExactlyWhen(cfg: Config, domain: string, qtype: QType) returns (n: nat, t: Turn)
    requires cfg.maxDepth > 0 && cfg.maxQueries > 0
    ensures LastTurn(cfg, FirstTurn(cfg, domain, qtype), None, n, t, Trace(cfg, domain, qtype))
    ensures var r := Trace(cfg, domain, qtype);
            r.outcome.kind == Success || r.outcome.kind == Nxdomain ==>
              && r.st.hops != []
              && (LastHop(r).authoritative <==> AuthorityAnswers(cfg, t.st, t.cur))
              && (LastHop(r).kind == NoData ==> LastHop(r).authoritative)
  {
    var first, r := FirstTurn(cfg, domain, qtype), Trace(cfg, domain, qtype);
    n, t := RunIsDecided(cfg, domain, qtype);
    hide Trace, Query, NextMove, TurnAt, Decided;
    if r.outcome.kind == Success || r.outcome.kind == Nxdomain {
      LastTurnHop(cfg, first, None, n, t, r);
      AuthorityExactlyWhen(cfg, t.st, t.cur, None);
      SilentMove(cfg, t.st, t.cur, None, Delegation);
    }
  }

  lemma SilentMove(cfg: Config, st: State, cur: Cursor, parent: Option<nat>, purpose: Purpose)
    requires st.queries <= cfg.maxQueries
    ensures var ret := Query(cfg, st, cur, parent).ret; var move := NextMove(cfg, cur, purpose, ret);
            move.Stop? && !ret.responded ==> move.outcome.kind != Success && move.outcome.kind != Nxdomain
  {
    RespondedReports(cfg, st, cur, parent);
    hide Query, Ask;
  }

  // ---- Runs whose message is not true ----

  /** Two roots that never answer in time, of which the policy blocks the one with the given address. */
  function LateConfig(blocked: string): Config {
    var late := (n: nat, endpoint: string, qname: string, qtype: QType) => Deadline;
    Config(1, 2, [Server("a.", "1", "1", "."), Server("b.", "2", "2", ".")], ip => ip != blocked, ip => ip, late, late)
  }

  /** timeout does not mean that all candidates timed out: here the first of two is never asked. */
  lemma TimeoutIsNotAll()
    ensures var cfg := LateConfig("1"); var r := Trace(cfg, "x", A);
            r.outcome.kind == TimedOut && |r.st.log| == 1 < |cfg.roots|
  {}

  /** unusable_referral does not mean that a referral was received: here the only exchange ran into its deadline. */
  lemma UnusableWithoutReferral()
    ensures var r := Trace(LateConfig("2"), "x", A);
            && r.outcome.kind == UnusableReferral && r.outcome.code == TimeoutCode
            && |r.st.hops| == 1 == |r.st.log| && r.st.log[0].reply == Deadline
  {}

  /** max_depth with code MAX_DEPTH need not be about depth: here one of nine hops is used, and the only query. */
  lemma DepthMeansBudget()
    ensures var cfg := LateConfig("").(maxDepth := 9, maxQueries := 1); var r := Trace(cfg, "x", A);
            && r.outcome.kind == MaxDepthExceeded && r.outcome.code == MaxDepthCode
            && |r.st.hops| == 1 < cfg.maxDepth && r.st.queries == cfg.maxQueries
  {}

  /** One root, which always gives the same response. */
  function SameReplyConfig(m: Message): Config {
    var same := (n: nat, endpoint: string, qname: string, qtype: QType) => Reply(m);
    Config(1, 1, [Server("a.", "1", "1", ".")], ip => true, ip => ip, same, same)
  }

  lemma SameReplyAsk(m: Message)
    requires !m.truncated
    ensures var cfg := SameReplyConfig(m); var first := FirstTurn(cfg, "x", A);
            Ask(cfg, first.cur, None, FirstAttempt(EMPTY_STATE))
            == Got(Send(cfg, EMPTY_STATE, first.cur, cfg.roots[0]), cfg.roots[0], m, Udp)
  {
    hide VisitedKey;
  }

  /** Nor does it after a response: here the response is empty. */
  lemma UnusableAfterEmptyReply()
    ensures var r := Trace(SameReplyConfig(Message(NOERROR, false, false, [], [], [])), "x", A);
            && r.outcome.kind == UnusableReferral && r.outcome.code == Rcode(NOERROR)
            && |r.st.hops| == 1 && r.st.hops[0].authority == []
  {
    SameReplyAsk(Message(NOERROR, false, false, [], [], []));
  }

  /** success does not mean that the answer is authoritative: here the server has it from elsewhere. */
  lemma SuccessWithoutAuthority()
    ensures var m := Message(NOERROR, false, false, [RR("x.", 300, AData("1"))], [], []);
            var r := Trace(SameReplyConfig(m), "x", A);
            r.outcome.kind == Success && |r.st.hops| == 1 && r.st.hops[0].kind == Answer && !r.st.hops[0].authoritative
  {
    var m := Message(NOERROR, false, false, [RR("x.", 300, AData("1"))], [], []);
    SameReplyAsk(m);
    assert HasType(m.answer, Fqdn("x"), A) by { assert m.answer[0].name == Fqdn("x"); }
    hide Ask, HasType, FirstCNAME, IsNODATA, RrsetsOf, ClassifyRole, VisitedKey, Fqdn;
  }

  /** Nor does nxdomain. */
  lemma NxdomainWithoutAuthority()
    ensures var r := Trace(SameReplyConfig(Message(NXDOMAIN, false, false, [], [], [])), "x", A);
            r.outcome.kind == Nxdomain && |r.st.hops| == 1 && !r.st.hops[0].authoritative
  {
    SameReplyAsk(Message(NXDOMAIN, false, false, [], [], []));
  }

  /**
   * Every turn of a lookup but the first goes on from the hop before it: with the same question to all the next targets
   * of a referral, in their order and at their own endpoints, or with the alias to the roots.
   */
  lemma TurnsContinue(cfg: Config, first: Turn, parent: Option<nat>, n: nat)
    requires first.st.queries <= cfg.maxQueries && HasAllowed(cfg, cfg.roots)
    requires TurnAt(cfg, first, parent, n + 1).Some?
    ensures var t := TurnAt(cfg, first, parent, n + 1).value;
            t.st.hops != [] && Continues(cfg, first.cur.purpose, t.st.hops[|t.st.hops| - 1], t.cur)
  {
    hide Query, NextMove, Continues, HasAllowed;
    var t := TurnAt(cfg, first, parent, n).value;
    QueryContinues(cfg, t.st, t.cur, parent, first.cur.purpose);
  }
}
