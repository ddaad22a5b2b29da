/** What one call of queryCandidates comes to, read off the policy and the network before the call is made. */
module TraceCalls {
  import opened Text
  import opened TraceSpec

  /** The number of allowed candidates before candidate k. */
  function AllowedBefore(cfg: Config, cur: Cursor, k: nat): nat
    requires k <= |cur.candidates|
  {
    if k == 0 then 0 else AllowedBefore(cfg, cur, k - 1) + (if cfg.allow(cur.candidates[k - 1].ip) then 1 else 0)
  }

  /** What candidate k would answer, if every allowed candidate before it has been asked. */
  function ReplyOf(cfg: Config, st: State, cur: Cursor, k: nat): Wire
    requires k < |cur.candidates|
  {
    Exchange(cfg, st.queries + AllowedBefore(cfg, cur, k), cur.candidates[k].endpoint, cur.qname, cur.qtype).reply
  }

  function CandidateKey(cur: Cursor, k: nat): string
    requires k < |cur.candidates|
  {
    VisitedKey(cur.candidates[k].ip, cur.qname, cur.qtype, cur.purpose)
  }

  /** An allowed candidate before candidate k has the given key. */
  predicate KeyBefore(cfg: Config, cur: Cursor, k: nat, key: string)
    requires k <= |cur.candidates|
  {
    exists j: nat :: j < k && cfg.allow(cur.candidates[j].ip) && CandidateKey(cur, j) == key
  }

  datatype Fate = OutOfBudget | Blocked | Repeated | Answered | Late | Lost

  /** What becomes of candidate k if the loop reaches it. */
  function FateOf(cfg: Config, st: State, cur: Cursor, k: nat): Fate
    requires k < |cur.candidates|
  {
    var key := CandidateKey(cur, k);
    if st.queries + AllowedBefore(cfg, cur, k) >= cfg.maxQueries then OutOfBudget
    else if !cfg.allow(cur.candidates[k].ip) then Blocked
    else if key in st.visited || KeyBefore(cfg, cur, k, key) then Repeated
    else
      match ReplyOf(cfg, st, cur, k)
      case Reply(_) => Answered
      case Deadline => Late
      case Broken => Lost
  }

  /** The loop goes by a candidate that is blocked, late or lost. */
  predicate GoesBy(fate: Fate) {
    fate.Blocked? || fate.Late? || fate.Lost?
  }

  predicate AllGoBy(cfg: Config, st: State, cur: Cursor, k: nat)
    requires k <= |cur.candidates|
  {
    forall i: nat :: i < k ==> GoesBy(FateOf(cfg, st, cur, i))
  }

  /** The loop ends at candidate f, or after all candidates. */
  predicate EndsAt(cfg: Config, st: State, cur: Cursor, f: nat) {
    && f <= |cur.candidates| && AllGoBy(cfg, st, cur, f)
    && (f < |cur.candidates| ==> !GoesBy(FateOf(cfg, st, cur, f)))
  }

  /** The error that the loop carries when it reaches candidate k. */
  function ErrSoFar(cfg: Config, st: State, cur: Cursor, k: nat): Err
    requires k <= |cur.candidates|
  {
    if k == 0 then NoErr
    else
      match FateOf(cfg, st, cur, k - 1)
      case Blocked => ErrUnusable
      case Late => ErrTimeout
      case _ => ErrOther
  }

  /** The code of the hop that the loop carries when it reaches candidate k: that of the last candidate asked. */
  function CodeSoFar(cfg: Config, st: State, cur: Cursor, k: nat): Code
    requires k <= |cur.candidates|
  {
    if k == 0 then NoCode
    else
      match FateOf(cfg, st, cur, k - 1)
      case Blocked => CodeSoFar(cfg, st, cur, k - 1)
      case Late => TimeoutCode
      case _ => FailedCode
  }

  /** The log entry of every allowed candidate before candidate k. */
  ghost predicate Logged(cfg: Config, st: State, cur: Cursor, k: nat, log: seq<Sent>)
    requires k <= |cur.candidates|
  {
    && |log| == |st.log| + AllowedBefore(cfg, cur, k) && st.log <= log
    && forall j: nat :: j < k && cfg.allow(cur.candidates[j].ip) ==> IsLogged(cfg, st, cur, j, log)
  }

  ghost predicate IsLogged(cfg: Config, st: State, cur: Cursor, j: nat, log: seq<Sent>)
    requires j < |cur.candidates|
  {
    var i := |st.log| + AllowedBefore(cfg, cur, j);
    i < |log| && log[i].server == cur.candidates[j] && log[i].reply == ReplyOf(cfg, st, cur, j)
  }

  /** The attempt is the one at which the loop arrives after going by the candidates before it. */
  ghost predicate Tracks(cfg: Config, st: State, cur: Cursor, a: Attempt) {
    && a.k <= |cur.candidates| && AllGoBy(cfg, st, cur, a.k)
    && a.st.queries == st.queries + AllowedBefore(cfg, cur, a.k) <= cfg.maxQueries
    && (forall key :: key in a.st.visited <==> key in st.visited || KeyBefore(cfg, cur, a.k, key))
    && Logged(cfg, st, cur, a.k, a.st.log)
    && a.lastErr == ErrSoFar(cfg, st, cur, a.k) && a.lastHop.code == CodeSoFar(cfg, st, cur, a.k)
    && a.timeouts <= a.k && (a.timeouts == a.k > 0 ==> a.lastErr == ErrTimeout)
  }

  /** The result of a call that ends at f. */
  ghost predicate Comes(cfg: Config, st: State, cur: Cursor, f: nat, r: Asked)
    requires f <= |cur.candidates|
  {
    if f == |cur.candidates| then
      && r.Failed? && r.hop.code == CodeSoFar(cfg, st, cur, f) && Logged(cfg, st, cur, f, r.st.log)
      && r.err == if f == 0 then ErrUnusable else ErrSoFar(cfg, st, cur, f)
    else
      match FateOf(cfg, st, cur, f)
      case OutOfBudget => r.Failed? && r.err == ErrMaxDepth && r.hop.code == CodeSoFar(cfg, st, cur, f)
      case Repeated => r.Failed? && r.err == ErrLoop && r.hop.code == LoopCode
      case Answered => r.Got? && r.server == cur.candidates[f] && Reply(r.m) == ReplyOf(cfg, st, cur, f)
      case _ => false
  }

  lemma FirstTracks(cfg: Config, st: State, cur: Cursor)
    requires st.queries <= cfg.maxQueries
    ensures Tracks(cfg, st, cur, FirstAttempt(st))
  {}

  lemma KeyStep(cfg: Config, cur: Cursor, k: nat, key: string)
    requires k < |cur.candidates|
    ensures KeyBefore(cfg, cur, k + 1, key)
            <==> KeyBefore(cfg, cur, k, key) || (cfg.allow(cur.candidates[k].ip) && CandidateKey(cur, k) == key)
  {
    hide CandidateKey;
  }

  lemma LoggedStep(cfg: Config, st: State, cur: Cursor, k: nat, log: seq<Sent>, log': seq<Sent>)
    requires k < |cur.candidates| && Logged(cfg, st, cur, k, log) && log <= log'
    requires if cfg.allow(cur.candidates[k].ip)
             then |log'| == |log| + 1 && log'[|log|].server == cur.candidates[k]
                 && log'[|log|].reply == ReplyOf(cfg, st, cur, k)
             else log' == log
    ensures Logged(cfg, st, cur, k + 1, log')
  {
    hide ReplyOf;
    forall j: nat | j < k + 1 && cfg.allow(cur.candidates[j].ip) ensures IsLogged(cfg, st, cur, j, log') {
      if j < k {
        assert IsLogged(cfg, st, cur, j, log);
      }
    }
  }

  lemma FateStep(cfg: Config, st: State, cur: Cursor, k: nat)
    requires k < |cur.candidates| && AllGoBy(cfg, st, cur, k) && GoesBy(FateOf(cfg, st, cur, k))
    ensures AllGoBy(cfg, st, cur, k + 1) && st.queries + AllowedBefore(cfg, cur, k + 1) <= cfg.maxQueries
    ensures match FateOf(cfg, st, cur, k)
            case Blocked =>
              && ErrSoFar(cfg, st, cur, k + 1) == ErrUnusable
              && AllowedBefore(cfg, cur, k + 1) == AllowedBefore(cfg, cur, k)
              && CodeSoFar(cfg, st, cur, k + 1) == CodeSoFar(cfg, st, cur, k)
            case Late => ErrSoFar(cfg, st, cur, k + 1) == ErrTimeout && CodeSoFar(cfg, st, cur, k + 1) == TimeoutCode
            case _ => ErrSoFar(cfg, st, cur, k + 1) == ErrOther && CodeSoFar(cfg, st, cur, k + 1) == FailedCode
  {
    hide ReplyOf, KeyBefore, CandidateKey;
  }

  lemma TryBlocked(cfg: Config, st: State, cur: Cursor, parent: Option<nat>, a: Attempt)
    requires Tracks(cfg, st, cur, a) && a.k < |cur.candidates| && FateOf(cfg, st, cur, a.k).Blocked?
    ensures var next := a.(k := a.k + 1, lastErr := ErrUnusable);
            Try(cfg, cur, parent, a) == Next(next) && Tracks(cfg, st, cur, next)
  {
    hide Logged, KeyBefore, AllGoBy, AllowedBefore, ErrSoFar, CodeSoFar, VisitedKey, Send;
    FateStep(cfg, st, cur, a.k);
    assert !cfg.allow(cur.candidates[a.k].ip) && a.st.queries < cfg.maxQueries;
    hide FateOf;
    forall key ensures KeyBefore(cfg, cur, a.k + 1, key) == KeyBefore(cfg, cur, a.k, key) {
      KeyStep(cfg, cur, a.k, key);
    }
    LoggedStep(cfg, st, cur, a.k, a.st.log, a.st.log);
  }

  lemma SendTracks(cfg: Config, st: State, cur: Cursor, a: Attempt)
    requires Tracks(cfg, st, cur, a) && a.k < |cur.candidates| && cfg.allow(cur.candidates[a.k].ip)
    ensures var st' := Send(cfg, a.st, cur, cur.candidates[a.k]);
            && st'.queries == st.queries + AllowedBefore(cfg, cur, a.k + 1)
            && (forall key :: key in st'.visited <==> key in st.visited || KeyBefore(cfg, cur, a.k + 1, key))
            && Logged(cfg, st, cur, a.k + 1, st'.log)
  {
    hide AllGoBy, ErrSoFar, CodeSoFar, Logged, KeyBefore, VisitedKey;
    var st' := Send(cfg, a.st, cur, cur.candidates[a.k]);
    forall key ensures key in st'.visited <==> key in st.visited || KeyBefore(cfg, cur, a.k + 1, key) {
      KeyStep(cfg, cur, a.k, key);
    }
    SentIsReply(cfg, st, cur, a);
    LoggedStep(cfg, st, cur, a.k, a.st.log, st'.log);
  }

  lemma SentIsReply(cfg: Config, st: State, cur: Cursor, a: Attempt)
    requires a.k < |cur.candidates| && a.st.queries == st.queries + AllowedBefore(cfg, cur, a.k)
    ensures var log := Send(cfg, a.st, cur, cur.candidates[a.k]).log;
            && |log| == |a.st.log| + 1 && a.st.log <= log && log[|a.st.log|].server == cur.candidates[a.k]
            && log[|a.st.log|].reply == ReplyOf(cfg, st, cur, a.k)
  {}

  /** The attempt after candidate a.k was asked in vain. */
  function AskedInVain(cfg: Config, cur: Cursor, parent: Option<nat>, a: Attempt, late: bool): Attempt
    requires a.k < |cur.candidates|
  {
    var server := cur.candidates[a.k];
    var hop := ErrorHop(|a.st.hops|, parent, server, cur, if late then TimeoutCode else FailedCode);
    Attempt(Send(cfg, a.st, cur, server), a.k + 1, hop, if late then a.timeouts + 1 else a.timeouts,
            if late then ErrTimeout else ErrOther)
  }

  lemma TryAsks(cfg: Config, st: State, cur: Cursor, parent: Option<nat>, a: Attempt)
    requires Tracks(cfg, st, cur, a) && a.k < |cur.candidates|
    requires FateOf(cfg, st, cur, a.k).Late? || FateOf(cfg, st, cur, a.k).Lost?
    ensures Try(cfg, cur, parent, a) == Next(AskedInVain(cfg, cur, parent, a, FateOf(cfg, st, cur, a.k).Late?))
  {
    hide Logged, KeyBefore, Send, AllGoBy, ErrSoFar, CodeSoFar;
  }

  lemma FateAllows(cfg: Config, st: State, cur: Cursor, k: nat)
    requires k < |cur.candidates| && (FateOf(cfg, st, cur, k).Late? || FateOf(cfg, st, cur, k).Lost?)
    ensures cfg.allow(cur.candidates[k].ip)
  {}

  lemma TryAsked(cfg: Config, st: State, cur: Cursor, parent: Option<nat>, a: Attempt)
    requires Tracks(cfg, st, cur, a) && a.k < |cur.candidates|
    requires FateOf(cfg, st, cur, a.k).Late? || FateOf(cfg, st, cur, a.k).Lost?
    ensures Tracks(cfg, st, cur, AskedInVain(cfg, cur, parent, a, FateOf(cfg, st, cur, a.k).Late?))
  {
    hide Logged, KeyBefore, Send, FateOf, AllGoBy, AllowedBefore, ErrSoFar, CodeSoFar, VisitedKey;
    FateAllows(cfg, st, cur, a.k);
    SendTracks(cfg, st, cur, a);
    FateStep(cfg, st, cur, a.k);
  }

  lemma TryEnds(cfg: Config, st: State, cur: Cursor, parent: Option<nat>, a: Attempt)
    requires Tracks(cfg, st, cur, a) && a.k < |cur.candidates| && !GoesBy(FateOf(cfg, st, cur, a.k))
    ensures match Try(cfg, cur, parent, a)
            case Done(asked) => Comes(cfg, st, cur, a.k, asked)
            case Next(_) => false
  {
    hide Logged, KeyBefore, Send;
  }

  /** One iteration decides the fate of its candidate. */
  lemma TryFate(cfg: Config, st: State, cur: Cursor, parent: Option<nat>, a: Attempt)
    requires Tracks(cfg, st, cur, a) && a.k < |cur.candidates|
    ensures match Try(cfg, cur, parent, a)
            case Done(asked) => !GoesBy(FateOf(cfg, st, cur, a.k)) && Comes(cfg, st, cur, a.k, asked)
            case Next(next) => GoesBy(FateOf(cfg, st, cur, a.k)) && next.k == a.k + 1 && Tracks(cfg, st, cur, next)
  {
    hide Tracks, Try, Comes, FateOf;
    match FateOf(cfg, st, cur, a.k)
    case Blocked => TryBlocked(cfg, st, cur, parent, a);
    case Late => TryAsks(cfg, st, cur, parent, a); TryAsked(cfg, st, cur, parent, a);
    case Lost => TryAsks(cfg, st, cur, parent, a); TryAsked(cfg, st, cur, parent, a);
    case _ => TryEnds(cfg, st, cur, parent, a);
  }

  /** A call ends at the first candidate that the loop does not go by, and comes to what the fates say. */
  lemma {:induction false} CallEnds(cfg: Config, st: State, cur: Cursor, parent: Option<nat>, a: Attempt)
    returns (f: nat)
    requires Tracks(cfg, st, cur, a)
    ensures EndsAt(cfg, st, cur, f) && Comes(cfg, st, cur, f, Ask(cfg, cur, parent, a))
    decreases |cur.candidates| - a.k
  {
    f := a.k;
    if a.k < |cur.candidates| {
      TryFate(cfg, st, cur, parent, a);
      hide Try, Comes, FateOf;
      match Try(cfg, cur, parent, a)
      case Done(_) =>
      case Next(next) => f := CallEnds(cfg, st, cur, parent, next);
    }
  }

  // ---- When a call times out ----

  lemma EndIsUnique(cfg: Config, st: State, cur: Cursor, f: nat, g: nat)
    requires EndsAt(cfg, st, cur, f) && EndsAt(cfg, st, cur, g)
    ensures f == g
  {
    hide FateOf;
  }

  /** The loop runs through all candidates. */
  predicate Exhausts(cfg: Config, st: State, cur: Cursor) {
    AllGoBy(cfg, st, cur, |cur.candidates|)
  }

  /** The last candidate has the given fate. */
  predicate LastIs(cfg: Config, st: State, cur: Cursor, fate: Fate) {
    cur.candidates != [] && FateOf(cfg, st, cur, |cur.candidates| - 1) == fate
  }

  /** The loop stops at a candidate of the given fate. */
  predicate StopsFor(cfg: Config, st: State, cur: Cursor, fate: Fate) {
    exists f: nat :: f < |cur.candidates| && AllGoBy(cfg, st, cur, f) && FateOf(cfg, st, cur, f) == fate
        && !GoesBy(fate)
  }

  /** A call fails with the timeout error exactly when the loop runs through all candidates and the last one is late. */
  lemma TimeoutExactlyWhen(cfg: Config, st: State, cur: Cursor, parent: Option<nat>)
    requires st.queries <= cfg.maxQueries
    ensures var r := Ask(cfg, cur, parent, FirstAttempt(st));
            r.Failed? && r.err == ErrTimeout <==> Exhausts(cfg, st, cur) && LastIs(cfg, st, cur, Late)
  {
    FirstTracks(cfg, st, cur);
    var f := CallEnds(cfg, st, cur, parent, FirstAttempt(st));
    hide Ask, FateOf, Logged, CodeSoFar;
  }

  lemma {:induction false} AllAllowed(cfg: Config, cur: Cursor, k: nat)
    requires k <= |cur.candidates|
    ensures AllowedBefore(cfg, cur, k) <= k
    ensures AllowedBefore(cfg, cur, k) == k <==> forall i: nat :: i < k ==> cfg.allow(cur.candidates[i].ip)
  {
    if k > 0 {
      AllAllowed(cfg, cur, k - 1);
    }
  }

  /** The exchanges of the call are one with every candidate in turn, and each of them ran into its deadline. */
  ghost predicate AllTimedOut(st: State, cur: Cursor, log: seq<Sent>) {
    && |log| == |st.log| + |cur.candidates|
    && forall i: nat :: i < |cur.candidates| ==> TimedOutAt(st, cur, log, i)
  }

  ghost predicate TimedOutAt(st: State, cur: Cursor, log: seq<Sent>, i: nat)
    requires i < |cur.candidates| && |log| == |st.log| + |cur.candidates|
  {
    log[|st.log| + i].server == cur.candidates[i] && log[|st.log| + i].reply == Deadline
  }

  /** The policy lets candidate i be asked, and the exchange with it, as the i-th of the call, does not break. */
  predicate AllowedAndUnbroken(cfg: Config, st: State, cur: Cursor, i: nat)
    requires i < |cur.candidates|
  {
    && cfg.allow(cur.candidates[i].ip)
    && Exchange(cfg, st.queries + i, cur.candidates[i].endpoint, cur.qname, cur.qtype).reply != Broken
  }

  /**
   * When the message of a timeout, that all candidates timed out, is true: exactly when the policy allows every
   * candidate and the network breaks no exchange with any of them.
   */
  lemma TimeoutIsAllExactlyWhen(cfg: Config, st: State, cur: Cursor, parent: Option<nat>)
    requires st.queries <= cfg.maxQueries
    ensures var r := Ask(cfg, cur, parent, FirstAttempt(st));
            r.Failed? && r.err == ErrTimeout ==>
              (AllTimedOut(st, cur, r.st.log)
               <==> forall i: nat :: i < |cur.candidates| ==> AllowedAndUnbroken(cfg, st, cur, i))
  {
    hide Ask, Exhausts, Logged, AllowedAndUnbroken, TimedOutAt;
    var r, n := Ask(cfg, cur, parent, FirstAttempt(st)), |cur.candidates|;
    if r.Failed? && r.err == ErrTimeout {
      TimeoutLogs(cfg, st, cur, parent);
      LoggedLength(cfg, st, cur, n, r.st.log);
      AllAllowed(cfg, cur, n);
      if i: nat :| i < n && !cfg.allow(cur.candidates[i].ip) {
        BlockedIsNot(cfg, st, cur, i);
      } else {
        AskedInOrder(cfg, st, cur, r.st.log);
      }
    }
  }

  lemma TimeoutLogs(cfg: Config, st: State, cur: Cursor, parent: Option<nat>)
    requires st.queries <= cfg.maxQueries
    ensures var r := Ask(cfg, cur, parent, FirstAttempt(st));
            r.Failed? && r.err == ErrTimeout ==>
              Exhausts(cfg, st, cur) && Logged(cfg, st, cur, |cur.candidates|, r.st.log)
  {
    FirstTracks(cfg, st, cur);
    var f := CallEnds(cfg, st, cur, parent, FirstAttempt(st));
    hide Ask, FateOf, Logged, CodeSoFar;
  }

  /** timeout: the last exchange of the call was with the last candidate, and ran into its deadline. */
  lemma TimeoutMeansLast(cfg: Config, st: State, cur: Cursor, parent: Option<nat>)
    requires st.queries <= cfg.maxQueries
    ensures var r := Ask(cfg, cur, parent, FirstAttempt(st)); var log := r.st.log;
            r.Failed? && r.err == ErrTimeout ==>
              && cur.candidates != [] && |log| > |st.log|
              && log[|log| - 1].server == cur.candidates[|cur.candidates| - 1] && log[|log| - 1].reply == Deadline
  {
    hide Ask, Exhausts, Logged, LastIs;
    TimeoutLogs(cfg, st, cur, parent);
    TimeoutExactlyWhen(cfg, st, cur, parent);
    var r := Ask(cfg, cur, parent, FirstAttempt(st));
    if r.Failed? && r.err == ErrTimeout {
      LateIsLast(cfg, st, cur, r.st.log);
    }
  }

  lemma LateReplies(cfg: Config, st: State, cur: Cursor, k: nat)
    requires k < |cur.candidates| && FateOf(cfg, st, cur, k).Late?
    ensures cfg.allow(cur.candidates[k].ip) && ReplyOf(cfg, st, cur, k) == Deadline
  {}

  lemma LateIsLast(cfg: Config, st: State, cur: Cursor, log: seq<Sent>)
    requires LastIs(cfg, st, cur, Late) && Logged(cfg, st, cur, |cur.candidates|, log)
    ensures cur.candidates != [] && |log| > |st.log|
    ensures log[|log| - 1].server == cur.candidates[|cur.candidates| - 1] && log[|log| - 1].reply == Deadline
  {
    var last := |cur.candidates| - 1;
    LateReplies(cfg, st, cur, last);
    hide FateOf, ReplyOf, LastIs;
    assert IsLogged(cfg, st, cur, last, log);
  }

  lemma BlockedIsNot(cfg: Config, st: State, cur: Cursor, i: nat)
    requires i < |cur.candidates| && !cfg.allow(cur.candidates[i].ip)
    ensures !AllowedAndUnbroken(cfg, st, cur, i)
  {}

  lemma LoggedLength(cfg: Config, st: State, cur: Cursor, k: nat, log: seq<Sent>)
    requires k <= |cur.candidates| && Logged(cfg, st, cur, k, log)
    ensures |log| == |st.log| + AllowedBefore(cfg, cur, k)
  {}

  /** If no candidate is blocked, candidate i is asked in the i-th exchange of the call. */
  lemma AskedInOrder(cfg: Config, st: State, cur: Cursor, log: seq<Sent>)
    requires Exhausts(cfg, st, cur) && Logged(cfg, st, cur, |cur.candidates|, log)
    requires forall i: nat :: i < |cur.candidates| ==> cfg.allow(cur.candidates[i].ip)
    ensures |log| == |st.log| + |cur.candidates|
    ensures forall i: nat :: i < |cur.candidates| ==>
              TimedOutAt(st, cur, log, i) == AllowedAndUnbroken(cfg, st, cur, i)
  {
    hide TimedOutAt, AllowedAndUnbroken, FateOf, IsLogged, GoesBy;
    AllAllowed(cfg, cur, |cur.candidates|);
    forall i: nat | i < |cur.candidates| ensures TimedOutAt(st, cur, log, i) == AllowedAndUnbroken(cfg, st, cur, i) {
      AllAllowed(cfg, cur, i);
      OneAsked(cfg, st, cur, log, i);
    }
  }

  lemma OneAsked(cfg: Config, st: State, cur: Cursor, log: seq<Sent>, i: nat)
    requires i < |cur.candidates| && |log| == |st.log| + |cur.candidates|
    requires cfg.allow(cur.candidates[i].ip) && AllowedBefore(cfg, cur, i) == i
    requires GoesBy(FateOf(cfg, st, cur, i)) && IsLogged(cfg, st, cur, i, log)
    ensures TimedOutAt(st, cur, log, i) == AllowedAndUnbroken(cfg, st, cur, i)
  {
    hide KeyBefore, CandidateKey;
  }
}
