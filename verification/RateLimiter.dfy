/**
 * The per-client limiter table of the server: a cache of token buckets that must agree with a table that never evicts.
 */
module RateLimiter {

  const MINUTE: nat := 60_000_000_000
  const LIMITER_TTL: nat := 15 * MINUTE
  const CLEANUP_INTERVAL: nat := 5 * MINUTE

  /** One token per interval of nanoseconds, at most burst of them. */
  datatype Params = Params(interval: nat, burst: nat)

  /** The defaults of NewServer. */
  function NewParams(rateLimitPerMinute: nat, burst: nat): Params {
    var perMinute := if rateLimitPerMinute == 0 then 20 else rateLimitPerMinute;
    Params(MINUTE / perMinute, if burst == 0 then 5 else burst)
  }

  /** A rate.Limiter with its tokens counted in nanoseconds of refill: credit is what it held at time last. */
  datatype Bucket = Bucket(credit: nat, last: nat)

  function Capacity(p: Params): nat { p.burst * p.interval }

  function Full(p: Params, now: nat): Bucket { Bucket(Capacity(p), now) }

  function CreditAt(p: Params, b: Bucket, now: nat): nat {
    var credit := if b.last <= now then b.credit + (now - b.last) else b.credit;
    if credit <= Capacity(p) then credit else Capacity(p)
  }

  /** Limiter.Allow: spend one interval of credit, or change nothing. */
  function Allow(p: Params, b: Bucket, now: nat): (bool, Bucket) {
    var credit := CreditAt(p, b, now);
    if p.interval <= credit && 1 <= p.burst then (true, Bucket(credit - p.interval, now)) else (false, b)
  }

  datatype Entry = Entry(bucket: Bucket, lastSeen: nat)

  datatype Table = Table(limiters: map<string, Entry>, lastCleanup: nat)

  /** cleanupLimiters */
  function Cleanup(limiters: map<string, Entry>, now: nat): map<string, Entry> {
    map key | key in limiters && now - limiters[key].lastSeen <= LIMITER_TTL :: limiters[key]
  }

  /** limiterFor: the table after it, in which the key has an entry seen now. */
  function LimiterFor(p: Params, t: Table, now: nat, key: string): Table {
    var t' := if now - t.lastCleanup >= CLEANUP_INTERVAL then Table(Cleanup(t.limiters, now), now) else t;
    var bucket := if key in t'.limiters then t'.limiters[key].bucket else Full(p, now);
    t'.(limiters := t'.limiters[key := Entry(bucket, now)])
  }

  /** One request: limiterFor, then Allow on the limiter it returns. */
  function Admit(p: Params, t: Table, now: nat, key: string): (bool, Table) {
    var t' := LimiterFor(p, t, now, key);
    var (ok, bucket) := Allow(p, t'.limiters[key].bucket, now);
    (ok, t'.(limiters := t'.limiters[key := Entry(bucket, now)]))
  }

  datatype Request = Request(now: nat, key: string)

  /** The answers to a run of requests. */
  function Answers(p: Params, t: Table, requests: seq<Request>): (r: seq<bool>)
    ensures |r| == |requests|
    decreases |requests|
  {
    if requests == [] then []
    else
      var (ok, t') := Admit(p, t, requests[0].now, requests[0].key);
      [ok] + Answers(p, t', requests[1..])
  }

  /** The table that never evicts. */
  type Forever = map<string, Bucket>

  function BucketOf(p: Params, f: Forever, now: nat, key: string): Bucket {
    if key in f then f[key] else Full(p, now)
  }

  function AdmitForever(p: Params, f: Forever, now: nat, key: string): (bool, Forever) {
    var (ok, bucket) := Allow(p, BucketOf(p, f, now, key), now);
    (ok, f[key := bucket])
  }

  function AnswersForever(p: Params, f: Forever, requests: seq<Request>): (r: seq<bool>)
    ensures |r| == |requests|
    decreases |requests|
  {
    if requests == [] then []
    else
      var (ok, f') := AdmitForever(p, f, requests[0].now, requests[0].key);
      [ok] + AnswersForever(p, f', requests[1..])
  }

  predicate Monotone(start: nat, requests: seq<Request>)
    decreases |requests|
  {
    requests == [] || (start <= requests[0].now && Monotone(requests[0].now, requests[1..]))
  }

  /** A fresh server at the given time. */
  function NewTable(start: nat): Table { Table(map[], start) }

  /** The server's fields that the limiter uses. */
  class Limiters {
    const p: Params
    var limiters: map<string, Entry>
    var lastLimiterCleanup: nat

    constructor (rateLimitPerMinute: nat, burst: nat, now: nat)
      ensures p == NewParams(rateLimitPerMinute, burst) && Contents() == NewTable(now)
    {
      p := NewParams(rateLimitPerMinute, burst);
      limiters, lastLimiterCleanup := map[], now;
    }

    function Contents(): Table
      reads this
    {
      Table(limiters, lastLimiterCleanup)
    }

    method CleanupLimiters(now: nat)
      modifies this`limiters
      ensures limiters == Cleanup(old(limiters), now)
    {
      ghost var before := limiters;
      var keys := limiters.Keys;
      while keys != {}
        invariant keys <= before.Keys
        invariant limiters.Keys <= before.Keys && forall key :: key in limiters ==> limiters[key] == before[key]
        invariant forall key :: key in before ==>
                    (key in limiters <==> key in keys || now - before[key].lastSeen <= LIMITER_TTL)
        decreases |keys|
      {
        var key :| key in keys;
        keys := keys - {key};
        if now - limiters[key].lastSeen > LIMITER_TTL {
          limiters := limiters - {key};
        }
      }
    }

    method LimiterForKey(now: nat, key: string)
      modifies this
      ensures Contents() == LimiterFor(p, old(Contents()), now, key)
    {
      if now - lastLimiterCleanup >= CLEANUP_INTERVAL {
        CleanupLimiters(now);
        lastLimiterCleanup := now;
      }
      if key in limiters {
        limiters := limiters[key := limiters[key].(lastSeen := now)];
      } else {
        limiters := limiters[key := Entry(Full(p, now), now)];
      }
    }

    /** createTrace's use of the limiter. */
    method Request(now: nat, key: string) returns (ok: bool)
      modifies this
      ensures ok == Admit(p, old(Contents()), now, key).0
      ensures Contents() == Admit(p, old(Contents()), now, key).1
    {
      LimiterForKey(now, key);
      var spent := Allow(p, limiters[key].bucket, now);
      ok := spent.0;
      limiters := limiters[key := limiters[key].(bucket := spent.1)];
    }
  }

  // ---- Eviction is unobservable ----

  /** The bucket is full from now on. */
  predicate FullFrom(p: Params, b: Bucket, now: nat) {
    b.last <= now && b.credit + (now - b.last) >= Capacity(p)
  }

  /** The two tables agree: the same bucket for a key the table holds, and a full one for a key it lacks. */
  ghost predicate Agree(p: Params, t: Table, f: Forever, now: nat) {
    && (forall key :: key in t.limiters ==>
          key in f && f[key] == t.limiters[key].bucket && f[key].last <= t.limiters[key].lastSeen <= now)
    && (forall key :: key in f && key !in t.limiters ==> FullFrom(p, f[key], now))
  }

  lemma AgreeLater(p: Params, t: Table, f: Forever, now: nat, later: nat)
    requires Agree(p, t, f, now) && now <= later
    ensures Agree(p, t, f, later)
  {}

  /** Evicting a key that was idle for longer than the TTL forgets nothing when a bucket refills within the TTL. */
  lemma CleanupAgrees(p: Params, t: Table, f: Forever, now: nat)
    requires Agree(p, t, f, now) && Capacity(p) <= LIMITER_TTL + 1
    ensures Agree(p, Table(Cleanup(t.limiters, now), now), f, now)
  {}

  lemma AllowAgrees(p: Params, b: Bucket, now: nat)
    requires FullFrom(p, b, now)
    ensures CreditAt(p, b, now) == Capacity(p) == CreditAt(p, Full(p, now), now)
    ensures Allow(p, b, now).0 == Allow(p, Full(p, now), now).0 == (p.burst >= 1)
    ensures p.burst >= 1 ==> Allow(p, b, now) == Allow(p, Full(p, now), now)
  {}

  /** Spending from the limiter of a key keeps two tables that agree in agreement. */
  lemma SpendAgrees(p: Params, t: Table, f: Forever, now: nat, key: string)
    requires Agree(p, t, f, now) && p.burst >= 1
    ensures var bucket := if key in t.limiters then t.limiters[key].bucket else Full(p, now);
            var (ok, spent) := Allow(p, bucket, now); var (ok', f') := AdmitForever(p, f, now, key);
            ok == ok' && Agree(p, t.(limiters := t.limiters[key := Entry(spent, now)]), f', now)
  {
    if key !in t.limiters && key in f {
      AllowAgrees(p, f[key], now);
    }
    hide Capacity, CreditAt;
  }

  lemma AdmitAgrees(p: Params, t: Table, f: Forever, now: nat, key: string)
    requires Agree(p, t, f, now) && Capacity(p) <= LIMITER_TTL + 1 && p.burst >= 1
    ensures var (ok, t') := Admit(p, t, now, key); var (ok', f') := AdmitForever(p, f, now, key);
            ok == ok' && Agree(p, t', f', now)
  {
    CleanupAgrees(p, t, f, now);
    hide Capacity, Cleanup, Allow, AdmitForever, Agree;
    var cleaned := if now - t.lastCleanup >= CLEANUP_INTERVAL then Table(Cleanup(t.limiters, now), now) else t;
    SpendAgrees(p, cleaned, f, now, key);
    var bucket := if key in cleaned.limiters then cleaned.limiters[key].bucket else Full(p, now);
    var spent := Allow(p, bucket, now).1;
    var limiters := cleaned.limiters;
    assert limiters[key := Entry(bucket, now)][key := Entry(spent, now)] == limiters[key := Entry(spent, now)];
  }

  lemma {:induction false} EvictionUnseen(p: Params, t: Table, f: Forever, start: nat, requests: seq<Request>)
    requires Agree(p, t, f, start) && Monotone(start, requests) && Capacity(p) <= LIMITER_TTL + 1 && p.burst >= 1
    ensures Answers(p, t, requests) == AnswersForever(p, f, requests)
    decreases |requests|
  {
    hide Agree, Admit, AdmitForever, Capacity;
    if requests != [] {
      var now, key := requests[0].now, requests[0].key;
      AgreeLater(p, t, f, start, now);
      AdmitAgrees(p, t, f, now, key);
      EvictionUnseen(p, Admit(p, t, now, key).1, AdmitForever(p, f, now, key).1, now, requests[1..]);
    }
  }

  // ---- What a bucket can pay for ----

  function Admitted(requests: seq<Request>, answers: seq<bool>, key: string): nat
    requires |answers| == |requests|
  {
    if requests == [] then 0
    else (if requests[0].key == key && answers[0] then 1 else 0) + Admitted(requests[1..], answers[1..], key)
  }

  function LastTime(start: nat, requests: seq<Request>): nat {
    if requests == [] then start else requests[|requests| - 1].now
  }

  lemma CreditGrows(p: Params, f: Forever, key: string, start: nat, now: nat)
    requires start <= now
    ensures CreditAt(p, BucketOf(p, f, now, key), now) <= CreditAt(p, BucketOf(p, f, start, key), start) + (now - start)
  {}

  /** One request spends an interval of its own key's credit if it is admitted, and nothing otherwise. */
  lemma CreditSpent(p: Params, f: Forever, now: nat, asked: string, key: string)
    ensures var (ok, f') := AdmitForever(p, f, now, asked);
            CreditAt(p, BucketOf(p, f', now, key), now) + (if asked == key && ok then p.interval else 0)
            <= CreditAt(p, BucketOf(p, f, now, key), now)
  {}

  /** Admissions of a key cost one interval of credit each; time refills the bucket and nothing else does. */
  lemma {:induction false} CreditPays(p: Params, f: Forever, start: nat, requests: seq<Request>, key: string)
    requires Monotone(start, requests)
    ensures start <= LastTime(start, requests)
    ensures Admitted(requests, AnswersForever(p, f, requests), key) * p.interval
            <= CreditAt(p, BucketOf(p, f, start, key), start) + (LastTime(start, requests) - start)
    decreases |requests|
  {
    hide CreditAt, BucketOf, AdmitForever;
    if requests != [] {
      var now := requests[0].now;
      var (ok, f') := AdmitForever(p, f, now, requests[0].key);
      CreditGrows(p, f, key, start, now);
      CreditSpent(p, f, now, requests[0].key, key);
      CreditPays(p, f', now, requests[1..], key);
      var rest := Admitted(requests[1..], AnswersForever(p, f', requests[1..]), key);
      assert AnswersForever(p, f, requests)[1..] == AnswersForever(p, f', requests[1..]);
      assert (1 + rest) * p.interval == p.interval + rest * p.interval;
      assert LastTime(now, requests[1..]) == LastTime(start, requests);
    }
  }

  lemma {:induction false} CreditIsCapped(p: Params, b: Bucket, now: nat)
    ensures CreditAt(p, b, now) <= Capacity(p)
  {}

  function After(p: Params, f: Forever, requests: seq<Request>): Forever
    decreases |requests|
  {
    if requests == [] then f
    else After(p, AdmitForever(p, f, requests[0].now, requests[0].key).1, requests[1..])
  }

  lemma {:induction false} AnswersSplit(p: Params, f: Forever, requests: seq<Request>, i: nat)
    requires i <= |requests|
    ensures AnswersForever(p, f, requests)[i..] == AnswersForever(p, After(p, f, requests[..i]), requests[i..])
    decreases i
  {
    if i == 0 {
      assert requests[0..] == requests;
    } else {
      hide AdmitForever;
      var f' := AdmitForever(p, f, requests[0].now, requests[0].key).1;
      AnswersSplit(p, f', requests[1..], i - 1);
      assert requests[1..][i - 1..] == requests[i..];
      assert requests[..i][1..] == requests[1..][..i - 1];
    }
  }

  lemma {:induction false} AnswersPrefix(p: Params, f: Forever, requests: seq<Request>, j: nat)
    requires j <= |requests|
    ensures AnswersForever(p, f, requests)[..j] == AnswersForever(p, f, requests[..j])
    decreases j
  {
    if j > 0 {
      hide AdmitForever;
      var f' := AdmitForever(p, f, requests[0].now, requests[0].key).1;
      AnswersPrefix(p, f', requests[1..], j - 1);
      assert requests[..j][1..] == requests[1..][..j - 1];
    }
  }

  lemma {:induction false} MonotoneSlice(start: nat, requests: seq<Request>, i: nat, j: nat)
    requires Monotone(start, requests) && i < j <= |requests|
    ensures Monotone(requests[i].now, requests[i..j])
    decreases |requests|
  {
    if i > 0 {
      MonotoneSlice(requests[0].now, requests[1..], i - 1, j - 1);
      assert requests[1..][i - 1..j - 1] == requests[i..j];
    } else {
      MonotonePrefix(requests[0].now, requests, j);
      assert requests[0..j] == requests[..j];
    }
  }

  lemma {:induction false} MonotonePrefix(start: nat, requests: seq<Request>, j: nat)
    requires Monotone(start, requests) && j <= |requests|
    ensures Monotone(start, requests[..j])
    decreases j
  {
    if j > 0 {
      MonotonePrefix(requests[0].now, requests[1..], j - 1);
      assert requests[..j][1..] == requests[1..][..j - 1];
    }
  }

  /** The answers in a window are those that the table after the requests before it gives. */
  lemma AnswersSlice(p: Params, f: Forever, requests: seq<Request>, i: nat, j: nat)
    requires i <= j <= |requests|
    ensures AnswersForever(p, f, requests)[i..j] == AnswersForever(p, After(p, f, requests[..i]), requests[i..j])
  {
    hide AnswersForever, After;
    AnswersPrefix(p, f, requests, j);
    AnswersSplit(p, f, requests[..j], i);
    var answers := AnswersForever(p, f, requests);
    assert answers[i..j] == answers[..j][i..];
    assert requests[..j][..i] == requests[..i] && requests[..j][i..] == requests[i..j];
  }

  /**
   * Admissions of one key in any window of a run of the real table, from request i to before request j, are at most
   * burst + T / interval for a window of length T, provided that a bucket refills within the TTL.
   */
  lemma WindowBound(p: Params, start: nat, requests: seq<Request>, key: string, i: nat, j: nat)
    requires Monotone(start, requests) && i < j <= |requests|
    requires Capacity(p) <= LIMITER_TTL + 1 && p.burst >= 1
    ensures var window := requests[j - 1].now - requests[i].now;
            var answers := Answers(p, NewTable(start), requests)[i..j];
            Admitted(requests[i..j], answers, key) * p.interval <= p.burst * p.interval + window
  {
    EvictionUnseen(p, NewTable(start), map[], start, requests);
    hide Answers, AnswersForever, After, CreditAt, Admitted, Monotone;
    AnswersSlice(p, map[], requests, i, j);
    MonotoneSlice(start, requests, i, j);
    var f := After(p, map[], requests[..i]);
    CreditPays(p, f, requests[i].now, requests[i..j], key);
    CreditIsCapped(p, BucketOf(p, f, requests[i].now, key), requests[i].now);
  }

  // ---- The exact condition ----

  function Repeat(now: nat, key: string, n: nat): (r: seq<Request>)
    ensures |r| == n && forall i :: 0 <= i < n ==> r[i] == Request(now, key)
  {
    seq(n, _ => Request(now, key))
  }

  function AfterReal(p: Params, t: Table, requests: seq<Request>): Table
    decreases |requests|
  {
    if requests == [] then t
    else AfterReal(p, Admit(p, t, requests[0].now, requests[0].key).1, requests[1..])
  }

  lemma Prepend(x: bool, a: seq<bool>, b: seq<bool>)
    ensures [x] + (a + b) == ([x] + a) + b
  {}

  lemma {:induction false} AnswersJoin(p: Params, t: Table, first: seq<Request>, second: seq<Request>)
    ensures Answers(p, t, first + second) == Answers(p, t, first) + Answers(p, AfterReal(p, t, first), second)
    decreases |first|
  {
    if first == [] {
      assert first + second == second;
    } else {
      hide Admit;
      var (ok, t') := Admit(p, t, first[0].now, first[0].key);
      AnswersJoin(p, t', first[1..], second);
      assert (first + second)[1..] == first[1..] + second;
      Prepend(ok, Answers(p, t', first[1..]), Answers(p, AfterReal(p, t, first), second));
    }
  }

  lemma {:induction false} AnswersForeverJoin(p: Params, f: Forever, first: seq<Request>, second: seq<Request>)
    ensures AnswersForever(p, f, first + second)
            == AnswersForever(p, f, first) + AnswersForever(p, After(p, f, first), second)
    decreases |first|
  {
    if first == [] {
      assert first + second == second;
    } else {
      hide AdmitForever;
      var (ok, f') := AdmitForever(p, f, first[0].now, first[0].key);
      AnswersForeverJoin(p, f', first[1..], second);
      assert (first + second)[1..] == first[1..] + second;
      Prepend(ok, AnswersForever(p, f', first[1..]), AnswersForever(p, After(p, f, first), second));
    }
  }

  /** The credit of a key when it is asked for. */
  function KeyCredit(p: Params, t: Table, now: nat, key: string): nat {
    CreditAt(p, LimiterFor(p, t, now, key).limiters[key].bucket, now)
  }

  /** One request that can be paid for is admitted and costs one interval. */
  lemma AdmitSpends(p: Params, t: Table, now: nat, key: string)
    requires t.lastCleanup <= now && p.burst >= 1 && p.interval <= KeyCredit(p, t, now, key)
    ensures var (ok, t') := Admit(p, t, now, key);
            && ok && t'.lastCleanup <= now && KeyCredit(p, t', now, key) == KeyCredit(p, t, now, key) - p.interval
            && key in t'.limiters && t'.limiters[key].lastSeen == now
            && t'.lastCleanup == LimiterFor(p, t, now, key).lastCleanup == LimiterFor(p, t', now, key).lastCleanup
  {
    hide Capacity, Cleanup;
  }

  lemma OneMore(n: nat, x: nat)
    requires n > 0
    ensures n * x == x + (n - 1) * x && x <= n * x
  {}

  /** A flood of n requests of one key at one time passes the real table when its bucket can pay for it. */
  lemma {:induction false} FloodPasses(p: Params, t: Table, now: nat, key: string, n: nat)
    requires t.lastCleanup <= now && p.burst >= 1 && n * p.interval <= KeyCredit(p, t, now, key)
    ensures forall i :: 0 <= i < n ==> Answers(p, t, Repeat(now, key, n))[i]
    ensures n > 0 ==>
              var t' := AfterReal(p, t, Repeat(now, key, n));
              && key in t'.limiters && t'.limiters[key].lastSeen == now
              && t'.lastCleanup == LimiterFor(p, t, now, key).lastCleanup
    decreases n
  {
    hide Admit, LimiterFor, KeyCredit;
    if n > 0 {
      OneMore(n, p.interval);
      AdmitSpends(p, t, now, key);
      var (ok, t') := Admit(p, t, now, key);
      var requests := Repeat(now, key, n);
      assert requests[1..] == Repeat(now, key, n - 1);
      FloodPasses(p, t', now, key, n - 1);
      forall i | 0 <= i < n ensures Answers(p, t, requests)[i] {
        assert i > 0 ==> Answers(p, t, requests)[i] == Answers(p, t', requests[1..])[i - 1];
      }
    }
  }

  lemma {:induction false} FloodDrains(p: Params, f: Forever, now: nat, key: string, n: nat)
    requires p.burst >= 1 && n * p.interval <= CreditAt(p, BucketOf(p, f, now, key), now)
    ensures n > 0 ==>
              var f' := After(p, f, Repeat(now, key, n));
              key in f' && f'[key] == Bucket(CreditAt(p, BucketOf(p, f, now, key), now) - n * p.interval, now)
    decreases n
  {
    if n > 0 {
      hide Capacity;
      assert n * p.interval == p.interval + (n - 1) * p.interval;
      var (ok, f') := AdmitForever(p, f, now, key);
      assert Repeat(now, key, n)[1..] == Repeat(now, key, n - 1);
      FloodDrains(p, f', now, key, n - 1);
    }
  }

  lemma {:induction false} AllAdmitted(now: nat, key: string, answers: seq<bool>)
    requires forall i :: 0 <= i < |answers| ==> answers[i]
    ensures Admitted(Repeat(now, key, |answers|), answers, key) == |answers|
    decreases |answers|
  {
    if answers != [] {
      assert Repeat(now, key, |answers|)[1..] == Repeat(now, key, |answers| - 1);
      AllAdmitted(now, key, answers[1..]);
    }
  }

  lemma {:induction false} RepeatIsMonotone(start: nat, now: nat, key: string, n: nat, second: seq<Request>)
    requires start <= now && Monotone(now, second)
    ensures Monotone(start, Repeat(now, key, n) + second)
    decreases n
  {
    if n == 0 {
      assert Repeat(now, key, n) + second == second;
    } else {
      RepeatIsMonotone(now, now, key, n - 1, second);
      assert (Repeat(now, key, n) + second)[1..] == Repeat(now, key, n - 1) + second;
    }
  }

  function Floods(p: Params): seq<Request> {
    Repeat(0, "", p.burst) + Repeat(LIMITER_TTL + 1, "", p.burst)
  }

  /** A drained bucket that takes longer than the TTL to refill cannot pay for a second flood one TTL later. */
  lemma SecondFloodRefused(p: Params)
    requires p.burst >= 1 && Capacity(p) > LIMITER_TTL + 1
    ensures var f := After(p, map[], Repeat(0, "", p.burst));
            var answers := AnswersForever(p, f, Repeat(LIMITER_TTL + 1, "", p.burst));
            exists i :: 0 <= i < p.burst && !answers[i]
  {
    var later := LIMITER_TTL + 1;
    var f, second := After(p, map[], Repeat(0, "", p.burst)), Repeat(later, "", p.burst);
    FloodDrains(p, map[], 0, "", p.burst);
    assert second + [] == second && Repeat(later, "", 0) == [];
    RepeatIsMonotone(later, later, "", p.burst, []);
    CreditPays(p, f, later, second, "");
    var answers := AnswersForever(p, f, second);
    if forall i :: 0 <= i < p.burst ==> answers[i] {
      AllAdmitted(later, "", answers);
    }
  }

  lemma SuffixesDiffer(a: seq<bool>, b: seq<bool>, c: seq<bool>, d: seq<bool>, i: nat)
    requires |a| == |c| && |b| == |d| && i < |b| && b[i] != d[i]
    ensures a + b != c + d
  {
    assert (a + b)[|a| + i] == b[i] && (c + d)[|a| + i] == d[i];
  }

  /** If a bucket takes longer than the TTL to refill, two floods that are just one TTL apart tell the tables apart. */
  lemma EvictionSeen(p: Params)
    requires p.burst >= 1 && Capacity(p) > LIMITER_TTL + 1
    ensures Monotone(0, Floods(p))
    ensures Answers(p, NewTable(0), Floods(p)) != AnswersForever(p, map[], Floods(p))
  {
    var later := LIMITER_TTL + 1;
    var first, second := Repeat(0, "", p.burst), Repeat(later, "", p.burst);
    assert second + [] == second;
    RepeatIsMonotone(0, later, "", p.burst, []);
    RepeatIsMonotone(0, 0, "", p.burst, second);
    AnswersJoin(p, NewTable(0), first, second);
    AnswersForeverJoin(p, map[], first, second);
    FloodPasses(p, NewTable(0), 0, "", p.burst);
    var t, f := AfterReal(p, NewTable(0), first), After(p, map[], first);
    FloodPasses(p, t, later, "", p.burst);
    SecondFloodRefused(p);
    hide Answers, AnswersForever, AfterReal, After;
    var answers := AnswersForever(p, f, second);
    var i :| 0 <= i < p.burst && !answers[i];
    SuffixesDiffer(Answers(p, NewTable(0), first), Answers(p, t, second), AnswersForever(p, map[], first), answers, i);
  }

  ghost predicate Unobservable(p: Params) {
    forall start, requests :: Monotone(start, requests) ==>
                                Answers(p, NewTable(start), requests) == AnswersForever(p, map[], requests)
  }

  /**
   * Limiter eviction is unobservable, for every run of requests over all keys, exactly when a drained bucket refills
   * within the TTL (to the nanosecond: within one nanosecond more, as eviction waits for strictly more than the TTL).
   */
  lemma EvictionIsUnobservableExactlyWhen(p: Params)
    requires p.burst >= 1
    ensures Unobservable(p) <==> p.burst * p.interval <= LIMITER_TTL + 1
  {
    if Capacity(p) <= LIMITER_TTL + 1 {
      forall start, requests | Monotone(start, requests)
        ensures Answers(p, NewTable(start), requests) == AnswersForever(p, map[], requests)
      {
        EvictionUnseen(p, NewTable(start), map[], start, requests);
      }
    } else {
      EvictionSeen(p);
    }
    hide Answers, AnswersForever, Monotone;
  }

  /** With the defaults of NewServer, and with any rate when the burst is at most 15, eviction is unobservable. */
  lemma DefaultsAreSafe(rateLimitPerMinute: nat, burst: nat)
    requires burst <= 15
    ensures Unobservable(NewParams(rateLimitPerMinute, burst))
  {
    var p := NewParams(rateLimitPerMinute, burst);
    QuotientIsSmaller(MINUTE, if rateLimitPerMinute == 0 then 20 else rateLimitPerMinute);
    assert p.interval <= MINUTE && 1 <= p.burst <= 15;
    hide NewParams, Unobservable;
    TimesIsMonotone(p.burst, 15, p.interval, MINUTE);
    EvictionIsUnobservableExactlyWhen(p);
  }

  lemma TimesIsMonotone(a: nat, b: nat, c: nat, d: nat)
    requires a <= b && c <= d
    ensures a * c <= b * d
  {
    assert b * d == a * c + a * (d - c) + (b - a) * d;
  }

  function Times(a: nat, b: nat): nat { a * b }

  lemma QuotientIsSmaller(n: nat, d: nat)
    requires d > 0
    ensures 0 <= n / d <= n
  {
    var q := n / d;
    assert d * q == q + Times(d - 1, q);
  }

  // ---- The exact answer to every request ----

  /** Waiting refills a bucket up to its capacity. */
  lemma CreditLater(p: Params, b: Bucket, t: nat, now: nat)
    requires b.last <= t <= now
    ensures var c := CreditAt(p, b, t) + (now - t);
            CreditAt(p, b, now) == if c <= Capacity(p) then c else Capacity(p)
  {
    hide Capacity;
  }

  lemma {:induction false} AdmittedJoin(a: seq<Request>, x: seq<bool>, b: seq<Request>, y: seq<bool>, key: string)
    requires |a| == |x| && |b| == |y|
    ensures Admitted(a + b, x + y, key) == Admitted(a, x, key) + Admitted(b, y, key)
    decreases |a|
  {
    if a == [] {
      assert a + b == b && x + y == y;
    } else {
      AdmittedJoin(a[1..], x[1..], b, y, key);
      assert (a + b)[1..] == a[1..] + b && (x + y)[1..] == x[1..] + y;
    }
  }

  lemma {:induction false} AfterJoin(p: Params, f: Forever, first: seq<Request>, second: seq<Request>)
    ensures After(p, f, first + second) == After(p, After(p, f, first), second)
    decreases |first|
  {
    hide AdmitForever;
    if first == [] {
      assert first + second == second;
    } else {
      AfterJoin(p, AdmitForever(p, f, first[0].now, first[0].key).1, first[1..], second);
      assert (first + second)[1..] == first[1..] + second;
    }
  }

  /** No bucket was used later than the last request. */
  ghost predicate Past(f: Forever, now: nat) {
    forall key :: key in f ==> f[key].last <= now
  }

  lemma {:induction false} AfterIsPast(p: Params, f: Forever, start: nat, requests: seq<Request>)
    requires Monotone(start, requests) && Past(f, start)
    ensures Past(After(p, f, requests), LastTime(start, requests))
    decreases |requests|
  {
    if requests != [] {
      hide CreditAt;
      var now := requests[0].now;
      AfterIsPast(p, AdmitForever(p, f, now, requests[0].key).1, now, requests[1..]);
      assert LastTime(now, requests[1..]) == LastTime(start, requests);
    }
  }

  /** The credit of a key at a time, when its bucket was full at request i and has not been since. */
  ghost predicate SpentSince(p: Params, requests: seq<Request>, answers: seq<bool>, key: string, now: nat,
                             i: nat, c: int)
    requires |answers| == |requests|
  {
    && i < |requests|
    && c == Capacity(p) + (now - requests[i].now) - Admitted(requests[i..], answers[i..], key) * p.interval
  }

  /** The credit of a key is full, or tells how much was admitted since the bucket was last full. */
  ghost predicate Accounted(p: Params, requests: seq<Request>, answers: seq<bool>, key: string, now: nat, c: int)
    requires |answers| == |requests|
  {
    c == Capacity(p) || exists i: nat :: SpentSince(p, requests, answers, key, now, i, c)
  }

  lemma SpentSinceNext(p: Params, requests: seq<Request>, answers: seq<bool>, key: string, at: nat, i: nat, c: int,
                       x: Request, ok: bool, now: nat)
    requires |answers| == |requests| && SpentSince(p, requests, answers, key, at, i, c)
    ensures var cost := if x.key == key && ok then p.interval else 0;
            SpentSince(p, requests + [x], answers + [ok], key, now, i, c - cost + (now - at))
  {
    AdmittedJoin(requests[i..], answers[i..], [x], [ok], key);
    assert (requests + [x])[i..] == requests[i..] + [x] && (answers + [ok])[i..] == answers[i..] + [ok];
    var n := Admitted(requests[i..], answers[i..], key);
    assert (n + 1) * p.interval == n * p.interval + p.interval;
    hide Capacity;
  }

  lemma SpentSinceLast(p: Params, requests: seq<Request>, answers: seq<bool>, key: string, x: Request, ok: bool,
                       now: nat)
    requires |answers| == |requests|
    ensures var cost := if x.key == key && ok then p.interval else 0;
            SpentSince(p, requests + [x], answers + [ok], key, now, |requests|, Capacity(p) - cost + (now - x.now))
  {
    var n := |requests|;
    assert (requests + [x])[n..] == [x] && (answers + [ok])[n..] == [ok];
    assert Admitted([x], [ok], key) == if x.key == key && ok then 1 else 0;
    hide Capacity;
  }

  /** One more request: what its key had then is spent on it, if it was admitted, and refills until now. */
  lemma AccountedNext(p: Params, requests: seq<Request>, answers: seq<bool>, key: string, c: int, x: Request, ok: bool,
                      now: nat, c': int)
    requires |answers| == |requests| && Accounted(p, requests, answers, key, x.now, c)
    requires var left := c - (if x.key == key && ok then p.interval else 0) + (now - x.now);
             c' == if left <= Capacity(p) then left else Capacity(p)
    ensures Accounted(p, requests + [x], answers + [ok], key, now, c')
  {
    if c' != Capacity(p) {
      if c == Capacity(p) {
        SpentSinceLast(p, requests, answers, key, x, ok, now);
      } else {
        var i: nat :| SpentSince(p, requests, answers, key, x.now, i, c);
        SpentSinceNext(p, requests, answers, key, x.now, i, c, x, ok, now);
      }
    }
  }

  /** A request takes one interval from its key's credit if that is enough, and leaves every other credit alone. */
  lemma CreditAfter(p: Params, f: Forever, x: Request, key: string, now: nat)
    requires Past(f, x.now) && x.now <= now && p.burst >= 1
    ensures var (ok, f') := AdmitForever(p, f, x.now, x.key);
            var c := CreditAt(p, BucketOf(p, f, x.now, key), x.now);
            var left := c - (if x.key == key && ok then p.interval else 0) + (now - x.now);
            && CreditAt(p, BucketOf(p, f', now, key), now) == (if left <= Capacity(p) then left else Capacity(p))
            && (x.key == key ==> (ok <==> p.interval <= c))
  {
    var (ok, f') := AdmitForever(p, f, x.now, x.key);
    if x.key == key || key in f {
      CreditLater(p, BucketOf(p, f', now, key), x.now, now);
    }
    assert p.interval <= Capacity(p) by { OneMore(p.burst, p.interval); }
    hide Capacity;
  }

  lemma {:induction false} CreditIsAccounted(p: Params, start: nat, requests: seq<Request>, key: string, now: nat)
    requires Monotone(start, requests) && LastTime(start, requests) <= now && p.burst >= 1
    ensures Accounted(p, requests, AnswersForever(p, map[], requests), key, now,
                      CreditAt(p, BucketOf(p, After(p, map[], requests), now, key), now))
    decreases |requests|
  {
    if requests == [] {
      hide Capacity;
    } else {
      var n := |requests| - 1;
      var front, x := requests[..n], requests[n];
      assert front + [x] == requests;
      MonotonePrefix(start, requests, n);
      LastOfPrefix(start, requests);
      CreditIsAccounted(p, start, front, key, x.now);
      var f := After(p, map[], front);
      AfterIsPast(p, map[], start, front);
      CreditAfter(p, f, x, key, now);
      AfterJoin(p, map[], front, [x]);
      AnswersForeverJoin(p, map[], front, [x]);
      OneAnswer(p, f, x);
      hide Accounted, After, AnswersForever, AdmitForever, CreditAt, BucketOf, Capacity;
      var ok := AdmitForever(p, f, x.now, x.key).0;
      AccountedNext(p, front, AnswersForever(p, map[], front), key, CreditAt(p, BucketOf(p, f, x.now, key), x.now), x,
                    ok,
                    now, CreditAt(p, BucketOf(p, After(p, map[], requests), now, key), now));
    }
  }

  lemma OneAnswer(p: Params, f: Forever, x: Request)
    ensures AnswersForever(p, f, [x]) == [AdmitForever(p, f, x.now, x.key).0]
    ensures After(p, f, [x]) == AdmitForever(p, f, x.now, x.key).1
  {
    hide AdmitForever;
  }

  lemma {:induction false} LastOfPrefix(start: nat, requests: seq<Request>)
    requires Monotone(start, requests) && requests != []
    ensures LastTime(start, requests[..|requests| - 1]) <= requests[|requests| - 1].now
    decreases |requests|
  {
    if |requests| > 1 {
      LastOfPrefix(requests[0].now, requests[1..]);
      assert requests[1..][..|requests| - 2] == requests[..|requests| - 1][1..];
    }
  }

  /** One more admission than there were since request i can be paid for at the time of request j. */
  predicate Affordable(p: Params, requests: seq<Request>, answers: seq<bool>, i: nat, j: nat)
    requires i <= j < |requests| == |answers|
  {
    (Admitted(requests[i..j], answers[i..j], requests[j].key) + 1) * p.interval
    <= p.burst * p.interval + (requests[j].now - requests[i].now)
  }

  /**
   * Which requests are admitted, in any run of the real table in which a bucket refills within the TTL: exactly those
   * that keep the admissions of their key within burst intervals plus the length of the window, in every window that
   * ends with them. So a refusal costs a client nothing.
   */
  lemma AdmittedExactlyWhen(p: Params, start: nat, requests: seq<Request>, j: nat)
    requires Monotone(start, requests) && j < |requests|
    requires Capacity(p) <= LIMITER_TTL + 1 && p.burst >= 1
    ensures var answers := Answers(p, NewTable(start), requests);
            answers[j] <==> forall i: nat :: i <= j ==> Affordable(p, requests, answers, i, j)
  {
    var answers := Answers(p, NewTable(start), requests);
    EvictionUnseen(p, NewTable(start), map[], start, requests);
    hide Answers, AnswersForever, Monotone, Affordable, Capacity;
    if answers[j] {
      forall i: nat | i <= j ensures Affordable(p, requests, answers, i, j) {
        AdmittedIsAffordable(p, start, requests, i, j);
      }
    } else {
      var i := RefusedWindow(p, start, requests, j);
    }
  }

  lemma AdmittedIsAffordable(p: Params, start: nat, requests: seq<Request>, i: nat, j: nat)
    requires Monotone(start, requests) && i <= j < |requests|
    requires Capacity(p) <= LIMITER_TTL + 1 && p.burst >= 1 && Answers(p, NewTable(start), requests)[j]
    ensures Affordable(p, requests, Answers(p, NewTable(start), requests), i, j)
  {
    hide Answers, Monotone, Admitted;
    WindowBound(p, start, requests, requests[j].key, i, j + 1);
    LastIsAdmitted(requests, Answers(p, NewTable(start), requests), i, j);
  }

  lemma OneLonger<T>(s: seq<T>, i: nat, j: nat)
    requires i <= j < |s|
    ensures s[i..j + 1] == s[i..j] + [s[j]]
  {}

  lemma LastIsAdmitted(requests: seq<Request>, answers: seq<bool>, i: nat, j: nat)
    requires i <= j < |requests| == |answers| && answers[j]
    ensures Admitted(requests[i..j + 1], answers[i..j + 1], requests[j].key)
            == Admitted(requests[i..j], answers[i..j], requests[j].key) + 1
  {
    AdmittedJoin(requests[i..j], answers[i..j], [requests[j]], [answers[j]], requests[j].key);
    OneLonger(requests, i, j);
    OneLonger(answers, i, j);
  }

  /** A request is admitted exactly when its key has one interval of credit left. */
  lemma AnswerIsCredit(p: Params, start: nat, requests: seq<Request>, j: nat)
    requires Monotone(start, requests) && j < |requests| && p.burst >= 1
    ensures var f, x := After(p, map[], requests[..j]), requests[j];
            AnswersForever(p, map[], requests)[j] <==> p.interval <= CreditAt(p, BucketOf(p, f, x.now, x.key), x.now)
  {
    var front, x := requests[..j], requests[j];
    MonotonePrefix(start, requests, j);
    MonotonePrefix(start, requests, j + 1);
    assert requests[..j + 1][..j] == front;
    LastOfPrefix(start, requests[..j + 1]);
    AfterIsPast(p, map[], start, front);
    AnswersSlice(p, map[], requests, j, j + 1);
    assert requests[j..j + 1] == [x];
    var f := After(p, map[], front);
    OneAnswer(p, f, x);
    CreditAfter(p, f, x, x.key, x.now);
    hide AnswersForever, After, AdmitForever;
    assert AnswersForever(p, map[], requests)[j..j + 1][0] == AnswersForever(p, map[], requests)[j];
  }

  /** A refused request comes at the end of a window in which its key has had all that it can pay for. */
  lemma RefusedWindow(p: Params, start: nat, requests: seq<Request>, j: nat) returns (i: nat)
    requires Monotone(start, requests) && j < |requests| && p.burst >= 1
    requires !AnswersForever(p, map[], requests)[j]
    ensures i <= j && !Affordable(p, requests, AnswersForever(p, map[], requests), i, j)
  {
    var front, x, answers := requests[..j], requests[j], AnswersForever(p, map[], requests);
    var c := CreditAt(p, BucketOf(p, After(p, map[], front), x.now, x.key), x.now);
    CreditBefore(p, start, requests, j);
    AnswerIsCredit(p, start, requests, j);
    FullPays(p);
    hide AnswersForever, After, BucketOf, CreditAt, Monotone, Capacity, SpentSince;
    i :| SpentSince(p, front, answers[..j], x.key, x.now, i, c);
    SpentIsNotAffordable(p, requests, answers, i, j, c);
  }

  lemma FullPays(p: Params)
    requires p.burst >= 1
    ensures p.interval <= Capacity(p)
  {
    OneMore(p.burst, p.interval);
  }

  lemma CreditBefore(p: Params, start: nat, requests: seq<Request>, j: nat)
    requires Monotone(start, requests) && j < |requests| && p.burst >= 1
    ensures var front, x := requests[..j], requests[j];
            Accounted(p, front, AnswersForever(p, map[], requests)[..j], x.key, x.now,
                      CreditAt(p, BucketOf(p, After(p, map[], front), x.now, x.key), x.now))
  {
    hide AnswersForever, After, Accounted, BucketOf, CreditAt;
    MonotonePrefix(start, requests, j);
    MonotonePrefix(start, requests, j + 1);
    assert requests[..j + 1][..j] == requests[..j];
    LastOfPrefix(start, requests[..j + 1]);
    CreditIsAccounted(p, start, requests[..j], requests[j].key, requests[j].now);
    AnswersPrefix(p, map[], requests, j);
  }

  lemma SpentIsNotAffordable(p: Params, requests: seq<Request>, answers: seq<bool>, i: nat, j: nat, c: int)
    requires |answers| == |requests| > j && c < p.interval
    requires SpentSince(p, requests[..j], answers[..j], requests[j].key, requests[j].now, i, c)
    ensures i <= j && !Affordable(p, requests, answers, i, j)
  {
    hide Admitted;
    assert requests[..j][i..] == requests[i..j] && answers[..j][i..] == answers[i..j];
    var n := Admitted(requests[i..j], answers[i..j], requests[j].key);
    OneMore(n + 1, p.interval);
  }

  // ---- The table stays small ----

  /** Whatever the table holds was seen within the TTL before the last cleanup. */
  ghost predicate Swept(t: Table, now: nat) {
    && t.lastCleanup <= now
    && forall key :: key in t.limiters ==> t.lastCleanup <= t.limiters[key].lastSeen + LIMITER_TTL
  }

  lemma {:induction false} TableIsFresh(p: Params, t: Table, start: nat, requests: seq<Request>)
    requires Monotone(start, requests) && requests != [] && Swept(t, start)
    ensures var t', now := AfterReal(p, t, requests), LastTime(start, requests);
            forall key :: key in t'.limiters ==> now - t'.limiters[key].lastSeen < LIMITER_TTL + CLEANUP_INTERVAL
    decreases |requests|
  {
    var now := requests[0].now;
    var t' := Admit(p, t, now, requests[0].key).1;
    SweptNext(p, t, start, now, requests[0].key);
    hide Admit;
    assert AfterReal(p, t, requests) == AfterReal(p, t', requests[1..]);
    if |requests| == 1 {
      assert AfterReal(p, t', requests[1..]) == t';
    } else {
      TableIsFresh(p, t', now, requests[1..]);
      assert LastTime(now, requests[1..]) == LastTime(start, requests);
    }
  }

  lemma SweptNext(p: Params, t: Table, start: nat, now: nat, key: string)
    requires Swept(t, start) && start <= now
    ensures var t' := Admit(p, t, now, key).1;
            Swept(t', now) && now - t'.lastCleanup < CLEANUP_INTERVAL
  {
    hide Allow, Capacity;
  }

  /** After any run of a fresh server, no limiter in its table was idle for twenty minutes or more. */
  lemma NoStaleLimiters(p: Params, start: nat, requests: seq<Request>, key: string)
    requires Monotone(start, requests) && requests != []
    ensures var limiters := AfterReal(p, NewTable(start), requests).limiters;
            key in limiters ==> LastTime(start, requests) - limiters[key].lastSeen < 20 * MINUTE
  {
    TableIsFresh(p, NewTable(start), start, requests);
  }

  /** The defaults of NewServer: five requests at once, and one more every three seconds. */
  lemma DefaultParams()
    ensures NewParams(0, 0) == Params(3_000_000_000, 5)
  {}

  /** A configured rate gives the longest interval, in whole nanoseconds, that allows so many requests in a minute. */
  lemma ConfiguredParams(rateLimitPerMinute: nat, burst: nat)
    requires rateLimitPerMinute > 0 && burst > 0
    ensures var p := NewParams(rateLimitPerMinute, burst);
            p.burst == burst && p.interval * rateLimitPerMinute <= MINUTE < (p.interval + 1) * rateLimitPerMinute
  {
    DivisionBounds(MINUTE, rateLimitPerMinute);
  }

  lemma DivisionBounds(n: nat, d: nat)
    requires d > 0
    ensures (n / d) * d <= n < (n / d + 1) * d
  {
    var q := n / d;
    assert (q + 1) * d == q * d + d;
  }
}
