/** Runs of the rate limiter that reach its bounds, and one that shows what no bound holds of. */
module RateWitnesses {
  import opened Common
  import opened RateLimiter

  lemma {:induction false} RunConcat(limit: int, window: Time, s: State, a: seq<Action>, b: seq<Action>)
    ensures Run(limit, window, s, a + b) == Run(limit, window, Run(limit, window, s, a), b)
    decreases |a|
  {
    if a == [] {
      assert a + b == b;
    } else {
      assert (a + b)[1..] == a[1..] + b;
      RunConcat(limit, window, Step(limit, window, s, a[0]), a[1..], b);
    }
  }

  lemma RunOfOne(limit: int, window: Time, s: State, a: Action)
    ensures Run(limit, window, s, [a]) == Step(limit, window, s, a)
  {
    assert [a][1..] == [];
    assert Run(limit, window, s, [a]) == Run(limit, window, Step(limit, window, s, a), []);
  }

  lemma RunSnoc(limit: int, window: Time, s: State, actions: seq<Action>, a: Action)
    ensures Run(limit, window, s, actions + [a]) == Step(limit, window, Run(limit, window, s, actions), a)
  {
    RunConcat(limit, window, s, actions, [a]);
    RunOfOne(limit, window, Run(limit, window, s, actions), a);
  }

  // ---------------------------------------------------------------- what the runs are made of

  /** A request that opens a life. In these runs a request's id is the place of its issue. */
  function Opening(n: RequestId): seq<Action> { [Incr(n, true), Expire(n, true, true)] }

  /** `m` more requests, as far as their INCR. */
  function More(n: RequestId, m: nat): seq<Action> {
    if m == 0 then [] else More(n, m - 1) + [Incr(n + m - 1, true)]
  }

  /** The answers to the requests from `a` up to, not including, `b`. */
  function Answers(a: nat, b: nat): seq<Action> requires a <= b {
    if a == b then [] else Answers(a, b - 1) + [Ttl(b - 1, true)]
  }

  /** The whole limit of requests of one life. */
  function FullLife(n: RequestId, limit: nat): seq<Action> requires limit >= 1 {
    Opening(n) + More(n + 1, limit - 1)
  }

  /** Of `n` requests within the limit, the first `a` have been let through and the others wait for that. */
  ghost predicate Loaded(s: State, limit: int, n: nat, a: nat) {
    && a <= n == |s.issued|
    && (forall i | 0 <= i < n :: s.issued[i].count <= limit)
    && (forall r: RequestId :: r in s.waiting <==> a <= r < n)
    && (forall r: RequestId | a <= r < n :: s.waiting[r] == ForTtl(r))
    && (forall i: int :: i in s.allowedAt <==> 0 <= i < a)
  }

  /** `t` is reached from `s` by `m` requests of the same instant that nobody has answered yet. */
  ghost predicate Issued(s: State, t: State, m: nat) {
    && |t.issued| == |s.issued| + m && t.now == s.now && t.allowedAt == s.allowedAt
    && (forall i | 0 <= i < |s.issued| :: t.issued[i] == s.issued[i])
    && (forall i | |s.issued| <= i < |t.issued| :: t.issued[i].at == s.now)
  }

  lemma IncrLoads(limit: int, window: Time, s: State, n: nat, a: nat, count: nat, expireAt: Time)
    requires Loaded(s, limit, n, a) && s.key == Key(count, Some(expireAt)) && 1 <= count < limit && s.now < expireAt
    ensures var t := Step(limit, window, s, Incr(n, true));
      Loaded(t, limit, n + 1, a) && Issued(s, t, 1) && t.key == Key(count + 1, Some(expireAt))
  {
    var t := Step(limit, window, s, Incr(n, true));
    assert t.waiting == s.waiting[n := ForTtl(n)];
  }

  lemma OpeningLoads(limit: int, window: Time, s: State, n: nat, a: nat)
    requires limit >= 1 && Loaded(s, limit, n, a) && Gone(s.key, s.now)
    ensures var t := Run(limit, window, s, Opening(n));
      Loaded(t, limit, n + 1, a) && Issued(s, t, 1) && t.key == Key(1, Some(s.now + window))
  {
    RunOfTwo(limit, window, s, Incr(n, true), Expire(n, true, true));
    var u := Step(limit, window, s, Incr(n, true));
    assert u.waiting == s.waiting[n := ForExpire(n)] && u.key == Key(1, None) && u.now == s.now;
    var t := Step(limit, window, u, Expire(n, true, true));
    assert t.waiting == s.waiting[n := ForTtl(n)] && t.issued == u.issued;
  }

  lemma IssuedTwice(s: State, t: State, u: State, m: nat, n: nat)
    requires Issued(s, t, m) && Issued(t, u, n)
    ensures Issued(s, u, m + n)
  {}

  lemma {:induction false} MoreLoads(limit: int, window: Time, s: State, n: nat, a: nat, m: nat, count: nat,
                                     expireAt: Time)
    requires Loaded(s, limit, n, a) && s.key == Key(count, Some(expireAt)) && s.now < expireAt
    requires 1 <= count && count + m <= limit
    ensures var t := Run(limit, window, s, More(n, m));
      Loaded(t, limit, n + m, a) && Issued(s, t, m) && t.key == Key(count + m, Some(expireAt))
  {
    if m > 0 {
      MoreLoads(limit, window, s, n, a, m - 1, count, expireAt);
      var t := Run(limit, window, s, More(n, m - 1));
      RunSnoc(limit, window, s, More(n, m - 1), Incr(n + m - 1, true));
      IncrLoads(limit, window, t, n + m - 1, a, count + m - 1, expireAt);
      IssuedTwice(s, t, Step(limit, window, t, Incr(n + m - 1, true)), m - 1, 1);
    }
  }

  lemma FullLifeLoads(limit: nat, window: Time, s: State, n: nat, a: nat)
    requires limit >= 1 && window >= 1 && Loaded(s, limit, n, a) && Gone(s.key, s.now)
    ensures var t := Run(limit, window, s, FullLife(n, limit));
      Loaded(t, limit, n + limit, a) && Issued(s, t, limit) && t.key == Key(limit, Some(s.now + window))
  {
    OpeningLoads(limit, window, s, n, a);
    var t := Run(limit, window, s, Opening(n));
    RunConcat(limit, window, s, Opening(n), More(n + 1, limit - 1));
    MoreLoads(limit, window, t, n + 1, a, limit - 1, 1, s.now + window);
    IssuedTwice(s, t, Run(limit, window, t, More(n + 1, limit - 1)), 1, limit - 1);
  }

  /** `t` is reached from `s` by letting through the requests from `a` up to `b`. */
  ghost predicate Answered(s: State, t: State, a: nat, b: nat) {
    && t.issued == s.issued && t.key == s.key && t.now == s.now
    && (forall i | 0 <= i < a :: i in s.allowedAt && i in t.allowedAt && t.allowedAt[i] == s.allowedAt[i])
    && (forall i | a <= i < b :: i in t.allowedAt && t.allowedAt[i] == s.now)
  }

  lemma TtlAnswers(limit: int, window: Time, s: State, n: nat, a: nat)
    requires Loaded(s, limit, n, a) && a < n
    ensures var t := Step(limit, window, s, Ttl(a, true)); Loaded(t, limit, n, a + 1) && Answered(s, t, a, a + 1)
  {
    var t := Step(limit, window, s, Ttl(a, true));
    assert t == s.(waiting := s.waiting - {a}, allowedAt := s.allowedAt[a as int := s.now]);
  }

  lemma {:induction false} AnswersAnswer(limit: int, window: Time, s: State, n: nat, a: nat, b: nat)
    requires Loaded(s, limit, n, a) && a <= b <= n
    ensures var t := Run(limit, window, s, Answers(a, b)); Loaded(t, limit, n, b) && Answered(s, t, a, b)
  {
    if a < b {
      AnswersAnswer(limit, window, s, n, a, b - 1);
      RunSnoc(limit, window, s, Answers(a, b - 1), Ttl(b - 1, true));
      TtlAnswers(limit, window, Run(limit, window, s, Answers(a, b - 1)), n, b - 1);
    }
  }

  // ---------------------------------------------------------------- the bounds are reached

  /** The opener of the first life is let through at once; the rest of its limit comes just before its end. */
  function FirstLife(limit: nat, window: Time): seq<Action> requires limit >= 1 && window >= 1 {
    Opening(0) + Answers(0, 1) + [Tick(window - 1)] + More(1, limit - 1)
  }

  /** A full life that starts a tick from now and is left a tick before its end. */
  function NextLife(n: RequestId, limit: nat, window: Time): seq<Action> requires limit >= 1 && window >= 1 {
    [Tick(1)] + FullLife(n, limit) + [Tick(window - 1)]
  }

  /** The first life and `k` full ones, all unanswered but for the very first request. */
  function Lives(limit: nat, window: Time, k: nat): seq<Action> requires limit >= 1 && window >= 1 {
    if k == 0 then FirstLife(limit, window) else Lives(limit, window, k - 1) + NextLife(k * limit, limit, window)
  }

  /** The first life is answered, another full one comes a tick later, and at once all the rest is answered. */
  function LastLife(n: RequestId, limit: nat): seq<Action> requires limit >= 1 {
    Answers(1, limit) + ([Tick(1)] + FullLife(n, limit)) + Answers(limit, n + limit)
  }

  ghost predicate Times(s: State, limit: nat, window: Time, n: nat) {
    && 1 <= limit <= n <= |s.issued| && s.issued[0].at == 0 && 0 in s.allowedAt && s.allowedAt[0] == 0
    && (forall i | 1 <= i < limit :: s.issued[i].at == window - 1)
    && (forall i | limit <= i < n :: s.issued[i].at >= window)
  }

  /** A tick before the end of a life, with only the very first of `n` requests answered. */
  ghost predicate Delaying(s: State, limit: nat, window: Time, n: nat) {
    && Loaded(s, limit, n, 1) && Times(s, limit, window, n)
    && s.key.expireAt == Some(s.now + 1) && s.now >= window - 1 >= 1
  }

  lemma OpenerIsAnswered(limit: nat, window: Time)
    requires limit >= 1 && window >= 2
    ensures var t := Run(limit, window, INIT, Opening(0) + Answers(0, 1) + [Tick(window - 1)]);
      && Loaded(t, limit, 1, 1) && t.key == Key(1, Some(window)) && t.now == window - 1
      && t.issued[0].at == 0 && t.allowedAt[0] == 0
  {
    var first := Run(limit, window, INIT, Opening(0));
    OpeningLoads(limit, window, INIT, 0, 0);
    RunConcat(limit, window, INIT, Opening(0), Answers(0, 1));
    AnswersAnswer(limit, window, first, 1, 0, 1);
    RunSnoc(limit, window, INIT, Opening(0) + Answers(0, 1), Tick(window - 1));
  }

  lemma FirstLifeDelays(limit: nat, window: Time)
    requires limit >= 1 && window >= 2
    ensures var t := Run(limit, window, INIT, FirstLife(limit, window));
      Delaying(t, limit, window, limit) && t.now == window - 1
  {
    var opener := Opening(0) + Answers(0, 1) + [Tick(window - 1)];
    OpenerIsAnswered(limit, window);
    RunConcat(limit, window, INIT, opener, More(1, limit - 1));
    MoreLoads(limit, window, Run(limit, window, INIT, opener), 1, 1, limit - 1, 1, window);
  }

  lemma TickThenLife(limit: nat, window: Time, s: State, n: nat, a: nat)
    requires limit >= 1 && window >= 1 && Loaded(s, limit, n, a) && s.key.expireAt == Some(s.now + 1)
    ensures var t := Run(limit, window, s, [Tick(1)] + FullLife(n, limit));
      && Loaded(t, limit, n + limit, a) && Issued(s.(now := s.now + 1), t, limit)
      && t.key == Key(limit, Some(s.now + 1 + window))
  {
    RunConcat(limit, window, s, [Tick(1)], FullLife(n, limit));
    RunOfOne(limit, window, s, Tick(1));
    FullLifeLoads(limit, window, s.(now := s.now + 1), n, a);
  }

  lemma NextLifeDelays(limit: nat, window: Time, s: State, n: nat)
    requires limit >= 1 && window >= 2 && Delaying(s, limit, window, n)
    ensures var t := Run(limit, window, s, NextLife(n, limit, window));
      Delaying(t, limit, window, n + limit) && t.now == s.now + window
  {
    TickThenLife(limit, window, s, n, 1);
    RunSnoc(limit, window, s, [Tick(1)] + FullLife(n, limit), Tick(window - 1));
  }

  lemma OneMoreDelays(limit: nat, window: Time, before: seq<Action>, n: nat)
    requires limit >= 1 && window >= 2 && Delaying(Run(limit, window, INIT, before), limit, window, n)
    ensures var t := Run(limit, window, INIT, before + NextLife(n, limit, window));
      Delaying(t, limit, window, n + limit) && t.now == Run(limit, window, INIT, before).now + window
  {
    RunConcat(limit, window, INIT, before, NextLife(n, limit, window));
    NextLifeDelays(limit, window, Run(limit, window, INIT, before), n);
  }

  lemma {:induction false} LivesDelay(limit: nat, window: Time, k: nat)
    requires limit >= 1 && window >= 2
    ensures var t := Run(limit, window, INIT, Lives(limit, window, k));
      Delaying(t, limit, window, (k + 1) * limit) && t.now == (k + 1) * window - 1
  {
    if k == 0 {
      FirstLifeDelays(limit, window);
    } else {
      LivesDelay(limit, window, k - 1);
      OneMoreDelays(limit, window, Lives(limit, window, k - 1), k * limit);
      OneTimesMore(k, limit);
      OneTimesMore(k, window);
    }
  }

  /** In the end the first life is answered at `now - 1`, everything after it at `now`. */
  ghost predicate AllAnswered(t: State, limit: nat, window: Time, n: nat) {
    && Times(t, limit, window, n) && |t.issued| == n + limit && t.now >= window
    && (forall i: int :: i in t.allowedAt <==> 0 <= i < n + limit)
    && (forall i | 1 <= i < limit :: t.allowedAt[i] == t.now - 1)
    && (forall i | limit <= i < n + limit :: t.allowedAt[i] == t.now)
    && (forall i | n <= i < n + limit :: t.issued[i].at == t.now)
  }

  /** The states in between: `u` once the first life is answered, `v` once the last one waits. */
  lemma LastLifeTimes(limit: nat, window: Time, s: State, u: State, v: State, t: State, n: nat)
    requires Delaying(s, limit, window, n) && Answered(s, u, 1, limit)
    requires Issued(u.(now := u.now + 1), v, limit)
    requires Loaded(t, limit, n + limit, n + limit) && Answered(v, t, limit, n + limit)
    ensures AllAnswered(t, limit, window, n) && t.now == s.now + 1
  {
    assert t.issued == v.issued && |u.issued| == n && |v.issued| == n + limit;
    assert forall i | 0 <= i < n :: t.issued[i] == s.issued[i];
    assert forall i | 0 <= i < limit :: t.allowedAt[i] == v.allowedAt[i] == u.allowedAt[i];
  }

  lemma RunOfThreeParts(limit: int, window: Time, s: State, a: seq<Action>, b: seq<Action>, c: seq<Action>)
    ensures Run(limit, window, s, a + b + c) ==
            Run(limit, window, Run(limit, window, Run(limit, window, s, a), b), c)
  {
    RunConcat(limit, window, s, a, b);
    RunConcat(limit, window, s, a + b, c);
  }

  lemma LastLifeWaits(limit: nat, window: Time, s: State, u: State, n: nat)
    requires limit >= 1 && window >= 2 && Delaying(s, limit, window, n)
    requires u == Run(limit, window, s, Answers(1, limit))
    ensures Loaded(u, limit, n, limit) && Answered(s, u, 1, limit)
    ensures var v := Run(limit, window, u, [Tick(1)] + FullLife(n, limit));
      Loaded(v, limit, n + limit, limit) && Issued(u.(now := u.now + 1), v, limit)
  {
    AnswersAnswer(limit, window, s, n, 1, limit);
    TickThenLife(limit, window, u, n, limit);
  }

  lemma LastLifeAnswers(limit: nat, window: Time, s: State, n: nat)
    requires limit >= 1 && window >= 2 && Delaying(s, limit, window, n)
    ensures var t := Run(limit, window, s, LastLife(n, limit));
      AllAnswered(t, limit, window, n) && t.now == s.now + 1
  {
    var first, full, rest := Answers(1, limit), [Tick(1)] + FullLife(n, limit), Answers(limit, n + limit);
    RunOfThreeParts(limit, window, s, first, full, rest);
    var u := Run(limit, window, s, first);
    LastLifeWaits(limit, window, s, u, n);
    var v := Run(limit, window, u, full);
    AnswersAnswer(limit, window, v, n + limit, limit, n + limit);
    LastLifeTimes(limit, window, s, u, v, Run(limit, window, v, rest), n);
  }

  /** The run that reaches the bounds when answers may come as late as `k` windows after their INCR. */
  function Worst(limit: nat, window: Time, k: nat): seq<Action> requires limit >= 1 && window >= 1 {
    Lives(limit, window, k) + LastLife((k + 1) * limit, limit)
  }

  lemma WorstAnswers(limit: nat, window: Time, k: nat)
    requires limit >= 1 && window >= 2
    ensures var t := Run(limit, window, INIT, Worst(limit, window, k));
      AllAnswered(t, limit, window, (k + 1) * limit) && t.now == (k + 1) * window
  {
    OneTimesMore(k, limit);
    LivesDelay(limit, window, k);
    RunConcat(limit, window, INIT, Lives(limit, window, k), LastLife((k + 1) * limit, limit));
    LastLifeAnswers(limit, window, Run(limit, window, INIT, Lives(limit, window, k)), (k + 1) * limit);
  }

  lemma {:induction false} WholeWindows(k: nat, window: Time)
    requires window >= 1
    ensures Windows(k * window, window) == k
  {
    if k > 0 {
      WholeWindows(k - 1, window);
      OneTimesMore(k - 1, window);
    }
  }

  lemma CountAllowed(t: State, limit: nat, window: Time, n: nat)
    requires window >= 2 && AllAnswered(t, limit, window, n)
    ensures |AllowedIn(t, t.now - 1, t.now - 1 + window)| == n + limit - 1 && Prompt(t, t.now - window)
  {
    assert AllowedIn(t, t.now - 1, t.now - 1 + window) == Range(1, n + limit);
  }

  /**
   The bound for delayed answers is tight: with answers up to `k` windows after their INCR, a run lets
   through exactly `(2 + k) * limit - 1` requests in a half-open interval as long as the window.
   */
  lemma DelayedBoundIsReached(limit: nat, window: Time, k: nat)
    requires limit >= 1 && window >= 2
    ensures var s, delay := Run(limit, window, INIT, Worst(limit, window, k)), k * window;
      && Prompt(s, delay) && s.now >= 1
      && |AllowedIn(s, s.now - 1, s.now - 1 + window)| == (2 + Windows(delay, window)) * limit - 1
  {
    var s := Run(limit, window, INIT, Worst(limit, window, k));
    WorstAnswers(limit, window, k);
    CountAllowed(s, limit, window, (k + 1) * limit);
    OneTimesMore(k, window);
    OneTimesMore(k + 1, limit);
    WholeWindows(k, window);
  }

  lemma CountAdmitted(t: State, limit: nat, window: Time)
    requires window >= 2 && AllAnswered(t, limit, window, limit) && t.now == window
    ensures |AdmittedIn(t, 1, 1 + window)| == 2 * limit - 1 && |AdmittedIn(t, 0, window + 1)| == 2 * limit
  {
    assert AdmittedIn(t, 1, 1 + window) == Range(1, 2 * limit);
    assert AdmittedIn(t, 0, window + 1) == Range(0, 2 * limit);
  }

  /**
   The bound by INCR is tight: for every limit and every window of at least two ticks a run allows
   exactly `2 * limit - 1` requests in a half-open interval as long as the window, and `2 * limit` in the
   closed one that starts a tick earlier.
   */
  lemma WindowBoundIsReached(limit: nat, window: Time)
    requires limit >= 1 && window >= 2
    ensures var s := Run(limit, window, INIT, Worst(limit, window, 0));
      && |AdmittedIn(s, 1, 1 + window)| == 2 * limit - 1
      && |AdmittedIn(s, 0, window + 1)| == 2 * limit
  {
    WorstAnswers(limit, window, 0);
    CountAdmitted(Run(limit, window, INIT, Worst(limit, window, 0)), limit, window);
  }

  // ---------------------------------------------------------------- no bound by the answer alone

  /** `n` requests, a window apart, that get as far as their EXPIRE. */
  function Openings(n: nat, window: Time): seq<Action> {
    if n == 0 then [] else Openings(n - 1, window) + (Opening(n - 1) + [Tick(window)])
  }

  lemma {:induction false} OpeningsLoad(limit: int, window: Time, n: nat)
    requires limit >= 1
    ensures var s := Run(limit, window, INIT, Openings(n, window)); Loaded(s, limit, n, 0) && Gone(s.key, s.now)
  {
    if n > 0 {
      OpeningsLoad(limit, window, n - 1);
      var s := Run(limit, window, INIT, Openings(n - 1, window));
      RunConcat(limit, window, INIT, Openings(n - 1, window), Opening(n - 1) + [Tick(window)]);
      OpeningLoads(limit, window, s, n - 1, 0);
      RunSnoc(limit, window, s, Opening(n - 1), Tick(window));
    }
  }

  /**
   Dated by the moment they are let through, requests have no bound of their own: with answers delayed
   at will, any number of them can be let through in one instant, whatever the limit and the window.
   */
  lemma NoBoundByAnswer(limit: int, window: Time, n: nat)
    requires limit >= 1
    ensures var s := Run(limit, window, INIT, Openings(n, window) + Answers(0, n));
      |AllowedIn(s, s.now, s.now + 1)| == n
  {
    RunConcat(limit, window, INIT, Openings(n, window), Answers(0, n));
    OpeningsLoad(limit, window, n);
    AnswersAnswer(limit, window, Run(limit, window, INIT, Openings(n, window)), n, 0, n);
    var s := Run(limit, window, INIT, Openings(n, window) + Answers(0, n));
    assert AllowedIn(s, s.now, s.now + 1) == Range(0, n);
  }
}
