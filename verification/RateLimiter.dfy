/**
 The fixed-window rate limiter for one key, with its Redis commands as separate steps: any number of
 requests may stand between their INCR, EXPIRE and TTL at once, any command may fail to take effect or
 fail to answer, and time passes as it likes.
 */
module RateLimiter {
  import opened Common

  type RequestId = nat

  /** The counter in Redis; a count of zero means the key does not exist. */
  datatype Key = Key(count: nat, expireAt: Option<Time>)

  predicate Gone(key: Key, now: Time) {
    key.count == 0 || (key.expireAt.Some? && key.expireAt.value <= now)
  }

  /** INCR: a missing or expired key starts again at one, without an expiry. */
  function Incremented(key: Key, now: Time): Key {
    if Gone(key, now) then Key(1, None) else key.(count := key.count + 1)
  }

  /** EXPIRE: has no effect on a missing key. */
  function Expiring(key: Key, now: Time, window: Time): Key {
    if Gone(key, now) then key else key.(expireAt := Some(now + window))
  }

  // ---------------------------------------------------------------- one call, uninterrupted

  datatype Result = Error | Result(allowed: bool, limit: int, remaining: int, retryAfter: Time)

  class Limiter {
    var key: Key

    constructor ()
      ensures key == Key(0, None)
    {
      key := Key(0, None);
    }

    method Allow(limit: int, window: Time, now: Time, incrFails: bool, expireFails: bool, ttlFails: bool)
      returns (r: Result)
      modifies this
      ensures incrFails ==> r == Error && key == old(key)
      ensures !incrFails ==> var incremented := Incremented(old(key), now);
        && key == (if incremented.count == 1 && !expireFails then Expiring(incremented, now, window) else incremented)
        && (r == Error <==> (incremented.count == 1 && expireFails) || ttlFails)
        && (r != Error ==>
              && (r.allowed <==> incremented.count <= limit)
              && r.limit == limit && r.remaining >= 0
              && (r.allowed ==> r.remaining == limit - incremented.count)
              && (!r.allowed ==> r.remaining == 0)
              && r.retryAfter == if key.expireAt.Some? then key.expireAt.value - now else window)
    {
      if incrFails {
        return Error;
      }
      if key.count == 0 || (key.expireAt.Some? && key.expireAt.value <= now) {
        key := Key(0, None);
      }
      key := key.(count := key.count + 1);
      var count := key.count;
      if count == 1 {
        if expireFails {
          return Error;
        }
        key := key.(expireAt := Some(now + window));
      }
      if ttlFails {
        return Error;
      }
      var ttl: int := if key.expireAt.Some? then key.expireAt.value - now else -1;
      if ttl < 0 {
        ttl := window;
      }
      var remaining := limit - count;
      if remaining < 0 {
        remaining := 0;
      }
      r := Result(count <= limit, limit, remaining, ttl);
    }
  }

  // ---------------------------------------------------------------- the interleaved machine

  /** The answer to one INCR: which life of the counter it fell in, the count it saw, and when. */
  datatype Issue = Issue(life: nat, count: nat, at: Time)

  /** A life of the counter: its first issue, and when that was. */
  datatype Life = Life(first: nat, start: Time)

  /** What a request that got its count does next; `index` is its place among the issues. */
  datatype Waiting = ForExpire(index: nat) | ForTtl(index: nat)

  /**
   `issued`, `lives` and `allowedAt` are history. Admitted requests are known by their issue, and
   `allowedAt` says when their last answer, the TTL's, let them through.
   */
  datatype State = State(now: Time, key: Key, waiting: map<RequestId, Waiting>,
                         issued: seq<Issue>, lives: seq<Life>, allowedAt: map<int, Time>)

  const INIT := State(0, Key(0, None), map[], [], [], map[])

  datatype Action =
    | Tick(span: Time)
    | Incr(r: RequestId, answered: bool)
    | Expire(r: RequestId, applied: bool, answered: bool)
    | Ttl(r: RequestId, answered: bool)

  function IncrStep(s: State, r: RequestId, answered: bool): State {
    var key := Incremented(s.key, s.now);
    var lives := if Gone(s.key, s.now) then s.lives + [Life(|s.issued|, s.now)] else s.lives;
    var index := |s.issued|;
    var next := if key.count == 1 then ForExpire(index) else ForTtl(index);
    s.(key := key, lives := lives,
       issued := s.issued + [Issue(if lives == [] then 0 else |lives| - 1, key.count, s.now)],
       waiting := if answered then s.waiting[r := next] else s.waiting)
  }

  /** A request id is used once at a time; a step nobody waits for changes nothing. */
  function Step(limit: int, window: Time, s: State, a: Action): State {
    match a
    case Tick(span) => s.(now := s.now + span)
    case Incr(r, answered) => if r in s.waiting then s else IncrStep(s, r, answered)
    case Expire(r, applied, answered) =>
      if r !in s.waiting || !s.waiting[r].ForExpire? then s
      else s.(key := if applied then Expiring(s.key, s.now, window) else s.key,
              waiting := if answered then s.waiting[r := ForTtl(s.waiting[r].index)] else s.waiting - {r})
    case Ttl(r, answered) =>
      if r !in s.waiting || !s.waiting[r].ForTtl? then s
      else
        var index := s.waiting[r].index;
        var allowed := answered && index < |s.issued| && s.issued[index].count <= limit;
        s.(waiting := s.waiting - {r}, allowedAt := if allowed then s.allowedAt[index := s.now] else s.allowedAt)
  }

  function Run(limit: int, window: Time, s: State, actions: seq<Action>): State
    decreases |actions|
  {
    if actions == [] then s
    else Run(limit, window, Step(limit, window, s, actions[0]), actions[1..])
  }

  lemma RunOfTwo(limit: int, window: Time, s: State, a: Action, b: Action)
    ensures Run(limit, window, s, [a, b]) == Step(limit, window, Step(limit, window, s, a), b)
  {
    assert [a, b][1..] == [b] && [b][1..] == [];
    var mid := Step(limit, window, s, a);
    assert Run(limit, window, s, [a, b]) == Run(limit, window, mid, [b]);
    assert Run(limit, window, mid, [b]) == Run(limit, window, Step(limit, window, mid, b), []);
  }

  /** The steps of one request with nothing in between do what the call above does. */
  lemma AllowIsThreeSteps(limit: int, window: Time, s: State, r: RequestId, expireFails: bool, ttlFails: bool)
    requires r !in s.waiting && forall i <- s.allowedAt :: i < |s.issued|
    ensures var key := Incremented(s.key, s.now);
      var refused := key.count == 1 && expireFails;
      var t := Run(limit, window, s, [Incr(r, true), Expire(r, !expireFails, !expireFails), Ttl(r, !ttlFails)]);
      && t.key == (if key.count == 1 && !expireFails then Expiring(key, s.now, window) else key)
      && (|s.issued| in t.allowedAt <==> !refused && !ttlFails && key.count <= limit)
      && t.waiting == s.waiting
  {
    var incr, expire, ttl := Incr(r, true), Expire(r, !expireFails, !expireFails), Ttl(r, !ttlFails);
    assert [incr, expire, ttl][1..] == [expire, ttl];
    var u := Step(limit, window, s, incr);
    assert Run(limit, window, s, [incr, expire, ttl]) == Run(limit, window, u, [expire, ttl]);
    RunOfTwo(limit, window, u, expire, ttl);
    var v := Step(limit, window, u, expire);
    assert Step(limit, window, v, ttl).waiting == s.waiting;
  }

  // ---------------------------------------------------------------- the invariant

  ghost predicate LivesOk(lives: seq<Life>, issues: nat, window: Time) {
    && (forall k | 0 <= k < |lives| :: lives[k].first < issues)
    && (forall j, k | 0 <= j < k < |lives| :: lives[j].first < lives[k].first)
    && (forall j, k | 0 <= j < k < |lives| :: lives[j].start + window <= lives[k].start)
  }

  /** Issue `i` counts from the first of its life on, and comes after that one and before later lives. */
  ghost predicate IssuesOk(issued: seq<Issue>, lives: seq<Life>) {
    && (forall i | 0 <= i < |issued| ::
          && issued[i].life < |lives|
          && lives[issued[i].life].first <= i
          && issued[i].count == i - lives[issued[i].life].first + 1
          && lives[issued[i].life].start <= issued[i].at
          && (i == lives[issued[i].life].first ==> issued[i].at == lives[issued[i].life].start))
    && (forall i, k | 0 <= i < |issued| && issued[i].life < k < |lives| :: issued[i].at <= lives[k].start)
  }

  ghost predicate PastOnly(issued: seq<Issue>, lives: seq<Life>, now: Time) {
    && (forall i | 0 <= i < |issued| :: issued[i].at <= now)
    && (forall k | 0 <= k < |lives| :: lives[k].start <= now)
  }

  ghost predicate KeyOk(s: State, window: Time) {
    && (s.key.count == 0 <==> s.lives == [])
    && (s.lives != [] ==>
          && s.key.count == |s.issued| - s.lives[|s.lives| - 1].first
          && (s.key.expireAt.Some? ==> s.lives[|s.lives| - 1].start + window <= s.key.expireAt.value))
    && (s.lives == [] ==> s.key.expireAt.None? && s.issued == [])
  }

  /** Only the first request of the running life can still owe it its expiry, which it then lacks. */
  ghost predicate WaitingOk(s: State) {
    && (forall r <- s.waiting :: s.waiting[r].index < |s.issued|)
    && (forall r <- s.waiting | s.waiting[r].ForExpire? ::
          s.lives != [] && s.waiting[r].index == s.lives[|s.lives| - 1].first && s.key.expireAt.None?)
    && (forall q <- s.waiting, r <- s.waiting | q != r :: s.waiting[q].index != s.waiting[r].index)
  }

  ghost predicate Inv(s: State, limit: int, window: Time) {
    && LivesOk(s.lives, |s.issued|, window) && IssuesOk(s.issued, s.lives) && PastOnly(s.issued, s.lives, s.now)
    && KeyOk(s, window) && WaitingOk(s)
    && (forall i <- s.allowedAt ::
          0 <= i < |s.issued| && s.issued[i].count <= limit && s.issued[i].at <= s.allowedAt[i])
  }

  lemma NewLifeIsLater(s: State, window: Time)
    requires LivesOk(s.lives, |s.issued|, window) && KeyOk(s, window) && Gone(s.key, s.now)
    ensures forall j | 0 <= j < |s.lives| :: s.lives[j].start + window <= s.now
  {
    if s.lives != [] {
      var last := s.lives[|s.lives| - 1];
      assert last.start + window <= s.now;
    }
  }

  lemma OneMoreLife(lives: seq<Life>, issues: nat, window: Time, now: Time)
    requires LivesOk(lives, issues, window)
    requires forall j | 0 <= j < |lives| :: lives[j].start + window <= now
    ensures LivesOk(lives + [Life(issues, now)], issues + 1, window)
  {}

  lemma OneMoreIssue(issued: seq<Issue>, lives: seq<Life>, life: nat, count: nat, now: Time)
    requires PastOnly(issued, lives, now)
    ensures PastOnly(issued + [Issue(life, count, now)], lives, now)
    ensures PastOnly(issued + [Issue(life, count, now)], lives + [Life(|issued|, now)], now)
  {}

  lemma IncrKeepsLives(s: State, r: RequestId, answered: bool, window: Time)
    requires LivesOk(s.lives, |s.issued|, window) && PastOnly(s.issued, s.lives, s.now) && KeyOk(s, window)
    ensures var t := IncrStep(s, r, answered);
      LivesOk(t.lives, |t.issued|, window) && PastOnly(t.issued, t.lives, t.now)
  {
    var t := IncrStep(s, r, answered);
    var issue := t.issued[|s.issued|];
    OneMoreIssue(s.issued, s.lives, issue.life, issue.count, s.now);
    if Gone(s.key, s.now) {
      NewLifeIsLater(s, window);
      OneMoreLife(s.lives, |s.issued|, window, s.now);
    }
  }

  lemma IncrKeepsKey(s: State, r: RequestId, answered: bool, window: Time)
    requires LivesOk(s.lives, |s.issued|, window) && KeyOk(s, window)
    ensures KeyOk(IncrStep(s, r, answered), window)
  {
    var t := IncrStep(s, r, answered);
    if Gone(s.key, s.now) {
      assert t.lives[|t.lives| - 1] == Life(|s.issued|, s.now);
    } else {
      assert t.lives == s.lives;
    }
  }

  lemma IncrShape(s: State, r: RequestId, answered: bool, window: Time)
    requires KeyOk(s, window)
    ensures var t, n := IncrStep(s, r, answered), |s.issued|;
      if Gone(s.key, s.now) then
        t.lives == s.lives + [Life(n, s.now)] && t.issued == s.issued + [Issue(|s.lives|, 1, s.now)]
      else
        && t.lives == s.lives != []
        && t.issued == s.issued + [Issue(|s.lives| - 1, n - s.lives[|s.lives| - 1].first + 1, s.now)]
  {}

  lemma IssueOpensLife(issued: seq<Issue>, lives: seq<Life>, now: Time)
    requires IssuesOk(issued, lives) && PastOnly(issued, lives, now)
    ensures IssuesOk(issued + [Issue(|lives|, 1, now)], lives + [Life(|issued|, now)])
  {
    var issued', lives' := issued + [Issue(|lives|, 1, now)], lives + [Life(|issued|, now)];
    forall i, k | 0 <= i < |issued'| && issued'[i].life < k < |lives'| ensures issued'[i].at <= lives'[k].start {
      if i < |issued| && k < |lives| { assert issued[i].at <= lives[k].start; }
    }
    forall i | 0 <= i < |issued| ensures lives'[issued'[i].life] == lives[issued[i].life] {}
  }

  lemma IssueInLastLife(issued: seq<Issue>, lives: seq<Life>, now: Time)
    requires IssuesOk(issued, lives) && PastOnly(issued, lives, now)
    requires lives != [] && lives[|lives| - 1].first < |issued|
    ensures IssuesOk(issued + [Issue(|lives| - 1, |issued| - lives[|lives| - 1].first + 1, now)], lives)
  {}

  lemma IncrKeepsIssues(s: State, r: RequestId, answered: bool, window: Time)
    requires PastOnly(s.issued, s.lives, s.now) && KeyOk(s, window) && IssuesOk(s.issued, s.lives)
    ensures var t := IncrStep(s, r, answered); IssuesOk(t.issued, t.lives)
  {
    IncrShape(s, r, answered, window);
    if Gone(s.key, s.now) {
      IssueOpensLife(s.issued, s.lives, s.now);
    } else {
      assert s.lives[|s.lives| - 1].first < |s.issued|;
      IssueInLastLife(s.issued, s.lives, s.now);
    }
  }

  lemma IncrKeepsWaiting(s: State, r: RequestId, answered: bool, window: Time)
    requires LivesOk(s.lives, |s.issued|, window) && KeyOk(s, window) && WaitingOk(s) && r !in s.waiting
    ensures WaitingOk(IncrStep(s, r, answered))
  {
    var t := IncrStep(s, r, answered);
    assert forall q <- s.waiting :: t.waiting[q] == s.waiting[q];
    if Gone(s.key, s.now) {
      assert t.lives[|t.lives| - 1].first == |s.issued|;
      forall q <- s.waiting ensures !s.waiting[q].ForExpire? {
        assert s.lives != [] ==> s.key.expireAt.Some?;
      }
    } else {
      assert t.lives == s.lives && t.key.expireAt == s.key.expireAt;
    }
  }

  lemma IncrKeepsInv(s: State, r: RequestId, answered: bool, limit: int, window: Time)
    requires Inv(s, limit, window) && r !in s.waiting
    ensures Inv(IncrStep(s, r, answered), limit, window)
  {
    IncrKeepsLives(s, r, answered, window);
    IncrKeepsKey(s, r, answered, window);
    IncrKeepsIssues(s, r, answered, window);
    IncrKeepsWaiting(s, r, answered, window);
  }

  lemma ExpireKeepsWaiting(s: State, r: RequestId, applied: bool, answered: bool, limit: int, window: Time)
    requires WaitingOk(s) && r in s.waiting && s.waiting[r].ForExpire?
    ensures WaitingOk(Step(limit, window, s, Expire(r, applied, answered)))
  {
    assert forall q <- s.waiting | q != r :: !s.waiting[q].ForExpire?;
  }

  lemma ExpireKeepsKey(s: State, r: RequestId, applied: bool, answered: bool, limit: int, window: Time)
    requires KeyOk(s, window) && PastOnly(s.issued, s.lives, s.now) && r in s.waiting && s.waiting[r].ForExpire?
    ensures KeyOk(Step(limit, window, s, Expire(r, applied, answered)), window)
  {
    assert s.lives != [] ==> s.lives[|s.lives| - 1].start <= s.now;
  }

  lemma ExpireKeepsInv(s: State, r: RequestId, applied: bool, answered: bool, limit: int, window: Time)
    requires Inv(s, limit, window) && r in s.waiting && s.waiting[r].ForExpire?
    ensures Inv(Step(limit, window, s, Expire(r, applied, answered)), limit, window)
  {
    ExpireKeepsWaiting(s, r, applied, answered, limit, window);
    ExpireKeepsKey(s, r, applied, answered, limit, window);
  }

  lemma TtlKeepsInv(s: State, r: RequestId, answered: bool, limit: int, window: Time)
    requires Inv(s, limit, window) && r in s.waiting && s.waiting[r].ForTtl?
    ensures Inv(Step(limit, window, s, Ttl(r, answered)), limit, window)
  {
    assert WaitingOk(Step(limit, window, s, Ttl(r, answered)));
  }

  lemma TickKeepsInv(s: State, span: Time, limit: int, window: Time)
    requires Inv(s, limit, window)
    ensures Inv(s.(now := s.now + span), limit, window)
  {
    assert WaitingOk(s.(now := s.now + span));
  }

  lemma StepKeepsInv(s: State, a: Action, limit: int, window: Time)
    requires Inv(s, limit, window)
    ensures Inv(Step(limit, window, s, a), limit, window)
  {
    match a
    case Tick(span) => TickKeepsInv(s, span, limit, window);
    case Incr(r, answered) =>
      if r !in s.waiting { IncrKeepsInv(s, r, answered, limit, window); }
    case Expire(r, applied, answered) =>
      if r in s.waiting && s.waiting[r].ForExpire? { ExpireKeepsInv(s, r, applied, answered, limit, window); }
    case Ttl(r, answered) =>
      if r in s.waiting && s.waiting[r].ForTtl? { TtlKeepsInv(s, r, answered, limit, window); }
  }

  lemma {:induction false} RunKeepsInv(s: State, actions: seq<Action>, limit: int, window: Time)
    requires Inv(s, limit, window)
    ensures Inv(Run(limit, window, s, actions), limit, window)
    decreases |actions|
  {
    if actions != [] {
      StepKeepsInv(s, actions[0], limit, window);
      RunKeepsInv(Step(limit, window, s, actions[0]), actions[1..], limit, window);
    }
  }

  // ---------------------------------------------------------------- the bounds

  function Range(a: int, b: int): (r: set<int>)
    requires a <= b
    ensures |r| == b - a && forall i :: i in r <==> a <= i < b
    decreases b - a
  {
    if a == b then {} else Range(a, b - 1) + {b - 1}
  }

  lemma SubsetSize(s: set<int>, t: set<int>)
    requires s <= t
    ensures |s| <= |t|
  {
    assert t == s + (t - s);
  }

  ghost function AdmittedInLife(s: State, k: nat): set<int> {
    set i: int | i in s.allowedAt && 0 <= i < |s.issued| && s.issued[i].life == k
  }

  ghost function AdmittedIn(s: State, from: int, to: int): set<int> {
    set i: int | i in s.allowedAt && 0 <= i < |s.issued| && from <= s.issued[i].at < to
  }

  function Positive(limit: int): nat { if limit < 0 then 0 else limit }

  lemma LifeIsARange(s: State, limit: int, window: Time, k: nat)
    requires Inv(s, limit, window) && k < |s.lives|
    ensures AdmittedInLife(s, k) <= Range(s.lives[k].first, s.lives[k].first + Positive(limit))
  {}

  /** At most `limit` requests are allowed in one life of the counter, over every interleaving. */
  lemma LifeBound(actions: seq<Action>, limit: int, window: Time, k: nat)
    ensures |AdmittedInLife(Run(limit, window, INIT, actions), k)| <= Positive(limit)
  {
    var s := Run(limit, window, INIT, actions);
    RunKeepsInv(INIT, actions, limit, window);
    if k < |s.lives| {
      LifeIsARange(s, limit, window, k);
      SubsetSize(AdmittedInLife(s, k), Range(s.lives[k].first, s.lives[k].first + Positive(limit)));
    } else {
      assert AdmittedInLife(s, k) == {};
    }
  }

  /** How many windows it takes to cover a span. */
  function Windows(span: Time, window: Time): nat requires window >= 1 {
    if span == 0 then 0 else if span <= window then 1 else 1 + Windows(span - window, window)
  }

  /** A span reaches into no more lives than there are windows in it, for lives are a window apart. */
  lemma {:induction false} LivesCovered(lives: seq<Life>, issues: nat, window: Time, a: nat, b: nat, span: Time)
    requires LivesOk(lives, issues, window) && window >= 1 && a <= b < |lives|
    requires lives[b].start < lives[a].start + span
    ensures b - a + 1 <= Windows(span, window)
    decreases b - a
  {
    if a < b { LivesCovered(lives, issues, window, a + 1, b, span - window); }
  }

  lemma AtMostTimes(m: nat, n: nat, limit: nat)
    requires m <= n
    ensures m * limit <= n * limit
  {}

  /** What was admitted in the lives from `a` up to, not including, `b`. */
  ghost function AdmittedInLives(s: State, a: nat, b: nat): set<int> {
    set i: int | i in s.allowedAt && 0 <= i < |s.issued| && a <= s.issued[i].life < b
  }

  lemma AdmittedInOneMore(s: State, limit: int, window: Time, a: nat, b: nat)
    requires Inv(s, limit, window) && limit >= 1 && a <= b < |s.lives|
    ensures |AdmittedInLives(s, a, b + 1)| <= |AdmittedInLives(s, a, b)| + limit
  {
    assert AdmittedInLives(s, a, b + 1) == AdmittedInLives(s, a, b) + AdmittedInLife(s, b);
    LifeIsARange(s, limit, window, b);
    SubsetSize(AdmittedInLife(s, b), Range(s.lives[b].first, s.lives[b].first + limit));
  }

  lemma {:induction false} LivesBound(s: State, limit: int, window: Time, a: nat, b: nat)
    requires Inv(s, limit, window) && limit >= 1 && a <= b <= |s.lives|
    ensures |AdmittedInLives(s, a, b)| <= (b - a) * limit
    decreases b
  {
    if a == b {
      assert AdmittedInLives(s, a, b) == {};
    } else {
      LivesBound(s, limit, window, a, b - 1);
      AdmittedInOneMore(s, limit, window, a, b - 1);
      OneTimesMore(b - 1 - a, limit);
    }
  }

  /** The oldest and the youngest life with an admitted request in the interval. */
  ghost predicate Spans(s: State, from: int, to: int, first: int, last: int) {
    var all := AdmittedIn(s, from, to);
    && first in all && last in all
    && forall i <- all :: s.issued[first].life <= s.issued[i].life <= s.issued[last].life
  }

  lemma {:induction false} SomeSpan(s: State, from: int, to: int, part: set<int>) returns (first: int, last: int)
    requires part != {} && part <= AdmittedIn(s, from, to)
    ensures first in part && last in part
    ensures forall i <- part :: s.issued[first].life <= s.issued[i].life <= s.issued[last].life
    decreases part
  {
    var m :| m in part;
    if part == {m} {
      return m, m;
    }
    assert part == (part - {m}) + {m};
    first, last := SomeSpan(s, from, to, part - {m});
    if s.issued[m].life < s.issued[first].life { first := m; }
    if s.issued[m].life > s.issued[last].life { last := m; }
  }

  lemma OpenerIsOutside(s: State, limit: int, window: Time, from: int, span: Time, first: int, last: int)
    requires Inv(s, limit, window) && limit >= 1 && Spans(s, from, from + span, first, last)
    requires s.lives[s.issued[first].life].start < from
    ensures var a, b := s.issued[first].life, s.issued[last].life;
      |AdmittedIn(s, from, from + span)| <= limit - 1 + |AdmittedInLives(s, a + 1, b + 1)|
  {
    var a, b := s.issued[first].life, s.issued[last].life;
    var all, opener := AdmittedIn(s, from, from + span), s.lives[a].first;
    var older, younger := Range(opener + 1, opener + limit), AdmittedInLives(s, a + 1, b + 1);
    forall i <- all ensures i in older + younger {
      if s.issued[i].life == a {
        assert i != opener;
        assert opener <= i && s.issued[i].count == i - opener + 1 <= limit;
      }
    }
    SubsetSize(all, older + younger);
  }

  /** Only the lives the interval reaches into count; one that began before it lacks its opener. */
  lemma LivesReached(s: State, limit: int, window: Time, from: int, span: Time, first: int, last: int)
    requires Inv(s, limit, window) && window >= 1 && Spans(s, from, from + span, first, last)
    ensures var a, b := s.issued[first].life, s.issued[last].life;
      limit >= 1 && b - a + (if s.lives[a].start < from then 0 else 1) <= Windows(span, window)
  {
    var a, b := s.issued[first].life, s.issued[last].life;
    assert 1 <= s.issued[first].count <= limit;
    assert s.lives[b].start <= s.issued[last].at < from + span;
    if s.lives[a].start >= from {
      LivesCovered(s.lives, |s.issued|, window, a, b, span);
    } else if a < b {
      assert from <= s.issued[first].at <= s.lives[a + 1].start;
      LivesCovered(s.lives, |s.issued|, window, a + 1, b, span);
    }
  }

  lemma SpannedBoundAfterOpener(s: State, limit: int, window: Time, from: int, span: Time, first: int, last: int)
    requires Inv(s, limit, window) && window >= 1 && Spans(s, from, from + span, first, last)
    requires s.lives[s.issued[first].life].start < from
    ensures limit >= 1 && |AdmittedIn(s, from, from + span)| <= Windows(span, window) * limit + limit - 1
  {
    var a, b := s.issued[first].life, s.issued[last].life;
    LivesReached(s, limit, window, from, span, first, last);
    OpenerIsOutside(s, limit, window, from, span, first, last);
    LivesBound(s, limit, window, a + 1, b + 1);
    AtMostTimes(b - a, Windows(span, window), limit);
  }

  lemma SpannedBoundWithOpener(s: State, limit: int, window: Time, from: int, span: Time, first: int, last: int)
    requires Inv(s, limit, window) && window >= 1 && Spans(s, from, from + span, first, last)
    requires s.lives[s.issued[first].life].start >= from
    ensures limit >= 1 && |AdmittedIn(s, from, from + span)| <= Windows(span, window) * limit
  {
    var a, b := s.issued[first].life, s.issued[last].life;
    LivesReached(s, limit, window, from, span, first, last);
    LivesBound(s, limit, window, a, b + 1);
    SubsetSize(AdmittedIn(s, from, from + span), AdmittedInLives(s, a, b + 1));
    AtMostTimes(b + 1 - a, Windows(span, window), limit);
  }

  /** In a stretch of any length: the limit for every window in it, and the limit less one. */
  lemma SpanBoundOf(s: State, limit: int, window: Time, from: int, span: Time)
    requires Inv(s, limit, window) && window >= 1
    ensures var n := |AdmittedIn(s, from, from + span)|;
      if limit >= 1 then n <= Windows(span, window) * limit + limit - 1 else n == 0
  {
    var all := AdmittedIn(s, from, from + span);
    if all != {} {
      var first, last := SomeSpan(s, from, from + span, all);
      if s.lives[s.issued[first].life].start < from {
        SpannedBoundAfterOpener(s, limit, window, from, span, first, last);
      } else {
        SpannedBoundWithOpener(s, limit, window, from, span, first, last);
      }
    } else if limit >= 1 {
      AtMostTimes(0, Windows(span, window), limit);
    }
  }

  /**
   The rate bound, with requests dated by their INCR. Over every timed and interleaved run, in any
   half-open interval as long as the window, at most `2 * limit - 1` requests are allowed: one short of
   twice the limit, because the request that opened the older life lies before any interval that
   reaches into the younger one.
   */
  lemma WindowBound(actions: seq<Action>, limit: int, window: Time, from: Time)
    ensures var n := |AdmittedIn(Run(limit, window, INIT, actions), from, from + window)|;
      if limit >= 1 then n <= 2 * limit - 1 else n == 0
  {
    var s := Run(limit, window, INIT, actions);
    if window == 0 {
      assert AdmittedIn(s, from, from) == {};
    } else {
      RunKeepsInv(INIT, actions, limit, window);
      SpanBoundOf(s, limit, window, from, window);
    }
  }

  // ---------------------------------------------------------------- dated by the answer

  /** Every request that was let through was so no later than `delay` after its INCR. */
  ghost predicate Prompt(s: State, delay: Time) {
    forall i <- s.allowedAt :: 0 <= i < |s.issued| && s.allowedAt[i] <= s.issued[i].at + delay
  }

  /** The requests let through in an interval. */
  ghost function AllowedIn(s: State, from: Time, to: Time): set<int> {
    set i: int | i in s.allowedAt && from <= s.allowedAt[i] < to
  }

  lemma AllowedWithinDelay(s: State, limit: int, window: Time, delay: Time, from: Time, to: Time)
    requires Inv(s, limit, window) && Prompt(s, delay)
    ensures |AllowedIn(s, from, to)| <= |AdmittedIn(s, from - delay, to)|
  {
    forall i <- AllowedIn(s, from, to) ensures i in AdmittedIn(s, from - delay, to) {
      assert s.issued[i].at <= s.allowedAt[i] <= s.issued[i].at + delay;
    }
    SubsetSize(AllowedIn(s, from, to), AdmittedIn(s, from - delay, to));
  }

  lemma DelayedBoundOf(s: State, limit: int, window: Time, delay: Time, from: Time)
    requires Inv(s, limit, window) && window >= 1 && Prompt(s, delay)
    ensures var n := |AllowedIn(s, from, from + window)|;
      if limit >= 1 then n <= (2 + Windows(delay, window)) * limit - 1 else n == 0
  {
    AllowedWithinDelay(s, limit, window, delay, from, from + window);
    SpanBoundOf(s, limit, window, from - delay, window + delay);
    var q := Windows(delay, window);
    assert Windows(window + delay, window) == q + 1;
    assert (from - delay) + (window + delay) == from + window;
    if limit >= 1 { OneTimesMore(q + 1, limit); }
  }

  /**
   The rate bound for the moment a request is let through. When every TTL answers within `delay` of its
   INCR, an interval as long as the window holds at most `2 * limit - 1` requests, and the limit once
   more for each window that `delay` reaches into.
   */
  lemma DelayedBound(actions: seq<Action>, limit: int, window: Time, delay: Time, from: Time)
    requires window >= 1 && Prompt(Run(limit, window, INIT, actions), delay)
    ensures var n := |AllowedIn(Run(limit, window, INIT, actions), from, from + window)|;
      if limit >= 1 then n <= (2 + Windows(delay, window)) * limit - 1 else n == 0
  {
    RunKeepsInv(INIT, actions, limit, window);
    DelayedBoundOf(Run(limit, window, INIT, actions), limit, window, delay, from);
  }
}
