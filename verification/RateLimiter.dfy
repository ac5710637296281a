/** The per-address request limiter: a window opens with the first request that finds none open. */
module RateLimiter {
  const REQUESTS := 10
  const WINDOW := 60_000_000_000        // a minute in nanoseconds

  datatype Bucket = Bucket(count: int, resetAt: int)

  type Table = map<string, Bucket>

  function Decide(t: Table, ip: string, now: int): (Table, bool) {
    if ip !in t || now > t[ip].resetAt then (t[ip := Bucket(1, now + WINDOW)], true)
    else if t[ip].count >= REQUESTS then (t, false)
    else (t[ip := t[ip].(count := t[ip].count + 1)], true)
  }

  class RateBucket {
    var count: int
    var resetAt: int

    constructor (count: int, resetAt: int)
      ensures this.count == count && this.resetAt == resetAt
    {
      this.count, this.resetAt := count, resetAt;
    }
  }

  class Limiter {
    var buckets: map<string, RateBucket>

    ghost predicate Valid()
      reads this
    {
      forall a, b :: a in buckets && b in buckets && a != b ==> buckets[a] != buckets[b]
    }

    ghost function Contents(): (t: Table)
      reads this, buckets.Values
      ensures t.Keys == buckets.Keys
    {
      map ip | ip in buckets :: Bucket(buckets[ip].count, buckets[ip].resetAt)
    }

    constructor ()
      ensures Valid() && Contents() == map[]
    {
      buckets := map[];
    }

    /** `now` is the clock's reading once the lock is held. */
    method Allow(ip: string, now: int) returns (ok: bool)
      requires Valid()
      modifies this, buckets.Values
      ensures Valid() && (Contents(), ok) == Decide(old(Contents()), ip, now)
      ensures forall b :: b in buckets.Values ==> b in old(buckets.Values) || fresh(b)
    {
      if ip !in buckets || now > buckets[ip].resetAt {
        var b := new RateBucket(1, now + WINDOW);
        buckets := buckets[ip := b];
        assert Contents() == old(Contents())[ip := Bucket(1, now + WINDOW)];
        return true;
      }
      var b := buckets[ip];
      if b.count >= REQUESTS {
        return false;
      }
      b.count := b.count + 1;
      assert Contents() == old(Contents())[ip := Bucket(b.count, b.resetAt)];
      ok := true;
    }
  }

  // ------------------------------------------------------------------ runs

  datatype Request = Request(ip: string, at: int)

  function Init(rs: seq<Request>): seq<Request>
    requires rs != []
  {
    rs[..|rs| - 1]
  }

  function Last(rs: seq<Request>): Request
    requires rs != []
  {
    rs[|rs| - 1]
  }

  function Run(rs: seq<Request>): Table {
    if rs == [] then map[] else Decide(Run(Init(rs)), Last(rs).ip, Last(rs).at).0
  }

  /** Whether the request is let through after all those before it. */
  predicate Allowed(before: seq<Request>, r: Request) {
    Decide(Run(before), r.ip, r.at).1
  }

  /** How many requests of an address were let through from `lo` to `hi`, both included. */
  function Count(rs: seq<Request>, ip: string, lo: int, hi: int): (n: nat) {
    if rs == [] then 0
    else Count(Init(rs), ip, lo, hi) +
         (if Last(rs).ip == ip && lo <= Last(rs).at <= hi && Allowed(Init(rs), Last(rs)) then 1 else 0)
  }

  ghost predicate Monotone(rs: seq<Request>) {
    forall i, j :: 0 <= i < j < |rs| ==> rs[i].at <= rs[j].at
  }

  function CeilDiv(a: int, b: int): (q: int)
    requires b > 0
    ensures (q - 1) * b < a <= q * b
  {
    (a + b - 1) / b
  }

  /** Every window holds one to ten requests, opened no later than the last request, and covers all its address sent. */
  lemma {:induction false} WindowFacts(rs: seq<Request>, ip: string)
    requires Monotone(rs)
    ensures ip in Run(rs) ==>
              rs != [] && 1 <= Run(rs)[ip].count <= REQUESTS && Run(rs)[ip].resetAt - WINDOW <= Last(rs).at
    ensures forall k :: 0 <= k < |rs| && rs[k].ip == ip ==> ip in Run(rs) && rs[k].at <= Run(rs)[ip].resetAt
  {
    if rs != [] {
      WindowFacts(Init(rs), ip);
      assert forall k :: 0 <= k < |rs| - 1 ==> Init(rs)[k] == rs[k];
    }
  }

  /** What was let through from `lo` on fits into `k` windows opened since and the current one, which ends accordingly
      late. */
  ghost predicate Fits(rs: seq<Request>, ip: string, lo: int, hi: int, k: nat) {
    var n := Count(rs, ip, lo, hi);
    n > 0 ==>
      && ip in Run(rs)
      && n <= REQUESTS * k + Run(rs)[ip].count - 1
      && Run(rs)[ip].resetAt >= lo + k * WINDOW
      && (k >= 2 ==> Run(rs)[ip].resetAt > lo + k * WINDOW)
  }

  lemma {:induction false} WindowsPassed(rs: seq<Request>, ip: string, lo: int, hi: int) returns (k: nat)
    requires Monotone(rs) && forall i :: 0 <= i < |rs| ==> rs[i].at <= hi
    ensures Fits(rs, ip, lo, hi, k)
  {
    k := 0;
    if rs != [] {
      k := WindowsPassed(Init(rs), ip, lo, hi);
      WindowFacts(Init(rs), ip);
      var t, r := Run(Init(rs)), Last(rs);
      if r.ip == ip && r.at >= lo {
        if ip !in t || r.at > t[ip].resetAt {
          k := if Count(Init(rs), ip, lo, hi) == 0 then 1 else k + 1;
        } else if Count(Init(rs), ip, lo, hi) == 0 {
          k := 0;
        }
      }
    }
  }

  /** No closed interval of length T lets through more than 10 * ceil(T / W) + 9 requests of one address. */
  lemma {:induction false} AtMost(rs: seq<Request>, ip: string, lo: int, T: int)
    requires Monotone(rs) && T > 0
    ensures Count(rs, ip, lo, lo + T) <= REQUESTS * CeilDiv(T, WINDOW) + REQUESTS - 1
  {
    if rs == [] {
    } else if Last(rs).at > lo + T {
      AtMost(Init(rs), ip, lo, T);
    } else {
      var k := WindowsPassed(rs, ip, lo, lo + T);
      WindowFacts(rs, ip);
      WindowsIn(k, T);
    }
  }

  lemma WindowsIn(k: nat, T: int)
    requires T > 0
    ensures k >= 2 && (k - 1) * WINDOW < T ==> k <= CeilDiv(T, WINDOW)
    ensures CeilDiv(T, WINDOW) >= 1
  {}

  /** So at most 19 in any minute, and 19 can happen. */
  lemma AMinute(rs: seq<Request>, ip: string, lo: int)
    requires Monotone(rs)
    ensures Count(rs, ip, lo, lo + WINDOW) <= 19
  {
    AtMost(rs, ip, lo, WINDOW);
    assert CeilDiv(WINDOW, WINDOW) == 1;
  }

  /** `n` requests at the same moment. */
  function Burst(ip: string, at: int, n: nat): seq<Request> {
    seq(n, _ => Request(ip, at))
  }

  lemma StaysInWindow(rs: seq<Request>, r: Request, lo: int, hi: int)
    requires r.ip in Run(rs) && r.at <= Run(rs)[r.ip].resetAt && Run(rs)[r.ip].count < REQUESTS
    ensures Run(rs + [r]) == Run(rs)[r.ip := Run(rs)[r.ip].(count := Run(rs)[r.ip].count + 1)]
    ensures Count(rs + [r], r.ip, lo, hi) == Count(rs, r.ip, lo, hi) + (if lo <= r.at <= hi then 1 else 0)
  {
    assert Init(rs + [r]) == rs && Last(rs + [r]) == r;
  }

  /** A burst within an open window. */
  lemma {:induction false} BurstCounts(rs: seq<Request>, ip: string, at: int, n: nat, lo: int, hi: int)
    requires ip in Run(rs) && at <= Run(rs)[ip].resetAt && Run(rs)[ip].count + n <= REQUESTS && lo <= at <= hi
    ensures var rs' := rs + Burst(ip, at, n);
            && Count(rs', ip, lo, hi) == Count(rs, ip, lo, hi) + n
            && Run(rs') == Run(rs)[ip := Run(rs)[ip].(count := Run(rs)[ip].count + n)]
  {
    hide Run, Count;
    if n == 0 {
      assert rs + Burst(ip, at, 0) == rs;
    } else {
      BurstCounts(rs, ip, at, n - 1, lo, hi);
      var rs' := rs + Burst(ip, at, n - 1);
      StaysInWindow(rs', Request(ip, at), lo, hi);
      assert rs + Burst(ip, at, n) == rs' + [Request(ip, at)];
    }
  }

  lemma OpensWindow(rs: seq<Request>, r: Request, lo: int, hi: int)
    requires r.ip in Run(rs) ==> r.at > Run(rs)[r.ip].resetAt
    ensures Run(rs + [r]) == Run(rs)[r.ip := Bucket(1, r.at + WINDOW)]
    ensures Count(rs + [r], r.ip, lo, hi) == Count(rs, r.ip, lo, hi) + (if lo <= r.at <= hi then 1 else 0)
  {
    assert Init(rs + [r]) == rs && Last(rs + [r]) == r;
  }

  /** The bound for a minute is met: one request, nine at the end of its window, ten in the next. */
  lemma NineteenInAMinute(ip: string) returns (rs: seq<Request>)
    ensures Monotone(rs) && Count(rs, ip, WINDOW, 2 * WINDOW) == 19
  {
    hide Count, Burst;
    var lo, hi := WINDOW, 2 * WINDOW;
    var first := Request(ip, 0);
    OpensWindow([], first, lo, hi);
    assert [] + [first] == [first];
    BurstCounts([first], ip, WINDOW, 9, lo, hi);
    var second := [first] + Burst(ip, WINDOW, 9);
    OpensWindow(second, Request(ip, WINDOW + 1), lo, hi);
    var third := second + [Request(ip, WINDOW + 1)];
    BurstCounts(third, ip, WINDOW + 1, 9, lo, hi);
    rs := third + Burst(ip, WINDOW + 1, 9);
    NineteenMonotone(ip);
    CountOfNothing(ip, lo, hi);
  }

  lemma NineteenMonotone(ip: string)
    ensures Monotone([Request(ip, 0)] + Burst(ip, WINDOW, 9) + [Request(ip, WINDOW + 1)] + Burst(ip, WINDOW + 1, 9))
  {}

  lemma CountOfNothing(ip: string, lo: int, hi: int)
    ensures Count([], ip, lo, hi) == 0
  {}

  /** Exactly the requests let through since the current window opened are counted in it. */
  lemma {:induction false} CountIsOfWindow(rs: seq<Request>, ip: string, hi: int)
    requires Monotone(rs) && ip in Run(rs) && forall i :: 0 <= i < |rs| ==> rs[i].at <= hi
    ensures Count(rs, ip, Run(rs)[ip].resetAt - WINDOW, hi) == Run(rs)[ip].count
  {
    var t, r := Run(Init(rs)), Last(rs);
    WindowFacts(Init(rs), ip);
    if ip in t { CountIsOfWindow(Init(rs), ip, hi); }
    if r.ip == ip && (ip in t ==> r.at > t[ip].resetAt) {
      NoneSince(Init(rs), ip, r.at, hi);
    }
  }

  lemma {:induction false} NoneSince(rs: seq<Request>, ip: string, lo: int, hi: int)
    requires forall k :: 0 <= k < |rs| && rs[k].ip == ip ==> rs[k].at < lo
    ensures Count(rs, ip, lo, hi) == 0
  {
    if rs != [] { NoneSince(Init(rs), ip, lo, hi); }
  }

  lemma {:induction false} CountGrows(rs: seq<Request>, ip: string, lo: int, lo': int, hi: int)
    requires lo <= lo'
    ensures Count(rs, ip, lo, hi) >= Count(rs, ip, lo', hi)
  {
    if rs != [] { CountGrows(Init(rs), ip, lo, lo', hi); }
  }

  /** A request is refused only when ten of its address were let through within the minute before: exactly ten since the
      window opened. */
  lemma RefusedMeans(rs: seq<Request>, r: Request)
    requires Monotone(rs + [r]) && !Allowed(rs, r)
    ensures var start := Run(rs)[r.ip].resetAt - WINDOW;
            r.at - WINDOW <= start <= r.at && Count(rs, r.ip, start, r.at) == REQUESTS
    ensures Count(rs, r.ip, r.at - WINDOW, r.at) >= REQUESTS
  {
    var all := rs + [r];
    assert all[|rs|] == r && forall i :: 0 <= i < |rs| ==> all[i] == rs[i];
    assert forall i, j :: 0 <= i < j < |rs| ==> all[i].at <= all[j].at;
    assert forall i :: 0 <= i < |rs| ==> all[i].at <= all[|rs|].at;
    CountIsOfWindow(rs, r.ip, r.at);
    WindowFacts(rs, r.ip);
    CountGrows(rs, r.ip, r.at - WINDOW, Run(rs)[r.ip].resetAt - WINDOW, r.at);
  }

  // ------------------------------------------------------------------ more than ten in a minute

  /** How many requests of an address come until `until`, or after it. */
  function Until(rs: seq<Request>, ip: string, until: int): (n: nat) {
    if rs == [] then 0 else Until(Init(rs), ip, until) + (if Last(rs).ip == ip && Last(rs).at <= until then 1 else 0)
  }

  function Beyond(rs: seq<Request>, ip: string, until: int): (n: nat) {
    if rs == [] then 0 else Beyond(Init(rs), ip, until) + (if Last(rs).ip == ip && Last(rs).at > until then 1 else 0)
  }

  function Min(a: int, b: int): int {
    if a < b then a else b
  }

  /** Where the window that is open when the minute begins ends; without one, before the minute. */
  function WindowEnd(t: Table, ip: string, lo: int): int {
    if ip in t then t[ip].resetAt else lo - 1
  }

  /** How many requests that window still lets through. */
  function Left(t: Table, ip: string): int {
    if ip in t then REQUESTS - t[ip].count else 0
  }

  /** The bucket after the requests of the minute: the old window until a request comes behind its end, then a new
      one. */
  ghost predicate BucketIs(t: Table, rs: seq<Request>, ip: string, lo: int, t': Table) {
    var end := WindowEnd(t, ip, lo);
    if Beyond(rs, ip, end) == 0 then
      (ip in t' <==> ip in t) && (ip in t ==> t'[ip] == Bucket(t[ip].count + Min(Until(rs, ip, end), Left(t, ip)), end))
    else ip in t' && t'[ip].resetAt >= lo + WINDOW && t'[ip].count == Min(Beyond(rs, ip, end), REQUESTS)
  }

  ghost predicate InMinute(before: seq<Request>, rs: seq<Request>, lo: int) {
    && (forall i :: 0 <= i < |before| ==> before[i].at < lo)
    && (forall i :: 0 <= i < |rs| ==> lo <= rs[i].at <= lo + WINDOW)
    && Monotone(rs)
  }

  lemma InitBehind(before: seq<Request>, rs: seq<Request>)
    requires rs != []
    ensures Init(before + rs) == before + Init(rs) && Last(before + rs) == Last(rs)
  {}

  lemma {:induction false} BeyondStays(rs: seq<Request>, ip: string, until: int)
    requires rs != [] && Monotone(rs) && Beyond(Init(rs), ip, until) > 0
    ensures Last(rs).at > until
    decreases |rs|
  {
    var init := Init(rs);
    if !(Last(init).ip == ip && Last(init).at > until) {
      BeyondStays(init, ip, until);
    }
    assert rs[|rs| - 2].at <= rs[|rs| - 1].at;
  }

  function Let(t: Table, rs: seq<Request>, ip: string, lo: int): int {
    var end := WindowEnd(t, ip, lo);
    Min(Until(rs, ip, end), Left(t, ip)) + Min(Beyond(rs, ip, end), REQUESTS)
  }

  /** One more request of the minute. */
  lemma MinuteStep(t: Table, rs: seq<Request>, ip: string, lo: int, t': Table)
    requires rs != [] && BucketIs(t, Init(rs), ip, lo, t') && lo <= Last(rs).at <= lo + WINDOW
    requires ip in t ==> 1 <= t[ip].count <= REQUESTS
    requires Beyond(Init(rs), ip, WindowEnd(t, ip, lo)) > 0 ==> Last(rs).at > WindowEnd(t, ip, lo)
    ensures var (u, ok) := Decide(t', Last(rs).ip, Last(rs).at);
            && BucketIs(t, rs, ip, lo, u)
            && Let(t, rs, ip, lo) == Let(t, Init(rs), ip, lo) + (if Last(rs).ip == ip && ok then 1 else 0)
  {
    var end := WindowEnd(t, ip, lo);
    assert Until(rs, ip, end) ==
           Until(Init(rs), ip, end) + (if Last(rs).ip == ip && Last(rs).at <= end then 1 else 0);
    assert Beyond(rs, ip, end) ==
           Beyond(Init(rs), ip, end) + (if Last(rs).ip == ip && Last(rs).at > end then 1 else 0);
    hide Until, Beyond, Init, Last;
  }

  lemma NothingYet(t: Table, ip: string, lo: int)
    requires ip in t ==> t[ip].count <= REQUESTS
    ensures BucketIs(t, [], ip, lo, t) && Let(t, [], ip, lo) == 0
  {}

  /** What a minute lets through: the rest of the window open when it begins, and at most ten behind that window's
      end. */
  lemma {:induction false} MinuteIs(before: seq<Request>, rs: seq<Request>, ip: string, lo: int)
    requires Monotone(before) && InMinute(before, rs, lo)
    ensures BucketIs(Run(before), rs, ip, lo, Run(before + rs))
    ensures Count(before + rs, ip, lo, lo + WINDOW) == Let(Run(before), rs, ip, lo)
    decreases |rs|
  {
    hide BucketIs, Let, Decide, Monotone, Until, Beyond;
    var t := Run(before);
    WindowFacts(before, ip);
    if rs == [] {
      assert before + rs == before;
      NoneSince(before, ip, lo, lo + WINDOW);
      NothingYet(t, ip, lo);
    } else {
      MinuteOfInit(before, rs, lo);
      MinuteIs(before, Init(rs), ip, lo);
      InitBehind(before, rs);
      if Beyond(Init(rs), ip, WindowEnd(t, ip, lo)) > 0 { BeyondStays(rs, ip, WindowEnd(t, ip, lo)); }
      MinuteStep(t, rs, ip, lo, Run(before + Init(rs)));
    }
  }

  lemma MinuteOfInit(before: seq<Request>, rs: seq<Request>, lo: int)
    requires rs != [] && InMinute(before, rs, lo)
    ensures InMinute(before, Init(rs), lo) && lo <= Last(rs).at <= lo + WINDOW
  {}

  /** A minute lets more than ten through exactly when a window opened before it is still open, and what is left of that
      window and the requests behind its end, at most ten of them, are more than ten. */
  lemma MoreThanTenIff(before: seq<Request>, rs: seq<Request>, ip: string, lo: int)
    requires Monotone(before) && InMinute(before, rs, lo)
    ensures Count(before + rs, ip, lo, lo + WINDOW) > REQUESTS <==>
            && ip in Run(before)
            && var end := Run(before)[ip].resetAt;
               Min(Until(rs, ip, end), REQUESTS - Run(before)[ip].count) + Min(Beyond(rs, ip, end), REQUESTS) > REQUESTS
  {
    hide Count;
    MinuteIs(before, rs, ip, lo);
    WindowFacts(before, ip);
    if ip !in Run(before) { NoneUntil(rs, ip, lo); }
  }

  lemma {:induction false} NoneUntil(rs: seq<Request>, ip: string, lo: int)
    requires forall i :: 0 <= i < |rs| ==> lo <= rs[i].at
    ensures Until(rs, ip, lo - 1) == 0
  {
    if rs != [] { NoneUntil(Init(rs), ip, lo); }
  }

  // ------------------------------------------------------------------ other addresses

  function Own(rs: seq<Request>, ip: string): seq<Request> {
    if rs == [] then [] else Own(Init(rs), ip) + (if Last(rs).ip == ip then [Last(rs)] else [])
  }

  ghost predicate SameFor(t: Table, u: Table, ip: string) {
    (ip in t <==> ip in u) && (ip in t ==> t[ip] == u[ip])
  }

  lemma {:induction false} OwnWindow(rs: seq<Request>, ip: string)
    ensures SameFor(Run(rs), Run(Own(rs, ip)), ip)
  {
    if rs != [] {
      OwnWindow(Init(rs), ip);
      var own := Own(rs, ip);
      if Last(rs).ip == ip {
        assert Init(own) == Own(Init(rs), ip);
      } else {
        assert own == Own(Init(rs), ip);
      }
    }
  }

  /** An address is treated as if no other had sent anything. */
  lemma OthersNeverMatter(rs: seq<Request>, r: Request)
    ensures Allowed(rs, r) == Allowed(Own(rs, r.ip), r)
  {
    OwnWindow(rs, r.ip);
  }
}
