/** The fixed-window per-IP request counter of internal/server/ratelimit.go.

    Times are integers (nanoseconds).  The code reads the clock just before it takes the
    mutex; the model assumes that the readings are nondecreasing in lock order. */
module RequestLimiter {

  datatype Bucket = Bucket(count: int, windowStart: int)

  datatype Params = Params(limit: int, window: int) {
    /** What one bucket can admit: the first request of a bucket is never refused. */
    function Cap(): (c: int)
      ensures c >= 1 && c >= limit && (c == 1 || c == limit)
    {
      if limit < 1 then 1 else limit
    }
  }

  datatype State = State(buckets: map<string, Bucket>, lastSweep: int)

  datatype Call = Call(ip: string, at: int)

  /** State after the lazy sweep at the head of a call. */
  function Swept(p: Params, st: State, now: int): State {
    if now - st.lastSweep < p.window then st
    else State(map ip | ip in st.buckets && now - st.buckets[ip].windowStart < p.window :: st.buckets[ip], now)
  }

  /** The decision and the new buckets once the sweep is done. */
  predicate Admits(p: Params, buckets: map<string, Bucket>, c: Call) {
    c.ip !in buckets || c.at - buckets[c.ip].windowStart >= p.window || buckets[c.ip].count < p.limit
  }

  function Counted(p: Params, buckets: map<string, Bucket>, c: Call): map<string, Bucket> {
    if c.ip !in buckets || c.at - buckets[c.ip].windowStart >= p.window then
      buckets[c.ip := Bucket(1, c.at)]
    else if buckets[c.ip].count >= p.limit then
      buckets
    else
      buckets[c.ip := Bucket(buckets[c.ip].count + 1, buckets[c.ip].windowStart)]
  }

  predicate Answer(p: Params, st: State, c: Call) {
    Admits(p, Swept(p, st, c.at).buckets, c)
  }

  function Next(p: Params, st: State, c: Call): State {
    var swept := Swept(p, st, c.at);
    State(Counted(p, swept.buckets, c), swept.lastSweep)
  }

  // ----- the limiter object -----

  class IpRateLimiter {
    const limit: int
    const window: int
    var buckets: map<string, Bucket>
    var lastSweep: int

    function Config(): Params { Params(limit, window) }

    function Abs(): State
      reads this
    {
      State(buckets, lastSweep)
    }

    constructor (limit: int, window: int, now: int)
      ensures this.limit == limit && this.window == window
      ensures Abs() == State(map[], now)
    {
      this.limit, this.window := limit, window;
      buckets, lastSweep := map[], now;
    }

    /** Admits or refuses a request and updates the counter of its bucket. */
    method Allow(ip: string, now: int) returns (ok: bool)
      modifies this
      ensures Abs() == Next(Config(), old(Abs()), Call(ip, now))
      ensures ok == Answer(Config(), old(Abs()), Call(ip, now))
    {
      Sweep(now);
      if ip !in buckets || now - buckets[ip].windowStart >= window {
        buckets := buckets[ip := Bucket(1, now)];
        return true;
      }
      if buckets[ip].count >= limit {
        return false;
      }
      buckets := buckets[ip := Bucket(buckets[ip].count + 1, buckets[ip].windowStart)];
      return true;
    }

    /** Drops the expired buckets, at most once per window. */
    method Sweep(now: int)
      modifies this
      ensures Abs() == Swept(Config(), old(Abs()), now)
    {
      if now - lastSweep < window {
        return;
      }
      lastSweep := now;
      var before := buckets;
      var todo := buckets.Keys;
      while todo != {}
        invariant todo <= before.Keys
        invariant lastSweep == now
        invariant buckets == map ip | ip in before
                  && (ip in todo || now - before[ip].windowStart < window) :: before[ip]
        decreases todo
      {
        var ip :| ip in todo;
        todo := todo - {ip};
        if now - buckets[ip].windowStart >= window {
          buckets := buckets - {ip};
        }
      }
    }
  }

  // ----- runs -----

  /** Clock readings are nondecreasing in lock order. */
  predicate Ordered(clock: int, calls: seq<Call>)
    decreases |calls|
  {
    calls == [] || (clock <= calls[0].at && Ordered(calls[0].at, calls[1..]))
  }

  /** Reachable states start here: no bucket, swept at creation. */
  function Initial(now: int): State { State(map[], now) }

  /** Holds initially and after every call: a stored bucket has counted its first request. */
  predicate Valid(st: State) {
    forall ip :: ip in st.buckets ==> st.buckets[ip].count >= 1
  }

  /** The state after a whole run. */
  function Final(p: Params, st: State, calls: seq<Call>): (r: State)
    ensures Valid(st) ==> Valid(r)
    decreases |calls|
  {
    if calls == [] then st else Final(p, Next(p, st, calls[0]), calls[1..])
  }

  /** The answers of a whole run. */
  function Answers(p: Params, st: State, calls: seq<Call>): (r: seq<bool>)
    ensures |r| == |calls|
    decreases |calls|
  {
    if calls == [] then [] else [Answer(p, st, calls[0])] + Answers(p, Next(p, st, calls[0]), calls[1..])
  }

  /** How many requests of one IP a run admits at times from `lo` up to but excluding `hi`. */
  function Admitted(p: Params, st: State, calls: seq<Call>, ip: string, lo: int, hi: int): nat
    decreases |calls|
  {
    if calls == [] then 0 else
      var c := calls[0];
      (if c.ip == ip && lo <= c.at < hi && Answer(p, st, c) then 1 else 0)
      + Admitted(p, Next(p, st, c), calls[1..], ip, lo, hi)
  }

  // ----- at most 2*limit - 1 requests in any window -----

  /** `n` requests of `ip` were admitted since `s`.  A bucket opened before `s` has also counted
      a request that came before `s`; one opened at or after `s` outlives the window. */
  predicate WindowInv(p: Params, st: State, ip: string, s: int, n: int) {
    && n <= 2 * p.Cap() - 1
    && (ip !in st.buckets ==> n <= p.Cap() - 1)
    && (ip in st.buckets ==>
          var b := st.buckets[ip];
          && (b.windowStart < s ==> n <= b.count - 1 && n <= p.Cap() - 1)
          && (b.windowStart >= s ==> n <= p.Cap() - 1 + b.count))
  }

  lemma WindowStep(p: Params, st: State, c: Call, ip: string, s: int, n: int)
    requires Valid(st) && WindowInv(p, st, ip, s, n) && s <= c.at < s + p.window
    ensures WindowInv(p, Next(p, st, c), ip, s, n + if c.ip == ip && Answer(p, st, c) then 1 else 0)
  {
    var swept := Swept(p, st, c.at);
    assert ip in swept.buckets ==> ip in st.buckets && swept.buckets[ip] == st.buckets[ip];
    assert ip in st.buckets && st.buckets[ip].windowStart >= s ==> ip in swept.buckets;
  }

  lemma {:induction false} WindowBoundFrom(p: Params, st: State, clock: int, calls: seq<Call>, ip: string, s: int,
                                           n: nat)
    requires Valid(st) && Ordered(clock, calls)
    requires n > 0 ==> s <= clock
    requires WindowInv(p, st, ip, s, n)
    ensures n + Admitted(p, st, calls, ip, s, s + p.window) <= 2 * p.Cap() - 1
    decreases |calls|
  {
    if calls != [] {
      var c := calls[0];
      if c.at < s {
        assert WindowInv(p, Next(p, st, c), ip, s, 0);
        WindowBoundFrom(p, Next(p, st, c), c.at, calls[1..], ip, s, 0);
      } else if c.at < s + p.window {
        WindowStep(p, st, c, ip, s, n);
        WindowBoundFrom(p, Next(p, st, c), c.at, calls[1..], ip, s,
                        n + if c.ip == ip && Answer(p, st, c) then 1 else 0);
      } else {
        NothingAfter(p, st, clock, calls, ip, s, s + p.window);
      }
    }
  }

  lemma {:induction false} NothingAfter(p: Params, st: State, clock: int, calls: seq<Call>, ip: string, lo: int,
                                        hi: int)
    requires Ordered(clock, calls) && (calls == [] || hi <= calls[0].at)
    ensures Admitted(p, st, calls, ip, lo, hi) == 0
    decreases |calls|
  {
    if calls != [] {
      NothingAfter(p, Next(p, st, calls[0]), calls[0].at, calls[1..], ip, lo, hi);
    }
  }

  /** Main result: whatever the other clients do and wherever sweeps fall, no half-open interval of
      one window length sees more than `2*limit - 1` requests of one IP admitted. */
  lemma WindowBound(p: Params, st: State, clock: int, calls: seq<Call>, ip: string, s: int)
    requires Valid(st) && Ordered(clock, calls)
    ensures Admitted(p, st, calls, ip, s, s + p.window) <= 2 * p.Cap() - 1
  {
    WindowBoundFrom(p, st, clock, calls, ip, s, 0);
  }

  /** A run from `st` at `clock` that admits `n` requests of `ip` in the interval. */
  predicate Yields(p: Params, st: State, clock: int, calls: seq<Call>, ip: string, lo: int, hi: int, n: int) {
    Ordered(clock, calls) && Admitted(p, st, calls, ip, lo, hi) == n
  }

  /** Put an admitted request in front of a run. */
  lemma OneMore(p: Params, st: State, clock: int, ip: string, at: int, rest: seq<Call>, lo: int, hi: int, n: int)
    returns (calls: seq<Call>)
    requires clock <= at && Answer(p, st, Call(ip, at)) && Yields(p, Next(p, st, Call(ip, at)), at, rest, ip, lo, hi, n)
    ensures Yields(p, st, clock, calls, ip, lo, hi, n + if lo <= at < hi then 1 else 0)
  {
    calls := [Call(ip, at)] + rest;
    assert calls[1..] == rest;
  }

  /** One more request in a live bucket with room: counted, and nothing is swept. */
  lemma BurstStep(p: Params, st: State, ip: string, at: int)
    requires at - st.lastSweep < p.window
    requires ip in st.buckets && at - st.buckets[ip].windowStart < p.window && st.buckets[ip].count < p.limit
    ensures var b := st.buckets[ip];
            Next(p, st, Call(ip, at)) == State(st.buckets[ip := Bucket(b.count + 1, b.windowStart)], st.lastSweep)
    ensures Answer(p, st, Call(ip, at))
  {
  }

  /** A burst of `k` requests inside one live bucket with room for them is admitted. */
  lemma {:induction false} Burst(p: Params, st: State, clock: int, ip: string, at: int, k: nat, rest: seq<Call>,
                                 lo: int, hi: int, n: int) returns (calls: seq<Call>)
    requires at - st.lastSweep < p.window && ip in st.buckets && at - st.buckets[ip].windowStart < p.window
    requires st.buckets[ip].count + k <= p.limit && lo <= at < hi && clock <= at
    requires var b := st.buckets[ip];
             Yields(p, State(st.buckets[ip := Bucket(b.count + k, b.windowStart)], st.lastSweep), at,
                    rest, ip, lo, hi, n)
    ensures Yields(p, st, clock, calls, ip, lo, hi, n + k)
    decreases k
  {
    var b := st.buckets[ip];
    if k == 0 {
      assert st.buckets[ip := b] == st.buckets;
      calls := rest;
    } else {
      var mid := State(st.buckets[ip := Bucket(b.count + 1, b.windowStart)], st.lastSweep);
      assert mid.buckets[ip := Bucket(b.count + k, b.windowStart)]
        == st.buckets[ip := Bucket(b.count + k, b.windowStart)];
      BurstStep(p, st, ip, at);
      var later := Burst(p, mid, at, ip, at, k - 1, rest, lo, hi, n);
      calls := OneMore(p, st, clock, ip, at, later, lo, hi, n + k - 1);
    }
  }

  /** A request that finds its bucket expired opens a new one, sweeping the old. */
  lemma OpensAnew(p: Params, ip: string)
    requires p.limit >= 1 && p.window >= 2
    ensures var st, c := State(map[ip := Bucket(p.limit, 0)], 0), Call(ip, p.window);
            Next(p, st, c) == State(map[ip := Bucket(1, p.window)], p.window) && Answer(p, st, c)
  {
    assert Swept(p, State(map[ip := Bucket(p.limit, 0)], 0), p.window) == State(map[], p.window);
  }

  /** The bound is attained: one early request, a burst at the end of its bucket, a full bucket right after. */
  lemma WindowBoundAttained(p: Params, ip: string) returns (calls: seq<Call>)
    requires p.limit >= 1 && p.window >= 2
    ensures Ordered(0, calls) && Admitted(p, Initial(0), calls, ip, 1, 1 + p.window) == 2 * p.limit - 1
  {
    var w, hi := p.window, 1 + p.window;
    var full := State(map[ip := Bucket(p.limit, 0)], 0);
    calls := Burst(p, State(map[ip := Bucket(1, w)], w), w, ip, w, p.limit - 1, [], 1, hi, 0);
    OpensAnew(p, ip);
    calls := OneMore(p, full, w - 1, ip, w, calls, 1, hi, p.limit - 1);
    var early := State(map[ip := Bucket(1, 0)], 0);
    assert early.buckets[ip := Bucket(p.limit, 0)] == full.buckets;
    calls := Burst(p, early, 0, ip, w - 1, p.limit - 1, calls, 1, hi, p.limit);
    assert Next(p, Initial(0), Call(ip, 0)) == early;
    calls := OneMore(p, Initial(0), 0, ip, 0, calls, 1, hi, 2 * p.limit - 1);
  }

  // ----- what a bucket's counter means -----

  /** Requests already counted by the bucket of `ip` that opened at `start`. */
  function Already(st: State, ip: string, start: int): int {
    if ip in st.buckets && st.buckets[ip].windowStart == start then st.buckets[ip].count else 0
  }

  predicate Bounded(p: Params, st: State, clock: int) {
    forall ip :: ip in st.buckets ==> st.buckets[ip].windowStart <= clock && 1 <= st.buckets[ip].count <= p.Cap()
  }

  /** `start` is when the current bucket of `ip` opened, or a moment at which a later one may open. */
  predicate Opens(p: Params, st: State, clock: int, ip: string, start: int) {
    || (ip in st.buckets && st.buckets[ip].windowStart == start)
    || (clock <= start && (ip in st.buckets ==> start - st.buckets[ip].windowStart >= p.window))
  }

  lemma EpochStep(p: Params, st: State, clock: int, c: Call, ip: string, start: int)
    requires p.window >= 1 && clock <= c.at && Bounded(p, st, clock)
    ensures Bounded(p, Next(p, st, c), c.at)
    ensures Opens(p, Next(p, st, c), c.at, ip, start) ==>
              Opens(p, st, clock, ip, start)
              && Already(Next(p, st, c), ip, start)
                 == Already(st, ip, start) + if c.ip == ip && start <= c.at && Answer(p, st, c) then 1 else 0
  {
    var swept := Swept(p, st, c.at);
    assert ip in swept.buckets ==> ip in st.buckets && swept.buckets[ip] == st.buckets[ip];
    assert ip in st.buckets && ip !in swept.buckets ==> st.buckets[ip].windowStart < c.at;
  }

  lemma {:induction false} EpochFrom(p: Params, st: State, clock: int, calls: seq<Call>, ip: string, hi: int)
    requires p.window >= 1 && Ordered(clock, calls) && Bounded(p, st, clock)
    requires forall i :: 0 <= i < |calls| ==> calls[i].at < hi
    ensures var r := Final(p, st, calls);
            && (forall k :: k in r.buckets ==> 1 <= r.buckets[k].count <= p.Cap())
            && (ip in r.buckets ==>
                  var b := r.buckets[ip];
                  && Opens(p, st, clock, ip, b.windowStart)
                  && b.count == Already(st, ip, b.windowStart) + Admitted(p, st, calls, ip, b.windowStart, hi))
    decreases |calls|
  {
    if calls != [] {
      var c := calls[0];
      EpochStep(p, st, clock, c, ip, c.at);
      EpochFrom(p, Next(p, st, c), c.at, calls[1..], ip, hi);
      var r := Final(p, st, calls);
      if ip in r.buckets {
        EpochStep(p, st, clock, c, ip, r.buckets[ip].windowStart);
      }
    }
  }

  /** After any run, the counter of a stored bucket is exactly the number of requests of that IP admitted since
      its bucket opened, and it never exceeds the limit. */
  lemma EpochBound(p: Params, start: int, calls: seq<Call>, ip: string, hi: int)
    requires p.window >= 1 && Ordered(start, calls)
    requires forall i :: 0 <= i < |calls| ==> calls[i].at < hi
    requires ip in Final(p, Initial(start), calls).buckets
    ensures var b := Final(p, Initial(start), calls).buckets[ip];
            b.count == Admitted(p, Initial(start), calls, ip, b.windowStart, hi) <= p.Cap()
  {
    EpochFrom(p, Initial(start), start, calls, ip, hi);
  }

  function AdmittedSince(p: Params, start: int, calls: seq<Call>, ip: string, since: int, now: int): nat {
    Admitted(p, Initial(start), calls, ip, since, now + 1)
  }

  /** A request is refused only when a full bucket (`limit` requests, at least one) of its IP was admitted less than
      one window ago. */
  lemma RefusedOnlyWhenFull(p: Params, start: int, calls: seq<Call>, c: Call)
    requires p.window >= 1 && Ordered(start, calls)
    requires forall i :: 0 <= i < |calls| ==> calls[i].at <= c.at
    requires !Answer(p, Final(p, Initial(start), calls), c)
    ensures exists since :: c.at - p.window < since <= c.at
                            && AdmittedSince(p, start, calls, c.ip, since, c.at) == p.Cap()
  {
    var st := Final(p, Initial(start), calls);
    assert c.ip in Swept(p, st, c.at).buckets && c.ip in st.buckets;
    EpochBound(p, start, calls, c.ip, c.at + 1);
    OpenedInThePast(p, Initial(start), calls, c.ip, c.at);
    assert AdmittedSince(p, start, calls, c.ip, st.buckets[c.ip].windowStart, c.at) == p.Cap();
  }

  lemma {:induction false} OpenedInThePast(p: Params, st: State, calls: seq<Call>, ip: string, now: int)
    requires forall i :: 0 <= i < |calls| ==> calls[i].at <= now
    requires ip in st.buckets ==> st.buckets[ip].windowStart <= now
    ensures ip in Final(p, st, calls).buckets ==> Final(p, st, calls).buckets[ip].windowStart <= now
    decreases |calls|
  {
    if calls != [] {
      OpenedInThePast(p, Next(p, st, calls[0]), calls[1..], ip, now);
    }
  }

  // ----- sweeping cannot be observed -----

  /** The answers of the limiter that never deletes a bucket. */
  function AnswersUnswept(p: Params, buckets: map<string, Bucket>, calls: seq<Call>): (r: seq<bool>)
    ensures |r| == |calls|
    decreases |calls|
  {
    if calls == [] then []
    else [Admits(p, buckets, calls[0])] + AnswersUnswept(p, Counted(p, buckets, calls[0]), calls[1..])
  }

  /** The sweeping limiter only lacks buckets that have already expired. */
  ghost predicate Agrees(p: Params, st: State, full: map<string, Bucket>, clock: int) {
    && (forall ip :: ip in st.buckets ==> ip in full && full[ip] == st.buckets[ip])
    && (forall ip :: ip in full && ip !in st.buckets ==> clock - full[ip].windowStart >= p.window)
  }

  lemma {:induction false} SweepUnobservable(p: Params, st: State, full: map<string, Bucket>, clock: int,
                                             calls: seq<Call>)
    requires Ordered(clock, calls) && Agrees(p, st, full, clock)
    ensures Answers(p, st, calls) == AnswersUnswept(p, full, calls)
    decreases |calls|
  {
    if calls != [] {
      var c := calls[0];
      var swept := Swept(p, st, c.at);
      assert Agrees(p, swept, full, c.at);
      assert Agrees(p, Next(p, st, c), Counted(p, full, c), c.at);
      SweepUnobservable(p, Next(p, st, c), Counted(p, full, c), c.at, calls[1..]);
    }
  }

  // ----- the map stays small -----

  /** No bucket had expired when the last sweep ran. */
  predicate Fresh(p: Params, st: State, clock: int) {
    st.lastSweep <= clock && forall ip :: ip in st.buckets ==> st.lastSweep - st.buckets[ip].windowStart < p.window
  }

  /** The IPs seen in the last two windows. */
  ghost function RecentIps(calls: seq<Call>, now: int, span: int): set<string> {
    set i | 0 <= i < |calls| && now - calls[i].at < span :: calls[i].ip
  }

  /** Every stored bucket was opened by a call of the history. */
  ghost predicate OpenedBy(st: State, calls: seq<Call>) {
    forall ip :: ip in st.buckets ==> exists i :: 0 <= i < |calls| && calls[i] == Call(ip, st.buckets[ip].windowStart)
  }

  lemma {:induction false} RetentionStep(p: Params, st: State, clock: int, past: seq<Call>, c: Call)
    requires p.window >= 1 && clock <= c.at && Fresh(p, st, clock) && OpenedBy(st, past)
    ensures var st' := Next(p, st, c);
            && Fresh(p, st', c.at) && OpenedBy(st', past + [c])
            && (forall ip :: ip in st'.buckets ==> c.at - st'.buckets[ip].windowStart < 2 * p.window)
  {
    var st' := Next(p, st, c);
    var all := past + [c];
    forall ip | ip in st'.buckets
      ensures exists i :: 0 <= i < |all| && all[i] == Call(ip, st'.buckets[ip].windowStart)
    {
      if ip in st.buckets && st'.buckets[ip].windowStart == st.buckets[ip].windowStart {
        var i :| 0 <= i < |past| && past[i] == Call(ip, st.buckets[ip].windowStart);
        assert all[i] == past[i];
      } else {
        assert all[|past|] == Call(ip, st'.buckets[ip].windowStart);
      }
    }
  }

  lemma {:induction false} RetentionFrom(p: Params, st: State, clock: int, past: seq<Call>, calls: seq<Call>)
    requires p.window >= 1 && calls != [] && Ordered(clock, calls) && Fresh(p, st, clock) && OpenedBy(st, past)
    ensures var r, now := Final(p, st, calls), calls[|calls| - 1].at;
            && (forall ip :: ip in r.buckets ==> now - r.buckets[ip].windowStart < 2 * p.window)
            && OpenedBy(r, past + calls)
    decreases |calls|
  {
    var c := calls[0];
    RetentionStep(p, st, clock, past, c);
    if |calls| == 1 {
      assert calls == [c] && Final(p, st, calls) == Next(p, st, c);
    } else {
      RetentionFrom(p, Next(p, st, c), c.at, past + [c], calls[1..]);
      assert past + [c] + calls[1..] == past + calls;
    }
  }

  /** After every call the buckets kept are younger than two windows, so there are no more of them than IPs
      seen in the last two windows. */
  lemma RetentionBound(p: Params, start: int, calls: seq<Call>)
    requires p.window >= 1 && calls != [] && Ordered(start, calls)
    ensures var r, now := Final(p, Initial(start), calls), calls[|calls| - 1].at;
            && (forall ip :: ip in r.buckets ==> now - r.buckets[ip].windowStart < 2 * p.window)
            && r.buckets.Keys <= RecentIps(calls, now, 2 * p.window)
            && |r.buckets| <= |RecentIps(calls, now, 2 * p.window)|
  {
    RetentionFrom(p, Initial(start), start, [], calls);
    assert [] + calls == calls;
    var r, now := Final(p, Initial(start), calls), calls[|calls| - 1].at;
    var recent := RecentIps(calls, now, 2 * p.window);
    forall ip | ip in r.buckets ensures ip in recent {
      var i :| 0 <= i < |calls| && calls[i] == Call(ip, r.buckets[ip].windowStart);
    }
    SubsetSize(r.buckets.Keys, recent);
  }

  lemma {:induction false} SubsetSize(a: set<string>, b: set<string>)
    requires a <= b
    ensures |a| <= |b|
  {
    if a != {} {
      var x :| x in a;
      SubsetSize(a - {x}, b - {x});
    }
  }
}
