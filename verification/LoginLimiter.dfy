/** The per-IP failure counter and lockout of internal/server/ratelimit.go.

    Times are integers counted from Go's zero time, so the zero `lockedUntil` of a fresh record is 0. */
module LoginLimiter {
  import opened Text

  datatype Attempt = Attempt(failures: int, lockedUntil: int, lastSeen: int)

  datatype Params = Params(maxFailures: int, lockout: int) {
    /** Failures it takes to arm a lockout; a threshold below one arms it on every failure. */
    function Threshold(): (m: int)
      ensures m >= 1 && m >= maxFailures && (m == 1 || m == maxFailures)
    {
      if maxFailures < 1 then 1 else maxFailures
    }
  }

  datatype State = State(attempts: map<string, Attempt>, lastSweep: int)

  /** A record the sweep may forget. */
  predicate Stale(p: Params, a: Attempt, now: int) {
    now > a.lockedUntil && now - a.lastSeen > p.lockout
  }

  function Swept(p: Params, st: State, now: int): State {
    if now - st.lastSweep < p.lockout then st
    else State(map ip | ip in st.attempts && !Stale(p, st.attempts[ip], now) :: st.attempts[ip], now)
  }

  predicate Locked(st: State, ip: string, now: int) {
    ip in st.attempts && now < st.attempts[ip].lockedUntil
  }

  function Failed(p: Params, st: State, ip: string, now: int): State {
    var a := if ip in st.attempts then st.attempts[ip] else Attempt(0, 0, 0);
    var a' := if a.failures + 1 >= p.maxFailures then Attempt(0, now + p.lockout, now)
              else Attempt(a.failures + 1, a.lockedUntil, now);
    st.(attempts := st.attempts[ip := a'])
  }

  function Succeeded(st: State, ip: string): State {
    st.(attempts := st.attempts - {ip})
  }

  /** `k` failures at one moment. */
  function Fails(p: Params, st: State, ip: string, now: int, k: nat): State {
    if k == 0 then st else Failed(p, Fails(p, st, ip, now, k - 1), ip, now)
  }

  lemma {:induction false} FailsCount(p: Params, start: int, ip: string, now: int, k: nat)
    requires k < p.maxFailures
    ensures Fails(p, State(map[], start), ip, now, k)
            == State(if k == 0 then map[] else map[ip := Attempt(k, 0, now)], start)
  {
    if k > 0 {
      FailsCount(p, start, ip, now, k - 1);
    }
  }

  /** Sweeping can be observed: one failure short of the threshold, a pause longer than the lockout and one more failure
      lock an IP out, unless a sweep came between. */
  lemma SweepForgets(p: Params, ip: string, now: int)
    requires p.maxFailures >= 2 && p.lockout >= 1 && now > p.lockout
    ensures var st := Fails(p, State(map[], 0), ip, 0, p.maxFailures - 1);
            && Locked(Failed(p, st, ip, now), ip, now)
            && !Locked(Failed(p, Swept(p, st, now), ip, now), ip, now)
  {
    FailsCount(p, 0, ip, 0, p.maxFailures - 1);
    assert Swept(p, Fails(p, State(map[], 0), ip, 0, p.maxFailures - 1), now).attempts == map[];
  }

  /** Exactly when: the limiter has not swept for a lockout, and the IP has not failed for longer than one. */
  lemma SweepForgetsExactly(p: Params, ip: string, lastSweep: int, seen: int, now: int)
    requires p.maxFailures >= 2 && p.lockout >= 1 && now > 0
    ensures var st := Fails(p, State(map[], lastSweep), ip, seen, p.maxFailures - 1);
            Locked(Failed(p, Swept(p, st, now), ip, now), ip, now)
            <==> now - lastSweep < p.lockout || now - seen <= p.lockout
  {
    FailsCount(p, lastSweep, ip, seen, p.maxFailures - 1);
    var st := State(map[ip := Attempt(p.maxFailures - 1, 0, seen)], lastSweep);
    if now - lastSweep >= p.lockout {
      assert Swept(p, st, now).attempts == if now - seen > p.lockout then map[] else st.attempts;
    }
  }

  // ----- exactly when sweeping can be observed -----

  /** A call with the clock at that moment. */
  datatype Call = Ask(ip: string, at: int) | Fail(ip: string, at: int) | Success(ip: string, at: int)

  function Init(cs: seq<Call>): seq<Call>
    requires cs != []
  {
    cs[..|cs| - 1]
  }

  function Last(cs: seq<Call>): Call
    requires cs != []
  {
    cs[|cs| - 1]
  }

  /** The limiter as it is, or as one that never sweeps. */
  function Step(p: Params, sweeping: bool, st: State, c: Call): State {
    match c
    case Ask(_, at) => if sweeping then Swept(p, st, at) else st
    case Fail(ip, at) => Failed(p, st, ip, at)
    case Success(ip, _) => Succeeded(st, ip)
  }

  function StateAfter(p: Params, sweeping: bool, start: int, cs: seq<Call>): State {
    if cs == [] then State(map[], start) else Step(p, sweeping, StateAfter(p, sweeping, start, Init(cs)), Last(cs))
  }

  /** The answer to an ask: None lets the IP try, Some tells it how long it is still locked out. */
  function Answer(st: State, ip: string, now: int): Option<int> {
    if Locked(st, ip, now) then Some(st.attempts[ip].lockedUntil - now) else None
  }

  function Answers(p: Params, sweeping: bool, start: int, cs: seq<Call>): seq<Option<int>> {
    if cs == [] then []
    else
      var last := Last(cs);
      Answers(p, sweeping, start, Init(cs))
      + if last.Ask? then [Answer(StateAfter(p, sweeping, start, cs), last.ip, last.at)] else []
  }

  function Clock(start: int, cs: seq<Call>): int {
    if cs == [] then start else Last(cs).at
  }

  /** Clock readings never go back. */
  predicate Ordered(start: int, cs: seq<Call>) {
    cs == [] || (Ordered(start, Init(cs)) && Clock(start, Init(cs)) <= Last(cs).at)
  }

  /** On every sequence of calls the limiter answers as one that never sweeps. */
  ghost predicate SweepUnobservable(p: Params) {
    forall start, cs :: 0 <= start && Ordered(start, cs) ==> Answers(p, true, start, cs) == Answers(p, false, start, cs)
  }

  /** What a threshold of one keeps: records agree, and those the sweep forgot are locked no more. */
  ghost predicate Forgot(swept: State, kept: State, now: int) {
    && (forall ip :: ip in swept.attempts ==> ip in kept.attempts && swept.attempts[ip] == kept.attempts[ip])
    && (forall ip :: ip in kept.attempts ==>
          kept.attempts[ip].failures >= 0 && (ip in swept.attempts || kept.attempts[ip].lockedUntil <= now))
  }

  /** What a lockout of no length keeps: nobody is ever locked. */
  ghost predicate Harmless(st: State, now: int) {
    forall ip :: ip in st.attempts ==> st.attempts[ip].lockedUntil <= now
  }

  lemma {:induction false} ForgotAlways(p: Params, start: int, cs: seq<Call>)
    requires p.maxFailures <= 1 && Ordered(start, cs)
    ensures Forgot(StateAfter(p, true, start, cs), StateAfter(p, false, start, cs), Clock(start, cs))
    ensures Answers(p, true, start, cs) == Answers(p, false, start, cs)
    decreases |cs|
  {
    if cs != [] {
      ForgotAlways(p, start, Init(cs));
    }
  }

  lemma {:induction false} HarmlessAlways(p: Params, sweeping: bool, start: int, cs: seq<Call>)
    requires p.lockout <= 0 && 0 <= start && Ordered(start, cs)
    ensures 0 <= Clock(start, cs) && Harmless(StateAfter(p, sweeping, start, cs), Clock(start, cs))
    ensures |Answers(p, true, start, cs)| == |Answers(p, false, start, cs)|
    ensures forall a :: a in Answers(p, sweeping, start, cs) ==> a == None
    decreases |cs|
  {
    if cs != [] {
      HarmlessAlways(p, sweeping, start, Init(cs));
    }
  }

  lemma AllNone(a: seq<Option<int>>, b: seq<Option<int>>)
    requires |a| == |b| && (forall x :: x in a ==> x == None) && (forall x :: x in b ==> x == None)
    ensures a == b
  {
    forall i | 0 <= i < |a| ensures a[i] == b[i] {
      assert a[i] in a && b[i] in b;
    }
  }

  /** `k` failures of one IP at time 0. */
  function FailCalls(ip: string, k: nat): seq<Call> {
    if k == 0 then [] else FailCalls(ip, k - 1) + [Fail(ip, 0)]
  }

  lemma Snoc(p: Params, sweeping: bool, start: int, cs: seq<Call>, c: Call)
    ensures StateAfter(p, sweeping, start, cs + [c]) == Step(p, sweeping, StateAfter(p, sweeping, start, cs), c)
    ensures Ordered(start, cs) && Clock(start, cs) <= c.at
            ==> Ordered(start, cs + [c]) && Clock(start, cs + [c]) == c.at
    ensures c.Ask? ==>
              && Answers(p, sweeping, start, cs + [c]) != []
              && var all := Answers(p, sweeping, start, cs + [c]);
                 all[|all| - 1] == Answer(StateAfter(p, sweeping, start, cs + [c]), c.ip, c.at)
  {
    assert Init(cs + [c]) == cs;
  }

  lemma {:induction false} FailCallsRun(p: Params, sweeping: bool, ip: string, k: nat)
    ensures var cs := FailCalls(ip, k);
            Ordered(0, cs) && Clock(0, cs) == 0 && StateAfter(p, sweeping, 0, cs) == Fails(p, State(map[], 0), ip, 0, k)
  {
    if k > 0 {
      FailCallsRun(p, sweeping, ip, k - 1);
      Snoc(p, sweeping, 0, FailCalls(ip, k - 1), Fail(ip, 0));
    }
  }

  /** The family of SweepForgets as runs: the last ask is refused exactly by the limiter that never sweeps. */
  lemma ForgetfulRun(p: Params, ip: string) returns (cs: seq<Call>)
    requires p.maxFailures >= 2 && p.lockout >= 1
    ensures Ordered(0, cs) && Answers(p, true, 0, cs) != Answers(p, false, 0, cs)
  {
    var now := p.lockout + 1;
    cs := FailCalls(ip, p.maxFailures - 1) + [Ask(ip, now)] + [Fail(ip, now)] + [Ask(ip, now)];
    var swept := ForgetfulEnd(p, true, ip, now);
    var kept := ForgetfulEnd(p, false, ip, now);
  }

  lemma ForgetfulEnd(p: Params, sweeping: bool, ip: string, now: int) returns (answer: Option<int>)
    requires p.maxFailures >= 2 && p.lockout >= 1 && now == p.lockout + 1
    ensures var cs := FailCalls(ip, p.maxFailures - 1) + [Ask(ip, now)] + [Fail(ip, now)] + [Ask(ip, now)];
            && Ordered(0, cs) && Answers(p, sweeping, 0, cs) != []
            && Answers(p, sweeping, 0, cs)[|Answers(p, sweeping, 0, cs)| - 1] == answer
    ensures answer.None? <==> sweeping
  {
    var fails := FailCalls(ip, p.maxFailures - 1);
    FailCallsRun(p, sweeping, ip, p.maxFailures - 1);
    Snoc(p, sweeping, 0, fails, Ask(ip, now));
    Snoc(p, sweeping, 0, fails + [Ask(ip, now)], Fail(ip, now));
    Snoc(p, sweeping, 0, fails + [Ask(ip, now)] + [Fail(ip, now)], Ask(ip, now));
    SweepForgets(p, ip, now);
    var cs := fails + [Ask(ip, now)] + [Fail(ip, now)] + [Ask(ip, now)];
    answer := Answer(StateAfter(p, sweeping, 0, cs), ip, now);
  }

  /** Main result.  Sweeping stays unobservable exactly when every failure locks out or no lockout lasts. */
  lemma SweepUnobservableExactly(p: Params)
    ensures SweepUnobservable(p) <==> p.maxFailures <= 1 || p.lockout <= 0
  {
    if p.maxFailures <= 1 {
      forall start, cs | 0 <= start && Ordered(start, cs)
        ensures Answers(p, true, start, cs) == Answers(p, false, start, cs)
      {
        ForgotAlways(p, start, cs);
      }
    } else if p.lockout <= 0 {
      forall start, cs | 0 <= start && Ordered(start, cs)
        ensures Answers(p, true, start, cs) == Answers(p, false, start, cs)
      {
        HarmlessAlways(p, true, start, cs);
        HarmlessAlways(p, false, start, cs);
        AllNone(Answers(p, true, start, cs), Answers(p, false, start, cs));
      }
    } else {
      var cs := ForgetfulRun(p, "");
    }
  }

  class LoginLimiter {
    const maxFailures: int
    const lockout: int
    var attempts: map<string, Attempt>
    var lastSweep: int

    function Config(): Params { Params(maxFailures, lockout) }

    function Abs(): State
      reads this
    {
      State(attempts, lastSweep)
    }

    constructor (maxFailures: int, lockout: int, now: int)
      ensures this.maxFailures == maxFailures && this.lockout == lockout
      ensures Abs() == State(map[], now)
    {
      this.maxFailures, this.lockout := maxFailures, lockout;
      attempts, lastSweep := map[], now;
    }

    /** May `ip` try a password now?  If not, for how long is it still locked out? */
    method Allow(ip: string, now: int) returns (ok: bool, retry: int)
      modifies this
      ensures Abs() == Swept(Config(), old(Abs()), now)
      ensures ok == !Locked(Abs(), ip, now)
      ensures if ok then retry == 0 else now + retry == attempts[ip].lockedUntil && retry > 0
    {
      Sweep(now);
      if ip !in attempts {
        return true, 0;
      }
      if now < attempts[ip].lockedUntil {
        return false, attempts[ip].lockedUntil - now;
      }
      return true, 0;
    }

    /** Counts a failure and arms a lockout once the threshold is reached. */
    method RecordFailure(ip: string, now: int)
      modifies this
      ensures Abs() == Failed(Config(), old(Abs()), ip, now)
      ensures forall other :: other != ip ==> (other in attempts <==> other in old(attempts))
      ensures forall other :: other != ip && other in attempts ==> attempts[other] == old(attempts)[other]
    {
      if ip !in attempts {
        attempts := attempts[ip := Attempt(0, 0, 0)];
      }
      var a := attempts[ip].(failures := attempts[ip].failures + 1, lastSeen := now);
      if a.failures >= maxFailures {
        a := a.(lockedUntil := now + lockout, failures := 0);
      }
      attempts := attempts[ip := a];
    }

    /** Clears any failure state of `ip`. */
    method RecordSuccess(ip: string)
      modifies this
      ensures Abs() == Succeeded(old(Abs()), ip)
      ensures ip !in attempts && lastSweep == old(lastSweep)
      ensures forall other :: other != ip ==> (other in attempts <==> other in old(attempts))
      ensures forall other :: other in attempts ==> attempts[other] == old(attempts)[other]
    {
      attempts := attempts - {ip};
    }

    method Sweep(now: int)
      modifies this
      ensures Abs() == Swept(Config(), old(Abs()), now)
    {
      if now - lastSweep < lockout {
        return;
      }
      lastSweep := now;
      var before := attempts;
      var todo := attempts.Keys;
      while todo != {}
        invariant todo <= before.Keys
        invariant lastSweep == now
        invariant attempts == map ip | ip in before && (ip in todo || !Stale(Config(), before[ip], now)) :: before[ip]
        decreases todo
      {
        var ip :| ip in todo;
        todo := todo - {ip};
        var a := attempts[ip];
        if now > a.lockedUntil && now - a.lastSeen > lockout {
          attempts := attempts - {ip};
        }
      }
    }
  }
}
